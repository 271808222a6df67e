/** MsgBuffer: an array with a read and a write position that refines a plain byte sequence. */
module MsgBuffers {
  import opened Bytes

  const OFFSET := 8
  const EXT_BUFFER := 8192

  class MsgBuffer {
    var head: nat
    var initCap: nat
    var buffer: array<byte>
    var tail: nat

    ghost predicate Valid()
      reads this
    {
      head <= tail <= buffer.Length == initCap + OFFSET
    }

    /** The readable bytes. */
    function View(): (v: seq<byte>)
      reads this, buffer
      requires Valid()
      ensures |v| == ReadableBytes()
    {
      buffer[head..tail]
    }

    function ReadableBytes(): nat
      reads this
      requires Valid()
    {
      tail - head
    }

    function WritableBytes(): nat
      reads this
      requires Valid()
    {
      buffer.Length - tail
    }

    constructor (len: nat)
      ensures Valid() && fresh(buffer)
      ensures View() == [] && initCap == len && WritableBytes() == len && head == OFFSET
    {
      head := OFFSET;
      initCap := len;
      buffer := new byte[len + OFFSET];
      tail := OFFSET;
    }

    /** Room for `len` more bytes by compaction or growth, leaving the readable bytes as they are. */
    method EnsureWritableBytes(len: nat)
      requires Valid()
      modifies this, buffer
      ensures Valid() && initCap >= old(initCap)
      ensures buffer == old(buffer) || fresh(buffer)
      ensures View() == old(View()) && WritableBytes() >= len
      ensures old(WritableBytes()) >= len ==> head == old(head)
      ensures old(WritableBytes()) < len <= old(head + WritableBytes()) - 8 ==> buffer == old(buffer) && head == 8
      ensures len > old(WritableBytes()) && len > old(head + WritableBytes()) - 8 ==>
                fresh(buffer) && head == 8 && initCap >= 2 * old(buffer.Length) && initCap >= 8 + |View()| + len
    {
      if WritableBytes() >= len {
        return;
      }
      ghost var was := View();
      if head + WritableBytes() >= len + OFFSET {
        MemCopy(buffer, OFFSET, buffer[head..tail]);
        tail := OFFSET + (tail - head);
        head := OFFSET;
        assert buffer[..][head..tail] == was;
        return;
      }
      var newLen := if buffer.Length * 2 > OFFSET + ReadableBytes() + len
                    then buffer.Length * 2 else OFFSET + ReadableBytes() + len;
      var newBuffer := new byte[newLen + OFFSET];
      MemCopy(newBuffer, OFFSET, buffer[head..tail]);
      tail := OFFSET + (tail - head);
      head := OFFSET;
      initCap := newLen;
      buffer := newBuffer;
      assert buffer[..][head..tail] == was;
    }

    method Append(data: seq<byte>)
      requires Valid()
      modifies this, buffer
      ensures Valid() && initCap >= old(initCap)
      ensures buffer == old(buffer) || fresh(buffer)
      ensures View() == old(View()) + data
    {
      EnsureWritableBytes(|data|);
      ghost var was := View();
      MemCopy(buffer, tail, data);
      tail := tail + |data|;
      assert buffer[..][head..tail] == was + data;
    }

    /** Bytes from a socket: the free part of the buffer first, the rest through the extension buffer. */
    method ReadFd(data: seq<byte>)
      requires Valid()
      requires |data| <= WritableBytes() + (if WritableBytes() < EXT_BUFFER then EXT_BUFFER else 0)
      modifies this, buffer
      ensures Valid() && initCap >= old(initCap)
      ensures buffer == old(buffer) || fresh(buffer)
      ensures View() == old(View()) + data
    {
      var writable := WritableBytes();
      var direct := if |data| <= writable then |data| else writable;
      ghost var was := View();
      MemCopy(buffer, tail, data[..direct]);
      tail := tail + direct;
      assert buffer[..][head..tail] == was + data[..direct];
      if |data| > writable {
        Append(data[writable..]);
        assert was + data[..direct] + data[direct..] == was + data;
      }
    }

    /** Bytes put before the readable ones: in the head room, by shifting, or in a new buffer. */
    method AddInFront(data: seq<byte>)
      requires Valid()
      modifies this, buffer
      ensures Valid() && initCap >= old(initCap)
      ensures buffer == old(buffer) || fresh(buffer)
      ensures View() == data + old(View())
    {
      if head >= |data| {
        ghost var was := View();
        assert buffer[..][head..tail] == was;
        Prepended(buffer[..], head - |data|, data, was);
        MemCopy(buffer, head - |data|, data);
        head := head - |data|;
        assert buffer[..][head..tail] == buffer[head..tail];
      } else if |data| <= WritableBytes() {
        ShiftInFront(data);
      } else {
        CopyInFront(data);
      }
    }

    method ShiftInFront(data: seq<byte>)
      requires Valid() && |data| <= WritableBytes()
      modifies this, buffer
      ensures Valid() && buffer == old(buffer) && initCap == old(initCap)
      ensures View() == data + old(View())
    {
      ghost var was := View();
      Overlaid(buffer[..], head, data, was);
      MemCopy(buffer, head + |data|, buffer[head..tail]);
      MemCopy(buffer, head, data);
      tail := tail + |data|;
      assert buffer[..][head..tail] == buffer[head..tail];
    }

    method CopyInFront(data: seq<byte>)
      requires Valid()
      modifies this
      ensures Valid() && fresh(buffer) && initCap >= old(initCap)
      ensures View() == data + old(View())
    {
      ghost var was := View();
      var newLen := if |data| + ReadableBytes() < initCap then initCap else |data| + ReadableBytes();
      var newBuffer := new byte[newLen + OFFSET];
      MemCopy(newBuffer, OFFSET, data + buffer[head..tail]);
      tail := OFFSET + |data| + (tail - head);
      head := OFFSET;
      initCap := newLen;
      buffer := newBuffer;
      assert buffer[..][head..tail] == data + was;
    }

    /**
     * Empties the buffer. A buffer of initial capacity 8 or more keeps its array; a smaller one is shrunk, and the
     * positions are then outside of it.
     */
    method RetrieveAll()
      requires Valid()
      modifies this
      ensures Valid() <==> old(initCap) >= 8
      ensures Valid() ==> buffer == old(buffer) && initCap == old(initCap) && View() == []
    {
      if buffer.Length > initCap * 2 {
        var shrunk := new byte[initCap];
        MemCopy(shrunk, 0, buffer[..initCap]);
        buffer := shrunk;
      }
      tail := OFFSET;
      head := OFFSET;
    }

    /** Drops the first bytes; dropping all of them resets the positions. */
    method Retrieve(len: nat)
      requires Valid()
      modifies this
      ensures Valid() <==> old(initCap) >= 8 || len < old(ReadableBytes())
      ensures Valid() ==> buffer == old(buffer) && initCap == old(initCap)
      ensures Valid() ==> View() == if len >= |old(View())| then [] else old(View())[len..]
    {
      if len >= ReadableBytes() {
        RetrieveAll();
        return;
      }
      head := head + len;
    }

    method HasWritten(len: nat)
      requires Valid() && len <= WritableBytes()
      modifies this`tail
      ensures Valid()
      ensures View() == old(View()) + old(buffer[tail..tail + len])
    {
      tail := tail + len;
    }

    method Unwrite(offset: nat)
      requires Valid() && offset <= ReadableBytes()
      modifies this`tail
      ensures Valid()
      ensures View() == old(View())[..old(ReadableBytes()) - offset]
    {
      ghost var was := View();
      tail := tail - offset;
      assert buffer[..][head..tail] == was[..tail - head];
    }
  }

  /** Moving `back` up by |front| and writing `front` before it puts them side by side. */
  lemma Overlaid(s: seq<byte>, at: nat, front: seq<byte>, back: seq<byte>)
    requires at + |front| + |back| <= |s|
    ensures var t := Overlay(Overlay(s, at + |front|, back), at, front);
            t[at..at + |front| + |back|] == front + back
  {
    var one := Overlay(s, at + |front|, back);
    assert one[at + |front|..at + |front| + |back|] == back;
    Prepended(one, at, front, back);
  }

  lemma Prepended(s: seq<byte>, at: nat, front: seq<byte>, back: seq<byte>)
    requires at + |front| + |back| <= |s| && s[at + |front|..at + |front| + |back|] == back
    ensures Overlay(s, at, front)[at..at + |front| + |back|] == front + back
  {
    var t := Overlay(s, at, front);
    assert t[at..at + |front|] == front;
    assert t[at + |front|..at + |front| + |back|] == back;
  }
}
