/**
 * Sending plain bytes on a connection: at once if nothing is waiting, behind the waiting bytes otherwise. The length
 * that write answers is kept unsigned, so an error is never noticed: it counts as -1 bytes sent.
 */
module RawSends {
  import opened Bytes
  import opened WireNodes

  class RawConnection {
    var ioVecs: seq<BufferNode>
    var closed: bool
    /** Bytes handed in while the connection was open, the bytes queued for them, and those the kernel has accepted. */
    ghost var submitted: seq<byte>
    ghost var queued: seq<byte>
    ghost var accepted: seq<byte>
    /** How often a first write has failed. */
    ghost var errors: nat

    /** What is queued leaves in order, whole; it is what was handed in if and only if no first write has failed. */
    ghost predicate Valid()
      reads this
    {
      Inside(ioVecs, 0) && NonEmpty(ioVecs) && accepted + Wire([], ioVecs) == queued &&
      |queued| == |submitted| + errors && (errors == 0 <==> queued == submitted)
    }

    constructor ()
      ensures Valid() && submitted == [] && accepted == [] && errors == 0 && !closed
    {
      ioVecs, closed, submitted, queued, accepted, errors := [], false, [], [], [], 0;
    }

    /**
     * SendInLoop for a buffer; `result` is what write answers, `before` the byte in memory in front of the buffer and
     * `done` says that the completion callback runs. After a failed first write, for want of room or for good, the
     * byte in front of the buffer is queued with it, and the connection is left open.
     */
    method SendInLoop(buf: seq<byte>, result: WriteResult, before: byte) returns (done: bool)
      requires Valid()
      modifies this`ioVecs, this`submitted, this`queued, this`accepted, this`errors
      ensures Valid() && submitted == (if closed then old(submitted) else old(submitted) + buf)
      ensures errors == old(errors) + (if !closed && old(ioVecs) == [] && !result.Accepts? then 1 else 0)
      ensures queued == old(queued) + (if closed then [] else if errors > old(errors) then [before] + buf else buf)
      ensures old(accepted) <= accepted
      ensures done ==> accepted == queued && ioVecs == []
      ensures done <==> !closed && old(ioVecs) == [] && result.Accepts? && result.n >= |buf|
      ensures !closed && !done && buf != [] ==> ioVecs != []
    {
      hide Wire, Inside, NonEmpty;
      if closed {
        return false;
      }
      submitted := submitted + buf;
      var size, sendLen := |buf|, 0;
      if ioVecs == [] {
        NoWire();
        // The signed reading of the unsigned length: the test below it never holds.
        sendLen := if result.Accepts? then if result.n <= size then result.n else size else -1;
        size := size - sendLen;
        if size == 0 {
          accepted, queued := accepted + buf, queued + buf;
          return true;
        }
      }
      if sendLen < 0 {
        errors, queued := errors + 1, queued + ([before] + buf);
        Enqueue([before] + buf);
      } else {
        Prefixes(accepted, buf, sendLen);
        accepted, queued := accepted + buf[..sendLen], queued + buf;
        Enqueue(buf[sendLen..]);
      }
      return false;
    }

    /** Bytes that have to wait join the end of the queue. */
    method Enqueue(rest: seq<byte>)
      requires Inside(ioVecs, 0) && NonEmpty(ioVecs)
      modifies this`ioVecs
      ensures Inside(ioVecs, 0) && NonEmpty(ioVecs) && Wire([], ioVecs) == old(Wire([], ioVecs)) + rest
      ensures ioVecs == [] <==> old(ioVecs) == [] && rest == []
    {
      hide Wire;
      if |rest| > 0 {
        OneMore(ioVecs, Payload(rest));
        ioVecs := ioVecs + [Payload(rest)];
      } else {
        assert Wire([], ioVecs) + rest == Wire([], ioVecs);
      }
    }

    /** One writev of OnWrite: its result is signed, so a failure closes the connection. */
    method Written(result: WriteResult)
      requires Valid() && !closed && (result.Accepts? ==> result.n <= |Wire([], ioVecs)|)
      modifies this`ioVecs, this`accepted, this`closed
      ensures Valid() && |accepted| == |old(accepted)| + (if result.Accepts? then result.n else 0)
      ensures closed <==> result.Fails?
    {
      hide Wire, Consume;
      match result {
        case Fails => closed := true;
        case WouldBlock =>
        case Accepts(ret) =>
          ghost var bytes := Wire([], ioVecs);
          ConsumeTakes([], ioVecs, ret);
          ConsumeKeeps(ioVecs, ret, 0);
          accepted := accepted + bytes[..ret];
          ioVecs := Consume(ioVecs, ret);
          assert bytes == bytes[..ret] + bytes[ret..];
          assert old(accepted) + bytes[..ret] + bytes[ret..] == old(accepted) + bytes;
      }
    }
  }

  lemma Prefixes(accepted: seq<byte>, buf: seq<byte>, k: nat)
    requires k <= |buf|
    ensures accepted <= accepted + buf[..k] <= accepted + buf
    ensures accepted + buf[..k] + ([] + buf[k..]) == accepted + buf && accepted + buf[..0] == accepted &&
            buf[0..] == buf
    ensures k == |buf| ==> accepted + buf[..k] == accepted + buf
  {
    assert buf == buf[..k] + buf[k..];
  }

  lemma NoWire()
    ensures Wire([], []) == []
  {
  }

  lemma OneMore(nodes: seq<BufferNode>, node: BufferNode)
    requires Inside(nodes, 0) && node.Payload?
    ensures Inside(nodes + [node], 0) && Wire([], nodes + [node]) == Wire([], nodes) + node.data
  {
    WireAppend([], nodes, [node]);
    WireCons([], node, []);
    assert [node] + [] == [node];
    assert Wire([], [node]) == node.data + [];
  }
}
