/** Gather lists: BufferNode and iovec entries that point into the header arena or at a packet body. */
module WireNodes {
  import opened Bytes

  /** A stretch of the 4096-byte header arena, or bytes of a packet body kept alive until they are sent. */
  datatype BufferNode = Arena(off: nat, len: nat) | Payload(data: seq<byte>)
  {
    function Size(): nat {
      if Arena? then len else |data|
    }
  }

  ghost predicate Inside(nodes: seq<BufferNode>, cur: nat) {
    forall n :: n in nodes && n.Arena? ==> n.off + n.len <= cur
  }

  ghost predicate NonEmpty(nodes: seq<BufferNode>) {
    forall n :: n in nodes ==> n.Size() > 0
  }

  /** The list does not end in an empty node. */
  predicate LastFull(nodes: seq<BufferNode>) {
    nodes != [] && nodes[|nodes| - 1].Size() > 0
  }

  function Deref(arena: seq<byte>, n: BufferNode): (s: seq<byte>)
    requires n.Arena? ==> n.off + n.len <= |arena|
    ensures |s| == n.Size()
  {
    if n.Arena? then arena[n.off..n.off + n.len] else n.data
  }

  /** The bytes a gather list stands for, read from the arena now. */
  ghost function Wire(arena: seq<byte>, nodes: seq<BufferNode>): seq<byte>
    requires Inside(nodes, |arena|)
    decreases |nodes|
  {
    if nodes == [] then [] else Deref(arena, nodes[0]) + Wire(arena, nodes[1..])
  }

  lemma {:induction false} WireAppend(arena: seq<byte>, a: seq<BufferNode>, b: seq<BufferNode>)
    requires Inside(a, |arena|) && Inside(b, |arena|)
    ensures Inside(a + b, |arena|) && Wire(arena, a + b) == Wire(arena, a) + Wire(arena, b)
    decreases |a|
  {
    if a == [] {
      assert a + b == b;
    } else {
      assert (a + b)[0] == a[0] && (a + b)[1..] == a[1..] + b;
      WireAppend(arena, a[1..], b);
      assert Deref(arena, a[0]) + (Wire(arena, a[1..]) + Wire(arena, b)) == Wire(arena, a) + Wire(arena, b);
    }
  }

  /** Overwriting the arena beyond `cur` does not change what the nodes below it stand for. */
  lemma {:induction false} WireFrame(a: seq<byte>, b: seq<byte>, nodes: seq<BufferNode>, cur: nat)
    requires cur <= |a| && cur <= |b| && a[..cur] == b[..cur] && Inside(nodes, cur)
    ensures Wire(a, nodes) == Wire(b, nodes)
    decreases |nodes|
  {
    hide Deref;
    if nodes != [] {
      var n := nodes[0];
      assert n in nodes;
      DerefFrame(a, b, n, cur);
      WireFrame(a, b, nodes[1..], cur);
    }
  }

  lemma DerefFrame(a: seq<byte>, b: seq<byte>, n: BufferNode, cur: nat)
    requires cur <= |a| && cur <= |b| && a[..cur] == b[..cur] && (n.Arena? ==> n.off + n.len <= cur)
    ensures Deref(a, n) == Deref(b, n)
  {
    if n.Arena? {
      assert a[..cur][n.off..n.off + n.len] == a[n.off..n.off + n.len];
      assert b[..cur][n.off..n.off + n.len] == b[n.off..n.off + n.len];
    }
  }

  lemma NoNodes(arena: seq<byte>)
    ensures Wire(arena, []) == []
  {
  }

  /** A list that does not end in an empty node still has bytes. */
  lemma {:induction false} LastFullWire(arena: seq<byte>, nodes: seq<BufferNode>)
    requires Inside(nodes, |arena|) && LastFull(nodes)
    ensures Wire(arena, nodes) != []
    decreases |nodes|
  {
    assert nodes[0] in nodes;
    if |nodes| > 1 {
      LastFullWire(arena, nodes[1..]);
    }
  }

  /** The answers of writev: bytes accepted (never more than offered), try again later, or a fatal error. */
  datatype WriteResult = Accepts(n: nat) | WouldBlock | Fails

  /** The inner loop of OnWrite: `ret` bytes are taken off the front of the list. */
  function Consume(nodes: seq<BufferNode>, ret: nat): seq<BufferNode>
    decreases |nodes|
  {
    if ret == 0 || nodes == [] then nodes
    else
      var n := nodes[0];
      if n.Size() > ret
      then [Cut(n, ret)] + nodes[1..]
      else Consume(nodes[1..], ret - n.Size())
  }

  /** A node with its first `ret` bytes taken off. */
  function Cut(n: BufferNode, ret: nat): BufferNode
    requires ret < n.Size()
  {
    if n.Arena? then Arena(n.off + ret, n.len - ret) else Payload(n.data[ret..])
  }

  lemma CutTakes(arena: seq<byte>, nodes: seq<BufferNode>, ret: nat)
    requires nodes != [] && Inside(nodes, |arena|) && ret < nodes[0].Size()
    ensures var out := [Cut(nodes[0], ret)] + nodes[1..];
            Inside(out, |arena|) && Wire(arena, out) == Wire(arena, nodes)[ret..]
  {
    hide Wire, Deref;
    var n, cut := nodes[0], Cut(nodes[0], ret);
    assert n in nodes;
    CutDerefs(arena, n, ret);
    WireCons(arena, n, nodes[1..]);
    WireCons(arena, cut, nodes[1..]);
    assert [n] + nodes[1..] == nodes;
    DropLeft(Deref(arena, n), Wire(arena, nodes[1..]), ret);
  }

  lemma CutDerefs(arena: seq<byte>, n: BufferNode, ret: nat)
    requires Inside([n], |arena|) && ret < n.Size()
    ensures Inside([Cut(n, ret)], |arena|) && Deref(arena, Cut(n, ret)) == Deref(arena, n)[ret..]
  {
    assert n in [n];
  }

  lemma WireCons(arena: seq<byte>, n: BufferNode, nodes: seq<BufferNode>)
    requires Inside([n], |arena|) && Inside(nodes, |arena|)
    ensures Inside([n] + nodes, |arena|) && Wire(arena, [n] + nodes) == Deref(arena, n) + Wire(arena, nodes)
  {
    assert n in [n];
    assert ([n] + nodes)[1..] == nodes;
  }

  lemma DropLeft(a: seq<byte>, b: seq<byte>, k: nat)
    requires k <= |a|
    ensures (a + b)[k..] == a[k..] + b
  {
  }

  lemma {:induction false} ConsumeTakes(arena: seq<byte>, nodes: seq<BufferNode>, ret: nat)
    requires Inside(nodes, |arena|) && ret <= |Wire(arena, nodes)|
    ensures Inside(Consume(nodes, ret), |arena|)
    ensures Wire(arena, Consume(nodes, ret)) == Wire(arena, nodes)[ret..]
    decreases |nodes|
  {
    if ret != 0 && nodes != [] {
      var n := nodes[0];
      assert n in nodes;
      if n.Size() > ret {
        CutTakes(arena, nodes, ret);
      } else {
        ConsumeTakes(arena, nodes[1..], ret - n.Size());
        var rest := Wire(arena, nodes[1..]);
        assert (Deref(arena, n) + rest)[ret..] == rest[ret - n.Size()..];
      }
    }
  }

  /**
   * What is left after a writev is no nearer to the end of the arena, and ends in an empty node exactly if the list
   * did.
   */
  lemma {:induction false} ConsumeKeeps(nodes: seq<BufferNode>, ret: nat, cur: nat)
    requires Inside(nodes, cur)
    ensures Inside(Consume(nodes, ret), cur)
    ensures NonEmpty(nodes) ==> NonEmpty(Consume(nodes, ret))
    ensures Consume(nodes, ret) != [] ==> (LastFull(Consume(nodes, ret)) <==> LastFull(nodes))
    decreases |nodes|
  {
    if ret != 0 && nodes != [] {
      assert nodes[0] in nodes;
      if nodes[0].Size() <= ret {
        ConsumeKeeps(nodes[1..], ret - nodes[0].Size(), cur);
      }
    }
  }

  /** A trailing empty node survives any number of writev calls that accept every byte offered. */
  lemma {:induction false} EmptyNodeStays(arena: seq<byte>, nodes: seq<BufferNode>)
    requires Inside(nodes, |arena|)
    ensures var left := Consume(nodes, |Wire(arena, nodes)|);
            left == [] <==> nodes == [] || LastFull(nodes)
    decreases |nodes|
  {
    if nodes != [] {
      var n := nodes[0];
      assert n in nodes;
      EmptyNodeStays(arena, nodes[1..]);
      if |Wire(arena, nodes)| == 0 && |nodes| > 1 {
        assert |Wire(arena, nodes[1..])| == 0;
        LastIsEmpty(arena, nodes);
      }
    }
  }

  lemma {:induction false} LastIsEmpty(arena: seq<byte>, nodes: seq<BufferNode>)
    requires Inside(nodes, |arena|) && nodes != [] && Wire(arena, nodes) == []
    ensures nodes[|nodes| - 1].Size() == 0
    decreases |nodes|
  {
    assert nodes[0] in nodes;
    if |nodes| > 1 {
      LastIsEmpty(arena, nodes[1..]);
    }
  }
}
