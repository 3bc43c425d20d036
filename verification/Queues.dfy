/** The intrusive queues: TQueue (src/comm/tqueue.h), doubly linked, and PacketQueue
    (src/pack/pack.cpp) and CDataQueue (src/comm/dataqueue.h), singly linked. Each
    refines the sequence of its nodes. */
module Queues {
  import opened Lists

  class Node {
    var next: Node?
    var pre: Node?

    constructor ()
      ensures next == null && pre == null
    {
      next, pre := null, null;
    }
  }

  predicate Disjoint(s: seq<Node>, t: seq<Node>) {
    forall n :: n in s ==> n !in t
  }

  // Chained in order by `next`, ending in null.
  ghost predicate Forward(s: seq<Node>)
    reads s`next
  {
    NextChain(s) && (s != [] ==> s[|s| - 1].next == null)
  }

  ghost predicate NextChain(s: seq<Node>)
    reads s`next
  {
    forall i :: 0 <= i < |s| - 1 ==> s[i].next == s[i + 1]
  }

  // And chained the other way by `pre`, starting in null.
  ghost predicate Backward(s: seq<Node>)
    reads s`pre
  {
    PreChain(s) && (s != [] ==> s[0].pre == null)
  }

  ghost predicate PreChain(s: seq<Node>)
    reads s`pre
  {
    forall i :: 0 <= i < |s| - 1 ==> s[i + 1].pre == s[i]
  }

  function First(s: seq<Node>): Node? {
    if s == [] then null else s[0]
  }

  function Final(s: seq<Node>): Node? {
    if s == [] then null else s[|s| - 1]
  }

  function Without(s: seq<Node>, i: nat): (r: seq<Node>)
    requires i < |s|
    ensures |r| == |s| - 1
  {
    s[..i] + s[i + 1..]
  }

  // Erasing a member takes out just it, and every other keeps its place in the order.
  lemma WithoutKeeps(s: seq<Node>, i: nat)
    requires i < |s| && NoDuplicates(s)
    ensures NoDuplicates(Without(s, i)) && s[i] !in Without(s, i)
    ensures forall n :: n in s && n != s[i] <==> n in Without(s, i)
    ensures multiset(Without(s, i)) + multiset{s[i]} == multiset(s)
  {
    var r := Without(s, i);
    assert forall k :: 0 <= k < |r| ==> r[k] == s[if k < i then k else k + 1];
    forall n | n in s && n != s[i] ensures n in r {
      var k :| 0 <= k < |s| && s[k] == n;
      assert r[if k < i then k else k - 1] == n;
    }
    assert s == s[..i] + [s[i]] + s[i + 1..];
  }

  class TQueue {
    var head: Node?
    var tail: Node?
    var size: int
    ghost var nodes: seq<Node>

    ghost predicate Valid()
      reads this, nodes
    {
      NoDuplicates(nodes) && Forward(nodes) && Backward(nodes)
      && head == First(nodes) && tail == Final(nodes) && size == |nodes|
    }

    constructor ()
      ensures Valid() && nodes == []
    {
      head, tail, size := null, null, 0;
      nodes := [];
    }

    method Push(o: Node)
      requires Valid() && o !in nodes
      modifies this, o, nodes
      ensures Valid() && nodes == old(nodes) + [o]
    {
      o.next := null;
      o.pre := null;
      if head == null {
        head := o;
        tail := o;
      } else {
        tail.next := o;
        o.pre := tail;
        tail := o;
      }
      size := size + 1;
      nodes := nodes + [o];
    }

    method Pop() returns (p: Node?)
      requires Valid()
      modifies this, nodes
      ensures Valid()
      ensures p == First(old(nodes)) && nodes == if p == null then [] else old(nodes)[1..]
      ensures p != null ==> p.next == null && p.pre == null
    {
      if size == 0 { return null; }
      p := head;
      if head == tail {
        head := null;
        tail := null;
      } else {
        assert nodes[0].next == nodes[1];
        head := head.next;
        head.pre := null;
      }
      size := size - 1;
      p.next := null;
      p.pre := null;
      nodes := nodes[1..];
    }

    // All of this queue goes behind `dest`; moving a queue onto itself does nothing.
    method Moveto(dest: TQueue)
      requires Valid() && dest.Valid()
      requires dest != this ==> Disjoint(dest.nodes, nodes)
      modifies this, dest, nodes, dest.nodes
      ensures Valid() && dest.Valid()
      ensures dest == this ==> nodes == old(nodes)
      ensures dest != this ==> nodes == [] && dest.nodes == old(dest.nodes) + old(nodes)
    {
      hide NoDuplicates, Forward, Backward, Disjoint;
      if dest.head == head {
        if dest != this && size != 0 {
          SharedHead(dest.nodes, nodes);
        }
        return;
      }
      if size == 0 { return; }
      if dest.head == null {
        TakeAll(dest);
      } else {
        Link(dest);
      }
      Reset();
    }

    method Reset()
      modifies this
      ensures Valid() && nodes == []
    {
      head, tail, size := null, null, 0;
      nodes := [];
    }

    method TakeAll(dest: TQueue)
      requires Valid() && dest.Valid() && dest != this && dest.head == null
      modifies dest
      ensures dest.Valid() && dest.nodes == nodes
    {
      dest.head := head;
      dest.tail := tail;
      dest.size := size;
      dest.nodes := nodes;
    }

    // The second branch of moveto: this queue's nodes are chained behind dest's.
    method Link(dest: TQueue)
      requires Valid() && dest.Valid() && dest != this && Disjoint(dest.nodes, nodes)
      requires head != null && dest.head != null
      modifies dest, nodes, dest.nodes
      ensures dest.Valid() && dest.nodes == old(dest.nodes) + nodes
    {
      hide NoDuplicates, NextChain, PreChain, Disjoint;
      ghost var front := dest.nodes;
      SetNext(dest.tail, head, front, nodes);
      SetPre(head, dest.tail, front, nodes);
      ForwardJoined(front, nodes);
      BackwardJoined(front, nodes);
      Joined(front, nodes);
      dest.tail := tail;
      dest.size := dest.size + size;
      dest.nodes := front + nodes;
    }

    // The caller hands in a member; its own links are left as they were.
    method Erase(o: Node, ghost at: nat)
      requires Valid() && at < |nodes| && nodes[at] == o
      modifies this, nodes
      ensures Valid() && nodes == Without(old(nodes), at)
      ensures o.next == old(o.next) && o.pre == old(o.pre)
    {
      hide NoDuplicates, Forward, Backward;
      if o == head {
        SamePlace(nodes, at, 0);
        EraseFirst(o);
      } else if o == tail {
        SamePlace(nodes, at, |nodes| - 1);
        EraseLast(o);
      } else {
        EraseMiddle(o, at);
      }
      size := size - 1;
    }

    method EraseFirst(o: Node)
      requires Valid() && nodes != [] && nodes[0] == o
      modifies this`nodes, this`head, this`tail, nodes
      ensures NoDuplicates(nodes) && Forward(nodes) && Backward(nodes)
      ensures head == First(nodes) && tail == Final(nodes)
      ensures nodes == Without(old(nodes), 0)
      ensures o.next == old(o.next) && o.pre == old(o.pre)
    {
      hide NoDuplicates, Forward, Backward, NextChain, PreChain, Without, First, Final;
      FirstOut(nodes);
      if head == tail {
        NoNodes();
        head := null;
        tail := null;
      } else {
        RestForward(nodes);
        ChainsOf(nodes);
        head := o.next;
        CutPre(head, nodes);
      }
      nodes := nodes[1..];
    }

    method EraseLast(o: Node)
      requires Valid() && |nodes| > 1 && nodes[|nodes| - 1] == o
      modifies this`nodes, this`tail, nodes
      ensures NoDuplicates(nodes) && Forward(nodes) && Backward(nodes)
      ensures head == First(nodes) && tail == Final(nodes)
      ensures nodes == Without(old(nodes), |old(nodes)| - 1)
      ensures o.next == old(o.next) && o.pre == old(o.pre)
    {
      ghost var at := |nodes| - 1;
      WithoutKeeps(nodes, at);
      assert nodes[at - 1 + 1].pre == nodes[at - 1];
      tail := o.pre;
      tail.next := null;
      nodes := Without(nodes, at);
    }

    method EraseMiddle(o: Node, ghost at: nat)
      requires Valid() && 0 < at < |nodes| - 1 && nodes[at] == o
      modifies this`nodes, nodes
      ensures NoDuplicates(nodes) && Forward(nodes) && Backward(nodes)
      ensures head == First(nodes) && tail == Final(nodes)
      ensures nodes == Without(old(nodes), at)
      ensures o.next == old(o.next) && o.pre == old(o.pre)
    {
      hide NoDuplicates, Forward, Backward, NextChain, PreChain, Without, First, Final;
      MiddleOut(nodes, at);
      ChainsOf(nodes);
      MiddleLinks(nodes, at);
      var before, after := o.pre, o.next;
      LinkOver(before, after, nodes, at);
      nodes := Without(nodes, at);
    }
  }

  // Without its first node a queue is empty, or starts with the second.
  lemma FirstOut(s: seq<Node>)
    requires s != [] && NoDuplicates(s)
    ensures Without(s, 0) == s[1..] && NoDuplicates(s[1..]) && First(s) == s[0]
    ensures First(s) == Final(s) <==> s[1..] == []
    ensures First([]) == null && Final([]) == null
    ensures |s| > 1 ==> First(s[1..]) == s[1] != s[0] && Final(s[1..]) == Final(s)
  {
    WithoutKeeps(s, 0);
    if First(s) == Final(s) { SamePlace(s, 0, |s| - 1); }
  }

  lemma MiddleOut(s: seq<Node>, at: nat)
    requires 0 < at < |s| - 1 && NoDuplicates(s)
    ensures NoDuplicates(Without(s, at)) && First(Without(s, at)) == First(s) && Final(Without(s, at)) == Final(s)
  {
    WithoutKeeps(s, at);
  }

  lemma MiddleLinks(s: seq<Node>, at: nat)
    requires 0 < at < |s| - 1 && NextChain(s) && PreChain(s)
    ensures s[at].next == s[at + 1] && s[at].pre == s[at - 1]
  {
    assert s[at - 1 + 1].pre == s[at - 1];
  }

  // The neighbours of a member are linked over it.
  method LinkOver(before: Node, after: Node, ghost s: seq<Node>, ghost at: nat)
    requires 0 < at < |s| - 1 && NoDuplicates(s) && Forward(s) && Backward(s)
    requires before == s[at - 1] && after == s[at + 1]
    modifies before`next, after`pre
    ensures Forward(Without(s, at)) && Backward(Without(s, at))
    ensures s[at].next == old(s[at].next) && s[at].pre == old(s[at].pre)
  {
    ghost var r := Without(s, at);
    assert before != s[at] && after != s[at];
    before.next := after;
    after.pre := before;
    forall i | 0 <= i < |r| - 1 ensures r[i].next == r[i + 1] && r[i + 1].pre == r[i] {
      var k := if i < at then i else i + 1;
      if i == at - 1 {
        assert r[i] == before && r[i + 1] == after;
      } else {
        assert r[i] == s[k] && r[i + 1] == s[k + 1] && s[k] != before && s[k + 1] != after;
        assert old(s[k].next) == s[k + 1] && old(s[k + 1].pre) == s[k];
      }
    }
  }

  lemma ChainsOf(s: seq<Node>)
    requires Forward(s) && Backward(s)
    ensures NextChain(s) && PreChain(s)
  {
  }

  lemma RestForward(s: seq<Node>)
    requires Forward(s) && |s| > 1
    ensures s[0].next == s[1] && Forward(s[1..])
  {
    var r := s[1..];
    forall i | 0 <= i < |r| - 1 ensures r[i].next == r[i + 1] {
      assert s[i + 1].next == s[i + 1 + 1];
    }
  }

  method CutPre(o: Node, ghost s: seq<Node>)
    requires |s| > 1 && NoDuplicates(s) && PreChain(s) && o == s[1]
    modifies o`pre
    ensures o.pre == null && Backward(s[1..])
  {
    o.pre := null;
    ghost var r := s[1..];
    forall i | 0 <= i < |r| - 1 ensures r[i + 1].pre == r[i] {
      assert old(s[i + 1 + 1].pre) == s[i + 1] && s[i + 1 + 1] != s[1];
    }
  }

  // A node is at one place only.
  lemma SamePlace(s: seq<Node>, i: nat, j: nat)
    requires NoDuplicates(s) && i < |s| && j < |s| && s[i] == s[j]
    ensures i == j
  {
  }

  lemma SharedHead(s: seq<Node>, t: seq<Node>)
    requires First(s) == First(t) && s != []
    ensures !Disjoint(s, t)
  {
    assert s[0] in s && s[0] in t;
  }

  lemma Joined(s: seq<Node>, t: seq<Node>)
    requires NoDuplicates(s) && NoDuplicates(t) && Disjoint(s, t)
    ensures NoDuplicates(s + t)
  {
    var r := s + t;
    forall i, j | 0 <= i < j < |r| ensures r[i] != r[j] {
      if i < |s| <= j {
        assert s[i] in s && t[j - |s|] in t;
      }
    }
  }

  lemma ForwardJoined(s: seq<Node>, t: seq<Node>)
    requires NextChain(s) && Forward(t) && s != [] && t != [] && s[|s| - 1].next == t[0]
    ensures Forward(s + t)
  {
    var r := s + t;
    forall i | 0 <= i < |r| - 1 ensures r[i].next == r[i + 1] {
      if i >= |s| {
        assert t[i - |s|].next == t[i - |s| + 1];
      }
    }
  }

  lemma BackwardJoined(s: seq<Node>, t: seq<Node>)
    requires Backward(s) && PreChain(t) && s != [] && t != [] && t[0].pre == s[|s| - 1]
    ensures Backward(s + t)
  {
    var r := s + t;
    forall i | 0 <= i < |r| - 1 ensures r[i + 1].pre == r[i] {
      if i >= |s| {
        assert t[i - |s| + 1].pre == t[i - |s|];
      }
    }
  }

  // `tail->_next = o`: the chain up to the tail does not notice.
  method SetNext(o: Node, to: Node, ghost s: seq<Node>, ghost t: seq<Node>)
    requires s != [] && NoDuplicates(s) && NextChain(s) && o == s[|s| - 1] && Disjoint(s, t) && Forward(t)
    modifies o`next
    ensures o.next == to && NextChain(s) && Forward(t)
  {
    assert o in s;
    o.next := to;
  }

  method SetPre(o: Node, to: Node, ghost s: seq<Node>, ghost t: seq<Node>)
    requires t != [] && NoDuplicates(t) && PreChain(t) && o == t[0] && Disjoint(s, t) && Backward(s)
    modifies o`pre
    ensures o.pre == to && PreChain(t) && Backward(s)
  {
    assert o in t;
    o.pre := to;
  }

  class PacketQueue {
    var head: Node?
    var tail: Node?
    var size: int
    ghost var nodes: seq<Node>

    ghost predicate Valid()
      reads this, nodes
    {
      NoDuplicates(nodes) && Forward(nodes)
      && head == First(nodes) && tail == Final(nodes) && size == |nodes|
    }

    constructor ()
      ensures Valid() && nodes == []
    {
      head, tail, size := null, null, 0;
      nodes := [];
    }

    method Push(packet: Node?)
      requires Valid() && packet !in nodes
      modifies this, packet, nodes
      ensures Valid() && nodes == if packet == null then old(nodes) else old(nodes) + [packet]
    {
      if packet == null { return; }
      packet.next := null;
      if tail == null {
        head := packet;
      } else {
        tail.next := packet;
      }
      tail := packet;
      size := size + 1;
      nodes := nodes + [packet];
    }

    // The packet's own link is left as it was.
    method Pop() returns (packet: Node?)
      requires Valid()
      modifies this
      ensures Valid()
      ensures packet == First(old(nodes)) && nodes == if packet == null then [] else old(nodes)[1..]
    {
      if head == null { return null; }
      packet := head;
      head := head.next;
      if head == null {
        tail := null;
      }
      size := size - 1;
      nodes := nodes[1..];
    }

    method Moveto(dest: PacketQueue)
      requires Valid() && dest.Valid() && dest != this && Disjoint(dest.nodes, nodes)
      modifies this, dest, dest.nodes
      ensures Valid() && dest.Valid()
      ensures nodes == [] && dest.nodes == old(dest.nodes) + old(nodes)
    {
      hide NoDuplicates, NextChain, Disjoint;
      if head == null {
        assert dest.nodes + nodes == dest.nodes;
        return;
      }
      Link(dest);
      head, tail, size := null, null, 0;
      nodes := [];
      NoNodes();
    }

    method Link(dest: PacketQueue)
      requires Valid() && dest.Valid() && dest != this && Disjoint(dest.nodes, nodes) && head != null
      modifies dest, dest.nodes
      ensures Valid() && dest.Valid() && dest.nodes == old(dest.nodes) + nodes
    {
      hide NoDuplicates, NextChain, Disjoint;
      ghost var front := dest.nodes;
      Joined(front, nodes);
      if dest.tail == null {
        assert front + nodes == nodes;
        dest.head := head;
      } else {
        SetNext(dest.tail, head, front, nodes);
        ForwardJoined(front, nodes);
      }
      dest.tail := tail;
      dest.size := dest.size + size;
      dest.nodes := front + nodes;
    }
  }

  lemma NoNodes()
    ensures NoDuplicates<Node>([]) && Forward([]) && Backward([])
  {
  }

  class CDataQueue {
    const max: int
    var size: int
    var head: Node?
    var tail: Node?
    ghost var nodes: seq<Node>

    ghost predicate Valid()
      reads this, nodes
    {
      NoDuplicates(nodes) && Forward(nodes)
      && head == First(nodes) && tail == Final(nodes) && size == |nodes|
      && (max > 0 ==> size <= max + 1)
    }

    constructor (maxSize: int)
      ensures Valid() && nodes == [] && max == maxSize
    {
      max, size, head, tail := maxSize, 0, null, null;
      nodes := [];
    }

    // Refused only above the limit, so a limit m lets m + 1 packets in.
    method Push(pack: Node) returns (ok: bool)
      requires Valid() && pack !in nodes
      modifies this, pack, nodes
      ensures Valid() && ok == !(max > 0 && |old(nodes)| > max)
      ensures nodes == if ok then old(nodes) + [pack] else old(nodes)
    {
      if size > max && max > 0 { return false; }
      if head == null {
        head := pack;
        tail := pack;
      } else {
        tail.next := pack;
        tail := pack;
      }
      tail.next := null;
      size := size + 1;
      nodes := nodes + [pack];
      ok := true;
    }

    method Pop() returns (pack: Node?)
      requires Valid()
      modifies this
      ensures Valid()
      ensures pack == First(old(nodes)) && nodes == if pack == null then [] else old(nodes)[1..]
    {
      if size == 0 || head == null { return null; }
      pack := head;
      if head == tail {
        head := null;
        tail := null;
      } else {
        head := head.next;
      }
      size := size - 1;
      nodes := nodes[1..];
    }
  }
}
