/** The timer heap and the ack deque, updated in place by the timer thread and by the receive path. */
module TimerObjects {
  import opened TouTypes
  import opened DelayedAck
  import opened SenderModel
  import opened AckProofs

  lemma {:induction false} PushNodes(ts: seq<Node>, n: Node)
    ensures multiset(HeapPush(ts, n)) == multiset(ts) + multiset{CopyNode(n)}
    decreases |ts|
  {
    if ts != [] && n.pId >= ts[0].pId {
      PushNodes(ts[1..], n);
      assert ts == [ts[0]] + ts[1..];
    }
  }

  lemma {:induction false} PushKeepsOrder(ts: seq<Node>, n: Node)
    requires HeapOrdered(ts)
    ensures HeapOrdered(HeapPush(ts, n))
    ensures multiset(HeapPush(ts, n)) == multiset(ts) + multiset{CopyNode(n)}
    decreases |ts|
  {
    PushNodes(ts, n);
    if ts != [] && n.pId >= ts[0].pId {
      PushKeepsOrder(ts[1..], n);
      var r := HeapPush(ts[1..], n);
      forall m | m in r
        ensures ts[0].pId <= m.pId
      {
        assert m in multiset(r);
        assert m in multiset(ts[1..]) || m == CopyNode(n);
      }
    }
  }

  /** Every node has been through the heap, so another copy changes nothing. */
  ghost predicate Copied(ts: seq<Node>) {
    forall i :: 0 <= i < |ts| ==> CopyNode(ts[i]) == ts[i]
  }

  /** A node taken from the front of ts goes to the end of the nodes taken before it. */
  lemma MoveOne(temp: seq<Node>, ts: seq<Node>, n: Node)
    requires ts != [] && HeapOrdered(temp + ts) && Copied(temp) && n.pId == ts[0].pId
    ensures HeapPush(temp, n) == temp + [CopyNode(n)]
    ensures HeapOrdered(temp + [CopyNode(n)] + ts[1..]) && Copied(temp + [CopyNode(n)])
  {
    forall i | 0 <= i < |temp|
      ensures temp[i].pId <= n.pId
    {
      assert (temp + ts)[i] == temp[i] && (temp + ts)[|temp|] == ts[0];
    }
    PushAtEnd(temp, n);
    CStrIdentityIff(CStr(n.payload));
    var all, moved := temp + ts, temp + [CopyNode(n)] + ts[1..];
    assert forall i :: 0 <= i < |all| ==> moved[i].pId == all[i].pId;
  }

  lemma DropOne(temp: seq<Node>, ts: seq<Node>)
    requires ts != [] && HeapOrdered(temp + ts)
    ensures HeapOrdered(temp + ts[1..])
  {
    var all, rest := temp + ts, temp + ts[1..];
    assert forall i :: 0 <= i < |rest| ==> rest[i] == all[if i < |temp| then i else i + 1];
  }

  function Shifted(n: Node, rto: nat): Node {
    NodeRaw(n.pId, n.payload, n.xmit + rto, n.xmit)
  }

  /** One turn of the first loop of postpone_timer. */
  lemma PostponeFront(temp: seq<Node>, ts: seq<Node>, th: nat, rto: nat)
    requires ts != [] && HeapOrdered(temp + ts) && Copied(temp) && (ts[0].pId > th ==> ts[0].xmit > 0)
    ensures var temp' := if ts[0].pId > th then HeapPush(temp, Shifted(ts[0], rto))
                         else if ts[0].pId == th then HeapPush(temp, ts[0]) else temp;
            && HeapOrdered(temp' + ts[1..]) && Copied(temp')
            && Prepend(temp, Postpone(ts, th, rto)) == Prepend(temp', Postpone(ts[1..], th, rto))
  {
    hide HeapOrdered, Copied, HeapPush, CopyNode;
    var top, rest := ts[0], Postpone(ts[1..], th, rto);
    if top.pId > th {
      MoveOne(temp, ts, Shifted(top, rto));
      PrependOne(temp, CopyNode(Shifted(top, rto)), rest);
    } else if top.pId < th {
      DropOne(temp, ts);
    } else {
      MoveOne(temp, ts, top);
      PrependOne(temp, CopyNode(top), rest);
    }
  }

  /** timerheap: a priority queue kept as its nodes in p_id order. */
  class TimerHeap {
    var nodes: seq<Node>

    constructor ()
      ensures nodes == []
    {
      nodes := [];
    }

    method Push(n: Node)
      requires HeapOrdered(nodes)
      modifies this
      ensures nodes == HeapPush(old(nodes), n) && HeapOrdered(nodes)
    {
      PushKeepsOrder(nodes, n);
      nodes := HeapPush(nodes, n);
    }

    method Pop() returns (n: Node)
      requires nodes != [] && HeapOrdered(nodes)
      modifies this
      ensures n == old(nodes)[0] && nodes == old(nodes)[1..] && HeapOrdered(nodes)
    {
      n := nodes[0];
      nodes := nodes[1..];
    }

    /** The cleaning loop of the timer thread. */
    method ClearAcked(una: nat)
      requires HeapOrdered(nodes)
      modifies this
      ensures nodes == ClearTimer(old(nodes), una) && HeapOrdered(nodes)
    {
      while nodes != [] && nodes[0].pId <= una
        invariant HeapOrdered(nodes)
        invariant ClearTimer(nodes, una) == ClearTimer(old(nodes), una)
        decreases |nodes|
      {
        nodes := nodes[1..];
      }
    }

    /** The cleaning loop of the ack path: it stops after the node the ack names exactly. */
    method ClearUpTo(una: nat) returns (sample: Option<Node>)
      requires HeapOrdered(nodes)
      modifies this
      ensures (nodes, sample) == ClearByAck(old(nodes), una) && HeapOrdered(nodes)
    {
      sample := None;
      while nodes != []
        invariant HeapOrdered(nodes)
        invariant ClearByAck(nodes, una) == ClearByAck(old(nodes), una) && sample == None
        decreases |nodes|
      {
        var thSeq := nodes[0].pId;
        if thSeq < una {
          nodes := nodes[1..];
        } else if thSeq == una {
          sample := Some(nodes[0]);
          nodes := nodes[1..];
          return;
        } else {
          break;
        }
      }
    }

    /** Retransmit the segment that starts at pid; ok is false where the code exits. */
    method RexmitForDupAck(pid: nat, rcvNxt: nat, rto: nat, now: int) returns (ok: bool, out: seq<Packet>)
      requires HeapOrdered(nodes)
      modifies this
      ensures var r := FastRexmit(old(nodes), pid, rcvNxt, rto, now);
              ok == r.Some? && (ok ==> (nodes, out) == r.value && HeapOrdered(nodes))
    {
      out := [];
      while nodes != []
        invariant HeapOrdered(nodes) && out == []
        invariant FastRexmit(nodes, pid, rcvNxt, rto, now) == FastRexmit(old(nodes), pid, rcvNxt, rto, now)
        decreases |nodes|
      {
        var top := nodes[0];
        if Start(top) == pid {
          out := [NodePacket(top, rcvNxt)];
          var _ := Pop();
          Push(NodeRaw(top.pId, top.payload, now + rto, -1));
          return true, out;
        } else if Start(top) < pid {
          nodes := nodes[1..];
        } else {
          return false, [];
        }
      }
      ok := true;
    }

    /** The first loop of postpone_timer: every node moves to a second heap with its new deadline; ok is
        false where the assertion on the send time fails. */
    method MoveOut(th: nat, rto: nat) returns (ok: bool, temp: seq<Node>)
      requires HeapOrdered(nodes)
      modifies this
      ensures var r := Postpone(old(nodes), th, rto);
              ok == r.Some? && (ok ==> nodes == [] && temp == r.value && HeapOrdered(temp) && Copied(temp))
    {
      ghost var all := nodes;
      temp := [];
      assert temp + nodes == nodes;
      PrependNone(Postpone(all, th, rto));
      while nodes != []
        invariant HeapOrdered(temp + nodes) && Copied(temp)
        invariant Postpone(all, th, rto) == Prepend(temp, Postpone(nodes, th, rto))
        decreases |nodes|
      {
        if nodes[0].pId > th && nodes[0].xmit <= 0 {
          return false, [];
        }
        PostponeFront(temp, nodes, th, rto);
        if nodes[0].pId > th {
          temp := HeapPush(temp, Shifted(nodes[0], rto));
        } else if nodes[0].pId == th {
          temp := HeapPush(temp, nodes[0]);
        }
        nodes := nodes[1..];
      }
      assert temp + [] == temp;
      ok := true;
    }

    /** The second loop: every node of the second heap moves back. */
    method MoveBack(temp: seq<Node>)
      requires nodes == [] && HeapOrdered(temp) && Copied(temp)
      modifies this
      ensures nodes == temp
    {
      for i := 0 to |temp|
        invariant nodes == temp[..i]
      {
        assert temp[..i] + temp[i..] == temp;
        MoveOne(temp[..i], temp[i..], temp[i]);
        nodes := HeapPush(nodes, temp[i]);
      }
    }

    method PostponeTimer(th: nat, rto: nat) returns (ok: bool)
      requires HeapOrdered(nodes)
      modifies this
      ensures var r := Postpone(old(nodes), th, rto);
              ok == r.Some? && (ok ==> nodes == r.value && HeapOrdered(nodes))
    {
      var temp;
      ok, temp := MoveOut(th, rto);
      if ok {
        MoveBack(temp);
      }
    }
  }

  function Prepend(ts: seq<Node>, r: Option<seq<Node>>): Option<seq<Node>> {
    if r.None? then None else Some(ts + r.value)
  }

  lemma PrependNone(r: Option<seq<Node>>)
    ensures Prepend([], r) == r
  {
    assert r.Some? ==> [] + r.value == r.value;
  }

  lemma PrependOne(ts: seq<Node>, n: Node, r: Option<seq<Node>>)
    ensures Prepend(ts + [n], r) == Prepend(ts, Prepend([n], r))
  {
    assert r.Some? ==> ts + [n] + r.value == ts + ([n] + r.value);
  }

  /** ackdeque, for one connection. */
  class AckDeque {
    var nodes: seq<AckNode>

    constructor ()
      ensures nodes == []
    {
      nodes := [];
    }

    method UpdateAck(xmit: bool, rcvNxt: nat, now: int) returns (ok: bool)
      modifies this
      ensures var r := DelayedAck.UpdateAck(old(nodes), xmit, rcvNxt, now);
              ok == r.Some? && nodes == if ok then r.value else old(nodes)
    {
      if nodes == [] {
        if !xmit {
          return false;
        }
        nodes := [FreshNode(rcvNxt, now)];
        return true;
      }
      nodes := nodes[0 := FreshNode(rcvNxt, now)];
      ok := true;
    }
  }
}
