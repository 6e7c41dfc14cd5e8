/** The list of published messages that wait for their acknowledgement: at most eight nodes, marked
    when acknowledged, and swept from the tail with the removal of each node put off until the
    iterator has moved past it. */
module PubWaitList {
  import opened Bytes

  const REPUB_NUM_MAX: nat := 8

  /** `id` tells nodes apart in the model; `msgId` is the packet identifier, `acked` the mark
      IOT_MC_NODE_STATE_INVALID. */
  datatype Node = Node(id: nat, msgId: nat, acked: bool)

  /** A sweep removes a node that is acknowledged, or whose time is up while the client is connected. */
  predicate Leaves(n: Node, lapsed: set<nat>) {
    n.acked || n.id in lapsed
  }

  predicate TimesOut(n: Node, lapsed: set<nat>) {
    !n.acked && n.id in lapsed
  }

  function Kept(list: seq<Node>, lapsed: set<nat>): seq<Node> {
    if list == [] then []
    else (if Leaves(list[0], lapsed) then [] else [list[0]]) + Kept(list[1..], lapsed)
  }

  /** The identifiers of the nodes that time out, last node first. */
  function TimedOut(list: seq<Node>, lapsed: set<nat>): seq<nat> {
    if list == [] then []
    else TimedOut(list[1..], lapsed) + if TimesOut(list[0], lapsed) then [list[0].id] else []
  }

  /** The last node with the packet identifier. */
  function FindLast(list: seq<Node>, msgId: nat): (i: int)
    ensures -1 <= i < |list|
    ensures i >= 0 ==> list[i].msgId == msgId
    ensures forall k :: i < k < |list| ==> list[k].msgId != msgId
  {
    if list == [] then -1
    else if list[|list| - 1].msgId == msgId then |list| - 1
    else FindLast(list[..|list| - 1], msgId)
  }

  // ---------------------------------------------------------------- the list in place

  class WaitList {
    var list: seq<Node>

    constructor ()
      ensures list == []
    {
      list := [];
    }

    /** iot_mc_push_pubInfo_to; `hasMemory` says whether memory was found. */
    method Push(len: int, sendBuffer: int, n: Node, hasMemory: bool) returns (ok: bool)
      modifies this
      ensures ok == (0 <= len <= sendBuffer && |old(list)| < REPUB_NUM_MAX && hasMemory)
      ensures list == if ok then old(list) + [n] else old(list)
    {
      if len < 0 || len > sendBuffer {
        return false;
      }
      if |list| >= REPUB_NUM_MAX {
        return false;
      }
      if !hasMemory {
        return false;
      }
      list := list + [n];
      return true;
    }

    /** iot_mc_mask_pubInfo_from: mark the node found first from the tail. */
    method Mask(msgId: nat) returns (found: int)
      modifies this
      ensures found == FindLast(old(list), msgId)
      ensures list == if found < 0 then old(list) else old(list)[found := old(list)[found].(acked := true)]
    {
      found := |list| - 1;
      while found >= 0 && list[found].msgId != msgId
        invariant -1 <= found < |list|
        invariant FindLast(list, msgId) == FindLast(list[..found + 1], msgId)
      {
        assert list[..found + 1][..found] == list[..found];
        found := found - 1;
      }
      if found >= 0 {
        list := list[found := list[found].(acked := true)];
      }
    }

    /** MQTTPubInfoProc; looks[k] is what is found when the k-th node is examined. */
    method Sweep(looks: seq<Look>, timeout: uint32) returns (timeouts: seq<nat>)
      requires |looks| == |list| && Distinct(IdsOf(list))
      modifies this
      ensures list == Kept(old(list), Lapsed(old(list), looks, timeout))
      ensures timeouts == TimedOut(old(list), Lapsed(old(list), looks, timeout))
      ensures forall k :: 0 <= k < |old(list)| ==>
                var n := old(list)[k];
                var late := looks[k].connected && looks[k].spent > (2 * timeout) % (UINT32_MAX + 1);
                && (n in list <==> !n.acked && !late)
                && (n.id in timeouts <==> !n.acked && late)
    {
      hide Kept, TimedOut, Lapsed, Distinct;
      ghost var before, lapsed := list, Lapsed(list, looks, timeout);
      var next, pending := |list|, -1;
      timeouts := [];
      NothingSwept(before, lapsed);
      while true
        invariant 0 <= next <= |before|
        invariant pending == -1 || (pending == next && next < |before|)
        invariant list == Unswept(before, next, pending, lapsed)
        invariant pending != -1 ==> Leaves(before[next], lapsed)
        invariant timeouts == TimedOut(before[next..], lapsed)
        decreases next
      {
        // The iterator moves on first, and only then is the node it left behind removed.
        var node := next - 1;
        if pending != -1 {
          RemovePending(before, next, lapsed);
          list := list[..pending] + list[pending + 1..];
          pending := -1;
        }
        if node < 0 {
          break;
        }
        Visit(before, node, lapsed);
        LapsedIff(before, looks, timeout, node);
        next := node;
        if list[node].acked {
          pending := node;
          continue;
        }
        if !looks[node].connected {
          continue;
        }
        if looks[node].spent <= (2 * timeout) % (UINT32_MAX + 1) {
          continue;
        }
        timeouts := timeouts + [list[node].id];
        pending := node;
      }
      assert before[0..] == before && list == [] + Kept(before[0..], lapsed);
      SweepFates(before, looks, timeout);
    }
  }

  /** What a sweep finds when it examines a node: is the client connected, and the milliseconds since the
      publish. */
  datatype Look = Look(connected: bool, spent: nat)
  {
    /** The limit is twice the request timeout, in 32 bits. */
    predicate Overdue(timeout: uint32) {
      connected && spent > (2 * timeout) % (UINT32_MAX + 1)
    }
  }

  /** The nodes examined while connected and overdue. */
  function Lapsed(list: seq<Node>, looks: seq<Look>, timeout: uint32): set<nat>
    requires |looks| == |list|
  {
    set k | 0 <= k < |list| && looks[k].Overdue(timeout) :: list[k].id
  }

  lemma LapsedIff(list: seq<Node>, looks: seq<Look>, timeout: uint32, k: nat)
    requires |looks| == |list| && k < |list| && Distinct(IdsOf(list))
    ensures list[k].id in Lapsed(list, looks, timeout) <==> looks[k].Overdue(timeout)
  {
    if list[k].id in Lapsed(list, looks, timeout) {
      var j :| 0 <= j < |list| && looks[j].Overdue(timeout) && list[j].id == list[k].id;
      assert IdsOf(list)[j] == IdsOf(list)[k];
    }
  }

  /** The list once the nodes from `next` on have been visited, the node at `next` still to be removed
      if it is pending. */
  ghost function Unswept(before: seq<Node>, next: nat, pending: int, lapsed: set<nat>): seq<Node>
    requires next <= |before| && (pending != -1 ==> next < |before|)
  {
    (if pending == -1 then before[..next] else before[..next + 1]) + Kept(before[next..], lapsed)
  }

  lemma NothingSwept(before: seq<Node>, lapsed: set<nat>)
    ensures Unswept(before, |before|, -1, lapsed) == before && TimedOut(before[|before|..], lapsed) == []
  {
  }

  lemma RemovePending(before: seq<Node>, next: nat, lapsed: set<nat>)
    requires next < |before|
    ensures var list := Unswept(before, next, next, lapsed);
            next < |list| && list[..next] + list[next + 1..] == Unswept(before, next, -1, lapsed)
  {
    hide Kept;
    var list := Unswept(before, next, next, lapsed);
    assert list[..next] == before[..next] && list[next + 1..] == Kept(before[next..], lapsed);
  }

  /** Visiting one more node: it stays if it should, and otherwise is left pending. */
  lemma Visit(before: seq<Node>, node: nat, lapsed: set<nat>)
    requires node < |before|
    ensures var list := Unswept(before, node + 1, -1, lapsed);
            && node < |list| && list[node] == before[node]
            && list == Unswept(before, node, if Leaves(before[node], lapsed) then node else -1, lapsed)
    ensures TimedOut(before[node..], lapsed) ==
            TimedOut(before[node + 1..], lapsed) + if TimesOut(before[node], lapsed) then [before[node].id] else []
  {
    assert before[node..][1..] == before[node + 1..];
    var kept := Kept(before[node + 1..], lapsed);
    assert before[..node + 1] == before[..node] + [before[node]];
    assert before[..node + 1] + kept == before[..node] + ([before[node]] + kept);
  }

  // ---------------------------------------------------------------- what a sweep does

  predicate Distinct(ids: seq<nat>) {
    forall i, j :: 0 <= i < j < |ids| ==> ids[i] != ids[j]
  }

  function IdsOf(list: seq<Node>): (ids: seq<nat>)
    ensures |ids| == |list| && forall i :: 0 <= i < |list| ==> ids[i] == list[i].id
  {
    seq(|list|, i requires 0 <= i < |list| => list[i].id)
  }

  /** The identifiers of the nodes that leave, last node first. */
  function Gone(list: seq<Node>, lapsed: set<nat>): seq<nat> {
    if list == [] then []
    else Gone(list[1..], lapsed) + if Leaves(list[0], lapsed) then [list[0].id] else []
  }

  /** A sweep splits the list: what is kept is what does not leave, in the same order; every node
      leaves or stays, not both; and the nodes that time out are nodes that leave unacknowledged. */
  lemma {:induction false} SweepSplits(list: seq<Node>, lapsed: set<nat>)
    requires Distinct(IdsOf(list))
    ensures forall n :: n in Kept(list, lapsed) <==> n in list && !Leaves(n, lapsed)
    ensures forall id :: id in Gone(list, lapsed) <==> exists n :: n in list && n.id == id && Leaves(n, lapsed)
    ensures forall id :: id in TimedOut(list, lapsed) <==> exists n :: n in list && n.id == id && TimesOut(n, lapsed)
    ensures |Kept(list, lapsed)| + |Gone(list, lapsed)| == |list|
  {
    if list != [] {
      assert IdsOf(list[1..]) == IdsOf(list)[1..];
      SweepSplits(list[1..], lapsed);
      assert list == [list[0]] + list[1..];
    }
  }

  /** What happens to each node of a sweep. */
  lemma {:induction false} SweepFates(list: seq<Node>, looks: seq<Look>, timeout: uint32)
    requires |looks| == |list| && Distinct(IdsOf(list))
    ensures var lapsed := Lapsed(list, looks, timeout);
            forall k :: 0 <= k < |list| ==>
              var n := list[k];
              var late := looks[k].connected && looks[k].spent > (2 * timeout) % (UINT32_MAX + 1);
              && (n in Kept(list, lapsed) <==> !n.acked && !late)
              && (n.id in TimedOut(list, lapsed) <==> !n.acked && late)
  {
    hide Lapsed, Kept, TimedOut;
    var lapsed := Lapsed(list, looks, timeout);
    SweepSplits(list, lapsed);
    forall k | 0 <= k < |list|
      ensures list[k] in Kept(list, lapsed) <==> !list[k].acked && !looks[k].Overdue(timeout)
      ensures list[k].id in TimedOut(list, lapsed) <==> !list[k].acked && looks[k].Overdue(timeout)
    {
      LapsedIff(list, looks, timeout, k);
      SameNode(list, list[k]);
    }
  }

  /** The limit is twice the timeout exactly when that fits 32 bits. */
  lemma LimitIff(timeout: uint32)
    ensures (forall spent: nat :: Look(true, spent).Overdue(timeout) <==> spent > 2 * timeout) <==>
            timeout < 0x8000_0000
  {
    if timeout >= 0x8000_0000 {
      assert Look(true, 2 * timeout).Overdue(timeout);
    }
  }

  lemma DistinctRest(list: seq<Node>)
    requires list != [] && Distinct(IdsOf(list))
    ensures Distinct(IdsOf(list[1..])) && forall n :: n in list[1..] ==> n.id != list[0].id
  {
    assert IdsOf(list[1..]) == IdsOf(list)[1..];
    forall n | n in list[1..] ensures n.id != list[0].id {
      var i :| 0 <= i < |list[1..]| && list[1..][i] == n;
      assert IdsOf(list)[i + 1] != IdsOf(list)[0];
    }
  }

  lemma {:induction false} SweepDistinct(list: seq<Node>, lapsed: set<nat>)
    requires Distinct(IdsOf(list))
    ensures Distinct(IdsOf(Kept(list, lapsed))) && Distinct(Gone(list, lapsed)) && Distinct(TimedOut(list, lapsed))
  {
    if list != [] {
      var head, rest := list[0], list[1..];
      DistinctRest(list);
      SweepDistinct(rest, lapsed);
      SweepSplits(rest, lapsed);
      var kept, gone, late := Kept(rest, lapsed), Gone(rest, lapsed), TimedOut(rest, lapsed);
      assert Kept(list, lapsed) == (if Leaves(head, lapsed) then [] else [head]) + kept;
      assert Gone(list, lapsed) == gone + if Leaves(head, lapsed) then [head.id] else [];
      assert TimedOut(list, lapsed) == late + if TimesOut(head, lapsed) then [head.id] else [];
      hide Kept, Gone, TimedOut, Leaves, TimesOut, Distinct;
      DistinctFront(head, kept);
      DistinctBack(gone, head.id);
      DistinctBack(late, head.id);
      assert [] + kept == kept && gone + [] == gone && late + [] == late;
    }
  }

  lemma DistinctFront(head: Node, list: seq<Node>)
    requires Distinct(IdsOf(list)) && forall n :: n in list ==> n.id != head.id
    ensures Distinct(IdsOf([head] + list))
  {
    assert IdsOf([head] + list) == [head.id] + IdsOf(list);
  }

  lemma DistinctBack(ids: seq<nat>, id: nat)
    requires Distinct(ids) && id !in ids
    ensures Distinct(ids + [id])
  {
  }

  /** `part` is found in `list` at the rising positions `at`. */
  predicate Embeds(at: seq<nat>, list: seq<Node>, part: seq<Node>) {
    && |at| == |part|
    && (forall k :: 0 <= k < |at| ==> at[k] < |list| && list[at[k]] == part[k])
    && (forall j, k :: 0 <= j < k < |at| ==> at[j] < at[k])
  }

  function Shifted(at: seq<nat>): (up: seq<nat>)
    ensures |up| == |at| && forall k :: 0 <= k < |at| ==> up[k] == at[k] + 1
  {
    seq(|at|, k requires 0 <= k < |at| => at[k] + 1)
  }

  lemma EmbedsOn(at: seq<nat>, list: seq<Node>, part: seq<Node>)
    requires list != [] && Embeds(at, list[1..], part)
    ensures Embeds(Shifted(at), list, part) && Embeds([0] + Shifted(at), list, [list[0]] + part)
  {
    var up := Shifted(at);
    assert forall k :: 0 <= k < |at| ==> list[up[k]] == list[1..][at[k]];
  }

  /** The kept nodes stand in the order they stood in. */
  lemma {:induction false} KeptInOrder(list: seq<Node>, lapsed: set<nat>) returns (at: seq<nat>)
    ensures Embeds(at, list, Kept(list, lapsed))
  {
    at := [];
    if list != [] {
      var rest := KeptInOrder(list[1..], lapsed);
      EmbedsOn(rest, list, Kept(list[1..], lapsed));
      hide Embeds;
      at := if Leaves(list[0], lapsed) then Shifted(rest) else [0] + Shifted(rest);
      assert [] + Kept(list[1..], lapsed) == Kept(list[1..], lapsed);
    }
  }

  // ---------------------------------------------------------------- runs

  /** The list with its history: how many nodes were ever made, which were marked as acknowledged,
      which left the list and which were reported as timed out, in order. */
  datatype History = History(list: seq<Node>, made: nat, acked: set<nat>, left: seq<nat>, timedOut: seq<nat>)

  /** A QoS 1 publish (pushed if there is room and memory, taken back if sending fails), an
      acknowledgement, a sweep. */
  datatype Step =
    | Publish(msgId: nat, hasMemory: bool, sent: bool)
    | Acknowledge(msgId: nat)
    | SweepOnce(lapsed: set<nat>)

  function Apply(h: History, step: Step): History {
    match step
    case Publish(msgId, hasMemory, sent) =>
      if |h.list| >= REPUB_NUM_MAX || !hasMemory then h
      else if sent then h.(list := h.list + [Node(h.made, msgId, false)], made := h.made + 1)
      else h.(left := h.left + [h.made], made := h.made + 1)
    case Acknowledge(msgId) =>
      var i := FindLast(h.list, msgId);
      if i < 0 then h
      else h.(list := h.list[i := h.list[i].(acked := true)], acked := h.acked + {h.list[i].id})
    case SweepOnce(lapsed) =>
      h.(list := Kept(h.list, lapsed), left := h.left + Gone(h.list, lapsed),
         timedOut := h.timedOut + TimedOut(h.list, lapsed))
  }

  function After(h: History, run: seq<Step>): History
    decreases |run|
  {
    if run == [] then h else After(Apply(h, run[0]), run[1..])
  }

  ghost predicate Inv(h: History) {
    && |h.list| <= REPUB_NUM_MAX
    && Distinct(IdsOf(h.list)) && Distinct(h.left) && Distinct(h.timedOut)
    // every node made is in the list or has left it, not both
    && (forall id: nat :: id < h.made <==> id in IdsOf(h.list) || id in h.left)
    && (forall n :: n in h.list ==> n.id !in h.left)
    // timed-out nodes have left, and were never acknowledged
    && (forall id :: id in h.timedOut ==> id in h.left && id !in h.acked)
    && (forall n :: n in h.list ==> (n.acked <==> n.id in h.acked))
    && (forall id :: id in h.acked ==> id < h.made)
  }

  lemma DistinctSum(a: seq<nat>, b: seq<nat>)
    requires Distinct(a) && Distinct(b) && forall x :: x in a ==> x !in b
    ensures Distinct(a + b)
  {
    forall i, j | 0 <= i < j < |a + b| ensures (a + b)[i] != (a + b)[j] {
      if i < |a| <= j {
        assert a[i] in a && b[j - |a|] in b;
      }
    }
  }

  lemma IdIn(list: seq<Node>, id: nat)
    ensures id in IdsOf(list) <==> exists n :: n in list && n.id == id
  {
    if id in IdsOf(list) {
      var i :| 0 <= i < |list| && IdsOf(list)[i] == id;
      assert list[i] in list;
    }
    if n :| n in list && n.id == id {
      var i :| 0 <= i < |list| && list[i] == n;
      assert IdsOf(list)[i] == id;
    }
  }

  lemma PublishKeeps(h: History, msgId: nat, hasMemory: bool, sent: bool)
    requires Inv(h)
    ensures Inv(Apply(h, Publish(msgId, hasMemory, sent)))
  {
    var h' := Apply(h, Publish(msgId, hasMemory, sent));
    assert h.made !in IdsOf(h.list) && h.made !in h.left;
    if |h.list| < REPUB_NUM_MAX && hasMemory {
      if sent {
        var n := Node(h.made, msgId, false);
        assert IdsOf(h'.list) == IdsOf(h.list) + [h.made];
        DistinctSum(IdsOf(h.list), [h.made]);
        assert forall m :: m in h'.list <==> m in h.list || m == n;
      } else {
        DistinctSum(h.left, [h.made]);
        forall n | n in h.list ensures n.id != h.made {
          IdIn(h.list, n.id);
        }
      }
    }
  }

  lemma AcknowledgeKeeps(h: History, msgId: nat)
    requires Inv(h)
    ensures Inv(Apply(h, Acknowledge(msgId)))
  {
    var h', i := Apply(h, Acknowledge(msgId)), FindLast(h.list, msgId);
    if i >= 0 {
      var id := h.list[i].id;
      assert IdsOf(h'.list) == IdsOf(h.list);
      assert h.list[i] in h.list;
      IdIn(h.list, id);
      forall n | n in h'.list ensures n.id !in h.left && (n.acked <==> n.id in h'.acked) {
        var k :| 0 <= k < |h'.list| && h'.list[k] == n;
        assert h.list[k] in h.list;
        if k != i {
          assert IdsOf(h.list)[k] != IdsOf(h.list)[i];
        }
      }
    }
  }

  lemma SweepKeeps(h: History, lapsed: set<nat>)
    requires Inv(h)
    ensures Inv(Apply(h, SweepOnce(lapsed)))
  {
    var h' := Apply(h, SweepOnce(lapsed));
    var gone, late := Gone(h.list, lapsed), TimedOut(h.list, lapsed);
    SweepSplits(h.list, lapsed);
    SweepDistinct(h.list, lapsed);
    forall id | id in gone ensures id !in h.left && id in IdsOf(h.list) {
      IdIn(h.list, id);
    }
    DistinctSum(h.left, gone);
    forall id | id in late ensures id in gone && id !in h.acked {
    }
    DistinctSum(h.timedOut, late);
    forall id: nat ensures id < h'.made <==> id in IdsOf(h'.list) || id in h'.left {
      IdIn(h.list, id);
      IdIn(h'.list, id);
    }
    forall n | n in h'.list ensures n.id !in h'.left {
      SameNode(h.list, n);
    }
  }

  /** Nodes with the same identifier are the same node. */
  lemma SameNode(list: seq<Node>, n: Node)
    requires Distinct(IdsOf(list)) && n in list
    ensures forall m :: m in list && m.id == n.id ==> m == n
  {
    var i :| 0 <= i < |list| && list[i] == n;
    forall m | m in list && m.id == n.id ensures m == n {
      var j :| 0 <= j < |list| && list[j] == m;
      assert IdsOf(list)[i] == IdsOf(list)[j];
    }
  }

  lemma {:induction false} RunKeeps(h: History, run: seq<Step>)
    requires Inv(h)
    ensures Inv(After(h, run))
    decreases |run|
  {
    if run != [] {
      match run[0] {
        case Publish(msgId, hasMemory, sent) => PublishKeeps(h, msgId, hasMemory, sent);
        case Acknowledge(msgId) => AcknowledgeKeeps(h, msgId);
        case SweepOnce(lapsed) => SweepKeeps(h, lapsed);
      }
      RunKeeps(Apply(h, run[0]), run[1..]);
    }
  }

  /** The fate of a waiting message in every step: it stays as it is, is marked by an acknowledgement of its
      packet, or is swept away, reported exactly if it was not acknowledged. */
  lemma NodeFate(h: History, step: Step, n: Node)
    requires Inv(h) && n in h.list
    ensures var g := Apply(h, step);
            match step
            case Publish(_, _, _) => n in g.list && g.timedOut == h.timedOut
            case Acknowledge(msgId) =>
              n in g.list || (n.msgId == msgId && n.(acked := true) in g.list && n.id in g.acked)
            case SweepOnce(lapsed) =>
              && (n in g.list <==> !n.acked && n.id !in lapsed)
              && (n.id in g.left <==> n.acked || n.id in lapsed)
              && (n.id in g.timedOut <==> !n.acked && n.id in lapsed)
  {
    match step
    case Publish(_, _, _) =>
    case Acknowledge(msgId) =>
      var g, i := Apply(h, step), FindLast(h.list, msgId);
      var k := PlaceOf(h.list, n);
      if i >= 0 && i != k {
        assert g.list[k] == n;
      } else if i >= 0 {
        assert g.list[i] == n.(acked := true);
      }
    case SweepOnce(lapsed) =>
      SweepSplits(h.list, lapsed);
      SameNode(h.list, n);
  }

  lemma PlaceOf(list: seq<Node>, n: Node) returns (k: nat)
    requires n in list
    ensures k < |list| && list[k] == n
  {
    k :| k < |list| && list[k] == n;
  }

  /** A publish waits exactly when there is room and memory and it could be sent; it is then the last one. */
  lemma PublishWaitsIff(h: History, msgId: nat, hasMemory: bool, sent: bool)
    ensures var g := Apply(h, Publish(msgId, hasMemory, sent));
            g.list == h.list + if |h.list| < 8 && hasMemory && sent then [Node(h.made, msgId, false)] else []
  {
    assert h.list + [] == h.list;
  }

  /** An acknowledgement marks the last message waiting under its packet identifier, and only that one. */
  lemma AcknowledgeMarks(h: History, msgId: nat, k: nat)
    requires k < |h.list| && h.list[k].msgId == msgId && forall j :: k < j < |h.list| ==> h.list[j].msgId != msgId
    ensures Apply(h, Acknowledge(msgId)).list == h.list[k := h.list[k].(acked := true)]
    ensures h.list[k].id in Apply(h, Acknowledge(msgId)).acked
  {
    var i := FindLast(h.list, msgId);
    assert i == k;
  }

  lemma EmptyInv()
    ensures Inv(History([], 0, {}, [], []))
  {
  }

  /** In every run from the empty list: at most eight nodes wait; every node made waits or has left, and
      left once; none is timed out twice, and none that was acknowledged is ever timed out. */
  lemma EveryRun(run: seq<Step>)
    ensures var h := After(History([], 0, {}, [], []), run);
            && |h.list| <= REPUB_NUM_MAX
            && (forall id: nat :: id < h.made <==> id in IdsOf(h.list) || id in h.left)
            && (forall n :: n in h.list ==> n.id !in h.left) && Distinct(IdsOf(h.list)) && Distinct(h.left)
            && Distinct(h.timedOut) && (forall id :: id in h.timedOut ==> id in h.left && id !in h.acked)
  {
    EmptyInv();
    RunKeeps(History([], 0, {}, [], []), run);
  }
}
