/** The leaf ranks that travel in a network run. */
module NetworkRanks {
  import opened Words
  import opened ChildTable
  import opened RelayModel
  import opened RelayRuns
  import opened RelayRounds
  import opened Network
  import opened NetworkPaths
  import Aggregate
  import Hops

  /** The rank of a leaf at or below `v`, or 0, which stands for nothing heard. */
  ghost predicate HeardRank(t: Tree, v: nat, x: nat)
    requires WellFormed(t) && v < |t.ids|
  {
    x == 0 || exists u :: 1 <= u < |t.ids| && Descends(t, u, v) && IsLeaf(t, u) && t.rank[u] == x
  }

  /** A packet carries the rank of a leaf below its sender, and a leaf's packet its own rank. */
  ghost predicate RankOk(t: Tree, m: Msg)
    requires WellFormed(t) && MsgTyped(t, m)
  {
    && HeardRank(t, m.src, m.pkt.maxLeafRank)
    && (IsLeaf(t, m.src) ==> m.pkt.maxLeafRank == t.rank[m.src])
  }

  ghost predicate RanksOk(t: Tree, s: Net)
    requires WellFormed(t) && Typed(t, s)
  {
    && (forall i :: 0 <= i < |s.flight| ==> RankOk(t, s.flight[i]))
    && (forall i :: 0 <= i < |s.sent| ==> RankOk(t, s.sent[i]))
    && (forall v :: 0 <= v < |t.ids| ==> HeardRank(t, v, s.nodes[v].maxLeafRank))
  }

  lemma HeardByParent(t: Tree, c: nat, x: nat)
    requires WellFormed(t) && 1 <= c < |t.ids| && HeardRank(t, c, x)
    ensures HeardRank(t, t.parent[c], x)
  {
    if x != 0 {
      var u :| 1 <= u < |t.ids| && Descends(t, u, c) && IsLeaf(t, u) && t.rank[u] == x;
      DescendsUp(t, u, c);
    }
  }

  lemma EmitRanks(t: Tree, s: Net, v: nat, o: Out)
    requires WellFormed(t) && Typed(t, s) && RanksOk(t, s) && 1 <= v < |t.ids| && Typed(t, Emit(s, v, o))
    requires HeardRank(t, v, o.node.maxLeafRank) && AllComplete(o.sent, t.ids[v])
    requires forall i :: 0 <= i < |o.sent| ==> HeardRank(t, v, o.sent[i].maxLeafRank)
    requires IsLeaf(t, v) ==> forall i :: 0 <= i < |o.sent| ==> o.sent[i].maxLeafRank == t.rank[v]
    ensures RanksOk(t, Emit(s, v, o))
  {
    hide Complete, Bounded, NodeTyped, HeardRank, IsLeaf;
    var r := Emit(s, v, o);
    forall i | 0 <= i < |r.flight| ensures RankOk(t, r.flight[i]) {
      if i < |s.flight| { assert r.flight[i] == s.flight[i]; }
    }
    forall i | 0 <= i < |r.sent| ensures RankOk(t, r.sent[i]) {
      if i < |s.sent| { assert r.sent[i] == s.sent[i]; }
    }
  }

  lemma RelayRanks(t: Tree, s: Net, v: nat, e: Event)
    requires WellFormed(t) && Typed(t, s) && RanksOk(t, s) && 1 <= v < |t.ids| && TopologyEvent(e)
    requires !IsLeaf(t, v) && (e.Arrive? ==> HeardRank(t, v, e.pkt.maxLeafRank))
    ensures var r := Emit(s, v, Step(s.nodes[v], e));
            Typed(t, r) && RanksOk(t, r)
  {
    hide Step, Bounded, TableOf, Complete, Xor, HeardRank, EndsInSplit;
    var n := s.nodes[v];
    assert NodeTyped(t, n, v);
    StepBounded(n, e);
    PathRoom(n);
    StepRank(n, e);
    RelayEmits(t, s, v, e);
    EmitRanks(t, s, v, Step(n, e));
  }

  lemma StepRanks(t: Tree, s: Net, e: NetEvent)
    requires WellFormed(t) && Typed(t, s) && RanksOk(t, s)
    ensures RanksOk(t, NetStep(t, s, e))
  {
    hide Step, Bounded, TableOf, Complete, Xor, HeardRank, NodeTyped;
    if !Enabled(t, s, e) {
      IdleStep(t, s, e);
    } else {
      match e
      case Request(v) =>
        LeafEmits(t, s, v);
        LeafHeard(t, v);
        LeafOk(t, v, t.rank[v]);
        EmitRanks(t, s, v, Out(s.nodes[v], [LeafPacket(t.ids[v], t.rank[v])]));
      case Deliver(k) =>
        var m := s.flight[k];
        var v := t.parent[m.src];
        var rest := s.(flight := s.flight[..k] + s.flight[k + 1..]);
        assert RanksOk(t, rest);
        if v != 0 {
          ArrivalIsTopology(t, m);
          assert RankOk(t, m);
          HeardByParent(t, m.src, m.pkt.maxLeafRank);
          ParentIsNoLeaf(t, m.src);
          RelayRanks(t, rest, v, Arrive(t.ids[m.src], m.pkt));
        }
      case Timer(v) =>
        RelayRanks(t, s, v, TopologyTimer);
    }
  }

  lemma ParentIsNoLeaf(t: Tree, c: nat)
    requires |t.ids| == |t.parent| && 1 <= c < |t.ids|
    ensures !IsLeaf(t, t.parent[c])
  {
    TableHas(t, t.parent[c], |t.ids|, c);
  }

  lemma LeafHeard(t: Tree, v: nat)
    requires WellFormed(t) && 1 <= v < |t.ids| && IsLeaf(t, v)
    ensures HeardRank(t, v, t.rank[v])
  {
    assert Descends(t, v, v);
  }

  /**
   In every run, splits and early timers included, a leaf rank that a relay holds or a packet carries
   is that of a real leaf below it, or 0 where nothing has been heard yet.
   */
  lemma {:induction false} HeardRanksAreReal(t: Tree, es: seq<NetEvent>)
    requires WellFormed(t)
    ensures RanksOk(t, NetRun(t, es))
  {
    hide NetStep, HeardRank, NodeTyped;
    if es != [] {
      HeardRanksAreReal(t, es[..|es| - 1]);
      StepRanks(t, NetRun(t, es[..|es| - 1]), es[|es| - 1]);
    } else {
      NothingHeard(t);
    }
  }

  lemma NothingHeard(t: Tree)
    requires WellFormed(t)
    ensures RanksOk(t, Initial(t))
  {
  }

  /** Every node's rank is that of its hop count, and no node is deeper than `depth`. */
  ghost predicate HopRanked(t: Tree, hops: seq<nat>, depth: nat) {
    && |hops| == |t.ids| == |t.rank|
    && forall w :: 0 <= w < |hops| ==> hops[w] <= depth && t.rank[w] == Hops.HopRank(hops[w])
  }

  /**
   In every reachable state the attestation timeout of a relay stays within the hops to its deepest leaf
   exactly when the relay has heard of a leaf. Before that the byte wraps, to 256 minus its own hops.
   */
  lemma TimeoutWithinReach(t: Tree, hops: seq<nat>, es: seq<NetEvent>, v: nat, deepest: nat)
    requires WellFormed(t) && 1 <= v < |t.ids| && HopRanked(t, hops, Hops.MAX_HOPS) && deepest <= Hops.MAX_HOPS
    requires forall u :: 1 <= u < |t.ids| && Descends(t, u, v) && IsLeaf(t, u) ==> hops[u] <= deepest
    ensures var heard := NetRun(t, es).nodes[v].maxLeafRank;
            && (hops[v] + Hops.AttestationTimeout(heard, t.rank[v]) <= deepest <==> heard != 0)
            && (heard == 0 ==> Hops.AttestationTimeout(heard, t.rank[v]) == 256 - hops[v])
  {
    hide Hops.AttestationTimeout;
    HeardRanksAreReal(t, es);
    var x := NetRun(t, es).nodes[v].maxLeafRank;
    assert HeardRank(t, v, x);
    if x == 0 {
      assert t.rank[t.parent[v]] < t.rank[v];
      Hops.UnheardTimeout(hops[v]);
    } else {
      var u :| 1 <= u < |t.ids| && Descends(t, u, v) && IsLeaf(t, u) && t.rank[u] == x;
      DescendsUp(t, u, v);
      Hops.AttestationTimeoutIsDistance(hops[u], hops[v]);
    }
  }

  // ---- A full round teaches every relay its deepest leaf, splits or not ----

  /** The highest rank of a leaf at or below `v`, among the nodes below `k`. */
  ghost function MaxLeaf(t: Tree, v: nat, k: nat): nat
    requires WellFormed(t) && v < |t.ids| && k <= |t.ids|
  {
    if k <= 1 then 0
    else
      var before := MaxLeaf(t, v, k - 1);
      if Descends(t, k - 1, v) && IsLeaf(t, k - 1) then Max(before, t.rank[k - 1]) else before
  }

  ghost function Deepest(t: Tree, v: nat): nat
    requires WellFormed(t) && v < |t.ids|
  {
    MaxLeaf(t, v, |t.ids|)
  }

  lemma {:induction false} MaxLeafIs(t: Tree, v: nat, k: nat)
    requires WellFormed(t) && v < |t.ids| && k <= |t.ids|
    ensures forall u :: 1 <= u < k && Descends(t, u, v) && IsLeaf(t, u) ==> t.rank[u] <= MaxLeaf(t, v, k)
    ensures MaxLeaf(t, v, k) == 0
         || exists u :: 1 <= u < k && Descends(t, u, v) && IsLeaf(t, u) && t.rank[u] == MaxLeaf(t, v, k)
  {
    hide Descends, IsLeaf;
    if k > 1 {
      MaxLeafIs(t, v, k - 1);
    }
  }

  /** No relay ever holds more. */
  lemma HeardAtMost(t: Tree, v: nat, x: nat)
    requires WellFormed(t) && v < |t.ids| && HeardRank(t, v, x)
    ensures x <= Deepest(t, v)
  {
    MaxLeafIs(t, v, |t.ids|);
  }

  /** The node below `v` through which `u` hangs. */
  lemma {:induction false} ChildAbove(t: Tree, u: nat, v: nat) returns (c: nat)
    requires WellFormed(t) && u < |t.ids| && Descends(t, u, v) && u != v
    ensures 1 <= c < |t.ids| && t.parent[c] == v && Descends(t, u, c)
    decreases t.rank[u]
  {
    if t.parent[u] == v {
      c := u;
    } else {
      c := ChildAbove(t, t.parent[u], v);
    }
  }

  /** A relay that has heard the deepest leaf of each child knows its own. */
  lemma HeardChildren(t: Tree, s: Net, v: nat)
    requires WellFormed(t) && Typed(t, s) && RanksOk(t, s) && v < |t.ids| && !IsLeaf(t, v)
    requires forall c :: 1 <= c < |t.ids| && t.parent[c] == v ==> Deepest(t, c) <= s.nodes[v].maxLeafRank
    ensures s.nodes[v].maxLeafRank == Deepest(t, v)
  {
    hide IsLeaf, NodeTyped, Deepest;
    HeardAtMost(t, v, s.nodes[v].maxLeafRank);
    if Deepest(t, v) != 0 {
      DeepestIsALeaf(t, v);
      var u :| 1 <= u < |t.ids| && Descends(t, u, v) && IsLeaf(t, u) && t.rank[u] == Deepest(t, v);
      var c := ChildAbove(t, u, v);
      LeafAtMost(t, u, c);
    }
  }

  lemma DeepestIsALeaf(t: Tree, v: nat)
    requires WellFormed(t) && v < |t.ids| && Deepest(t, v) != 0
    ensures exists u :: 1 <= u < |t.ids| && Descends(t, u, v) && IsLeaf(t, u) && t.rank[u] == Deepest(t, v)
  {
    MaxLeafIs(t, v, |t.ids|);
  }

  lemma LeafAtMost(t: Tree, u: nat, v: nat)
    requires WellFormed(t) && 1 <= u < |t.ids| && v < |t.ids| && Descends(t, u, v) && IsLeaf(t, u)
    ensures t.rank[u] <= Deepest(t, v)
  {
    MaxLeafIs(t, v, |t.ids|);
  }

  /** Nothing a relay has heard is ever forgotten. */
  ghost predicate Grows(s: Net, r: Net) {
    |r.nodes| == |s.nodes| && forall v :: 0 <= v < |s.nodes| ==> s.nodes[v].maxLeafRank <= r.nodes[v].maxLeafRank
  }

  lemma EmitGrows(t: Tree, s: Net, v: nat, e: Event)
    requires WellFormed(t) && Typed(t, s) && 1 <= v < |t.ids| && TopologyEvent(e)
    ensures Grows(s, Emit(s, v, Step(s.nodes[v], e)))
  {
    hide Step, Bounded, TableOf, EndsInSplit;
    assert NodeTyped(t, s.nodes[v], v);
    PathRoom(s.nodes[v]);
    StepRank(s.nodes[v], e);
  }

  lemma DeliveredHeard(t: Tree, s: Net, k: nat)
    requires WellFormed(t) && Typed(t, s) && RanksOk(t, s) && k < |s.flight|
    ensures var r := NetStep(t, s, Deliver(k));
            var m := s.flight[k];
            && RanksOk(t, r) && Grows(s, r) && 1 <= m.src < |t.ids| && m.pkt.Topology?
            && (t.parent[m.src] != 0 ==> m.pkt.maxLeafRank <= r.nodes[t.parent[m.src]].maxLeafRank)
  {
    hide RanksOk, IsLeaf, Step, TableOf, Bounded, EndsInSplit, TopologyEvent;
    StepRanks(t, s, Deliver(k));
    var m := s.flight[k];
    var v := t.parent[m.src];
    var rest := s.(flight := s.flight[..k] + s.flight[k + 1..]);
    if v != 0 {
      var arrival := Arrive(t.ids[m.src], m.pkt);
      ArrivalIsTopology(t, m);
      DeliveredIsAccepted(t, s, m);
      assert NodeTyped(t, s.nodes[v], v);
      PathRoom(s.nodes[v]);
      StepRank(s.nodes[v], arrival);
      RelayEmits(t, rest, v, arrival);
      EmitGrows(t, rest, v, arrival);
    }
  }

  /** The deepest leaf at or below a leaf is the leaf itself. */
  lemma LeafIsItsDeepest(t: Tree, u: nat)
    requires WellFormed(t) && 1 <= u < |t.ids| && IsLeaf(t, u)
    ensures Deepest(t, u) <= t.rank[u]
  {
    if Deepest(t, u) != 0 {
      DeepestIsALeaf(t, u);
      var w :| 1 <= w < |t.ids| && Descends(t, w, u) && IsLeaf(t, w) && t.rank[w] == Deepest(t, u);
      if w != u {
        var c := ChildAbove(t, w, u);
        TableHas(t, u, |t.ids|, c);
        assert false;
      }
    }
  }

  /** Some copy of a packet that was sent is no longer in the air. */
  ghost predicate Delivered(s: Net, m: Msg) {
    multiset(s.flight)[m] < multiset(s.sent)[m]
  }

  /** Every parent has heard the rank of every packet delivered to it. */
  ghost predicate AllHeard(t: Tree, s: Net)
    requires WellFormed(t) && Typed(t, s)
  {
    forall m: Msg :: Delivered(s, m) && 1 <= m.src < |t.ids| && m.pkt.Topology? && t.parent[m.src] != 0 ==>
      m.pkt.maxLeafRank <= s.nodes[t.parent[m.src]].maxLeafRank
  }

  lemma EmitDelivers(s: Net, v: nat, o: Out, m: Msg)
    requires v < |s.nodes|
    ensures Delivered(Emit(s, v, o), m) <==> Delivered(s, m)
  {
    var w := Wrap(v, o.sent);
    assert multiset(s.flight + w) == multiset(s.flight) + multiset(w);
    assert multiset(s.sent + w) == multiset(s.sent) + multiset(w);
  }

  /** What a step that only emits keeps. */
  lemma EmitHeard(t: Tree, s: Net, v: nat, o: Out)
    requires WellFormed(t) && Typed(t, s) && AllHeard(t, s) && v < |s.nodes| && Typed(t, Emit(s, v, o))
    requires Grows(s, Emit(s, v, o))
    ensures AllHeard(t, Emit(s, v, o))
  {
    hide NodeTyped, Delivered;
    var r := Emit(s, v, o);
    forall m: Msg | Delivered(r, m) && 1 <= m.src < |t.ids| && m.pkt.Topology? && t.parent[m.src] != 0
      ensures m.pkt.maxLeafRank <= r.nodes[t.parent[m.src]].maxLeafRank
    {
      EmitDelivers(s, v, o, m);
    }
  }

  lemma DeliverDelivers(t: Tree, s: Net, k: nat, m: Msg)
    requires WellFormed(t) && Typed(t, s) && k < |s.flight| && m != s.flight[k]
    ensures Delivered(NetStep(t, s, Deliver(k)), m) <==> Delivered(s, m)
  {
    hide NodeTyped, Complete, Delivered, Step;
    var src := s.flight[k].src;
    var v := t.parent[src];
    var rest := s.(flight := s.flight[..k] + s.flight[k + 1..]);
    RestTyped(t, s, k);
    RemoveDelivers(s, k, m);
    if v != 0 {
      ArrivalIsTopology(t, s.flight[k]);
      RelayEmits(t, rest, v, Arrive(t.ids[src], s.flight[k].pkt));
      EmitDelivers(rest, v, Step(s.nodes[v], Arrive(t.ids[src], s.flight[k].pkt)), m);
    } else {
      SameAir(rest, rest.(received := s.received + [s.flight[k]]), m);
    }
  }

  lemma RemoveDelivers(s: Net, k: nat, m: Msg)
    requires k < |s.flight| && m != s.flight[k]
    ensures Delivered(s.(flight := s.flight[..k] + s.flight[k + 1..]), m) <==> Delivered(s, m)
  {
    MultisetRemove(s.flight, k);
  }

  lemma SameAir(s: Net, r: Net, m: Msg)
    requires r.flight == s.flight && r.sent == s.sent
    ensures Delivered(r, m) <==> Delivered(s, m)
  {
  }

  lemma DeliverHeard(t: Tree, s: Net, k: nat)
    requires WellFormed(t) && Typed(t, s) && RanksOk(t, s) && AllHeard(t, s) && k < |s.flight|
    ensures AllHeard(t, NetStep(t, s, Deliver(k)))
  {
    hide RanksOk, NetStep, Typed, Delivered;
    var r := NetStep(t, s, Deliver(k));
    DeliveredHeard(t, s, k);
    TypedSize(t, s);
    forall m: Msg | Delivered(r, m) && 1 <= m.src < |t.ids| && m.pkt.Topology? && t.parent[m.src] != 0
      ensures m.pkt.maxLeafRank <= r.nodes[t.parent[m.src]].maxLeafRank
    {
      if m != s.flight[k] {
        DeliverDelivers(t, s, k, m);
      }
    }
  }

  lemma TypedSize(t: Tree, s: Net)
    requires WellFormed(t) && Typed(t, s)
    ensures |s.nodes| == |t.ids|
  {
  }

  lemma StepHeard(t: Tree, s: Net, e: NetEvent)
    requires WellFormed(t) && Typed(t, s) && RanksOk(t, s) && AllHeard(t, s)
    ensures AllHeard(t, NetStep(t, s, e))
  {
    hide RanksOk, AllHeard, Step, TableOf, Bounded, NodeTyped, Complete, Xor, Grows, IsLeaf;
    if !Enabled(t, s, e) {
      IdleStep(t, s, e);
    } else {
      match e
      case Request(v) =>
        var o := Out(s.nodes[v], [LeafPacket(t.ids[v], t.rank[v])]);
        LeafEmits(t, s, v);
        SameGrows(s, Emit(s, v, o));
        EmitHeard(t, s, v, o);
      case Deliver(k) =>
        DeliverHeard(t, s, k);
      case Timer(v) =>
        RelayEmits(t, s, v, TopologyTimer);
        EmitGrows(t, s, v, TopologyTimer);
        EmitHeard(t, s, v, Step(s.nodes[v], TopologyTimer));
    }
  }

  lemma SameGrows(s: Net, r: Net)
    requires r.nodes == s.nodes
    ensures Grows(s, r)
  {
  }

  /** In every run, what has been delivered has been heard. */
  lemma {:induction false} DeliveredRanksAreHeard(t: Tree, es: seq<NetEvent>)
    requires WellFormed(t)
    ensures AllHeard(t, NetRun(t, es))
  {
    hide NetStep, NodeTyped, AllHeard;
    if es == [] {
      NothingDelivered(t);
    } else {
      DeliveredRanksAreHeard(t, es[..|es| - 1]);
      HeardRanksAreReal(t, es[..|es| - 1]);
      StepHeard(t, NetRun(t, es[..|es| - 1]), es[|es| - 1]);
    }
  }

  lemma NothingDelivered(t: Tree)
    requires WellFormed(t)
    ensures AllHeard(t, Initial(t))
  {
  }

  /**
   A packet of `u` has been delivered which, if `u` is a relay, carries all `u` knows now.
   */
  ghost predicate Told(t: Tree, s: Net, u: nat)
    requires WellFormed(t) && Typed(t, s) && 1 <= u < |t.ids|
  {
    exists m: Msg :: Delivered(s, m) && m.src == u && m.pkt.Topology?
      && (!IsLeaf(t, u) ==> m.pkt.maxLeafRank == s.nodes[u].maxLeafRank)
  }

  /** Everything below `v` has had its say. */
  ghost predicate FullRound(t: Tree, s: Net, v: nat)
    requires WellFormed(t) && Typed(t, s)
  {
    forall u :: 1 <= u < |t.ids| && u != v && Descends(t, u, v) ==> Told(t, s, u)
  }

  lemma LeafTold(t: Tree, s: Net, c: nat)
    requires WellFormed(t) && Typed(t, s) && RanksOk(t, s) && AllHeard(t, s)
    requires 1 <= c < |t.ids| && IsLeaf(t, c) && t.parent[c] != 0 && Told(t, s, c)
    ensures Deepest(t, c) <= s.nodes[t.parent[c]].maxLeafRank
  {
    hide IsLeaf, NodeTyped, MsgTyped, Deepest, HeardRank;
    var m: Msg :| Delivered(s, m) && m.src == c && m.pkt.Topology?;
    assert m in multiset(s.sent);
    var i :| 0 <= i < |s.sent| && s.sent[i] == m;
    assert RankOk(t, s.sent[i]);
    LeafIsItsDeepest(t, c);
  }

  /**
   A full round, in whatever order: in every reachable state in which each node below a relay has had
   a packet delivered that carries what the node knows now, the relay holds exactly the highest leaf
   rank below it, whatever was split, sent early or is still in the air.
   */
  lemma {:induction false} FullRoundTeachesDepth(t: Tree, es: seq<NetEvent>, v: nat)
    requires WellFormed(t) && 1 <= v < |t.ids| && !IsLeaf(t, v) && FullRound(t, NetRun(t, es), v)
    ensures NetRun(t, es).nodes[v].maxLeafRank == Deepest(t, v)
    decreases Aggregate.Top(t.rank) - t.rank[v]
  {
    hide RanksOk, Typed, Deepest, NetRun, IsLeaf, AllHeard, Told;
    var s := NetRun(t, es);
    HeardRanksAreReal(t, es);
    DeliveredRanksAreHeard(t, es);
    TypedSize(t, s);
    forall c | 1 <= c < |t.ids| && t.parent[c] == v ensures Deepest(t, c) <= s.nodes[v].maxLeafRank {
      ChildInRound(t, s, v, c);
      if IsLeaf(t, c) {
        LeafTold(t, s, c);
      } else {
        FullRoundTeachesDepth(t, es, c);
        RelayTold(t, s, c);
      }
    }
    HeardChildren(t, s, v);
  }

  lemma ChildInRound(t: Tree, s: Net, v: nat, c: nat)
    requires WellFormed(t) && Typed(t, s) && FullRound(t, s, v) && 1 <= c < |t.ids| && t.parent[c] == v
    ensures Told(t, s, c) && FullRound(t, s, c)
  {
    hide Typed, Told;
    assert Descends(t, c, c);
    DescendsUp(t, c, c);
    forall u | 1 <= u < |t.ids| && u != c && Descends(t, u, c) ensures Told(t, s, u) {
      DescendsUp(t, u, c);
    }
  }

  lemma RelayTold(t: Tree, s: Net, c: nat)
    requires WellFormed(t) && Typed(t, s) && AllHeard(t, s)
    requires 1 <= c < |t.ids| && !IsLeaf(t, c) && t.parent[c] != 0 && Told(t, s, c)
    ensures s.nodes[c].maxLeafRank <= s.nodes[t.parent[c]].maxLeafRank
  {
    hide IsLeaf, NodeTyped, Delivered;
  }

  // ---- The timeouts after a full round ----

  lemma {:induction false} SomeChild(t: Tree, v: nat, k: nat) returns (c: nat)
    requires |t.ids| == |t.parent| && k <= |t.ids| && TableOf(t, v, k) != []
    ensures 1 <= c < k && t.parent[c] == v
  {
    if t.parent[k - 1] == v {
      c := k - 1;
    } else {
      c := SomeChild(t, v, k - 1);
    }
  }

  /** There is a leaf below every node. */
  lemma {:induction false} SomeLeaf(t: Tree, hops: seq<nat>, depth: nat, v: nat) returns (u: nat)
    requires WellFormed(t) && HopRanked(t, hops, depth) && 1 <= v < |t.ids|
    ensures 1 <= u < |t.ids| && Descends(t, u, v) && IsLeaf(t, u)
    decreases depth - hops[v]
  {
    if IsLeaf(t, v) {
      u := v;
    } else {
      var c := SomeChild(t, v, |t.ids|);
      u := SomeLeaf(t, hops, depth, c);
      DescendsUp(t, u, c);
    }
  }

  /** After a full round a relay's attestation timeout is the distance in hops to its deepest leaf `u`. */
  lemma FullRoundMeasuresDepth(t: Tree, hops: seq<nat>, es: seq<NetEvent>, v: nat) returns (u: nat)
    requires WellFormed(t) && HopRanked(t, hops, Hops.MAX_HOPS)
    requires 1 <= v < |t.ids| && !IsLeaf(t, v) && FullRound(t, NetRun(t, es), v)
    ensures 1 <= u < |t.ids| && Descends(t, u, v) && IsLeaf(t, u)
    ensures forall w :: 1 <= w < |t.ids| && Descends(t, w, v) && IsLeaf(t, w) ==> hops[w] <= hops[u]
    ensures hops[v] <= hops[u]
    ensures Hops.AttestationTimeout(NetRun(t, es).nodes[v].maxLeafRank, t.rank[v]) == hops[u] - hops[v]
  {
    hide NetRun, FullRound, IsLeaf, Deepest, Hops.AttestationTimeout, Typed;
    FullRoundTeachesDepth(t, es, v);
    var some := SomeLeaf(t, hops, Hops.MAX_HOPS, v);
    LeafAtMost(t, some, v);
    DeepestIsALeaf(t, v);
    u :| 1 <= u < |t.ids| && Descends(t, u, v) && IsLeaf(t, u) && t.rank[u] == Deepest(t, v);
    forall w | 1 <= w < |t.ids| && Descends(t, w, v) && IsLeaf(t, w) ensures hops[w] <= hops[u] {
      LeafAtMost(t, w, v);
    }
    DescendsUp(t, u, v);
    Hops.AttestationTimeoutIsDistance(hops[u], hops[v]);
  }

  /**
   In a tree of depth at most NUM_NODES, after a full round, a relay waits at least one unit longer than
   each relay among its children, in both phases.
   */
  lemma FullRoundParentsWaitLonger(t: Tree, hops: seq<nat>, es: seq<NetEvent>, c: nat)
    requires WellFormed(t) && HopRanked(t, hops, Hops.NUM_NODES)
    requires 1 <= c < |t.ids| && !IsLeaf(t, c) && t.parent[c] != 0
    requires FullRound(t, NetRun(t, es), t.parent[c])
    ensures var v, s := t.parent[c], NetRun(t, es);
            && Hops.TopologyTimeout(t.rank[v]) >= Hops.TopologyTimeout(t.rank[c]) + 1
            && Hops.AttestationTimeout(s.nodes[v].maxLeafRank, t.rank[v])
            >= Hops.AttestationTimeout(s.nodes[c].maxLeafRank, t.rank[c]) + 1
  {
    hide NetRun, FullRound, IsLeaf, Hops.AttestationTimeout, Hops.TopologyTimeout, Typed;
    var v := t.parent[c];
    ParentIsNoLeaf(t, c);
    ChildInRound(t, NetRun(t, es), v, c);
    var deepV := FullRoundMeasuresDepth(t, hops, es, v);
    var deepC := FullRoundMeasuresDepth(t, hops, es, c);
    DescendsUp(t, deepC, c);
    Hops.TopologyTimeoutCountsHops(hops[v]);
    Hops.TopologyTimeoutCountsHops(hops[c]);
  }
}
