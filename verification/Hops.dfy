/** Hop counts in ranks and the timeouts computed from them (relay-node/udp-relay.c). */
module Hops {
  import opened Words
  import opened ChildTable
  import opened RelayModel
  import opened RelayRuns
  import opened RelayRounds
  import opened Aggregate

  const NUM_NODES := 20
  const RPL_MIN_HOPRANKINC := 256

  /** Rank increase steps of objective function zero for one hop (RFC 6552, section 4.1). */
  const STEP_OF_RANK := 3

  /** The rank of a node `h` hops from the border router. */
  function HopRank(h: nat): nat {
    RPL_MIN_HOPRANKINC * (1 + STEP_OF_RANK * h)
  }

  /** The largest hop count whose rank fits `rpl_rank_t`, 16 bits. */
  const MAX_HOPS := 84

  /** Division of C integers, which truncates toward zero. */
  function CDiv(a: int, b: int): int
    requires b > 0
  {
    if a >= 0 then a / b else -((-a) / b)
  }

  /** `get_attestation_timeout`. */
  function AttestationTimeout(maxLeafRank: nat, rank: nat): nat {
    ToByte(CDiv(CDiv(maxLeafRank, RPL_MIN_HOPRANKINC) - CDiv(rank, RPL_MIN_HOPRANKINC), 3)) as nat
  }

  /** `get_topology_timeout`. */
  function TopologyTimeout(rank: nat): nat {
    ToByte(NUM_NODES - CDiv(CDiv(rank, RPL_MIN_HOPRANKINC) - 1, 3)) as nat
  }

  lemma HopRankDivides(h: nat)
    ensures CDiv(HopRank(h), RPL_MIN_HOPRANKINC) == 1 + 3 * h
  {
  }

  /** The topology timeout counts down from NUM_NODES with each hop, exactly up to depth NUM_NODES. */
  lemma TopologyTimeoutCountsHops(h: nat)
    requires h <= MAX_HOPS
    ensures TopologyTimeout(HopRank(h)) == NUM_NODES - h <==> h <= NUM_NODES
    ensures h <= 20 ==> TopologyTimeout(256 * (1 + 3 * h)) == 20 - h
  {
    HopRankDivides(h);
    assert CDiv(3 * h, 3) == h;
  }

  /** The attestation timeout is the distance in hops exactly when the leaf is not above the relay. */
  lemma AttestationTimeoutIsDistance(d: nat, h: nat)
    requires d <= MAX_HOPS && h <= MAX_HOPS
    ensures AttestationTimeout(HopRank(d), HopRank(h)) == d - h <==> h <= d
    ensures h <= d ==> AttestationTimeout(256 * (1 + 3 * d), 256 * (1 + 3 * h)) == d - h
  {
    HopRankDivides(d);
    HopRankDivides(h);
    if h <= d {
      assert CDiv(3 * (d - h), 3) == d - h;
    } else {
      assert CDiv(-(3 * (h - d)), 3) == -(h - d);
    }
  }

  /** A relay that has heard of no leaf computes a negative distance, which wraps. */
  lemma UnheardTimeout(h: nat)
    requires 1 <= h <= MAX_HOPS
    ensures AttestationTimeout(0, HopRank(h)) == 256 - h
  {
    HopRankDivides(h);
    var hops: int := h;
    assert CDiv(-(1 + 3 * hops), 3) == -hops;
  }

  // ---- What a full round teaches about the leaves ----

  ghost predicate LeafBelow(g: Graph, v: nat, u: nat)
    requires WellFormed(g)
  {
    v < |g.ids| && u < |g.ids| && Children(g, u) == [] && exists p :: IsDownPath(g, p, v, u)
  }

  /** The rank of a leaf at or below `v`, or 0, which stands for nothing heard. */
  ghost predicate Heard(g: Graph, v: nat, x: nat)
    requires WellFormed(g)
  {
    x == 0 || exists u: nat :: LeafBelow(g, v, u) && g.rank[u] == x
  }

  /** What a node knows at the end of a round: a leaf its own rank, a relay what it has heard. */
  ghost function EndRank(g: Graph, r: Round, v: nat): nat
    requires WellFormed(g) && IsRound(g, r) && v < |g.ids|
  {
    if Children(g, v) == [] then g.rank[v] else Run(r.start[v], r.events[v]).node.maxLeafRank
  }

  /** The node has sent a packet that says all it knows at the end. */
  ghost predicate Tells(g: Graph, r: Round, v: nat)
    requires WellFormed(g) && IsRound(g, r) && v < |g.ids|
  {
    exists i :: 0 <= i < |r.sent[v]| && r.sent[v][i].Topology? && r.sent[v][i].maxLeafRank == EndRank(g, r, v)
  }

  /**
   A round in which everybody tells its parents what it knows: no relay starts with a wrong rank, and
   every node ends up having sent what it knows. A node that only just split has not.
   */
  ghost predicate FullRound(g: Graph, r: Round)
    requires WellFormed(g)
  {
    && IsRound(g, r)
    && (forall v :: 0 <= v < |g.ids| && Children(g, v) != [] ==> Heard(g, v, r.start[v].maxLeafRank))
    && (forall v :: 0 <= v < |g.ids| ==> Tells(g, r, v))
  }

  // ---- Ranks in one relay's run ----

  /** Whatever holds of the rank a relay starts with and of all ranks it accepts holds of all it sends. */
  lemma {:induction false} RanksStayWithin(n: Node, es: seq<Event>, ranks: iset<nat>)
    requires Bounded(n) && TopologyRun(es) && n.maxLeafRank in ranks
    requires forall i :: 0 <= i < |es| && Accepts(n, es[i]) ==> es[i].pkt.maxLeafRank in ranks
    ensures Run(n, es).node.maxLeafRank in ranks
    ensures forall i :: 0 <= i < |Run(n, es).sent| ==>
              Run(n, es).sent[i].Topology? && Run(n, es).sent[i].maxLeafRank in ranks
  {
    hide Step, Has, EndsInSplit, Bounded, Complete, Xor;
    if es != [] {
      var front, e := es[..|es| - 1], es[|es| - 1];
      var m := Run(n, front).node;
      RunBounded(n, front);
      RanksStayWithin(n, front, ranks);
      PathRoom(m);
      AcceptsAlike(n, m, e);
      StepRank(m, e);
    }
  }

  lemma AcceptsAlike(n: Node, m: Node, e: Event)
    requires SameIds(m.table, n.table)
    ensures Accepts(n, e) <==> Accepts(m, e)
  {
    if e.Arrive? {
      if Has(m.table, e.child) { SameIdsHas(m.table, n.table, e.child); }
      if Has(n.table, e.child) { SameIdsHas(n.table, m.table, e.child); }
    }
  }

  /** No accepted rank exceeds what the relay knows at the end. */
  lemma {:induction false} RanksAreHeard(n: Node, es: seq<Event>, i: nat)
    requires Bounded(n) && TopologyRun(es) && i < |es| && Accepts(n, es[i])
    ensures es[i].pkt.maxLeafRank <= Run(n, es).node.maxLeafRank
  {
    hide Step, Has, EndsInSplit, Bounded, Complete, Xor;
    var front, e := es[..|es| - 1], es[|es| - 1];
    var m := Run(n, front).node;
    RunBounded(n, front);
    PathRoom(m);
    AcceptsAlike(n, m, e);
    StepRank(m, e);
    if i < |front| {
      RanksAreHeard(n, front, i);
    }
  }

  // ---- Ranks in a round ----

  lemma {:induction false} ArrivedFrom(es: seq<Event>, id: Id, p: Packet) returns (i: nat)
    requires p in PacketsFrom(es, id)
    ensures i < |es| && es[i] == Arrive(id, p)
  {
    var front, e := es[..|es| - 1], es[|es| - 1];
    if p in PacketsFrom(front, id) {
      i := ArrivedFrom(front, id, p);
    } else {
      i := |es| - 1;
    }
  }

  lemma {:induction false} ArrivalListed(es: seq<Event>, i: nat)
    requires i < |es| && es[i].Arrive?
    ensures es[i].pkt in PacketsFrom(es, es[i].child)
  {
    if i < |es| - 1 {
      ArrivalListed(es[..|es| - 1], i);
    }
  }

  /** What a child sends, its parent accepts. */
  lemma ChildArrives(g: Graph, r: Round, v: nat, c: nat, p: Packet) returns (i: nat)
    requires WellFormed(g) && |r.start| == |r.events| == |r.sent| == |g.ids| && v < |g.ids| && RelayRound(g, v, r)
    requires c in Children(g, v) && c < |g.ids| && p in r.sent[c]
    ensures i < |r.events[v]| && r.events[v][i] == Arrive(g.ids[c], p) && Accepts(r.start[v], r.events[v][i])
  {
    hide Children, TableAt, Run, Bounded, PacketsFrom, Has;
    assert p in multiset(PacketsFrom(r.events[v], g.ids[c]));
    i := ArrivedFrom(r.events[v], g.ids[c], p);
    EdgesAgree(g, v, c);
    SameIdsHas(TableAt(g, v), r.start[v].table, g.ids[c]);
  }

  /** What a child sends, its parent hears. */
  lemma ChildIsHeard(g: Graph, r: Round, v: nat, c: nat, p: Packet)
    requires WellFormed(g) && IsRound(g, r) && v < |g.ids| && c in Children(g, v) && c < |g.ids|
    requires p in r.sent[c]
    ensures p.Topology? && p.maxLeafRank <= EndRank(g, r, v)
  {
    hide Children, LeafRound, Run, Accepts, PacketsFrom;
    assert Children(g, v) != [];
    RelayOfRound(g, r, v);
    var i := ChildArrives(g, r, v, c, p);
    assert TopologyEvent(r.events[v][i]);
    RanksAreHeard(r.start[v], r.events[v], i);
  }

  lemma RelayOfRound(g: Graph, r: Round, v: nat)
    requires WellFormed(g) && IsRound(g, r) && v < |g.ids| && Children(g, v) != []
    ensures RelayRound(g, v, r) && Bounded(r.start[v]) && TopologyRun(r.events[v])
  {
    hide Children, LeafRound, Run, Bounded, TopologyRun;
  }

  /** What a relay accepts, a child has sent. */
  lemma HeardFromChild(g: Graph, r: Round, v: nat, i: nat) returns (c: nat)
    requires WellFormed(g) && |r.start| == |r.events| == |r.sent| == |g.ids| && v < |g.ids| && RelayRound(g, v, r)
    requires i < |r.events[v]| && Accepts(r.start[v], r.events[v][i])
    ensures c in Children(g, v) && c < |g.ids| && r.events[v][i].pkt in r.sent[c]
  {
    hide Children, TableAt, Run, Bounded, PacketsFrom, Has;
    var n, es := r.start[v], r.events[v];
    ChildrenAre(g, v);
    var cs := Children(g, v);
    assert forall j :: 0 <= j < |cs| ==> cs[j] in cs;
    KeepsChildren(g, v, n, es[i]);
    var j :| 0 <= j < |cs| && g.ids[cs[j]] == es[i].child;
    c := cs[j];
    ArrivalListed(es, i);
    assert es[i].pkt in multiset(PacketsFrom(es, g.ids[c]));
  }

  lemma HeardThroughChild(g: Graph, v: nat, c: nat, x: nat)
    requires WellFormed(g) && v < |g.ids| && c in Children(g, v) && Heard(g, c, x)
    ensures Heard(g, v, x)
  {
    hide Children;
    if x != 0 {
      var u: nat :| LeafBelow(g, c, u) && g.rank[u] == x;
      var q :| IsDownPath(g, q, c, u);
      PathExtends(g, v, c, u, q);
      assert LeafBelow(g, v, u);
    }
  }

  lemma LeafHearsItself(g: Graph, v: nat)
    requires WellFormed(g) && v < |g.ids| && Children(g, v) == []
    ensures LeafBelow(g, v, v)
  {
    assert IsDownPath(g, [v], v, v);
  }

  /** Everything a node sends or knows is the rank of a leaf below it, or 0. */
  lemma {:induction false} RanksAreReal(g: Graph, r: Round, v: nat)
    requires WellFormed(g) && FullRound(g, r) && v < |g.ids|
    ensures Heard(g, v, EndRank(g, r, v))
    ensures forall p :: p in r.sent[v] ==> p.Topology? && Heard(g, v, p.maxLeafRank)
    decreases Top(g.rank) - g.rank[v]
  {
    hide Children, RelayRound, Run, Bounded, Heard, Accepts, Tells, LeafBelow, Xor, LeafPacket, TopologyRun;
    if Children(g, v) == [] {
      LeafRanks(g, r, v);
    } else {
      var n, es := r.start[v], r.events[v];
      RelayOfRound(g, r, v);
      ChildrenAre(g, v);
      forall i | 0 <= i < |es| && Accepts(n, es[i]) ensures es[i].Arrive? && Reality(g, v, es[i].pkt) {
        var c := HeardFromChild(g, r, v, i);
        RanksAreReal(g, r, c);
        assert es[i].Arrive? by { AcceptsArrivals(n, es[i]); }
        HeardThroughChild(g, v, c, es[i].pkt.maxLeafRank);
      }
      RelayRanks(g, r, v);
    }
  }

  lemma AcceptsArrivals(n: Node, e: Event)
    requires Accepts(n, e)
    ensures e.Arrive?
  {
  }

  /** The packet carries the rank of a leaf at or below `v`, or 0. */
  ghost predicate Reality(g: Graph, v: nat, p: Packet)
    requires WellFormed(g)
  {
    p.Topology? && Heard(g, v, p.maxLeafRank)
  }

  lemma RelayRanks(g: Graph, r: Round, v: nat)
    requires WellFormed(g) && IsRound(g, r) && v < |g.ids| && Children(g, v) != []
    requires Heard(g, v, r.start[v].maxLeafRank)
    requires forall i :: 0 <= i < |r.events[v]| && Accepts(r.start[v], r.events[v][i]) ==>
               r.events[v][i].Arrive? && Reality(g, v, r.events[v][i].pkt)
    ensures Heard(g, v, EndRank(g, r, v))
    ensures forall p :: p in r.sent[v] ==> p.Topology? && Heard(g, v, p.maxLeafRank)
  {
    hide Children, TableAt, Run, Bounded, Heard, Accepts, Xor, PacketsFrom, TopologyRun;
    RelayOfRound(g, r, v);
    var ranks := iset x: nat | Heard(g, v, x);
    assert forall i :: 0 <= i < |r.events[v]| && Accepts(r.start[v], r.events[v][i]) ==>
      Reality(g, v, r.events[v][i].pkt) && r.events[v][i].pkt.maxLeafRank in ranks;
    RanksStayWithin(r.start[v], r.events[v], ranks);
  }

  lemma LeafRanks(g: Graph, r: Round, v: nat)
    requires WellFormed(g) && IsRound(g, r) && v < |g.ids| && Children(g, v) == []
    ensures Heard(g, v, EndRank(g, r, v))
    ensures forall p :: p in r.sent[v] ==> p.Topology? && Heard(g, v, p.maxLeafRank)
  {
    hide Children, RelayRound, Heard, LeafBelow, Xor;
    LeafHearsItself(g, v);
    HeardLeaf(g, v, v);
    assert LeafRound(g, v, r.sent[v]);
  }

  lemma HeardLeaf(g: Graph, v: nat, u: nat)
    requires WellFormed(g) && LeafBelow(g, v, u)
    ensures Heard(g, v, g.rank[u])
  {
  }

  /** No leaf below a node has a higher rank than the node knows at the end. */
  lemma {:induction false} RankCoversLeaves(g: Graph, r: Round, v: nat, u: nat, p: seq<nat>)
    requires WellFormed(g) && FullRound(g, r) && v < |g.ids| && u < |g.ids|
    requires IsDownPath(g, p, v, u) && Children(g, u) == []
    ensures g.rank[u] <= EndRank(g, r, v)
    decreases |p|
  {
    hide Children, RelayRound, LeafRound, Run, Heard;
    if |p| > 1 {
      var c := p[1];
      assert p[0 + 1] in Children(g, p[0]);
      ChildrenAre(g, v);
      PathShortens(g, v, c, u, p);
      RankCoversLeaves(g, r, c, u, p[1..]);
      assert Tells(g, r, c);
      var i :| 0 <= i < |r.sent[c]| && r.sent[c][i].Topology? && r.sent[c][i].maxLeafRank == EndRank(g, r, c);
      ChildIsHeard(g, r, v, c, r.sent[c][i]);
    }
  }

  lemma {:induction false} SomeLeafBelow(g: Graph, v: nat) returns (u: nat)
    requires WellFormed(g) && v < |g.ids|
    ensures LeafBelow(g, v, u)
    decreases Top(g.rank) - g.rank[v]
  {
    hide Children;
    if Children(g, v) == [] {
      u := v;
      LeafHearsItself(g, v);
    } else {
      ChildrenAre(g, v);
      var c := Children(g, v)[0];
      assert c in Children(g, v);
      u := SomeLeafBelow(g, c);
      var q :| IsDownPath(g, q, c, u);
      PathExtends(g, v, c, u, q);
    }
  }

  /** Some leaf below a node has exactly the rank the node knows at the end. */
  lemma RankIsALeafs(g: Graph, r: Round, v: nat) returns (u: nat)
    requires WellFormed(g) && FullRound(g, r) && v < |g.ids|
    ensures LeafBelow(g, v, u) && g.rank[u] == EndRank(g, r, v)
  {
    hide Children, IsRound, Tells, Run;
    RanksAreReal(g, r, v);
    if EndRank(g, r, v) == 0 {
      u := SomeLeafBelow(g, v);
      var p :| IsDownPath(g, p, v, u);
      RankCoversLeaves(g, r, v, u, p);
    } else {
      u :| LeafBelow(g, v, u) && g.rank[u] == EndRank(g, r, v);
    }
  }

  // ---- The timeouts after a full round ----

  /** Every node's rank is that of its hop count, and no node is deeper than `depth`. */
  ghost predicate HopRanks(g: Graph, hops: seq<nat>, depth: nat) {
    && |hops| == |g.ids| == |g.rank|
    && forall w :: 0 <= w < |hops| ==> hops[w] <= depth && g.rank[w] == HopRank(hops[w])
  }

  /**
   After a full round, what a node knows is the highest leaf rank below it, and the attestation timeout
   computed from it is the distance in hops to the deepest leaf, with no wrap of the byte.
   */
  lemma DeepestLeaf(g: Graph, hops: seq<nat>, r: Round, v: nat) returns (u: nat)
    requires WellFormed(g) && FullRound(g, r) && v < |g.ids| && HopRanks(g, hops, MAX_HOPS)
    ensures u < |g.ids| && LeafBelow(g, v, u) && EndRank(g, r, v) == g.rank[u]
    ensures forall w :: 0 <= w < |g.ids| && LeafBelow(g, v, w) ==> hops[w] <= hops[u]
    ensures hops[v] <= hops[u] && AttestationTimeout(EndRank(g, r, v), g.rank[v]) == hops[u] - hops[v]
  {
    hide Children, IsRound, FullRound, EndRank, AttestationTimeout;
    u := RankIsALeafs(g, r, v);
    forall w | 0 <= w < |g.ids| && LeafBelow(g, v, w) ensures hops[w] <= hops[u] {
      var p :| IsDownPath(g, p, v, w);
      RankCoversLeaves(g, r, v, w, p);
    }
    var p :| IsDownPath(g, p, v, u);
    PathRises(g, p, v, u);
    AttestationTimeoutIsDistance(hops[u], hops[v]);
  }

  /**
   In a network of depth at most NUM_NODES, after a full round, a relay waits at least one unit longer
   than each of its children in both phases.
   */
  lemma ParentsWaitLonger(g: Graph, hops: seq<nat>, r: Round, v: nat, c: nat)
    requires WellFormed(g) && FullRound(g, r) && v < |g.ids| && c in Children(g, v) && c < |g.ids|
    requires HopRanks(g, hops, NUM_NODES)
    ensures TopologyTimeout(g.rank[v]) == NUM_NODES - hops[v]
    ensures TopologyTimeout(g.rank[v]) >= TopologyTimeout(g.rank[c]) + 1
    ensures AttestationTimeout(EndRank(g, r, v), g.rank[v])
         >= AttestationTimeout(EndRank(g, r, c), g.rank[c]) + 1
  {
    hide Children, IsRound, FullRound, EndRank, AttestationTimeout, TopologyTimeout;
    ChildrenAre(g, v);
    TopologyTimeoutCountsHops(hops[v]);
    TopologyTimeoutCountsHops(hops[c]);
    var deepV := DeepestLeaf(g, hops, r, v);
    var deepC := DeepestLeaf(g, hops, r, c);
    var q :| IsDownPath(g, q, c, deepC);
    PathExtends(g, v, c, deepC, q);
    assert LeafBelow(g, v, deepC);
  }

  // ---- A relay that hears each child once ----

  /** Arrivals from children are reports. */
  lemma ChildrenReport(g: Graph, v: nat, n: Node, es: seq<Event>, order: seq<nat>)
    requires WellFormed(g) && v < |g.ids| && StartsRound(g, v, n) && TopologyRun(es) && |order| == |es|
    requires forall i :: 0 <= i < |es| ==>
               order[i] in Children(g, v) && order[i] < |g.ids| && es[i].Arrive? && es[i].child == g.ids[order[i]]
    ensures Reports(n, es)
  {
    hide TableAt, Children, Has;
    forall i | 0 <= i < |es| ensures Has(n.table, es[i].child) {
      EdgesAgree(g, v, order[i]);
      SameIdsHas(TableAt(g, v), n.table, es[i].child);
    }
  }

  /**
   A relay that hears as many packets from its children as it has children answers with the one packet
   that accounts for all of them, and tells what it knows, exactly when there is room for all new ids.
   */
  lemma LightRelayAnswers(g: Graph, v: nat, n: Node, es: seq<Event>, order: seq<nat>)
    requires WellFormed(g) && v < |g.ids| && StartsRound(g, v, n) && TopologyRun(es)
    requires |order| == |es| == |Children(g, v)| > 0
    requires forall i :: 0 <= i < |es| ==>
               order[i] in Children(g, v) && order[i] < |g.ids| && es[i].Arrive? && es[i].child == g.ids[order[i]]
    ensures Reports(n, es)
    ensures Run(n, es) == Completed(n, es) <==> |Filed(n, es)| < CAPACITY
    ensures |Filed(n, es)| < CAPACITY ==>
              var o := Run(n, es);
              && o.node.sums == [] && |o.sent| == 1
              && o.sent[0].maxLeafRank == TopRank(n, es) == o.node.maxLeafRank
  {
    hide TableAt, Children, Xor, Run, Filed, TopRank, Reports;
    ChildrenReport(g, v, n, es, order);
    TableAtLists(g, v);
    CompleteRound(n, es);
    CompletedLeaves(n, es);
  }
}
