/**
 Runs of a network in which nodes may have several parents: packets are copied to every parent, arrive in
 any order, and timers fire at any moment.
 */
module Mesh {
  import opened Words
  import opened ChildTable
  import opened RelayModel
  import opened RelayRuns
  import opened RelayRounds
  import opened Aggregate

  /** A copy of a packet on its way from `src` to its parent `dst`. */
  datatype Msg = Msg(src: nat, dst: nat, pkt: Packet)

  /** The relays' states, the copies in the air, and what has happened at each node and been sent by it. */
  datatype Net = Net(nodes: seq<Node>, flight: multiset<Msg>, history: seq<seq<Event>>, sent: seq<seq<Packet>>)

  datatype NetEvent =
    | Request(leaf: nat)
    | Deliver(msg: Msg)
    | Timer(relay: nat)

  // ---- Copies ----

  /** One copy of a packet of `v` for each parent below `k`. */
  ghost function ToParents(g: Graph, v: nat, p: Packet, k: nat): multiset<Msg> {
    if k == 0 then multiset{}
    else ToParents(g, v, p, k - 1) + (if v in Children(g, k - 1) then multiset{Msg(v, k - 1, p)} else multiset{})
  }

  /** The copies of some packets of `v`. */
  ghost function Copies(g: Graph, v: nat, ps: seq<Packet>): multiset<Msg> {
    if ps == [] then multiset{}
    else Copies(g, v, ps[..|ps| - 1]) + ToParents(g, v, ps[|ps| - 1], |g.ids|)
  }

  lemma {:induction false} ToParentsCount(g: Graph, v: nat, p: Packet, k: nat, m: Msg)
    ensures ToParents(g, v, p, k)[m]
         == if m.src == v && m.pkt == p && m.dst < k && v in Children(g, m.dst) then 1 else 0
  {
    hide Children;
    if k != 0 {
      ToParentsCount(g, v, p, k - 1, m);
    }
  }

  /** The entry of a neighbour table that stands for node `w`. */
  lemma NeighbourAt(g: Graph, v: nat, k: nat)
    requires WellFormed(g) && v < |g.ids| && k < |g.nbrs[v]|
    ensures var ns := NeighbourTable(g, g.nbrs[v]);
            g.nbrs[v][k] < |g.ids| && IdOfAddress(ns[k].address) == g.ids[g.nbrs[v][k]]
            && ns[k].rank == g.rank[g.nbrs[v][k]]
  {
    hide IdOfAddress, Aggregate.AddressOf, Children;
    AddressSpells(g.ids[g.nbrs[v][k]]);
  }

  /** The copies in the model are those that `send_to_parents` sends: one for each time it lists a parent. */
  lemma CopiesAreTargets(g: Graph, v: nat, w: nat, p: Packet)
    requires WellFormed(g) && v < |g.ids| && w < |g.ids|
    ensures ToParents(g, v, p, |g.ids|)[Msg(v, w, p)]
         == Occurrences(Targets(NeighbourTable(g, g.nbrs[v]), g.rank[v], false), g.ids[w])
  {
    hide Children, IdOfAddress, Targets, NeighbourTable, Occurrences;
    var ns := NeighbourTable(g, g.nbrs[v]);
    ToParentsCount(g, v, p, |g.ids|, Msg(v, w, p));
    TargetsCount(ns, g.rank[v], false, g.ids[w]);
    ChildrenAre(g, w);
    var to := Addressed(ns, g.rank[v], false, g.ids[w]);
    forall k | k in to ensures g.nbrs[v][k] == w {
      NeighbourAt(g, v, k);
    }
    if v in Children(g, w) {
      var k :| 0 <= k < |g.nbrs[v]| && g.nbrs[v][k] == w;
      NeighbourAt(g, v, k);
      assert to == {k};
    } else {
      forall k | k in to ensures false {
        NeighbourAt(g, v, k);
      }
      assert to == {};
    }
  }

  /** Every parent gets each packet as often as it was sent. */
  lemma {:induction false} CopiesCount(g: Graph, v: nat, ps: seq<Packet>, m: Msg)
    ensures Copies(g, v, ps)[m]
         == if m.src == v && m.dst < |g.ids| && v in Children(g, m.dst) then multiset(ps)[m.pkt] else 0
  {
    hide Children;
    if ps != [] {
      var front, p := ps[..|ps| - 1], ps[|ps| - 1];
      CopiesCount(g, v, front, m);
      ToParentsCount(g, v, p, |g.ids|, m);
      assert ps == front + [p];
      assert multiset(ps) == multiset(front) + multiset{p};
    }
  }

  // ---- Steps ----

  /** Every relay starts between rounds. */
  ghost predicate StartsAll(g: Graph, start: seq<Node>)
    requires WellFormed(g)
  {
    |start| == |g.ids| && forall v :: 0 <= v < |g.ids| && Children(g, v) != [] ==> StartsRound(g, v, start[v])
  }

  /** The copy is of a complete packet and on its way along an edge. */
  ghost predicate Typed(g: Graph, m: Msg) {
    m.dst < |g.ids| && m.src < |g.ids| && m.src in Children(g, m.dst) && m.pkt.Topology? && m.pkt.Readable()
  }

  /** What a node has done follows from what has happened to it. */
  ghost predicate NodeSound(g: Graph, start: seq<Node>, s: Net, v: nat)
    requires WellFormed(g) && |start| == |s.nodes| == |s.history| == |s.sent| == |g.ids| && v < |g.ids|
  {
    if Children(g, v) == [] then LeafRound(g, v, s.sent[v])
    else TopologyRun(s.history[v]) && Run(start[v], s.history[v]) == Out(s.nodes[v], s.sent[v])
  }

  /** What `c` has sent has arrived at `w` or is on its way to it. */
  ghost predicate Counted(g: Graph, s: Net, w: nat, c: nat, p: Packet)
    requires |s.history| == |s.sent| == |g.ids| && w < |g.ids| && c < |g.ids|
  {
    multiset(PacketsFrom(s.history[w], g.ids[c]))[p] + s.flight[Msg(c, w, p)] == multiset(s.sent[c])[p]
  }

  ghost predicate Sound(g: Graph, start: seq<Node>, s: Net)
    requires WellFormed(g)
  {
    && |start| == |s.nodes| == |s.history| == |s.sent| == |g.ids|
    && (forall m :: m in s.flight ==> Typed(g, m))
    && (forall v :: 0 <= v < |g.ids| ==> NodeSound(g, start, s, v))
    && (forall w: nat, c: nat, p: Packet :: w < |g.ids| && c < |g.ids| && c in Children(g, w) ==>
          Counted(g, s, w, c, p))
  }

  /** Node `v` goes through some events, becomes `n` and sends some packets. */
  ghost function Emit(g: Graph, s: Net, v: nat, es: seq<Event>, o: Out): Net
    requires |s.nodes| == |s.history| == |s.sent| && v < |s.nodes|
  {
    Net(s.nodes[v := o.node], s.flight + Copies(g, v, o.sent),
        s.history[v := s.history[v] + es], s.sent[v := s.sent[v] + o.sent])
  }

  /** Leaves answer requests, relays have timers, and what is in the air can arrive. */
  ghost predicate Enabled(g: Graph, s: Net, e: NetEvent) {
    match e
    case Request(v) => v < |g.ids| && Children(g, v) == []
    case Deliver(m) => m in s.flight
    case Timer(v) => v < |g.ids| && Children(g, v) != []
  }

  ghost function NetStep(g: Graph, start: seq<Node>, s: Net, e: NetEvent): (r: Net)
    requires WellFormed(g) && StartsAll(g, start) && Sound(g, start, s)
    ensures Sound(g, start, r)
  {
    if !Enabled(g, s, e) then s
    else
      match e
      case Request(v) =>
        RequestSound(g, start, s, v);
        Emit(g, s, v, [], Out(s.nodes[v], [LeafPacket(g.ids[v], g.rank[v])]))
      case Deliver(m) =>
        DeliverSound(g, start, s, m);
        var arrival := Arrive(g.ids[m.src], m.pkt);
        Emit(g, s.(flight := s.flight - multiset{m}), m.dst, [arrival], Step(s.nodes[m.dst], arrival))
      case Timer(v) =>
        TimerSound(g, start, s, v);
        Emit(g, s, v, [TopologyTimer], Step(s.nodes[v], TopologyTimer))
  }

  /** Nothing has happened yet. */
  ghost function Initial(g: Graph, start: seq<Node>): (s: Net)
    requires WellFormed(g) && StartsAll(g, start)
    ensures Sound(g, start, s)
  {
    hide Sound;
    InitialSound(g, start);
    Net(start, multiset{}, seq(|g.ids|, _ => []), seq(|g.ids|, _ => []))
  }

  lemma InitialSound(g: Graph, start: seq<Node>)
    requires WellFormed(g) && StartsAll(g, start)
    ensures Sound(g, start, Net(start, multiset{}, seq(|g.ids|, _ => []), seq(|g.ids|, _ => [])))
  {
    hide Children, StartsRound, Typed, WellFormed;
  }

  ghost function NetRun(g: Graph, start: seq<Node>, es: seq<NetEvent>): (s: Net)
    requires WellFormed(g) && StartsAll(g, start)
    ensures Sound(g, start, s)
  {
    if es == [] then Initial(g, start)
    else NetStep(g, start, NetRun(g, start, es[..|es| - 1]), es[|es| - 1])
  }

  // ---- What every step keeps ----

  /** No node is its own child. */
  lemma NotOwnChild(g: Graph, v: nat)
    requires WellFormed(g) && v < |g.ids|
    ensures v !in Children(g, v)
  {
    ChildrenAre(g, v);
  }

  /** Sending keeps the count of every edge at whose end nothing arrives. */
  lemma EmitCounted(g: Graph, s: Net, v: nat, es: seq<Event>, o: Out, w: nat, c: nat, p: Packet)
    requires WellFormed(g) && |s.nodes| == |s.history| == |s.sent| == |g.ids| && v < |g.ids|
    requires w < |g.ids| && c < |g.ids| && c in Children(g, w) && Counted(g, s, w, c, p)
    requires w == v ==> PacketsFrom(s.history[v] + es, g.ids[c]) == PacketsFrom(s.history[v], g.ids[c])
    ensures Counted(g, Emit(g, s, v, es, o), w, c, p)
  {
    hide Children, PacketsFrom;
    var r := Emit(g, s, v, es, o);
    CopiesCount(g, v, o.sent, Msg(c, w, p));
    NotOwnChild(g, v);
    assert r.flight[Msg(c, w, p)] == s.flight[Msg(c, w, p)] + Copies(g, v, o.sent)[Msg(c, w, p)];
    if c == v {
      assert multiset(s.sent[v] + o.sent) == multiset(s.sent[v]) + multiset(o.sent);
    }
  }

  /** The copies are typed if the packets are complete. */
  lemma EmitTyped(g: Graph, s: Net, v: nat, es: seq<Event>, o: Out)
    requires WellFormed(g) && |s.nodes| == |s.history| == |s.sent| == |g.ids| && v < |g.ids|
    requires (forall m :: m in s.flight ==> Typed(g, m)) && AllComplete(o.sent, g.ids[v])
    ensures forall m :: m in Emit(g, s, v, es, o).flight ==> Typed(g, m)
  {
    hide Children;
    forall m | m in s.flight + Copies(g, v, o.sent) ensures Typed(g, m) {
      CopiesCount(g, v, o.sent, m);
      if m !in s.flight {
        assert m.pkt in multiset(o.sent);
      }
    }
  }

  lemma ArrivesOne(es: seq<Event>, e: Event, id: Id)
    ensures PacketsFrom(es + [e], id)
         == if e.Arrive? && e.child == id then PacketsFrom(es, id) + [e.pkt] else PacketsFrom(es, id)
  {
    assert (es + [e])[..|es|] == es;
  }

  lemma RunSnoc(n: Node, es: seq<Event>, e: Event)
    requires TopologyRun(es) && TopologyEvent(e)
    ensures TopologyRun(es + [e])
    ensures var o := Step(Run(n, es).node, e);
            Run(n, es + [e]) == Out(o.node, Run(n, es).sent + o.sent)
  {
    hide Step;
    assert (es + [e])[..|es|] == es;
  }

  /** A relay's step, as far as the nodes and the copies are concerned. */
  lemma RelaySound(g: Graph, start: seq<Node>, s: Net, v: nat, e: Event)
    requires WellFormed(g) && StartsAll(g, start) && v < |g.ids| && Children(g, v) != [] && TopologyEvent(e)
    requires |start| == |s.nodes| == |s.history| == |s.sent| == |g.ids|
    requires forall m :: m in s.flight ==> Typed(g, m)
    requires forall u :: 0 <= u < |g.ids| ==> NodeSound(g, start, s, u)
    ensures var r := Emit(g, s, v, [e], Step(s.nodes[v], e));
            && (forall m :: m in r.flight ==> Typed(g, m))
            && forall u :: 0 <= u < |g.ids| ==> NodeSound(g, start, r, u)
  {
    hide Step, Children, Complete, Bounded, Typed, LeafRound, TopologyEvent, TableAt;
    assert NodeSound(g, start, s, v) && StartsRound(g, v, start[v]);
    RunBounded(start[v], s.history[v]);
    StepBounded(s.nodes[v], e);
    RunSnoc(start[v], s.history[v], e);
    EmitTyped(g, s, v, [e], Step(s.nodes[v], e));
    var r := Emit(g, s, v, [e], Step(s.nodes[v], e));
    forall u | 0 <= u < |g.ids| ensures NodeSound(g, start, r, u) {
      assert NodeSound(g, start, s, u);
    }
  }

  lemma TimerSound(g: Graph, start: seq<Node>, s: Net, v: nat)
    requires WellFormed(g) && StartsAll(g, start) && Sound(g, start, s) && v < |g.ids| && Children(g, v) != []
    ensures Sound(g, start, Emit(g, s, v, [TopologyTimer], Step(s.nodes[v], TopologyTimer)))
  {
    hide Step, Children, Typed, NodeSound, PacketsFrom, Counted, StartsAll, WellFormed;
    RelaySound(g, start, s, v, TopologyTimer);
    var o := Step(s.nodes[v], TopologyTimer);
    var r := Emit(g, s, v, [TopologyTimer], o);
    forall w: nat, c: nat, p: Packet | w < |g.ids| && c < |g.ids| && c in Children(g, w)
      ensures Counted(g, r, w, c, p)
    {
      ArrivesOne(s.history[v], TopologyTimer, g.ids[c]);
      EmitCounted(g, s, v, [TopologyTimer], o, w, c, p);
    }
  }

  lemma RequestSound(g: Graph, start: seq<Node>, s: Net, v: nat)
    requires WellFormed(g) && StartsAll(g, start) && Sound(g, start, s) && v < |g.ids| && Children(g, v) == []
    ensures Sound(g, start, Emit(g, s, v, [], Out(s.nodes[v], [LeafPacket(g.ids[v], g.rank[v])])))
  {
    hide Children, Typed, PacketsFrom, Counted, StartsAll, Xor, Run;
    var o := Out(s.nodes[v], [LeafPacket(g.ids[v], g.rank[v])]);
    var r := Emit(g, s, v, [], o);
    EmitTyped(g, s, v, [], o);
    forall u | 0 <= u < |g.ids| ensures NodeSound(g, start, r, u) {
      assert NodeSound(g, start, s, u);
    }
    assert s.history[v] + [] == s.history[v];
    forall w: nat, c: nat, p: Packet | w < |g.ids| && c < |g.ids| && c in Children(g, w)
      ensures Counted(g, r, w, c, p)
    {
      EmitCounted(g, s, v, [], o, w, c, p);
    }
  }

  /** The arriving copy moves from the air into the history of its parent. */
  lemma ArrivalCounted(g: Graph, s: Net, m: Msg, o: Out, w: nat, c: nat, p: Packet)
    requires WellFormed(g) && |s.nodes| == |s.history| == |s.sent| == |g.ids|
    requires m in s.flight && Typed(g, m)
    requires w < |g.ids| && c < |g.ids| && c in Children(g, w) && Counted(g, s, w, c, p)
    ensures var rest := s.(flight := s.flight - multiset{m});
            Counted(g, Emit(g, rest, m.dst, [Arrive(g.ids[m.src], m.pkt)], o), w, c, p)
  {
    hide Children, PacketsFrom;
    var rest := s.(flight := s.flight - multiset{m});
    var arrival := Arrive(g.ids[m.src], m.pkt);
    ArrivesOne(s.history[m.dst], arrival, g.ids[c]);
    if w == m.dst && c == m.src {
      var before := PacketsFrom(s.history[w], g.ids[c]);
      assert multiset(before + [m.pkt]) == multiset(before) + multiset{m.pkt};
      CopiesCount(g, w, o.sent, Msg(c, w, p));
      NotOwnChild(g, w);
    } else {
      assert g.ids[c] != g.ids[m.src] || w != m.dst;
      EmitCounted(g, rest, m.dst, [arrival], o, w, c, p);
    }
  }

  lemma DeliverSound(g: Graph, start: seq<Node>, s: Net, m: Msg)
    requires WellFormed(g) && StartsAll(g, start) && Sound(g, start, s) && m in s.flight
    ensures Typed(g, m)
    ensures var arrival := Arrive(g.ids[m.src], m.pkt);
            var rest := s.(flight := s.flight - multiset{m});
            Sane(arrival) && Sound(g, start, Emit(g, rest, m.dst, [arrival], Step(s.nodes[m.dst], arrival)))
  {
    hide Step, Children, PacketsFrom, Counted, StartsAll, WellFormed, Run, LeafRound;
    var arrival := Arrive(g.ids[m.src], m.pkt);
    var rest := s.(flight := s.flight - multiset{m});
    assert Typed(g, m);
    forall u | 0 <= u < |g.ids| ensures NodeSound(g, start, rest, u) {
      assert NodeSound(g, start, s, u);
    }
    RelaySound(g, start, rest, m.dst, arrival);
    var o := Step(s.nodes[m.dst], arrival);
    forall w: nat, c: nat, p: Packet | w < |g.ids| && c < |g.ids| && c in Children(g, w)
      ensures Counted(g, Emit(g, rest, m.dst, [arrival], o), w, c, p)
    {
      ArrivalCounted(g, s, m, o, w, c, p);
    }
  }

  // ---- Quiet networks ----

  /** Nothing is in the air and no checksum waits in a relay. */
  ghost predicate Quiet(g: Graph, s: Net)
    requires |s.nodes| == |g.ids|
  {
    s.flight == multiset{} && forall v :: 0 <= v < |g.ids| && Children(g, v) != [] ==> s.nodes[v].sums == []
  }

  ghost function RoundOf(start: seq<Node>, s: Net): Round {
    Round(start, s.history, s.sent)
  }

  /** Any run that has come to rest is a round, whatever the interleaving. */
  lemma QuietRunIsRound(g: Graph, start: seq<Node>, es: seq<NetEvent>)
    requires WellFormed(g) && StartsAll(g, start) && Quiet(g, NetRun(g, start, es))
    ensures IsRound(g, RoundOf(start, NetRun(g, start, es)))
  {
    hide Children, NetRun, Run, PacketsFrom, StartsRound, LeafRound, TopologyRun;
    var s := NetRun(g, start, es);
    forall v | 0 <= v < |g.ids| && Children(g, v) != [] ensures RelayRound(g, v, RoundOf(start, s)) {
      assert NodeSound(g, start, s, v);
      ChildrenAre(g, v);
      forall c | c in Children(g, v)
        ensures c < |g.ids| && multiset(PacketsFrom(s.history[v], g.ids[c])) == multiset(s.sent[c])
      {
        forall p: Packet ensures multiset(PacketsFrom(s.history[v], g.ids[c]))[p] == multiset(s.sent[c])[p] {
          assert Counted(g, s, v, c, p);
        }
      }
    }
    forall v | 0 <= v < |g.ids| && Children(g, v) == [] ensures LeafRound(g, v, s.sent[v]) {
      assert NodeSound(g, start, s, v);
    }
  }

  /**
   In every run that has come to rest, all that a node has sent XORs to the own checksums of exactly those
   nodes that have sent an odd number of packets and to which an odd number of downward paths leads.
   */
  lemma QuietAggregate(g: Graph, start: seq<Node>, es: seq<NetEvent>, v: nat)
    requires WellFormed(g) && StartsAll(g, start) && Quiet(g, NetRun(g, start, es)) && v < |g.ids|
    ensures var s := NetRun(g, start, es);
            TotalOf(s.sent[v]) == OddXor(g, Counts(RoundOf(start, s)), v, |g.ids|)
  {
    hide NetRun, TotalOf, OddXor, IsRound;
    QuietRunIsRound(g, start, es);
    AggregateIsOddXor(g, RoundOf(start, NetRun(g, start, es)), v);
  }
}
