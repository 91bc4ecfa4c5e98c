/** What every run of one relay keeps, whatever arrives and whenever its timer fires. */
module RelayRuns {
  import opened Words
  import opened ChildTable
  import opened RelayModel

  /** Only topology packets and the topology callback. */
  predicate TopologyEvent(e: Event) {
    Sane(e) && !e.AttestationTimer? && (e.Arrive? ==> e.pkt.Topology?)
  }

  predicate TopologyRun(es: seq<Event>)
    ensures TopologyRun(es) ==> AllSane(es)
  {
    forall i :: 0 <= i < |es| ==> TopologyEvent(es[i])
  }

  /** The event is the arrival of a packet whose checksum the relay keeps. */
  predicate Accepts(n: Node, e: Event) {
    e.Arrive? && (e.pkt.Attestation? || Has(n.table, e.child))
  }

  // ---- What single packets carry ----

  lemma OwnChecksumIs(id: Id)
    ensures OwnChecksum(id) == 0x11e108b7 ^ (id as bv64)
  {
  }

  lemma ConstantCancels(x: bv64)
    ensures (0x11e108b7 ^ x) ^ 0x11e108b7 == x
  {
  }

  /** A leaf's packet, and that of a relay which has heard nothing, hold the node's id under the constant. */
  lemma OwnChecksumHoldsId(id: Id, rank: nat, table: seq<Child>)
    ensures LeafPacket(id, rank).checksum ^ 0x11e108b7 == id as bv64
    ensures var sent := Step(Fresh(id, table), TopologyTimer).sent;
            |sent| == 1 && sent[0].checksum ^ 0x11e108b7 == id as bv64
  {
    hide Xor, OwnChecksum;
    OwnChecksumIs(id);
    ConstantCancels(id as bv64);
    FreshSends(id, table);
  }

  lemma FreshSends(id: Id, table: seq<Child>)
    ensures var sent := Step(Fresh(id, table), TopologyTimer).sent;
            |sent| == 1 && sent[0].checksum == OwnChecksum(id)
  {
    hide Xor, OwnChecksum;
    XorZero(OwnChecksum(id));
  }

  lemma ConstantsCancel(x: bv64, y: bv64)
    ensures (0x11e108b7 ^ x) ^ (0x11e108b7 ^ y) == x ^ y
  {
  }

  lemma IdsApart(a: Id, b: Id)
    ensures (a as bv64) ^ (b as bv64) == (a ^ b) as bv64
    ensures a != b ==> 0x11e108b7 ^ (a as bv64) != 0x11e108b7 ^ (b as bv64)
  {
  }

  /** The own checksums of two nodes differ by the XOR of their ids, so different nodes report differently. */
  lemma OwnChecksumsDiffer(a: Id, b: Id, rank: nat)
    ensures LeafPacket(a, rank).checksum ^ LeafPacket(b, rank).checksum == (a ^ b) as bv64
    ensures LeafPacket(a, rank).checksum == LeafPacket(b, rank).checksum <==> a == b
  {
    hide OwnChecksum;
    OwnChecksumIs(a);
    OwnChecksumIs(b);
    ConstantsCancel(a as bv64, b as bv64);
    IdsApart(a, b);
  }

  /**
   The attestation timer: one attestation packet with the combined value, after which the buffers are
   empty and every flag is clear; or, when that value is 0, nothing at all.
   */
  lemma AttestationTimerSends(n: Node)
    ensures var o := Step(n, AttestationTimer);
            && o.node.maxLeafRank == n.maxLeafRank && o.node.id == n.id && SameIds(o.node.table, n.table)
            && (Combined(n) != 0 ==>
                  && o.sent == [Attestation(Combined(n))]
                  && o.node.sums == [] && o.node.paths == [] && o.node.snapshot == n.sums
                  && forall i :: 0 <= i < |o.node.table| ==> !o.node.table[i].received)
            && (Combined(n) == 0 ==>
                  && o.sent == [] && o.node.sums == n.sums && o.node.paths == n.paths
                  && o.node.table == n.table && o.node.snapshot == n.snapshot)
  {
    hide Xor;
  }

  predicate AllAttestation(ps: seq<Packet>) {
    forall i :: 0 <= i < |ps| ==> ps[i].Attestation?
  }

  /** Attestation packets come from the attestation timer, topology packets from everything else. */
  lemma StepKind(n: Node, e: Event)
    requires Sane(e) && |n.paths| <= MAX_PATH_NODES - 3
    ensures var o := Step(n, e);
            if e.AttestationTimer? || (e.Arrive? && e.pkt.Attestation?) then AllAttestation(o.sent)
            else AllComplete(o.sent, n.id)
  {
    hide Xor, Gather, Has, SendTopology, Complete;
    TopologySends(n);
    if e.Arrive? && e.pkt.Topology? && Has(n.table, e.child) {
      var g := Gather(n, e.child, e.pkt);
      GatherShape(n, e.child, e.pkt);
      TopologySends(g.node);
      AllCompleteConcat(g.sent, SendTopology(g.node).sent, n.id);
    }
  }

  lemma TopologySends(n: Node)
    requires |n.paths| <= MAX_PATH_NODES - 3
    ensures AllComplete(SendTopology(n).sent, n.id)
  {
    hide Xor;
  }

  lemma AllCompleteConcat(a: seq<Packet>, b: seq<Packet>, id: Id)
    requires AllComplete(a, id) && AllComplete(b, id)
    ensures AllComplete(a + b, id)
  {
    hide Complete;
    assert forall i :: |a| <= i < |a + b| ==> (a + b)[i] == b[i - |a|];
  }

  /** An attestation phase: attestation packets arrive and the attestation timer fires. */
  predicate AttestationRun(es: seq<Event>)
    ensures AttestationRun(es) ==> AllSane(es)
  {
    forall i :: 0 <= i < |es| ==> es[i].AttestationTimer? || (es[i].Arrive? && es[i].pkt.Attestation?)
  }

  /** In such a phase every packet sent is an attestation packet, and rank and ids stay. */
  lemma {:induction false} AttestationRunSends(n: Node, es: seq<Event>)
    requires AttestationRun(es) && |n.paths| <= MAX_PATH_NODES - 3
    ensures var o := Run(n, es);
            && AllAttestation(o.sent) && |o.node.paths| <= MAX_PATH_NODES - 3
            && o.node.maxLeafRank == n.maxLeafRank && SameIds(o.node.table, n.table)
  {
    hide Xor;
    if es != [] {
      var m, e := Run(n, es[..|es| - 1]).node, es[|es| - 1];
      AttestationRunSends(n, es[..|es| - 1]);
      StepKind(m, e);
      AttestationTimerSends(m);
    }
  }

  // ---- Buffer bounds ----

  /** The bounds that hold between events. */
  predicate Bounded(n: Node) {
    && |n.table| <= MAX_CHILD
    && (|n.sums| == 0 || |n.sums| < |n.table|)
    && |n.paths| <= MAX_PATH_NODES - 3
  }

  lemma PathRoom(n: Node)
    requires Bounded(n)
    ensures |n.paths| <= MAX_PATH_NODES - 3
  {
  }

  /** A topology packet of `id` with all its fields assigned: it fits, and its last entry is `id`. */
  predicate Complete(p: Packet, id: Id) {
    && p.Topology?
    && 1 <= |p.path| <= MAX_PATH_NODES - 1
    && p.pathIndex == Some(|p.path|)
    && p.path[|p.path| - 1] == id
  }

  predicate AllComplete(ps: seq<Packet>, id: Id)
    ensures AllComplete(ps, id) ==> AllReadable(ps)
  {
    forall i :: 0 <= i < |ps| ==> Complete(ps[i], id)
  }

  /** The copy loop changes nothing but the path buffer unless it splits; a split clears the round. */
  lemma {:induction false} AbsorbShape(n: Node, buf: seq<Id>, ids: seq<Id>)
    requires |buf| <= MAX_PATH_NODES - 3
    ensures var r := Absorb(n, buf, ids);
            && r.node.id == n.id && r.node.maxLeafRank == n.maxLeafRank
            && SameIds(r.node.table, n.table)
            && |r.node.paths| <= MAX_PATH_NODES - 3
            && AllComplete(r.sent, n.id)
            && (forall i :: 0 <= i < |r.sent| ==> r.sent[i].maxLeafRank == n.maxLeafRank)
            && (r.sent == [] ==> r.node == n.(paths := r.node.paths))
            && (r.sent != [] ==> r.node == Node(n.id, Cleared(n.table), [], r.node.paths,
                                                n.maxLeafRank, OwnChecksum(n.id), []))
    decreases |ids|
  {
    if ids != [] {
      var longer := buf + [ids[0]];
      if ids[0] in n.paths {
        AbsorbShape(n, buf, ids[1..]);
      } else if |longer| >= MAX_PATH_NODES - 2 {
        var split := SendTopology(n.(paths := longer));
        AbsorbShape(Reset(split.node), [], ids[1..]);
      } else {
        AbsorbShape(n, longer, ids[1..]);
      }
    }
  }

  predicate SameIds(t: seq<Child>, u: seq<Child>) {
    |t| == |u| && ChildTable.Ids(t) == ChildTable.Ids(u)
  }

  /** Before the test for a complete round: the packet was folded once, or a split sent it on. */
  lemma GatherShape(n: Node, child: Id, pkt: Packet)
    requires pkt.Topology? && pkt.Readable() && |n.paths| <= MAX_PATH_NODES - 3
    ensures var g := Gather(n, child, pkt);
            && g.node.id == n.id && SameIds(g.node.table, n.table)
            && |g.node.paths| <= MAX_PATH_NODES - 3
            && AllComplete(g.sent, n.id)
            && g.node.maxLeafRank == (if n.maxLeafRank < pkt.maxLeafRank then pkt.maxLeafRank else n.maxLeafRank)
            && (g.sent == [] ==> && g.node.sums == n.sums + [pkt.checksum]
                                 && g.node.table == Mark(n.table, child)
                                 && g.node.snapshot == n.snapshot && g.node.myChecksum == n.myChecksum)
            && (g.sent != [] ==> && g.node.sums == [] && g.node.table == Cleared(Mark(n.table, child))
                                 && g.node.snapshot == [] && g.node.myChecksum == OwnChecksum(n.id))
  {
    hide Xor, Mark, Cleared;
    var marked := n.(table := Mark(n.table, child), sums := n.sums + [pkt.checksum]);
    AbsorbShape(marked, marked.paths, pkt.Ids());
  }

  lemma SendBounded(n: Node)
    requires |n.table| <= MAX_CHILD && |n.paths| <= MAX_PATH_NODES - 3
    ensures var o := SendTopology(n);
            && Bounded(o.node) && o.node.id == n.id && SameIds(o.node.table, n.table)
            && AllComplete(o.sent, n.id)
  {
    hide Xor;
  }

  lemma StepBounded(n: Node, e: Event)
    requires Bounded(n) && TopologyEvent(e)
    ensures var o := Step(n, e);
            && Bounded(o.node) && o.node.id == n.id && SameIds(o.node.table, n.table)
            && AllComplete(o.sent, n.id)
  {
    hide Xor, Gather, SendTopology, Mark, Cleared, Complete;
    if e.TopologyTimer? {
      SendBounded(n);
    } else if Accepts(n, e) {
      var g := Gather(n, e.child, e.pkt);
      GatherShape(n, e.child, e.pkt);
      SendBounded(g.node);
      if |g.node.sums| == |g.node.table| {
        var last := SendTopology(g.node).sent;
        assert forall i :: |g.sent| <= i < |g.sent + last| ==> (g.sent + last)[i] == last[i - |g.sent|];
      }
    }
  }

  /** The bounds hold after every topology run, and every packet sent is complete. */
  lemma {:induction false} RunBounded(n: Node, es: seq<Event>)
    requires Bounded(n) && TopologyRun(es)
    ensures var o := Run(n, es);
            && Bounded(o.node) && o.node.id == n.id && SameIds(o.node.table, n.table)
            && AllComplete(o.sent, n.id)
  {
    if es != [] {
      RunBounded(n, es[..|es| - 1]);
      StepBounded(Run(n, es[..|es| - 1]).node, es[|es| - 1]);
    }
  }

  // ---- Stores into the checksum buffer ----

  /** Every checksum of the run is stored inside the array. */
  predicate StoresFit(n: Node, es: seq<Event>)
    requires AllSane(es)
  {
    es == [] ||
    (StoresFit(n, es[..|es| - 1])
     && (Accepts(Run(n, es[..|es| - 1]).node, es[|es| - 1]) ==> |Run(n, es[..|es| - 1]).node.sums| < MAX_CHILD))
  }

  /** In topology runs every store fits. */
  lemma {:induction false} TopologyStoresFit(n: Node, es: seq<Event>)
    requires Bounded(n) && TopologyRun(es)
    ensures StoresFit(n, es)
  {
    hide Xor, Step;
    if es != [] {
      TopologyStoresFit(n, es[..|es| - 1]);
      RunBounded(n, es[..|es| - 1]);
      KnowsSome(Run(n, es[..|es| - 1]).node, es[|es| - 1]);
    }
  }

  lemma KnowsSome(n: Node, e: Event)
    requires TopologyEvent(e)
    ensures Accepts(n, e) ==> |n.table| > 0
  {
  }

  predicate AttestationArrivals(es: seq<Event>)
    ensures AttestationArrivals(es) ==> AllSane(es)
  {
    forall i :: 0 <= i < |es| ==> es[i].Arrive? && es[i].pkt.Attestation?
  }

  /**
   Between two resets, attestation packets are stored inside the array exactly while no more than
   MAX_CHILD checksums are buffered in all, whoever sends them.
   */
  lemma {:induction false} AttestationStoresFit(n: Node, es: seq<Event>)
    requires |n.sums| <= MAX_CHILD && AttestationArrivals(es)
    ensures |Run(n, es).node.sums| == |n.sums| + |es|
    ensures StoresFit(n, es) <==> |n.sums| + |es| <= MAX_CHILD
  {
    if es != [] {
      AttestationStoresFit(n, es[..|es| - 1]);
    }
  }

  // ---- XOR conservation ----

  lemma ChecksumsConcat(a: seq<Packet>, b: seq<Packet>)
    ensures XorAll(Checksums(a + b)) == Xor(XorAll(Checksums(a)), XorAll(Checksums(b)))
  {
    hide Xor;
    assert Checksums(a + b) == Checksums(a) + Checksums(b);
    XorConcat(Checksums(a), Checksums(b));
  }

  lemma ChecksumsOne(p: Packet)
    ensures XorAll(Checksums([p])) == p.checksum
  {
    hide Xor;
    assert Checksums([p]) == [p.checksum];
    XorOne(p.checksum);
  }

  /** What a state holds together with what was sent on the way to it. */
  function Holding(o: Out): bv64 {
    Xor(XorAll(o.node.sums), XorAll(Checksums(o.sent)))
  }

  lemma HoldingNothingSent(n: Node)
    ensures Holding(Out(n, [])) == XorAll(n.sums)
  {
    hide Xor;
    XorZero(XorAll(n.sums));
  }

  /** Sending first adds what was sent first. */
  lemma HoldingPrefix(first: seq<Packet>, o: Out)
    ensures Holding(Out(o.node, first + o.sent)) == Xor(XorAll(Checksums(first)), Holding(o))
  {
    hide Xor;
    var a, b, c := XorAll(Checksums(first)), XorAll(o.node.sums), XorAll(Checksums(o.sent));
    ChecksumsConcat(first, o.sent);
    XorAssociates(b, a, c);
    XorCommutes(a, b);
    XorAssociates(a, b, c);
  }

  /** A topology response carries what the relay holds and its own checksum, and empties the buffer. */
  lemma SendConserves(n: Node)
    ensures SendTopology(n).node.sums == []
    ensures Holding(SendTopology(n)) == Combined(n)
    ensures XorAll(Checksums(SendTopology(n).sent)) == Combined(n)
  {
    hide Xor;
    ChecksumsOne(SendTopology(n).sent[0]);
    XorZero(Combined(n));
  }

  /** One more packet from a relay that then goes on from an empty buffer. */
  lemma SendThen(n: Node, o: Out)
    requires Holding(o) == Times(OwnChecksum(n.id), |o.sent|)
    ensures Holding(Out(o.node, SendTopology(n).sent + o.sent))
         == Xor(XorAll(n.sums), Times(OwnChecksum(n.id), 1 + |o.sent|))
  {
    hide Xor;
    var own := OwnChecksum(n.id);
    SendConserves(n);
    HoldingPrefix(SendTopology(n).sent, o);
    TimesAdd(own, 1, |o.sent|);
    TimesOne(own);
    XorAssociates(XorAll(n.sums), own, Times(own, |o.sent|));
  }

  lemma {:induction false} AbsorbConserves(n: Node, buf: seq<Id>, ids: seq<Id>)
    requires |buf| <= MAX_PATH_NODES - 3
    ensures var r := Absorb(n, buf, ids);
            Holding(r) == Xor(XorAll(n.sums), Times(OwnChecksum(n.id), |r.sent|))
    decreases |ids|
  {
    hide Xor;
    if ids == [] {
      HoldingNothingSent(n);
      XorZero(XorAll(n.sums));
    } else if ids[0] in n.paths {
      AbsorbConserves(n, buf, ids[1..]);
    } else if |buf| + 1 >= MAX_PATH_NODES - 2 {
      var m := n.(paths := buf + [ids[0]]);
      var next := Reset(SendTopology(m).node);
      var rest := Absorb(next, [], ids[1..]);
      AbsorbConserves(next, [], ids[1..]);
      XorZero(Times(OwnChecksum(n.id), |rest.sent|));
      SendThen(m, rest);
    } else {
      AbsorbConserves(n, buf + [ids[0]], ids[1..]);
    }
  }

  lemma GatherConserves(n: Node, child: Id, pkt: Packet)
    requires pkt.Topology? && pkt.Readable() && |n.paths| <= MAX_PATH_NODES - 3
    ensures var g := Gather(n, child, pkt);
            && g.node.id == n.id && |g.node.paths| <= MAX_PATH_NODES - 3
            && Holding(g) == Xor(Xor(XorAll(n.sums), pkt.checksum), Times(OwnChecksum(n.id), |g.sent|))
  {
    hide Xor;
    var marked := n.(table := Mark(n.table, child), sums := n.sums + [pkt.checksum]);
    GatherShape(n, child, pkt);
    AbsorbConserves(marked, marked.paths, pkt.Ids());
    XorSnoc(n.sums, pkt.checksum);
  }

  /** The checksum an event brings in: 0 when the relay does not keep it. */
  function Brought(n: Node, e: Event): bv64 {
    if Accepts(n, e) then e.pkt.checksum else 0
  }

  /** The law for one event: what is held afterwards accounts for what was held and brought in. */
  ghost predicate Balanced(n: Node, brought: bv64, o: Out) {
    Holding(o) == Xor(Xor(XorAll(n.sums), brought), Times(OwnChecksum(n.id), |o.sent|))
  }

  lemma ProcessConserves(n: Node, child: Id, pkt: Packet)
    requires pkt.Topology? && pkt.Readable() && |n.paths| <= MAX_PATH_NODES - 3
    requires Has(n.table, child)
    ensures var o := ProcessTopology(n, child, pkt);
            && o.node.id == n.id && |o.node.paths| <= MAX_PATH_NODES - 3
            && Balanced(n, pkt.checksum, o)
  {
    hide Xor;
    var own := OwnChecksum(n.id);
    var g := Gather(n, child, pkt);
    GatherConserves(n, child, pkt);
    if |g.node.sums| == |g.node.table| {
      var a, s := XorAll(g.node.sums), XorAll(Checksums(g.sent));
      var last := SendTopology(g.node);
      SendConserves(g.node);
      HoldingPrefix(g.sent, last);
      XorAssociates(s, a, own);
      XorCommutes(a, s);
      TimesAdd(own, |g.sent|, 1);
      TimesOne(own);
      XorAssociates(Xor(XorAll(n.sums), pkt.checksum), Times(own, |g.sent|), own);
    }
  }

  /** One event moves checksums from the air to the buffer or from the buffer to the air. */
  lemma StepConserves(n: Node, e: Event)
    requires Sane(e) && |n.paths| <= MAX_PATH_NODES - 3
    ensures var o := Step(n, e);
            && o.node.id == n.id && |o.node.paths| <= MAX_PATH_NODES - 3
            && Balanced(n, Brought(n, e), o)
  {
    hide Xor;
    var own := OwnChecksum(n.id);
    var held := XorAll(n.sums);
    TimesOne(own);
    XorZero(held);
    XorZero(Xor(held, Brought(n, e)));
    match e
    case Arrive(child, pkt) =>
      if pkt.Attestation? {
        XorSnoc(n.sums, pkt.checksum);
        HoldingNothingSent(Step(n, e).node);
      } else if Has(n.table, child) {
        ProcessConserves(n, child, pkt);
      } else {
        HoldingNothingSent(n);
      }
    case TopologyTimer =>
      SendConserves(n);
    case AttestationTimer =>
      AttestationConserves(n);
  }

  lemma AttestationConserves(n: Node)
    ensures var o := SendAttestation(n);
            && o.node.id == n.id && o.node.paths == (if o.sent == [] then n.paths else [])
            && Balanced(n, 0, o)
  {
    hide Xor, OwnChecksum;
    var own := OwnChecksum(n.id);
    HoldingNothingSent(n);
    XorZero(XorAll(n.sums));
    TimesOne(own);
    if Combined(n) != 0 {
      ChecksumsOne(Attestation(Combined(n)));
      XorZero(Combined(n));
    }
  }

  /** The XOR of everything a run brings in. */
  function BroughtBy(n: Node, es: seq<Event>): bv64
    requires AllSane(es)
  {
    if es == [] then 0
    else Xor(BroughtBy(n, es[..|es| - 1]), Brought(Run(n, es[..|es| - 1]).node, es[|es| - 1]))
  }

  lemma BalancedThen(n: Node, b0: bv64, mid: Out, b1: bv64, o: Out)
    requires mid.node.id == n.id
    requires Balanced(n, b0, mid) && Balanced(mid.node, b1, o)
    ensures Balanced(n, Xor(b0, b1), Out(o.node, mid.sent + o.sent))
  {
    hide Xor;
    var own := OwnChecksum(n.id);
    var s0, h0, t0 := XorAll(n.sums), XorAll(mid.node.sums), Times(own, |mid.sent|);
    var s1, t1 := XorAll(Checksums(mid.sent)), Times(own, |o.sent|);
    HoldingPrefix(mid.sent, o);
    TimesAdd(own, |mid.sent|, |o.sent|);
    calc {
      Holding(Out(o.node, mid.sent + o.sent));
      Xor(s1, Xor(Xor(h0, b1), t1));
      { XorAssociates(s1, Xor(h0, b1), t1); XorAssociates(s1, h0, b1); XorCommutes(s1, h0); }
      Xor(Xor(Holding(mid), b1), t1);
      Xor(Xor(Xor(Xor(s0, b0), t0), b1), t1);
      { XorAssociates(Xor(Xor(s0, b0), t0), b1, t1); }
      Xor(Xor(Xor(s0, b0), t0), Xor(b1, t1));
      { XorExchange(Xor(s0, b0), t0, b1, t1); }
      Xor(Xor(Xor(s0, b0), b1), Xor(t0, t1));
      { XorAssociates(s0, b0, b1); }
      Xor(Xor(s0, Xor(b0, b1)), Xor(t0, t1));
    }
  }

  /**
   Conservation over any run, topology and attestation events mixed: what is left in the buffer
   together with what was sent is what was there, what came in, and the relay's own checksum once
   for each packet sent.
   */
  lemma {:induction false} RunConserves(n: Node, es: seq<Event>)
    requires AllSane(es) && |n.paths| <= MAX_PATH_NODES - 3
    ensures var o := Run(n, es);
            && o.node.id == n.id && |o.node.paths| <= MAX_PATH_NODES - 3
            && Balanced(n, BroughtBy(n, es), o)
  {
    hide Xor;
    if es == [] {
      HoldingNothingSent(n);
      XorZero(XorAll(n.sums));
    } else {
      var before := Run(n, es[..|es| - 1]);
      var e := es[|es| - 1];
      RunConserves(n, es[..|es| - 1]);
      StepConserves(before.node, e);
      BalancedThen(n, BroughtBy(n, es[..|es| - 1]), before, Brought(before.node, e), Step(before.node, e));
    }
  }

  // ---- Path ids ----

  lemma IdsSentConcat(a: seq<Packet>, b: seq<Packet>)
    requires AllReadable(a) && AllReadable(b)
    ensures AllReadable(a + b) && IdsSent(a + b) == IdsSent(a) + IdsSent(b)
  {
    if b == [] {
      assert a + b == a;
    } else {
      var c := b[..|b| - 1];
      IdsSentConcat(a, c);
      assert (a + b)[..|a + b| - 1] == a + c;
    }
  }

  lemma IdsSentOne(p: Packet)
    requires p.Readable()
    ensures IdsSent([p]) == SetOf(p.Ids())
  {
    assert IdsSent([]) == {};
  }

  /** The ids a sender adds to what it sends: its own, if it sends at all. */
  function Signature(id: Id, ps: seq<Packet>): set<Id> {
    if ps == [] then {} else {id}
  }

  lemma SendIds(n: Node)
    requires |n.paths| <= MAX_PATH_NODES - 2
    ensures AllComplete(SendTopology(n).sent, n.id)
    ensures IdsSent(SendTopology(n).sent) == SetOf(n.paths) + {n.id}
  {
    var p := SendTopology(n).sent[0];
    assert p.Ids() == n.paths + [n.id];
    IdsSentOne(p);
  }

  lemma {:induction false} AbsorbIds(n: Node, buf: seq<Id>, ids: seq<Id>)
    requires |buf| <= MAX_PATH_NODES - 3 && SetOf(n.paths) <= SetOf(buf)
    ensures var r := Absorb(n, buf, ids);
            && AllReadable(r.sent)
            && SetOf(r.node.paths) + IdsSent(r.sent) == SetOf(buf) + SetOf(ids) + Signature(n.id, r.sent)
    decreases |ids|
  {
    if ids != [] {
      var longer := buf + [ids[0]];
      assert SetOf(ids) == {ids[0]} + SetOf(ids[1..]);
      assert SetOf(longer) == SetOf(buf) + {ids[0]};
      if ids[0] in n.paths {
        assert ids[0] in SetOf(n.paths);
        AbsorbIds(n, buf, ids[1..]);
      } else if |longer| >= MAX_PATH_NODES - 2 {
        var m := n.(paths := longer);
        var split := SendTopology(m);
        var rest := Absorb(Reset(split.node), [], ids[1..]);
        AbsorbIds(Reset(split.node), [], ids[1..]);
        SendIds(m);
        IdsSentConcat(split.sent, rest.sent);
      } else {
        AbsorbIds(n, longer, ids[1..]);
      }
    }
  }

  /** The ids an event brings in: none when the relay does not accept the packet. */
  function IdsBrought(n: Node, e: Event): set<Id>
    requires Sane(e)
  {
    if Accepts(n, e) then SetOf(e.pkt.Ids()) else {}
  }

  /** No step loses an id and none invents one. */
  lemma StepIds(n: Node, e: Event)
    requires TopologyEvent(e) && Bounded(n)
    ensures var o := Step(n, e);
            && AllReadable(o.sent)
            && SetOf(o.node.paths) + IdsSent(o.sent)
            == SetOf(n.paths) + IdsBrought(n, e) + Signature(n.id, o.sent)
  {
    hide Xor;
    StepBounded(n, e);
    if e.TopologyTimer? {
      SendIds(n);
    } else if Has(n.table, e.child) {
      var g := Gather(n, e.child, e.pkt);
      var marked := n.(table := Mark(n.table, e.child), sums := n.sums + [e.pkt.checksum]);
      GatherShape(n, e.child, e.pkt);
      AbsorbIds(marked, marked.paths, e.pkt.Ids());
      if |g.node.sums| == |g.node.table| {
        SendIds(g.node);
        IdsSentConcat(g.sent, SendTopology(g.node).sent);
      }
    }
  }

  function IdsBroughtBy(n: Node, es: seq<Event>): set<Id>
    requires AllSane(es)
  {
    if es == [] then {}
    else IdsBroughtBy(n, es[..|es| - 1]) + IdsBrought(Run(n, es[..|es| - 1]).node, es[|es| - 1])
  }

  lemma SignatureConcat(id: Id, a: seq<Packet>, b: seq<Packet>)
    ensures Signature(id, a + b) == Signature(id, a) + Signature(id, b)
    ensures Signature(id, []) == {}
  {
  }

  lemma NoIdsSent()
    ensures IdsSent([]) == {}
  {
  }

  /** Over a whole run, de-duplication and splits included, no id is lost and none is invented. */
  lemma {:induction false} RunIds(n: Node, es: seq<Event>)
    requires TopologyRun(es) && Bounded(n)
    ensures var o := Run(n, es);
            && AllReadable(o.sent)
            && SetOf(o.node.paths) + IdsSent(o.sent)
            == SetOf(n.paths) + IdsBroughtBy(n, es) + Signature(n.id, o.sent)
  {
    hide Xor, Step, Bounded, SetOf, IdsBrought, Signature;
    RunBounded(n, es);
    NoIdsSent();
    SignatureConcat(n.id, [], []);
    if es != [] {
      var before := Run(n, es[..|es| - 1]);
      var o := Step(before.node, es[|es| - 1]);
      RunIds(n, es[..|es| - 1]);
      RunBounded(n, es[..|es| - 1]);
      StepIds(before.node, es[|es| - 1]);
      IdsSentConcat(before.sent, o.sent);
      SignatureConcat(n.id, before.sent, o.sent);
    }
  }

  // ---- When the path buffer fills ----

  /** The ids of a packet that the search among the `known` ones does not find. */
  function Kept(known: seq<Id>, ids: seq<Id>): (r: seq<Id>)
    ensures |r| <= |ids|
    ensures forall x :: x in r <==> x in ids && x !in known
  {
    if ids == [] then []
    else if ids[0] in known then Kept(known, ids[1..])
    else [ids[0]] + Kept(known, ids[1..])
  }

  /** What is left of a packet once `room` of its ids have been kept. */
  function Unread(known: seq<Id>, room: nat, ids: seq<Id>): (r: seq<Id>)
    ensures |r| <= |ids|
    ensures forall x :: x in r ==> x in ids
  {
    if room == 0 || ids == [] then ids
    else Unread(known, if ids[0] in known then room else room - 1, ids[1..])
  }

  /** Ids a packet may hold before the copy loop sends them on. */
  const CAPACITY := MAX_PATH_NODES - 2

  /** The packet fills the path buffer. */
  predicate Fills(n: Node, ids: seq<Id>) {
    |n.paths| + |Kept(n.paths, ids)| >= CAPACITY
  }

  /** The copy loop sends nothing exactly when everything it keeps fits. */
  lemma {:induction false} AbsorbFits(n: Node, buf: seq<Id>, ids: seq<Id>)
    requires |buf| < CAPACITY
    ensures Absorb(n, buf, ids).sent == [] <==> |buf| + |Kept(n.paths, ids)| < CAPACITY
    ensures Absorb(n, buf, ids).sent == []
         ==> Absorb(n, buf, ids).node == n.(paths := buf + Kept(n.paths, ids))
    decreases |ids|
  {
    hide Xor;
    if ids == [] {
      assert buf + [] == buf;
    } else if ids[0] in n.paths {
      AbsorbFits(n, buf, ids[1..]);
    } else if |buf| + 1 < CAPACITY {
      AbsorbFits(n, buf + [ids[0]], ids[1..]);
      assert buf + [ids[0]] + Kept(n.paths, ids[1..]) == buf + Kept(n.paths, ids);
    }
  }

  lemma UnreadNext(known: seq<Id>, room: nat, ids: seq<Id>)
    requires room > 0 && ids != []
    ensures Unread(known, room, ids) == Unread(known, if ids[0] in known then room else room - 1, ids[1..])
    ensures Unread(known, 0, ids[1..]) == ids[1..]
  {
  }

  /** Otherwise the buffer is filled up and sent, and the copy goes on into an empty buffer. */
  lemma {:induction false} AbsorbSplits(n: Node, buf: seq<Id>, ids: seq<Id>)
    requires |buf| < CAPACITY <= |buf| + |Kept(n.paths, ids)|
    ensures var room := CAPACITY - |buf|;
            var m := n.(paths := buf + Kept(n.paths, ids)[..room]);
            var rest := Absorb(Reset(SendTopology(m).node), [], Unread(n.paths, room, ids));
            Absorb(n, buf, ids) == Out(rest.node, SendTopology(m).sent + rest.sent)
    decreases |ids|
  {
    hide Xor, SendTopology, Reset, Unread;
    var kept := Kept(n.paths, ids[1..]);
    UnreadNext(n.paths, CAPACITY - |buf|, ids);
    if ids[0] in n.paths {
      AbsorbSplits(n, buf, ids[1..]);
    } else if |buf| + 1 >= CAPACITY {
      assert ([ids[0]] + kept)[..1] == [ids[0]];
    } else {
      var room := CAPACITY - |buf|;
      AbsorbSplits(n, buf + [ids[0]], ids[1..]);
      assert buf + ([ids[0]] + kept)[..room] == (buf + [ids[0]]) + kept[..room - 1];
    }
  }

  lemma {:induction false} NothingKnown(ids: seq<Id>)
    ensures Kept([], ids) == ids
  {
    if ids != [] {
      NothingKnown(ids[1..]);
    }
  }

  lemma {:induction false} UnreadOfAll(room: nat, ids: seq<Id>)
    requires room <= |ids|
    ensures Unread([], room, ids) == ids[room..]
  {
    if room != 0 {
      UnreadOfAll(room - 1, ids[1..]);
    }
  }

  // ---- No id twice ----

  /** A path without repetition that does not name `id`. */
  ghost predicate CleanPath(ids: seq<Id>, id: Id) {
    NoDup(ids) && id !in ids
  }

  /** No repetition within any block that fills an empty buffer. */
  ghost predicate CleanBlocks(ids: seq<Id>, id: Id) {
    && id !in ids
    && forall i, j :: 0 <= i < j < |ids| && i / CAPACITY == j / CAPACITY ==> ids[i] != ids[j]
  }

  /**
   The buffered ids and those kept until the buffer is full are distinct, and so is each further block
   of the packet; none is the receiver's own.
   */
  ghost predicate CleanPacket(known: seq<Id>, id: Id, ids: seq<Id>)
    requires |known| < CAPACITY
  {
    var kept, room := Kept(known, ids), CAPACITY - |known|;
    if |kept| < room then CleanPath(known + kept, id)
    else CleanPath(known + kept[..room], id) && CleanBlocks(Unread(known, room, ids), id)
  }

  ghost predicate AllNoDup(ps: seq<Packet>)
    requires AllReadable(ps)
  {
    forall i :: 0 <= i < |ps| ==> NoDup(ps[i].Ids())
  }

  /** Neither the path buffer nor a packet sent repeats an id, and the next packet will not either. */
  ghost predicate CleanOut(o: Out) {
    AllReadable(o.sent) && AllNoDup(o.sent) && CleanPath(o.node.paths, o.node.id)
  }

  lemma SnocNoDup(ids: seq<Id>, id: Id)
    ensures NoDup(ids + [id]) <==> CleanPath(ids, id)
  {
    var r := ids + [id];
    assert r[|ids|] == id;
    if NoDup(r) {
      assert forall i :: 0 <= i < |ids| ==> r[i] == ids[i];
    }
  }

  lemma EmptyClean(id: Id)
    ensures CleanPath([], id)
  {
  }

  lemma AllNoDupConcat(a: seq<Packet>, b: seq<Packet>)
    requires AllReadable(a) && AllReadable(b)
    ensures AllReadable(a + b) && (AllNoDup(a + b) <==> AllNoDup(a) && AllNoDup(b))
  {
    hide NoDup;
    var c := a + b;
    forall i | 0 <= i < |c| ensures c[i].Readable() {
      assert c[i] == if i < |a| then a[i] else b[i - |a|];
    }
    assert forall i :: 0 <= i < |a| ==> a[i] == c[i];
    assert forall i :: 0 <= i < |b| ==> b[i] == c[|a| + i];
  }

  /** A relay sends a clean packet exactly when its buffer is clean. */
  lemma SendClean(n: Node)
    requires |n.paths| <= CAPACITY
    ensures AllReadable(SendTopology(n).sent) && (AllNoDup(SendTopology(n).sent) <==> CleanPath(n.paths, n.id))
  {
    hide Xor, NoDup;
    SnocNoDup(n.paths, n.id);
    assert SendTopology(n).sent[0].Ids() == n.paths + [n.id];
  }

  lemma SendThenClean(n: Node, o: Out)
    requires |n.paths| <= CAPACITY && AllReadable(o.sent)
    ensures CleanOut(Out(o.node, SendTopology(n).sent + o.sent)) <==> CleanPath(n.paths, n.id) && CleanOut(o)
  {
    hide Xor, NoDup, SendTopology;
    SendClean(n);
    AllNoDupConcat(SendTopology(n).sent, o.sent);
  }

  lemma BlocksSplit(ids: seq<Id>, id: Id)
    requires |ids| >= CAPACITY
    ensures CleanBlocks(ids, id) <==> CleanPath(ids[..CAPACITY], id) && CleanBlocks(ids[CAPACITY..], id)
  {
    hide CleanBlocks, CleanPath;
    if CleanBlocks(ids, id) {
      BlocksApart(ids, id);
    }
    if CleanPath(ids[..CAPACITY], id) && CleanBlocks(ids[CAPACITY..], id) {
      BlocksJoin(ids, id);
    }
  }

  lemma BlocksApart(ids: seq<Id>, id: Id)
    requires |ids| >= CAPACITY && CleanBlocks(ids, id)
    ensures CleanPath(ids[..CAPACITY], id) && CleanBlocks(ids[CAPACITY..], id)
  {
    var rest := ids[CAPACITY..];
    assert forall i :: 0 <= i < CAPACITY ==> i / CAPACITY == 0;
    forall i, j | 0 <= i < j < |rest| && i / CAPACITY == j / CAPACITY ensures rest[i] != rest[j] {
      NextBlock(i);
      NextBlock(j);
      assert ids[CAPACITY + i] != ids[CAPACITY + j];
    }
  }

  lemma NextBlock(i: nat)
    ensures (CAPACITY + i) / CAPACITY == 1 + i / CAPACITY
  {
  }

  lemma BlocksJoin(ids: seq<Id>, id: Id)
    requires |ids| >= CAPACITY && CleanPath(ids[..CAPACITY], id) && CleanBlocks(ids[CAPACITY..], id)
    ensures CleanBlocks(ids, id)
  {
    var first, rest := ids[..CAPACITY], ids[CAPACITY..];
    assert id !in ids by {
      assert ids == first + rest;
    }
    forall i, j | 0 <= i < j < |ids| && i / CAPACITY == j / CAPACITY ensures ids[i] != ids[j] {
      if j < CAPACITY {
        assert first[i] != first[j];
      } else if i >= CAPACITY {
        NextBlock(i - CAPACITY);
        NextBlock(j - CAPACITY);
        assert rest[i - CAPACITY] != rest[j - CAPACITY];
      }
    }
  }

  lemma OneBlock(ids: seq<Id>, id: Id)
    requires |ids| < CAPACITY
    ensures CleanBlocks(ids, id) <==> CleanPath(ids, id)
  {
    assert forall i :: 0 <= i < |ids| ==> i / CAPACITY == 0;
  }

  /** From an empty buffer, in blocks. */
  lemma {:induction false} BlocksClean(n: Node, ids: seq<Id>)
    requires n.paths == []
    ensures CleanOut(Absorb(n, [], ids)) <==> CleanBlocks(ids, n.id)
    decreases |ids|
  {
    hide Xor, NoDup, CleanBlocks, CleanPath, Absorb, SendTopology;
    NothingKnown(ids);
    AbsorbFits(n, [], ids);
    if |ids| < CAPACITY {
      OneBlock(ids, n.id);
      assert [] + ids == ids;
    } else {
      AbsorbSplits(n, [], ids);
      UnreadOfAll(CAPACITY, ids);
      BlocksSplit(ids, n.id);
      var m := n.(paths := [] + ids[..CAPACITY]);
      assert m.paths == ids[..CAPACITY];
      SplitClean(m, ids[CAPACITY..]);
      BlocksClean(Reset(SendTopology(m).node), ids[CAPACITY..]);
    }
  }

  /** A full buffer is sent and the copy goes on. */
  lemma SplitClean(m: Node, ids: seq<Id>)
    requires |m.paths| == CAPACITY
    ensures var next := Reset(SendTopology(m).node);
            var rest := Absorb(next, [], ids);
            && next.paths == [] && next.id == m.id
            && (CleanOut(Out(rest.node, SendTopology(m).sent + rest.sent))
                <==> CleanPath(m.paths, m.id) && CleanOut(rest))
  {
    hide Xor, NoDup, Absorb;
    var next := Reset(SendTopology(m).node);
    AbsorbShape(next, [], ids);
    SendThenClean(m, Absorb(next, [], ids));
  }

  /** The copy loop repeats no id exactly when the packet is clean. */
  lemma AbsorbClean(n: Node, ids: seq<Id>)
    requires |n.paths| < CAPACITY
    ensures CleanOut(Absorb(n, n.paths, ids)) <==> CleanPacket(n.paths, n.id, ids)
  {
    hide Xor, NoDup, CleanBlocks, CleanPath, Absorb, SendTopology;
    AbsorbFits(n, n.paths, ids);
    var kept, room := Kept(n.paths, ids), CAPACITY - |n.paths|;
    if |kept| >= room {
      AbsorbSplits(n, n.paths, ids);
      var m := n.(paths := n.paths + kept[..room]);
      SplitClean(m, Unread(n.paths, room, ids));
      BlocksClean(Reset(SendTopology(m).node), Unread(n.paths, room, ids));
    }
  }

  /** What an event must be for a relay to repeat no id, known before it happens. */
  ghost predicate CleanStep(n: Node, e: Event)
    requires Sane(e) && |n.paths| < CAPACITY
  {
    if Accepts(n, e) then CleanPacket(n.paths, n.id, e.pkt.Ids()) else CleanPath(n.paths, n.id)
  }

  lemma CleanBefore(n: Node, e: Event)
    requires Sane(e) && |n.paths| < CAPACITY && CleanStep(n, e)
    ensures CleanPath(n.paths, n.id)
  {
    if Accepts(n, e) {
      var kept, room := Kept(n.paths, e.pkt.Ids()), CAPACITY - |n.paths|;
      var all := n.paths + if |kept| < room then kept else kept[..room];
      assert CleanPath(all, n.id);
      assert forall i :: 0 <= i < |n.paths| ==> n.paths[i] == all[i];
    }
  }

  lemma StepClean(n: Node, e: Event)
    requires TopologyEvent(e) && Bounded(n)
    ensures CleanOut(Step(n, e)) <==> CleanStep(n, e)
  {
    hide Xor, Absorb, CleanPath, CleanPacket, SendTopology, AllNoDup;
    EmptyClean(n.id);
    if e.TopologyTimer? {
      SendClean(n);
      SendEmpties(n);
    } else if Has(n.table, e.child) {
      var marked := n.(table := Mark(n.table, e.child), sums := n.sums + [e.pkt.checksum]);
      var g := Gather(n, e.child, e.pkt);
      GatherShape(n, e.child, e.pkt);
      AbsorbClean(marked, e.pkt.Ids());
      SendClean(g.node);
      SendEmpties(g.node);
      AllNoDupConcat(g.sent, SendTopology(g.node).sent);
    } else {
      NothingSentIsClean();
    }
  }

  lemma SendEmpties(n: Node)
    ensures SendTopology(n).node.paths == [] && SendTopology(n).node.id == n.id
  {
  }

  lemma NothingSentIsClean()
    ensures AllReadable([]) && AllNoDup([])
  {
  }

  /** Every event of the run keeps the relay clean. */
  ghost predicate CleanRun(n: Node, es: seq<Event>)
    requires Bounded(n) && TopologyRun(es)
  {
    if es == [] then CleanPath(n.paths, n.id)
    else
      RunBounded(n, es[..|es| - 1]);
      CleanRun(n, es[..|es| - 1]) && CleanStep(Run(n, es[..|es| - 1]).node, es[|es| - 1])
  }

  /**
   The buffer and all packets sent in a run are free of repetitions exactly when every accepted packet
   is clean: the search misses a repetition within one packet, and the receiver's own id.
   */
  lemma {:induction false} RunCleanExactly(n: Node, es: seq<Event>)
    requires TopologyRun(es) && Bounded(n)
    ensures CleanOut(Run(n, es)) <==> CleanRun(n, es)
  {
    hide Xor, Step, CleanPath, AllNoDup, CleanStep;
    if es == [] {
      NothingSentIsClean();
    } else {
      var front, e := es[..|es| - 1], es[|es| - 1];
      var before := Run(n, front);
      RunBounded(n, front);
      RunCleanExactly(n, front);
      StepClean(before.node, e);
      StepBounded(before.node, e);
      AllNoDupConcat(before.sent, Step(before.node, e).sent);
      if CleanStep(before.node, e) {
        CleanBefore(before.node, e);
      }
    }
  }

  ghost predicate CleanEvent(e: Event, id: Id)
    requires Sane(e)
  {
    e.Arrive? ==> CleanPath(e.pkt.Ids(), id)
  }

  lemma {:induction false} KeptNoDup(known: seq<Id>, ids: seq<Id>)
    requires NoDup(ids)
    ensures NoDup(Kept(known, ids))
  {
    if ids != [] {
      var kept := Kept(known, ids[1..]);
      KeptNoDup(known, ids[1..]);
      assert ids[0] !in ids[1..];
      assert forall i :: 0 <= i < |kept| ==> kept[i] in kept;
    }
  }

  lemma {:induction false} UnreadNoDup(known: seq<Id>, room: nat, ids: seq<Id>)
    requires NoDup(ids)
    ensures NoDup(Unread(known, room, ids))
  {
    if room != 0 && ids != [] {
      UnreadNoDup(known, if ids[0] in known then room else room - 1, ids[1..]);
    }
  }

  /** Distinct ids that do not name the receiver are clean in every state. */
  lemma CleanArrives(known: seq<Id>, id: Id, ids: seq<Id>)
    requires |known| < CAPACITY && CleanPath(known, id) && CleanPath(ids, id)
    ensures CleanPacket(known, id, ids)
  {
    KeptNoDup(known, ids);
    JoinNoDup(known, Kept(known, ids));
    var kept, room := Kept(known, ids), CAPACITY - |known|;
    if |kept| >= room {
      UnreadNoDup(known, room, ids);
      assert forall i :: 0 <= i < CAPACITY ==> (known + kept[..room])[i] == (known + kept)[i];
      assert forall x :: x in kept[..room] ==> x in kept;
    }
  }

  lemma StepNoDup(n: Node, e: Event)
    requires TopologyEvent(e) && Bounded(n) && CleanPath(n.paths, n.id) && CleanEvent(e, n.id)
    ensures var o := Step(n, e);
            && CleanPath(o.node.paths, n.id)
            && AllReadable(o.sent) && AllNoDup(o.sent)
  {
    hide Step, CleanPath, AllNoDup, CleanPacket;
    StepClean(n, e);
    StepBounded(n, e);
    if Accepts(n, e) {
      CleanArrives(n.paths, n.id, e.pkt.Ids());
    }
  }

  /** If no arriving path repeats an id or names the receiver, the run is free of repetitions. */
  lemma {:induction false} RunNoDup(n: Node, es: seq<Event>)
    requires TopologyRun(es) && Bounded(n) && CleanPath(n.paths, n.id)
    requires forall i :: 0 <= i < |es| ==> CleanEvent(es[i], n.id)
    ensures var o := Run(n, es);
            && CleanPath(o.node.paths, n.id)
            && AllReadable(o.sent) && AllNoDup(o.sent)
  {
    hide Step, CleanPath, AllNoDup;
    if es == [] {
      NothingSentIsClean();
    } else {
      var before := Run(n, es[..|es| - 1]);
      RunNoDup(n, es[..|es| - 1]);
      RunBounded(n, es[..|es| - 1]);
      StepNoDup(before.node, es[|es| - 1]);
      AllNoDupConcat(before.sent, Step(before.node, es[|es| - 1]).sent);
    }
  }

  lemma NewIdsClean(known: seq<Id>, added: seq<Id>, id: Id)
    requires CleanPath(known, id) && forall x :: x in added ==> x !in known
    ensures CleanPath(known + added, id) <==> NoDup(added + [id])
  {
    var all := known + added;
    SnocNoDup(added, id);
    assert forall i :: 0 <= i < |added| ==> added[i] in added && added[i] == all[|known| + i];
    assert forall i :: 0 <= i < |known| ==> known[i] in known && known[i] == all[i];
  }

  /**
   For a clean relay and a packet that leaves room: a repetition survives exactly when the packet
   brings some new id twice, or the receiver's own.
   */
  lemma RepetitionInsideOnePacketSurvives(n: Node, child: Id, pkt: Packet)
    requires Bounded(n) && pkt.Topology? && pkt.Readable() && Has(n.table, child) && CleanPath(n.paths, n.id)
    requires !Fills(n, pkt.Ids())
    ensures CleanOut(Step(n, Arrive(child, pkt))) <==> NoDup(Kept(n.paths, pkt.Ids()) + [n.id])
  {
    hide Xor, Step, NoDup, CleanPath;
    StepClean(n, Arrive(child, pkt));
    NewIdsClean(n.paths, Kept(n.paths, pkt.Ids()), n.id);
  }
}
