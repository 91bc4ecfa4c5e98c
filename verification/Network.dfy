/**
 The topology round in a whole network: a rank-ordered tree of relays and leaves under the border
 router, with reliable links. Packets arrive in any order and timers fire at any moment.
 */
module Network {
  import opened Words
  import opened ChildTable
  import opened RelayModel
  import opened RelayRuns
  import opened RelayRounds

  /**
   Node 0 is the border router, which has no child table and any number of neighbours. Every other node
   has one neighbour of lower rank, its parent, which is where `send_to_parents` sends.
   */
  datatype Tree = Tree(ids: seq<Id>, parent: seq<nat>, rank: seq<nat>)

  /** The child table of `v`, considering the nodes below `k`. */
  function TableOf(t: Tree, v: nat, k: nat): (r: seq<Child>)
    requires k <= |t.ids| && k <= |t.parent|
    ensures forall e :: e in r ==> !e.received
  {
    if k <= 1 then []
    else if t.parent[k - 1] == v then TableOf(t, v, k - 1) + [Child(t.ids[k - 1], false)]
    else TableOf(t, v, k - 1)
  }

  ghost predicate WellFormed(t: Tree) {
    && 1 <= |t.ids| == |t.parent| == |t.rank|
    && NoDup(t.ids)
    && (forall v :: 1 <= v < |t.ids| ==> t.parent[v] < |t.ids| && t.rank[t.parent[v]] < t.rank[v])
    && (forall v :: 1 <= v < |t.ids| ==> |TableOf(t, v, |t.ids|)| <= MAX_CHILD)
  }

  predicate IsLeaf(t: Tree, v: nat)
    requires |t.ids| == |t.parent|
  {
    TableOf(t, v, |t.ids|) == []
  }

  /** A packet on its way from `src` to the parent of `src`. */
  datatype Msg = Msg(src: nat, pkt: Packet)

  /** The relays' states, the packets in the air, those the border router received, and all packets ever sent. */
  datatype Net = Net(nodes: seq<Node>, flight: seq<Msg>, received: seq<Msg>, sent: seq<Msg>)

  datatype NetEvent =
    | Request(leaf: nat)
    | Deliver(index: nat)
    | Timer(relay: nat)

  function Wrap(v: nat, ps: seq<Packet>): (r: seq<Msg>)
    ensures |r| == |ps| && forall i :: 0 <= i < |ps| ==> r[i] == Msg(v, ps[i])
  {
    seq(|ps|, i requires 0 <= i < |ps| => Msg(v, ps[i]))
  }

  // ---- Steps ----

  predicate MsgTyped(t: Tree, m: Msg) {
    1 <= m.src < |t.ids| && Complete(m.pkt, t.ids[m.src])
  }

  predicate AllTyped(t: Tree, ms: seq<Msg>) {
    forall i :: 0 <= i < |ms| ==> MsgTyped(t, ms[i])
  }

  predicate NodeTyped(t: Tree, n: Node, v: nat)
    requires v < |t.ids| == |t.parent|
  {
    n.id == t.ids[v] && (v >= 1 ==> Bounded(n)) && SameIds(n.table, TableOf(t, v, |t.ids|))
  }

  /** Every packet is complete, and every relay is within its bounds. */
  ghost predicate Typed(t: Tree, s: Net)
    requires WellFormed(t)
  {
    && |s.nodes| == |t.ids|
    && AllTyped(t, s.flight) && AllTyped(t, s.received) && AllTyped(t, s.sent)
    && (forall v :: 0 <= v < |t.ids| ==> NodeTyped(t, s.nodes[v], v))
  }

  /** The event can happen: leaves answer requests, relays have timers. */
  predicate Enabled(t: Tree, s: Net, e: NetEvent)
    requires |t.ids| == |t.parent|
  {
    match e
    case Request(v) => 1 <= v < |t.ids| && IsLeaf(t, v)
    case Deliver(k) => k < |s.flight|
    case Timer(v) => 1 <= v < |t.ids| && !IsLeaf(t, v)
  }

  function Emit(s: Net, v: nat, o: Out): Net
    requires v < |s.nodes|
  {
    s.(nodes := s.nodes[v := o.node], flight := s.flight + Wrap(v, o.sent), sent := s.sent + Wrap(v, o.sent))
  }

  ghost function NetStep(t: Tree, s: Net, e: NetEvent): (r: Net)
    requires WellFormed(t) && Typed(t, s)
    ensures Typed(t, r)
  {
    if !Enabled(t, s, e) then s
    else
      match e
      case Request(v) =>
        LeafEmits(t, s, v);
        Emit(s, v, Out(s.nodes[v], [LeafPacket(t.ids[v], t.rank[v])]))
      case Deliver(k) =>
        var m := s.flight[k];
        var v := t.parent[m.src];
        var rest := s.(flight := s.flight[..k] + s.flight[k + 1..]);
        if v == 0 then rest.(received := s.received + [m])
        else
          RelayEmits(t, rest, v, Arrive(t.ids[m.src], m.pkt));
          Emit(rest, v, Step(s.nodes[v], Arrive(t.ids[m.src], m.pkt)))
      case Timer(v) =>
        RelayEmits(t, s, v, TopologyTimer);
        Emit(s, v, Step(s.nodes[v], TopologyTimer))
  }

  lemma EmitTyped(t: Tree, s: Net, v: nat, o: Out)
    requires WellFormed(t) && Typed(t, s) && 1 <= v < |t.ids|
    requires NodeTyped(t, o.node, v) && AllComplete(o.sent, t.ids[v])
    ensures Typed(t, Emit(s, v, o))
  {
    hide Complete, Bounded, SameIds, TableOf;
  }

  lemma LeafEmits(t: Tree, s: Net, v: nat)
    requires WellFormed(t) && Typed(t, s) && 1 <= v < |t.ids|
    ensures Typed(t, Emit(s, v, Out(s.nodes[v], [LeafPacket(t.ids[v], t.rank[v])])))
  {
    hide Xor;
    assert NodeTyped(t, s.nodes[v], v);
    EmitTyped(t, s, v, Out(s.nodes[v], [LeafPacket(t.ids[v], t.rank[v])]));
  }

  lemma RelayEmits(t: Tree, s: Net, v: nat, e: Event)
    requires WellFormed(t) && Typed(t, s) && 1 <= v < |t.ids| && TopologyEvent(e)
    ensures Typed(t, Emit(s, v, Step(s.nodes[v], e)))
  {
    hide Step, TableOf, Bounded, Complete, Xor;
    assert NodeTyped(t, s.nodes[v], v);
    StepBounded(s.nodes[v], e);
    EmitTyped(t, s, v, Step(s.nodes[v], e));
  }

  /** Before the first event: fresh relays, nothing in the air. */
  ghost function Initial(t: Tree): (s: Net)
    requires WellFormed(t)
    ensures Typed(t, s)
  {
    Net(seq(|t.ids|, v requires 0 <= v < |t.ids| => Fresh(t.ids[v], TableOf(t, v, |t.ids|))), [], [], [])
  }

  ghost function NetRun(t: Tree, es: seq<NetEvent>): (s: Net)
    requires WellFormed(t)
    ensures Typed(t, s)
  {
    if es == [] then Initial(t) else NetStep(t, NetRun(t, es[..|es| - 1]), es[|es| - 1])
  }

  // ---- Nobody is turned away ----

  lemma {:induction false} TableHas(t: Tree, v: nat, k: nat, c: nat)
    requires |t.ids| == |t.parent| && 1 <= c < k <= |t.ids| && t.parent[c] == v
    ensures Has(TableOf(t, v, k), t.ids[c])
  {
    var before := TableOf(t, v, k - 1);
    if c == k - 1 {
      assert TableOf(t, v, k)[|before|].id == t.ids[c];
    } else {
      TableHas(t, v, k - 1, c);
      var i :| 0 <= i < |before| && before[i].id == t.ids[c];
      assert TableOf(t, v, k)[i].id == t.ids[c];
    }
  }

  /** A packet is delivered to a relay that knows its sender. */
  lemma DeliveredIsAccepted(t: Tree, s: Net, m: Msg)
    requires WellFormed(t) && Typed(t, s) && MsgTyped(t, m)
    ensures Has(s.nodes[t.parent[m.src]].table, t.ids[m.src])
  {
    var v := t.parent[m.src];
    TableHas(t, v, |t.ids|, m.src);
    assert NodeTyped(t, s.nodes[v], v);
    SameIdsHas(TableOf(t, v, |t.ids|), s.nodes[v].table, t.ids[m.src]);
  }

  // ---- Conservation ----

  function MsgChecksums(ms: seq<Msg>): (r: seq<bv64>)
    ensures |r| == |ms|
    ensures forall i :: 0 <= i < |ms| ==> r[i] == ms[i].pkt.checksum
  {
    seq(|ms|, i requires 0 <= i < |ms| => ms[i].pkt.checksum)
  }

  function HeldChecksums(nodes: seq<Node>): (r: seq<bv64>)
    ensures |r| == |nodes|
    ensures forall v :: 0 <= v < |nodes| ==> r[v] == XorAll(nodes[v].sums)
  {
    seq(|nodes|, v requires 0 <= v < |nodes| => XorAll(nodes[v].sums))
  }

  /** The senders' own checksums, one for each packet. */
  function OwnChecksums(t: Tree, ms: seq<Msg>): (r: seq<bv64>)
    requires AllTyped(t, ms)
    ensures |r| == |ms|
    ensures forall i :: 0 <= i < |ms| ==> r[i] == OwnChecksum(t.ids[ms[i].src])
  {
    seq(|ms|, i requires 0 <= i < |ms| => OwnChecksum(t.ids[ms[i].src]))
  }

  /** What has reached the border router, is in the air, or waits in a relay. */
  ghost function Ledger(s: Net): bv64 {
    Xor(Xor(XorAll(MsgChecksums(s.received)), XorAll(MsgChecksums(s.flight))), XorAll(HeldChecksums(s.nodes)))
  }

  lemma MsgChecksumsConcat(a: seq<Msg>, b: seq<Msg>)
    ensures XorAll(MsgChecksums(a + b)) == Xor(XorAll(MsgChecksums(a)), XorAll(MsgChecksums(b)))
  {
    hide Xor;
    assert MsgChecksums(a + b) == MsgChecksums(a) + MsgChecksums(b);
    XorConcat(MsgChecksums(a), MsgChecksums(b));
  }

  lemma MsgChecksumsRemove(ms: seq<Msg>, k: nat)
    requires k < |ms|
    ensures XorAll(MsgChecksums(ms)) == Xor(XorAll(MsgChecksums(ms[..k] + ms[k + 1..])), ms[k].pkt.checksum)
  {
    hide Xor;
    XorRemove(MsgChecksums(ms), k);
    assert MsgChecksums(ms[..k] + ms[k + 1..]) == MsgChecksums(ms)[..k] + MsgChecksums(ms)[k + 1..];
  }

  lemma WrapChecksums(v: nat, ps: seq<Packet>)
    ensures MsgChecksums(Wrap(v, ps)) == Checksums(ps)
  {
  }

  lemma {:induction false} OwnOfWrap(t: Tree, v: nat, ps: seq<Packet>)
    requires 1 <= v < |t.ids| && AllTyped(t, Wrap(v, ps))
    ensures XorAll(OwnChecksums(t, Wrap(v, ps))) == Times(OwnChecksum(t.ids[v]), |ps|)
  {
    hide Xor, Complete;
    if ps != [] {
      var front := ps[..|ps| - 1];
      assert Wrap(v, ps)[..|ps| - 1] == Wrap(v, front);
      OwnOfWrap(t, v, front);
      assert OwnChecksums(t, Wrap(v, ps))[..|ps| - 1] == OwnChecksums(t, Wrap(v, front));
    }
  }

  lemma OwnConcat(t: Tree, a: seq<Msg>, b: seq<Msg>)
    requires AllTyped(t, a) && AllTyped(t, b)
    ensures AllTyped(t, a + b)
    ensures XorAll(OwnChecksums(t, a + b)) == Xor(XorAll(OwnChecksums(t, a)), XorAll(OwnChecksums(t, b)))
  {
    hide Xor, Complete;
    assert OwnChecksums(t, a + b) == OwnChecksums(t, a) + OwnChecksums(t, b);
    XorConcat(OwnChecksums(t, a), OwnChecksums(t, b));
  }

  /**
   The sum behind a relay's step. Before, the ledger is (a ^ m) ^ h; the relay held `x` and received
   `m`, then holds `y` and has sent `w` in packets that carry its own checksum `own` in all.
   */
  lemma LedgerSum(a: bv64, m: bv64, h: bv64, x: bv64, y: bv64, h': bv64, w: bv64, own: bv64)
    requires Xor(y, w) == Xor(Xor(x, m), own)
    requires Xor(h', x) == Xor(h, y)
    ensures Xor(Xor(a, w), h') == Xor(Xor(Xor(a, m), h), own)
  {
    hide Xor;
    var xy := Xor(x, y);
    calc {
      Xor(Xor(h', x), Xor(w, y));
      { XorCommutes(w, y); }
      Xor(Xor(h, y), Xor(Xor(x, m), own));
      { XorAssociates(x, m, own); XorCommutes(h, y); }
      Xor(Xor(y, h), Xor(x, Xor(m, own)));
      { XorExchange(y, h, x, Xor(m, own)); XorCommutes(y, x); }
      Xor(xy, Xor(h, Xor(m, own)));
    }
    calc {
      Xor(Xor(h', x), Xor(w, y));
      { XorExchange(h', x, w, y); }
      Xor(Xor(h', w), xy);
      { XorCommutes(Xor(h', w), xy); XorCommutes(h', w); }
      Xor(xy, Xor(w, h'));
    }
    XorCancel(xy, Xor(w, h'), Xor(h, Xor(m, own)));
    calc {
      Xor(Xor(a, w), h');
      { XorAssociates(a, w, h'); }
      Xor(a, Xor(h, Xor(m, own)));
      { XorAssociates(h, m, own); XorCommutes(h, m); }
      Xor(a, Xor(Xor(m, h), own));
      { XorAssociates(a, Xor(m, h), own); XorAssociates(a, m, h); }
      Xor(Xor(Xor(a, m), h), own);
    }
  }

  lemma XorCancel(a: bv64, b: bv64, c: bv64)
    requires Xor(a, b) == Xor(a, c)
    ensures b == c
  {
    hide Xor;
    XorAssociates(a, a, b);
    XorAssociates(a, a, c);
    XorZero(a);
    XorZero(b);
    XorZero(c);
  }

  /** A relay's step keeps the ledger, given what it brought in from the air. */
  lemma EmitConserves(t: Tree, s: Net, v: nat, brought: bv64, o: Out)
    requires WellFormed(t) && Typed(t, s) && 1 <= v < |t.ids| && Typed(t, Emit(s, v, o))
    requires Balanced(s.nodes[v], brought, o) && s.nodes[v].id == t.ids[v]
    requires Xor(Ledger(s), brought) == XorAll(OwnChecksums(t, s.sent))
    ensures Ledger(Emit(s, v, o)) == XorAll(OwnChecksums(t, Emit(s, v, o).sent))
  {
    hide Xor, Complete, Bounded, NodeTyped;
    var r := Emit(s, v, o);
    var own := OwnChecksum(t.ids[v]);
    var recv, fl, h := XorAll(MsgChecksums(s.received)), XorAll(MsgChecksums(s.flight)), XorAll(HeldChecksums(s.nodes));
    var x, y, w := XorAll(s.nodes[v].sums), XorAll(o.node.sums), XorAll(Checksums(o.sent));
    assert HeldChecksums(r.nodes) == HeldChecksums(s.nodes)[v := y];
    XorReplace(HeldChecksums(s.nodes), v, y);
    MsgChecksumsConcat(s.flight, Wrap(v, o.sent));
    WrapChecksums(v, o.sent);
    TypedTail(t, s.sent, Wrap(v, o.sent));
    OwnConcat(t, s.sent, Wrap(v, o.sent));
    OwnOfWrap(t, v, o.sent);
    var a := Xor(recv, fl);
    XorAssociates(recv, fl, w);
    LedgerSum(a, brought, h, x, y, XorAll(HeldChecksums(r.nodes)), w, Times(own, |o.sent|));
    XorAssociates(a, brought, h);
    XorCommutes(brought, h);
    XorAssociates(a, h, brought);
  }

  lemma TypedTail(t: Tree, a: seq<Msg>, b: seq<Msg>)
    requires AllTyped(t, a + b)
    ensures AllTyped(t, a) && AllTyped(t, b)
  {
    hide MsgTyped;
    forall i | 0 <= i < |a| ensures MsgTyped(t, a[i]) {
      assert a[i] == (a + b)[i];
    }
    forall i | 0 <= i < |b| ensures MsgTyped(t, b[i]) {
      assert b[i] == (a + b)[|a| + i];
    }
  }

  /** Taking a packet out of the air takes its checksum out of the ledger. */
  lemma TakeFromAir(s: Net, k: nat)
    requires k < |s.flight|
    ensures var rest := s.(flight := s.flight[..k] + s.flight[k + 1..]);
            Xor(Ledger(rest), s.flight[k].pkt.checksum) == Ledger(s)
  {
    hide Xor;
    var rest := s.(flight := s.flight[..k] + s.flight[k + 1..]);
    var m := s.flight[k].pkt.checksum;
    var recv, fl := XorAll(MsgChecksums(s.received)), XorAll(MsgChecksums(rest.flight));
    var h := XorAll(HeldChecksums(s.nodes));
    MsgChecksumsRemove(s.flight, k);
    XorAssociates(recv, fl, m);
    XorAssociates(Xor(recv, fl), h, m);
    XorCommutes(h, m);
    XorAssociates(Xor(recv, fl), m, h);
  }

  lemma ReceiveAdds(s: Net, m: Msg)
    ensures Ledger(s.(received := s.received + [m])) == Xor(Ledger(s), m.pkt.checksum)
  {
    hide Xor;
    var c := m.pkt.checksum;
    var recv, fl, h := XorAll(MsgChecksums(s.received)), XorAll(MsgChecksums(s.flight)), XorAll(HeldChecksums(s.nodes));
    MsgChecksumsConcat(s.received, [m]);
    assert MsgChecksums([m]) == [c];
    XorOne(c);
    calc {
      Xor(Xor(Xor(recv, c), fl), h);
      { XorAssociates(recv, c, fl); XorCommutes(c, fl); XorAssociates(recv, fl, c); }
      Xor(Xor(Xor(recv, fl), c), h);
      { XorAssociates(Xor(recv, fl), c, h); XorCommutes(c, h); XorAssociates(Xor(recv, fl), h, c); }
      Xor(Xor(Xor(recv, fl), h), c);
    }
  }

  lemma LeafBalanced(n: Node, rank: nat)
    ensures Balanced(n, 0, Out(n, [LeafPacket(n.id, rank)]))
  {
    hide Xor;
    ChecksumsOne(LeafPacket(n.id, rank));
    TimesOne(OwnChecksum(n.id));
    XorZero(XorAll(n.sums));
  }

  ghost predicate LedgerOk(t: Tree, s: Net)
    requires WellFormed(t) && Typed(t, s)
  {
    Ledger(s) == XorAll(OwnChecksums(t, s.sent))
  }

  lemma ArrivalIsTopology(t: Tree, m: Msg)
    requires MsgTyped(t, m)
    ensures TopologyEvent(Arrive(t.ids[m.src], m.pkt)) && Sane(Arrive(t.ids[m.src], m.pkt))
  {
  }

  lemma RequestKeepsLedger(t: Tree, s: Net, v: nat)
    requires WellFormed(t) && Typed(t, s) && Enabled(t, s, Request(v)) && LedgerOk(t, s)
    ensures LedgerOk(t, NetStep(t, s, Request(v)))
  {
    hide Xor, Complete, Balanced, Ledger, Bounded, TableOf;
    XorZero(Ledger(s));
    assert NodeTyped(t, s.nodes[v], v);
    LeafEmits(t, s, v);
    LeafBalanced(s.nodes[v], t.rank[v]);
    EmitConserves(t, s, v, 0, Out(s.nodes[v], [LeafPacket(t.ids[v], t.rank[v])]));
  }

  lemma TimerKeepsLedger(t: Tree, s: Net, v: nat)
    requires WellFormed(t) && Typed(t, s) && Enabled(t, s, Timer(v)) && LedgerOk(t, s)
    ensures LedgerOk(t, NetStep(t, s, Timer(v)))
  {
    hide Xor, Complete, Balanced, Ledger, Step, Bounded, TableOf;
    XorZero(Ledger(s));
    assert NodeTyped(t, s.nodes[v], v);
    PathRoom(s.nodes[v]);
    StepConserves(s.nodes[v], TopologyTimer);
    RelayEmits(t, s, v, TopologyTimer);
    EmitConserves(t, s, v, 0, Step(s.nodes[v], TopologyTimer));
  }

  lemma DeliverKeepsLedger(t: Tree, s: Net, k: nat)
    requires WellFormed(t) && Typed(t, s) && Enabled(t, s, Deliver(k)) && LedgerOk(t, s)
    ensures LedgerOk(t, NetStep(t, s, Deliver(k)))
  {
    hide Xor, Complete, Balanced, Ledger, Step, Bounded, TableOf, TopologyEvent;
    var m := s.flight[k];
    var v := t.parent[m.src];
    var rest := s.(flight := s.flight[..k] + s.flight[k + 1..]);
    TakeFromAir(s, k);
    if v == 0 {
      ReceiveAdds(rest, m);
    } else {
      var arrival := Arrive(t.ids[m.src], m.pkt);
      assert NodeTyped(t, s.nodes[v], v);
      ArrivalIsTopology(t, m);
      DeliveredIsAccepted(t, s, m);
      PathRoom(s.nodes[v]);
      StepConserves(s.nodes[v], arrival);
      RelayEmits(t, rest, v, arrival);
      EmitConserves(t, rest, v, m.pkt.checksum, Step(s.nodes[v], arrival));
    }
  }

  lemma {:induction false} NothingHeld(nodes: seq<Node>)
    requires forall v :: 0 <= v < |nodes| ==> nodes[v].sums == []
    ensures XorAll(HeldChecksums(nodes)) == 0
  {
    hide Xor;
    if nodes != [] {
      var front := nodes[..|nodes| - 1];
      NothingHeld(front);
      assert HeldChecksums(nodes)[..|nodes| - 1] == HeldChecksums(front);
      XorZero(0);
    }
  }

  /**
   Network conservation. After every run, the XOR of everything the border router received,
   everything in the air and everything waiting in relays is the XOR of the senders' own checksums
   over all packets sent so far.
   */
  lemma {:induction false} LedgerBalances(t: Tree, es: seq<NetEvent>)
    requires WellFormed(t)
    ensures var s := NetRun(t, es);
            && Xor(Xor(XorAll(MsgChecksums(s.received)), XorAll(MsgChecksums(s.flight))),
                   XorAll(HeldChecksums(s.nodes)))
            == XorAll(OwnChecksums(t, s.sent))
  {
    hide Xor, NetStep;
    if es == [] {
      NothingHeld(Initial(t).nodes);
      XorZero(0);
    } else {
      var s, e := NetRun(t, es[..|es| - 1]), es[|es| - 1];
      LedgerBalances(t, es[..|es| - 1]);
      if Enabled(t, s, e) {
        match e
        case Request(v) => RequestKeepsLedger(t, s, v);
        case Deliver(k) => DeliverKeepsLedger(t, s, k);
        case Timer(v) => TimerKeepsLedger(t, s, v);
      } else {
        IdleStep(t, s, e);
      }
    }
  }

  lemma IdleStep(t: Tree, s: Net, e: NetEvent)
    requires WellFormed(t) && Typed(t, s) && !Enabled(t, s, e)
    ensures NetStep(t, s, e) == s
  {
  }
}
