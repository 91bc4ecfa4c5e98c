/** The paths in a network run: which ids travel, and that none gets lost on the way. */
module NetworkPaths {
  import opened Words
  import opened ChildTable
  import opened RelayModel
  import opened RelayRuns
  import opened RelayRounds
  import opened Network

  // ---- Descendants ----

  /** `u` is `v` or lies below it. */
  ghost predicate Descends(t: Tree, u: nat, v: nat)
    requires WellFormed(t) && u < |t.ids|
    decreases t.rank[u]
  {
    u == v || (u >= 1 && Descends(t, t.parent[u], v))
  }

  /** The ids of `v` and everything below it. */
  ghost function Below(t: Tree, v: nat): set<Id>
    requires WellFormed(t)
  {
    set u | 0 <= u < |t.ids| && Descends(t, u, v) :: t.ids[u]
  }

  lemma {:induction false} DescendsUp(t: Tree, u: nat, c: nat)
    requires WellFormed(t) && u < |t.ids| && 1 <= c < |t.ids| && Descends(t, u, c)
    ensures Descends(t, u, t.parent[c])
    ensures t.rank[u] >= t.rank[c]
    decreases t.rank[u]
  {
    if u != c {
      DescendsUp(t, t.parent[u], c);
    }
  }

  /** What lies below a child lies below its parent, and the parent is not among it. */
  lemma BelowChild(t: Tree, c: nat)
    requires WellFormed(t) && 1 <= c < |t.ids|
    ensures Below(t, c) <= Below(t, t.parent[c]) - {t.ids[t.parent[c]]}
  {
    forall x | x in Below(t, c)
      ensures x in Below(t, t.parent[c]) && x != t.ids[t.parent[c]]
    {
      var u :| 0 <= u < |t.ids| && Descends(t, u, c) && t.ids[u] == x;
      DescendsUp(t, u, c);
      assert u != t.parent[c];
    }
  }

  lemma SelfBelow(t: Tree, v: nat)
    requires WellFormed(t) && v < |t.ids|
    ensures t.ids[v] in Below(t, v)
  {
    assert Descends(t, v, v);
  }

  // ---- Every packet names descendants of its sender, each once ----

  /** A path of distinct ids of the sender and its descendants. */
  ghost predicate PathOk(t: Tree, m: Msg)
    requires WellFormed(t) && MsgTyped(t, m)
  {
    NoDup(m.pkt.Ids()) && SetOf(m.pkt.Ids()) <= Below(t, m.src)
  }

  ghost predicate PathsOk(t: Tree, ms: seq<Msg>)
    requires WellFormed(t) && AllTyped(t, ms)
  {
    forall i :: 0 <= i < |ms| ==> PathOk(t, ms[i])
  }

  /** A relay waits with distinct ids of proper descendants. */
  ghost predicate PendingOk(t: Tree, n: Node, v: nat)
    requires WellFormed(t) && v < |t.ids|
  {
    NoDup(n.paths) && SetOf(n.paths) <= Below(t, v) - {t.ids[v]}
  }

  ghost predicate NetOk(t: Tree, s: Net)
    requires WellFormed(t) && Typed(t, s)
  {
    && PathsOk(t, s.flight) && PathsOk(t, s.received) && PathsOk(t, s.sent)
    && forall v :: 0 <= v < |t.ids| ==> PendingOk(t, s.nodes[v], v)
  }

  lemma {:induction false} IdsSentCovers(ps: seq<Packet>, k: nat)
    requires AllReadable(ps) && k < |ps|
    ensures SetOf(ps[k].Ids()) <= IdsSent(ps)
  {
    hide Xor;
    if k < |ps| - 1 {
      IdsSentCovers(ps[..|ps| - 1], k);
    }
  }

  /** The event brings a relay distinct ids of proper descendants. */
  ghost predicate ArrivalOk(t: Tree, v: nat, e: Event)
    requires WellFormed(t) && v < |t.ids| && Sane(e)
  {
    e.Arrive? ==> NoDup(e.pkt.Ids()) && SetOf(e.pkt.Ids()) <= Below(t, v) - {t.ids[v]}
  }

  lemma NotInSet(ids: seq<Id>, s: set<Id>, id: Id)
    requires SetOf(ids) <= s - {id}
    ensures id !in ids
  {
    assert id in ids ==> id in SetOf(ids);
  }

  lemma SubsetWithout(ids: seq<Id>, s: set<Id>, id: Id)
    requires SetOf(ids) <= s && id !in ids
    ensures SetOf(ids) <= s - {id}
  {
  }

  lemma RelayStepOk(t: Tree, s: Net, v: nat, e: Event)
    requires WellFormed(t) && Typed(t, s) && 1 <= v < |t.ids| && TopologyEvent(e)
    requires PendingOk(t, s.nodes[v], v) && ArrivalOk(t, v, e)
    ensures var o := Step(s.nodes[v], e);
            && PendingOk(t, o.node, v) && AllComplete(o.sent, t.ids[v])
            && forall i :: 0 <= i < |o.sent| ==> NoDup(o.sent[i].Ids()) && SetOf(o.sent[i].Ids()) <= Below(t, v)
  {
    hide Step, Bounded, TableOf, NoDup, Below, Complete, Xor;
    var n, o := s.nodes[v], Step(s.nodes[v], e);
    assert NodeTyped(t, n, v);
    StepBounded(n, e);
    NotInSet(n.paths, Below(t, v), t.ids[v]);
    if e.Arrive? {
      NotInSet(e.pkt.Ids(), Below(t, v), t.ids[v]);
    }
    StepIds(n, e);
    StepNoDup(n, e);
    SelfBelow(t, v);
    assert SetOf(o.node.paths) + IdsSent(o.sent) <= Below(t, v);
    SubsetWithout(o.node.paths, Below(t, v), t.ids[v]);
    forall i | 0 <= i < |o.sent| ensures SetOf(o.sent[i].Ids()) <= Below(t, v) {
      IdsSentCovers(o.sent, i);
    }
  }

  lemma EmitOk(t: Tree, s: Net, v: nat, o: Out)
    requires WellFormed(t) && Typed(t, s) && NetOk(t, s) && 1 <= v < |t.ids| && Typed(t, Emit(s, v, o))
    requires PendingOk(t, o.node, v) && AllComplete(o.sent, t.ids[v])
    requires forall i :: 0 <= i < |o.sent| ==> NoDup(o.sent[i].Ids()) && SetOf(o.sent[i].Ids()) <= Below(t, v)
    ensures NetOk(t, Emit(s, v, o))
  {
    hide Complete, Bounded, NodeTyped, Below, NoDup;
    var r := Emit(s, v, o);
    forall i | 0 <= i < |r.flight| ensures PathOk(t, r.flight[i]) {
      if i < |s.flight| { assert r.flight[i] == s.flight[i]; }
    }
    forall i | 0 <= i < |r.sent| ensures PathOk(t, r.sent[i]) {
      if i < |s.sent| { assert r.sent[i] == s.sent[i]; }
    }
  }

  lemma LeafOk(t: Tree, v: nat, rank: nat)
    requires WellFormed(t) && v < |t.ids|
    ensures var p := LeafPacket(t.ids[v], rank);
            Complete(p, t.ids[v]) && NoDup(p.Ids()) && SetOf(p.Ids()) <= Below(t, v)
  {
    hide Xor;
    SelfBelow(t, v);
  }

  lemma StepOk(t: Tree, s: Net, e: NetEvent)
    requires WellFormed(t) && Typed(t, s) && NetOk(t, s)
    ensures NetOk(t, NetStep(t, s, e))
  {
    hide Step, Bounded, TableOf, NoDup, Below, Complete, Xor, LeafPacket, NodeTyped;
    if !Enabled(t, s, e) {
      IdleStep(t, s, e);
    } else {
      match e
      case Request(v) =>
        LeafEmits(t, s, v);
        LeafOk(t, v, t.rank[v]);
        EmitOk(t, s, v, Out(s.nodes[v], [LeafPacket(t.ids[v], t.rank[v])]));
      case Deliver(k) =>
        var m := s.flight[k];
        var v := t.parent[m.src];
        var rest := s.(flight := s.flight[..k] + s.flight[k + 1..]);
        assert NetOk(t, rest);
        if v != 0 {
          var arrival := Arrive(t.ids[m.src], m.pkt);
          ArrivalIsTopology(t, m);
          BelowChild(t, m.src);
          assert PathOk(t, m);
          RelayStepOk(t, rest, v, arrival);
          RelayEmits(t, rest, v, arrival);
          EmitOk(t, rest, v, Step(s.nodes[v], arrival));
        }
      case Timer(v) =>
        RelayStepOk(t, s, v, TopologyTimer);
        RelayEmits(t, s, v, TopologyTimer);
        EmitOk(t, s, v, Step(s.nodes[v], TopologyTimer));
    }
  }

  /**
   In every run, every packet ever sent has all its fields assigned, fits, names only its sender and
   descendants of its sender, each at most once, and ends with its sender.
   */
  lemma {:induction false} PacketsNameDescendants(t: Tree, es: seq<NetEvent>)
    requires WellFormed(t)
    ensures var s := NetRun(t, es);
            && NetOk(t, s)
            && forall i :: 0 <= i < |s.sent| ==>
                 var m := s.sent[i];
                 && 1 <= m.src < |t.ids| && m.pkt.Topology?
                 && 1 <= |m.pkt.path| <= MAX_PATH_NODES - 1 && m.pkt.pathIndex == Some(|m.pkt.path|)
                 && NoDup(m.pkt.path) && SetOf(m.pkt.path) <= Below(t, m.src)
                 && m.pkt.path[|m.pkt.path| - 1] == t.ids[m.src]
  {
    hide NetStep, Below, NoDup, NodeTyped;
    if es != [] {
      PacketsNameDescendants(t, es[..|es| - 1]);
      StepOk(t, NetRun(t, es[..|es| - 1]), es[|es| - 1]);
    } else {
      InitialOk(t);
    }
    var s := NetRun(t, es);
    forall i | 0 <= i < |s.sent|
      ensures var m := s.sent[i]; MsgTyped(t, m) && m.pkt.Ids() == m.pkt.path && PathOk(t, m)
    {
      assert MsgTyped(t, s.sent[i]);
    }
  }

  lemma InitialOk(t: Tree)
    requires WellFormed(t)
    ensures NetOk(t, Initial(t))
  {
  }

  // ---- No id is lost ----

  function MsgIds(t: Tree, ms: seq<Msg>): set<Id>
    requires AllTyped(t, ms)
  {
    if ms == [] then {} else FrontTyped(t, ms); MsgIds(t, ms[..|ms| - 1]) + SetOf(ms[|ms| - 1].pkt.Ids())
  }

  /** The ids of the nodes that sent the packets. */
  function Senders(t: Tree, ms: seq<Msg>): set<Id>
    requires AllTyped(t, ms)
  {
    if ms == [] then {} else FrontTyped(t, ms); Senders(t, ms[..|ms| - 1]) + {t.ids[ms[|ms| - 1].src]}
  }

  /** The ids waiting in relays. */
  function Pending(nodes: seq<Node>): set<Id> {
    if nodes == [] then {} else Pending(nodes[..|nodes| - 1]) + SetOf(nodes[|nodes| - 1].paths)
  }

  lemma FrontTyped(t: Tree, ms: seq<Msg>)
    requires AllTyped(t, ms) && ms != []
    ensures AllTyped(t, ms[..|ms| - 1])
  {
  }

  lemma {:induction false} MsgIdsConcat(t: Tree, a: seq<Msg>, b: seq<Msg>)
    requires AllTyped(t, a) && AllTyped(t, b)
    ensures AllTyped(t, a + b)
    ensures MsgIds(t, a + b) == MsgIds(t, a) + MsgIds(t, b)
    ensures Senders(t, a + b) == Senders(t, a) + Senders(t, b)
  {
    hide Complete, SetOf;
    if b == [] {
      assert a + b == a;
    } else {
      var front := b[..|b| - 1];
      FrontTyped(t, b);
      MsgIdsConcat(t, a, front);
      assert (a + b)[..|a + b| - 1] == a + front;
    }
  }

  lemma MsgIdsOne(t: Tree, m: Msg)
    requires MsgTyped(t, m)
    ensures AllTyped(t, [m]) && MsgIds(t, [m]) == SetOf(m.pkt.Ids())
  {
    hide Complete, SetOf;
    assert [m][..0] == [];
    assert MsgIds(t, []) == {};
  }

  lemma MsgIdsRemove(t: Tree, ms: seq<Msg>, k: nat)
    requires AllTyped(t, ms) && k < |ms|
    ensures AllTyped(t, ms[..k] + ms[k + 1..]) && MsgTyped(t, ms[k])
    ensures MsgIds(t, ms) == MsgIds(t, ms[..k] + ms[k + 1..]) + SetOf(ms[k].pkt.Ids())
  {
    hide SetOf, MsgTyped, MsgIds, Senders;
    var a, m, b := ms[..k], ms[k], ms[k + 1..];
    assert ms == (a + [m]) + b;
    TypedTail(t, a + [m], b);
    TypedTail(t, a, [m]);
    MsgIdsConcat(t, a + [m], b);
    MsgIdsConcat(t, a, [m]);
    MsgIdsConcat(t, a, b);
    MsgIdsOne(t, m);
  }

  lemma {:induction false} WrapIds(t: Tree, v: nat, ps: seq<Packet>)
    requires 1 <= v < |t.ids| && AllComplete(ps, t.ids[v])
    ensures AllTyped(t, Wrap(v, ps)) && AllReadable(ps)
    ensures MsgIds(t, Wrap(v, ps)) == IdsSent(ps)
    ensures Senders(t, Wrap(v, ps)) == Signature(t.ids[v], ps)
  {
    hide Complete, SetOf;
    if ps != [] {
      var front := ps[..|ps| - 1];
      WrapIds(t, v, front);
      assert Wrap(v, ps)[..|ps| - 1] == Wrap(v, front);
    }
  }

  lemma {:induction false} PendingSplit(nodes: seq<Node>, v: nat)
    requires v < |nodes|
    ensures Pending(nodes) == Pending(nodes[..v]) + SetOf(nodes[v].paths) + Pending(nodes[v + 1..])
  {
    hide SetOf;
    if v == |nodes| - 1 {
      assert nodes[v + 1..] == [];
    } else {
      var front, last := nodes[..|nodes| - 1], nodes[|nodes| - 1];
      PendingSplit(front, v);
      assert front[..v] == nodes[..v];
      assert front[v + 1..] == nodes[v + 1..][..|nodes| - v - 2];
    }
  }

  /** Every id of a sender is at the border router, in the air or in a relay, and nothing else is. */
  ghost predicate Accounted(t: Tree, s: Net)
    requires WellFormed(t) && Typed(t, s)
  {
    MsgIds(t, s.received) + MsgIds(t, s.flight) + Pending(s.nodes) == Senders(t, s.sent)
  }

  lemma EmitAccounted(t: Tree, s: Net, v: nat, brought: set<Id>, o: Out)
    requires WellFormed(t) && Typed(t, s) && 1 <= v < |t.ids| && Typed(t, Emit(s, v, o))
    requires AllComplete(o.sent, t.ids[v])
    requires SetOf(o.node.paths) + IdsSent(o.sent)
          == SetOf(s.nodes[v].paths) + brought + Signature(t.ids[v], o.sent)
    requires MsgIds(t, s.received) + MsgIds(t, s.flight) + Pending(s.nodes) + brought == Senders(t, s.sent)
    ensures Accounted(t, Emit(s, v, o))
  {
    hide Complete, Bounded, NodeTyped, SetOf, MsgTyped, MsgIds, Senders, Pending, IdsSent, Signature;
    var r := Emit(s, v, o);
    WrapIds(t, v, o.sent);
    MsgIdsConcat(t, s.flight, Wrap(v, o.sent));
    MsgIdsConcat(t, s.sent, Wrap(v, o.sent));
    PendingSplit(s.nodes, v);
    PendingSplit(r.nodes, v);
    assert r.nodes[..v] == s.nodes[..v] && r.nodes[v + 1..] == s.nodes[v + 1..];
  }

  lemma RelayAccounts(t: Tree, s: Net, v: nat, e: Event)
    requires WellFormed(t) && Typed(t, s) && 1 <= v < |t.ids| && TopologyEvent(e)
    requires MsgIds(t, s.received) + MsgIds(t, s.flight) + Pending(s.nodes) + IdsBrought(s.nodes[v], e)
          == Senders(t, s.sent)
    ensures var r := Emit(s, v, Step(s.nodes[v], e));
            Typed(t, r) && Accounted(t, r)
  {
    hide Step, Bounded, TableOf, Complete, Xor, IdsBrought, SetOf, Accounted, MsgTyped;
    var n := s.nodes[v];
    assert NodeTyped(t, n, v);
    StepBounded(n, e);
    StepIds(n, e);
    RelayEmits(t, s, v, e);
    EmitAccounted(t, s, v, IdsBrought(n, e), Step(n, e));
  }

  lemma LeafAccounts(t: Tree, s: Net, v: nat)
    requires WellFormed(t) && Typed(t, s) && 1 <= v < |t.ids| && Accounted(t, s)
    ensures var r := Emit(s, v, Out(s.nodes[v], [LeafPacket(t.ids[v], t.rank[v])]));
            Typed(t, r) && Accounted(t, r)
  {
    hide Xor, MsgTyped, NodeTyped;
    var p := LeafPacket(t.ids[v], t.rank[v]);
    LeafEmits(t, s, v);
    IdsSentOne(p);
    assert p.Ids() == [t.ids[v]];
    assert SetOf(p.Ids()) == {t.ids[v]};
    EmitAccounted(t, s, v, {}, Out(s.nodes[v], [p]));
  }

  lemma ReceiveAccounts(t: Tree, s: Net, m: Msg)
    requires WellFormed(t) && Typed(t, s) && MsgTyped(t, m)
    requires MsgIds(t, s.received) + MsgIds(t, s.flight) + Pending(s.nodes) + SetOf(m.pkt.Ids())
          == Senders(t, s.sent)
    ensures var r := s.(received := s.received + [m]);
            Typed(t, r) && Accounted(t, r)
  {
    hide SetOf, MsgTyped, NodeTyped, MsgIds, Senders;
    MsgIdsOne(t, m);
    MsgIdsConcat(t, s.received, [m]);
  }

  lemma RestTyped(t: Tree, s: Net, k: nat)
    requires WellFormed(t) && Typed(t, s) && k < |s.flight|
    ensures Typed(t, s.(flight := s.flight[..k] + s.flight[k + 1..])) && MsgTyped(t, s.flight[k])
  {
    hide MsgTyped, NodeTyped;
  }

  lemma DeliverAccounts(t: Tree, s: Net, k: nat)
    requires WellFormed(t) && Typed(t, s) && k < |s.flight| && Accounted(t, s)
    ensures Accounted(t, NetStep(t, s, Deliver(k)))
  {
    hide Step, Bounded, TableOf, Complete, Xor, SetOf, TopologyEvent, MsgIds, Senders, NodeTyped, Pending;
    var m := s.flight[k];
    var v := t.parent[m.src];
    var rest := s.(flight := s.flight[..k] + s.flight[k + 1..]);
    RestTyped(t, s, k);
    MsgIdsRemove(t, s.flight, k);
    if v == 0 {
      ReceiveAccounts(t, rest, m);
    } else {
      ArrivalIsTopology(t, m);
      DeliveredIsAccepted(t, s, m);
      RelayAccounts(t, rest, v, Arrive(t.ids[m.src], m.pkt));
    }
  }

  lemma {:induction false} NothingPending(nodes: seq<Node>)
    requires forall v :: 0 <= v < |nodes| ==> nodes[v].paths == []
    ensures Pending(nodes) == {}
  {
    if nodes != [] {
      NothingPending(nodes[..|nodes| - 1]);
    }
  }

  /**
   In every run, the ids at the border router, in the air and in relays are exactly the ids of the
   nodes that have sent something: de-duplication and splits lose no id and invent none.
   */
  lemma {:induction false} NoIdLost(t: Tree, es: seq<NetEvent>)
    requires WellFormed(t)
    ensures var s := NetRun(t, es);
            MsgIds(t, s.received) + MsgIds(t, s.flight) + Pending(s.nodes) == Senders(t, s.sent)
  {
    hide Step, Bounded, TableOf, Complete, Xor, SetOf, MsgTyped, NodeTyped, LeafPacket;
    if es == [] {
      NothingPending(Initial(t).nodes);
    } else {
      var s, e := NetRun(t, es[..|es| - 1]), es[|es| - 1];
      NoIdLost(t, es[..|es| - 1]);
      if !Enabled(t, s, e) {
        IdleStep(t, s, e);
      } else {
        match e
        case Request(v) => LeafAccounts(t, s, v);
        case Deliver(k) => DeliverAccounts(t, s, k);
        case Timer(v) => RelayAccounts(t, s, v, TopologyTimer);
      }
    }
  }
}
