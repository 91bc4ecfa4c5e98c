/**
 One round in a network where nodes may have several parents: what a relay's packet is worth.
 */
module Aggregate {
  import opened Words
  import opened ChildTable
  import opened RelayModel
  import opened RelayRuns
  import opened RelayRounds

  /** Nodes with ids, ranks and radio neighbours. */
  datatype Graph = Graph(ids: seq<Id>, rank: seq<nat>, nbrs: seq<seq<nat>>)

  ghost predicate WellFormed(g: Graph) {
    && |g.ids| == |g.rank| == |g.nbrs|
    && NoDup(g.ids)
    && (forall v, i :: 0 <= v < |g.ids| && 0 <= i < |g.nbrs[v]| ==> g.nbrs[v][i] < |g.ids|)
    && (forall v :: 0 <= v < |g.ids| ==> NoDup(g.nbrs[v]))
    && (forall v, u :: 0 <= v < |g.ids| && 0 <= u < |g.ids| ==> (u in g.nbrs[v] <==> v in g.nbrs[u]))
    && (forall v :: 0 <= v < |g.ids| ==> |Children(g, v)| <= MAX_CHILD)
  }

  /** The neighbours in `us` of higher rank than `v`. */
  ghost function Higher(g: Graph, v: nat, us: seq<nat>): (r: seq<nat>)
    requires v < |g.rank|
    requires forall i :: 0 <= i < |us| ==> us[i] < |g.rank|
    ensures forall u :: u in r <==> u in us && u < |g.rank| && g.rank[u] > g.rank[v]
    ensures forall i :: 0 <= i < |r| ==> r[i] < |g.rank|
    ensures NoDup(us) ==> NoDup(r)
  {
    if us == [] then []
    else
      assert us == us[..|us| - 1] + [us[|us| - 1]];
      var before := Higher(g, v, us[..|us| - 1]);
      if g.rank[us[|us| - 1]] > g.rank[v] then before + [us[|us| - 1]] else before
  }

  ghost function Children(g: Graph, v: nat): (r: seq<nat>)
    ensures forall i :: 0 <= i < |r| ==> r[i] < |g.rank|
  {
    if v < |g.rank| == |g.nbrs| && forall i :: 0 <= i < |g.nbrs[v]| ==> g.nbrs[v][i] < |g.rank|
    then Higher(g, v, g.nbrs[v])
    else []
  }

  lemma ChildrenAre(g: Graph, v: nat)
    requires WellFormed(g) && v < |g.ids|
    ensures NoDup(Children(g, v))
    ensures forall c :: c in Children(g, v) <==> c in g.nbrs[v] && c < |g.ids| && g.rank[c] > g.rank[v]
  {
  }

  // ---- The tables and destinations behind the edges ----

  /** An address whose last two bytes spell `id`. */
  function AddressOf(id: Id): (a: seq<bv8>)
    ensures |a| == 16
  {
    [0, 0, 0, 0, 0, 0, 0, 0, 0, 0, 0, 0, 0, 0, (id >> 8) as bv8, (id & 0xff) as bv8]
  }

  lemma AddressSpells(id: Id)
    ensures IdOfAddress(AddressOf(id)) == id
  {
  }

  /** The RPL neighbour table of `v`, for the neighbours in `us`. */
  ghost function NeighbourTable(g: Graph, us: seq<nat>): (r: seq<Neighbour>)
    requires |g.ids| == |g.rank| && forall i :: 0 <= i < |us| ==> us[i] < |g.ids|
    ensures |r| == |us| && forall p :: p in r ==> |p.address| == 16
  {
    seq(|us|, i requires 0 <= i < |us| => Neighbour(AddressOf(g.ids[us[i]]), g.rank[us[i]]))
  }

  /** The child table `v` fills from its neighbours. */
  ghost function TableAt(g: Graph, v: nat): seq<Child>
    requires WellFormed(g) && v < |g.ids|
  {
    ChildEntries(NeighbourTable(g, g.nbrs[v]), g.rank[v])
  }

  lemma {:induction false} TableLists(g: Graph, v: nat, us: seq<nat>)
    requires |g.ids| == |g.rank| && v < |g.ids| && forall i :: 0 <= i < |us| ==> us[i] < |g.ids|
    ensures var t := ChildEntries(NeighbourTable(g, us), g.rank[v]);
            var hs := Higher(g, v, us);
            |t| == |hs| && forall i :: 0 <= i < |t| ==> t[i] == Child(g.ids[hs[i]], false)
  {
    hide IdOfAddress, AddressOf, NeighbourTable;
    if us != [] {
      var n := |us| - 1;
      TableLists(g, v, us[..n]);
      NeighbourSnoc(g, us);
      AddressSpells(g.ids[us[n]]);
    }
  }

  lemma NeighbourSnoc(g: Graph, us: seq<nat>)
    requires |g.ids| == |g.rank| && us != [] && forall i :: 0 <= i < |us| ==> us[i] < |g.ids|
    ensures var n := |us| - 1;
            && NeighbourTable(g, us)[..n] == NeighbourTable(g, us[..n])
            && NeighbourTable(g, us)[n] == Neighbour(AddressOf(g.ids[us[n]]), g.rank[us[n]])
  {
    hide AddressOf;
  }

  lemma TableAtLists(g: Graph, v: nat)
    requires WellFormed(g) && v < |g.ids|
    ensures |TableAt(g, v)| == |Children(g, v)| <= MAX_CHILD
    ensures forall i :: 0 <= i < |Children(g, v)| ==> TableAt(g, v)[i] == Child(g.ids[Children(g, v)[i]], false)
    ensures Cleared(TableAt(g, v)) == TableAt(g, v)
  {
    TableLists(g, v, g.nbrs[v]);
  }

  /** `v` lists `u` as a child exactly when `v` is among the destinations of `u`'s packets. */
  lemma EdgesAgree(g: Graph, v: nat, u: nat)
    requires WellFormed(g) && v < |g.ids| && u < |g.ids|
    ensures Has(TableAt(g, v), g.ids[u]) <==> g.ids[v] in Targets(NeighbourTable(g, g.nbrs[u]), g.rank[u], false)
    ensures Has(TableAt(g, v), g.ids[u]) <==> u in Children(g, v)
  {
    hide IdOfAddress, AddressOf;
    TableAtLists(g, v);
    ChildrenAre(g, v);
    var cs := Children(g, v);
    var toU := NeighbourTable(g, g.nbrs[u]);
    TargetsAre(toU, g.rank[u], false, g.ids[v]);
    if Has(TableAt(g, v), g.ids[u]) {
      var i :| 0 <= i < |cs| && TableAt(g, v)[i].id == g.ids[u];
      assert cs[i] in cs && cs[i] == u;
    }
    if u in cs {
      var i :| 0 <= i < |cs| && cs[i] == u;
      assert TableAt(g, v)[i].id == g.ids[u];
      var k :| 0 <= k < |g.nbrs[u]| && g.nbrs[u][k] == v;
      AddressSpells(g.ids[v]);
      assert toU[k] in toU && IsParent(toU[k], g.rank[u], false) && IdOfAddress(toU[k].address) == g.ids[v];
    }
    if p :| p in toU && IsParent(p, g.rank[u], false) && IdOfAddress(p.address) == g.ids[v] {
      var k :| 0 <= k < |toU| && toU[k] == p;
      AddressSpells(g.ids[g.nbrs[u][k]]);
      assert g.nbrs[u][k] == v;
      assert v in g.nbrs[u];
    }
  }

  // ---- Downward paths ----

  /** A path from `v` to `u` along child edges. */
  ghost predicate IsDownPath(g: Graph, p: seq<nat>, v: nat, u: nat) {
    && p != [] && p[0] == v && p[|p| - 1] == u
    && (forall i :: 0 <= i < |p| ==> p[i] < |g.ids|)
    && (forall i :: 0 <= i < |p| - 1 ==> p[i + 1] in Children(g, p[i]))
  }

  /** A bound on all ranks. */
  ghost function Top(ranks: seq<nat>): (t: nat)
    ensures forall i :: 0 <= i < |ranks| ==> ranks[i] <= t
  {
    if ranks == [] then 0 else Max(Top(ranks[..|ranks| - 1]), ranks[|ranks| - 1])
  }

  function Prepend(v: nat, ps: seq<seq<nat>>): (r: seq<seq<nat>>)
    ensures |r| == |ps| && forall i :: 0 <= i < |ps| ==> r[i] == [v] + ps[i]
  {
    seq(|ps|, i requires 0 <= i < |ps| => [v] + ps[i])
  }

  /** All downward paths from `v` to `u`. */
  ghost function Paths(g: Graph, v: nat, u: nat): seq<seq<nat>>
    requires WellFormed(g) && v < |g.ids| && u < |g.ids|
    decreases Top(g.rank) - g.rank[v], 1, 0
  {
    (if v == u then [[v]] else []) + PathsVia(g, v, Children(g, v), u)
  }

  /** Those whose second node is one of `cs`. */
  ghost function PathsVia(g: Graph, v: nat, cs: seq<nat>, u: nat): seq<seq<nat>>
    requires WellFormed(g) && v < |g.ids| && u < |g.ids|
    requires forall c :: c in cs ==> c in Children(g, v)
    decreases Top(g.rank) - g.rank[v], 0, |cs|
  {
    if cs == [] then []
    else
      var c := cs[|cs| - 1];
      ChildrenAre(g, v);
      assert c in cs;
      PathsVia(g, v, cs[..|cs| - 1], u) + Prepend(v, Paths(g, c, u))
  }

  /** The list of paths is complete and lists each path once. */
  lemma {:induction false} PathsExact(g: Graph, v: nat, u: nat)
    requires WellFormed(g) && v < |g.ids| && u < |g.ids|
    ensures NoDup(Paths(g, v, u))
    ensures forall p :: p in Paths(g, v, u) <==> IsDownPath(g, p, v, u)
    decreases Top(g.rank) - g.rank[v], 1, 0
  {
    hide Children, IsDownPath, PathsVia;
    var cs := Children(g, v);
    var via := PathsVia(g, v, cs, u);
    ChildrenAre(g, v);
    PathsViaExact(g, v, cs, u);
    forall p ensures p in Paths(g, v, u) <==> IsDownPath(g, p, v, u) {
      FirstStep(g, p, v, u);
    }
    if v == u {
      assert forall p :: p in via ==> |p| > 1;
      JoinNoDup([[v]], via);
    }
  }

  /** A path has one node or goes on to a child. */
  lemma FirstStep(g: Graph, p: seq<nat>, v: nat, u: nat)
    requires WellFormed(g) && v < |g.ids|
    ensures IsDownPath(g, p, v, u) && |p| > 1 ==> p[1] in Children(g, v)
    ensures IsDownPath(g, p, v, u) && |p| <= 1 ==> p == [v] && v == u
    ensures v == u ==> IsDownPath(g, [v], v, u)
  {
    hide Children;
    if IsDownPath(g, p, v, u) && |p| > 1 {
      assert p[0 + 1] in Children(g, p[0]);
    }
  }

  lemma {:induction false} PathsViaExact(g: Graph, v: nat, cs: seq<nat>, u: nat)
    requires WellFormed(g) && v < |g.ids| && u < |g.ids| && NoDup(cs)
    requires forall c :: c in cs ==> c in Children(g, v)
    ensures NoDup(PathsVia(g, v, cs, u))
    ensures forall p :: p in PathsVia(g, v, cs, u) <==> IsDownPath(g, p, v, u) && |p| > 1 && p[1] in cs
    decreases Top(g.rank) - g.rank[v], 0, |cs|
  {
    hide Children, IsDownPath, Paths;
    if cs != [] {
      var front, c := cs[..|cs| - 1], cs[|cs| - 1];
      ChildrenAre(g, v);
      assert c in cs;
      assert cs == front + [c];
      PathsViaExact(g, v, front, u);
      PathsExact(g, c, u);
      var before := PathsVia(g, v, front, u);
      var added: seq<seq<nat>> := Prepend(v, Paths(g, c, u));
      forall p ensures p in added <==> IsDownPath(g, p, v, u) && |p| > 1 && p[1] == c {
        ThroughChild(g, v, c, u, p);
      }
      PrependNoDup(v, Paths(g, c, u));
      JoinNoDup(before, added);
    }
  }

  lemma PrependNoDup(v: nat, ps: seq<seq<nat>>)
    requires NoDup(ps)
    ensures NoDup(Prepend(v, ps))
  {
    assert forall i :: 0 <= i < |ps| ==> Prepend(v, ps)[i][1..] == ps[i];
  }

  lemma ThroughChild(g: Graph, v: nat, c: nat, u: nat, p: seq<nat>)
    requires WellFormed(g) && v < |g.ids| && u < |g.ids| && c < |g.ids| && c in Children(g, v)
    requires forall q :: q in Paths(g, c, u) <==> IsDownPath(g, q, c, u)
    ensures p in Prepend(v, Paths(g, c, u)) <==> IsDownPath(g, p, v, u) && |p| > 1 && p[1] == c
  {
    hide WellFormed, Children, IsDownPath;
    var qs := Paths(g, c, u);
    if p in Prepend(v, qs) {
      var i :| 0 <= i < |qs| && Prepend(v, qs)[i] == p;
      assert qs[i] in qs;
      PathExtends(g, v, c, u, qs[i]);
    }
    if IsDownPath(g, p, v, u) && |p| > 1 && p[1] == c {
      PathShortens(g, v, c, u, p);
      assert p[1..] in qs;
      var i :| 0 <= i < |qs| && qs[i] == p[1..];
      assert Prepend(v, qs)[i] == p;
    }
  }

  lemma PathExtends(g: Graph, v: nat, c: nat, u: nat, q: seq<nat>)
    requires v < |g.ids| && c in Children(g, v) && IsDownPath(g, q, c, u)
    ensures var p := [v] + q;
            IsDownPath(g, p, v, u) && |p| > 1 && p[1] == c
  {
    hide Children;
    var p := [v] + q;
    forall i | 0 <= i < |p| - 1 ensures p[i + 1] in Children(g, p[i]) {
      if i > 0 {
        assert q[i - 1 + 1] in Children(g, q[i - 1]);
      }
    }
  }

  lemma PathShortens(g: Graph, v: nat, c: nat, u: nat, p: seq<nat>)
    requires IsDownPath(g, p, v, u) && |p| > 1 && p[1] == c
    ensures IsDownPath(g, p[1..], c, u) && [v] + p[1..] == p
  {
    hide Children;
    var q := p[1..];
    forall i | 0 <= i < |q| - 1 ensures q[i + 1] in Children(g, q[i]) {
      assert p[i + 1 + 1] in Children(g, p[i + 1]);
    }
  }

  // ---- The XOR over the descendants with an odd number of paths ----

  predicate Odd(k: nat) {
    k % 2 == 1
  }

  function Pick(b: bool, x: bv64): bv64 {
    if b then x else 0
  }

  /** The part of node `u` in all that `v` sends: each packet of `u` climbs every path. */
  ghost function Share(g: Graph, counts: seq<nat>, v: nat, u: nat): bv64
    requires WellFormed(g) && v < |g.ids| && u < |g.ids| == |counts|
  {
    Pick(Odd(|Paths(g, v, u)|) && Odd(counts[u]), OwnChecksum(g.ids[u]))
  }

  /** The part that reaches `v` through `cs`. */
  ghost function ShareVia(g: Graph, counts: seq<nat>, v: nat, cs: seq<nat>, u: nat): bv64
    requires WellFormed(g) && v < |g.ids| && u < |g.ids| == |counts|
    requires forall c :: c in cs ==> c in Children(g, v)
  {
    Pick(Odd(|PathsVia(g, v, cs, u)|) && Odd(counts[u]), OwnChecksum(g.ids[u]))
  }

  /**
   The own checksums of those nodes below `k` which send an odd number of packets and to which an odd
   number of paths leads from `v`.
   */
  ghost function OddXor(g: Graph, counts: seq<nat>, v: nat, k: nat): bv64
    requires WellFormed(g) && v < |g.ids| && k <= |g.ids| == |counts|
  {
    if k == 0 then 0 else Xor(OddXor(g, counts, v, k - 1), Share(g, counts, v, k - 1))
  }

  ghost function ViaXor(g: Graph, counts: seq<nat>, v: nat, cs: seq<nat>, k: nat): bv64
    requires WellFormed(g) && v < |g.ids| && k <= |g.ids| == |counts|
    requires forall c :: c in cs ==> c in Children(g, v)
  {
    if k == 0 then 0 else Xor(ViaXor(g, counts, v, cs, k - 1), ShareVia(g, counts, v, cs, k - 1))
  }

  lemma PickXor(a: nat, b: nat, sent: bool, x: bv64)
    ensures Pick(Odd(a + b) && sent, x) == Xor(Pick(Odd(a) && sent, x), Pick(Odd(b) && sent, x))
  {
    hide Xor, Odd;
    OddSum(a, b);
    XorZero(x);
    XorZero(0);
  }

  lemma OddSum(a: nat, b: nat)
    ensures Odd(a + b) <==> (Odd(a) != Odd(b))
  {
  }

  lemma {:induction false} TimesIsPick(x: bv64, n: nat)
    ensures Times(x, n) == Pick(Odd(n), x)
  {
    hide Xor, Odd;
    OddSmall();
    if n != 0 {
      TimesIsPick(x, n - 1);
      OddSum(n - 1, 1);
      XorZero(x);
      XorZero(0);
    }
  }

  lemma ShareSnoc(g: Graph, counts: seq<nat>, v: nat, cs: seq<nat>, c: nat, u: nat)
    requires WellFormed(g) && v < |g.ids| && u < |g.ids| == |counts| && c < |g.ids|
    requires forall d :: d in cs + [c] ==> d in Children(g, v)
    ensures ShareVia(g, counts, v, cs + [c], u)
         == Xor(ShareVia(g, counts, v, cs, u), Share(g, counts, c, u))
  {
    hide Xor, Odd, Pick, OwnChecksum, Paths, Children;
    assert (cs + [c])[..|cs|] == cs;
    var a, b := |PathsVia(g, v, cs, u)|, |Paths(g, c, u)|;
    assert |PathsVia(g, v, cs + [c], u)| == a + b;
    PickXor(a, b, Odd(counts[u]), OwnChecksum(g.ids[u]));
  }

  lemma {:induction false} ViaSnoc(g: Graph, counts: seq<nat>, v: nat, cs: seq<nat>, c: nat, k: nat)
    requires WellFormed(g) && v < |g.ids| && k <= |g.ids| == |counts| && c < |g.ids|
    requires forall d :: d in cs + [c] ==> d in Children(g, v)
    ensures ViaXor(g, counts, v, cs + [c], k) == Xor(ViaXor(g, counts, v, cs, k), OddXor(g, counts, c, k))
  {
    hide Xor, Share, ShareVia, Children;
    if k == 0 {
      XorZero(0);
    } else {
      ViaSnoc(g, counts, v, cs, c, k - 1);
      ShareSnoc(g, counts, v, cs, c, k - 1);
      XorExchange(ViaXor(g, counts, v, cs, k - 1), OddXor(g, counts, c, k - 1),
                  ShareVia(g, counts, v, cs, k - 1), Share(g, counts, c, k - 1));
    }
  }

  /** A node's share comes through the children, and for the node itself from the node. */
  lemma ShareUnfolds(g: Graph, counts: seq<nat>, v: nat, u: nat)
    requires WellFormed(g) && v < |g.ids| && u < |g.ids| == |counts|
    ensures Share(g, counts, v, u)
         == Xor(ShareVia(g, counts, v, Children(g, v), u), Pick(u == v && Odd(counts[v]), OwnChecksum(g.ids[v])))
  {
    hide Xor, Odd, OwnChecksum, PathsVia, Children;
    var via, self := |PathsVia(g, v, Children(g, v), u)|, if u == v then 1 else 0;
    assert |Paths(g, v, u)| == self + via;
    PickXor(via, self, Odd(counts[u]), OwnChecksum(g.ids[u]));
    OddSmall();
  }

  lemma {:induction false} OddXorUnfolds(g: Graph, counts: seq<nat>, v: nat, k: nat)
    requires WellFormed(g) && v < |g.ids| && k <= |g.ids| == |counts|
    ensures OddXor(g, counts, v, k) == Xor(ViaXor(g, counts, v, Children(g, v), k),
                                           Pick(v < k && Odd(counts[v]), OwnChecksum(g.ids[v])))
  {
    hide Xor, Odd, OwnChecksum, Share, ShareVia, Children;
    if k == 0 {
      XorZero(0);
    } else {
      var own, n := OwnChecksum(g.ids[v]), Odd(counts[v]);
      OddXorUnfolds(g, counts, v, k - 1);
      ShareUnfolds(g, counts, v, k - 1);
      XorExchange(ViaXor(g, counts, v, Children(g, v), k - 1), Pick(v < k - 1 && n, own),
                  ShareVia(g, counts, v, Children(g, v), k - 1), Pick(k - 1 == v && n, own));
      XorZero(own);
      XorZero(0);
    }
  }

  lemma OddSmall()
    ensures Odd(1) && !Odd(0)
  {
  }

  // ---- A round ----

  /** The packets that arrive from `id`, in order. */
  function PacketsFrom(es: seq<Event>, id: Id): seq<Packet> {
    if es == [] then []
    else
      var before, e := PacketsFrom(es[..|es| - 1], id), es[|es| - 1];
      if e.Arrive? && e.child == id then before + [e.pkt] else before
  }

  /** For every node: the state it starts in, what happens to it, and all the packets it sends. */
  datatype Round = Round(start: seq<Node>, events: seq<seq<Event>>, sent: seq<seq<Packet>>)

  /** A relay between rounds: its table lists its children, and no checksum waits. */
  ghost predicate StartsRound(g: Graph, v: nat, n: Node)
    requires WellFormed(g) && v < |g.ids|
  {
    n.id == g.ids[v] && SameIds(n.table, TableAt(g, v)) && n.sums == [] && Bounded(n)
  }

  /**
   A round with reliable links. Leaves answer any number of times; each relay hears exactly what its
   children send, in any order and mixed with strangers and timers, and ends with no checksum waiting.
   Splits, early timers and repeated reports are all allowed.
   */
  ghost predicate IsRound(g: Graph, r: Round)
    requires WellFormed(g)
  {
    && |r.start| == |r.events| == |r.sent| == |g.ids|
    && forall v :: 0 <= v < |g.ids| ==>
         if Children(g, v) == [] then LeafRound(g, v, r.sent[v]) else RelayRound(g, v, r)
  }

  ghost predicate LeafRound(g: Graph, v: nat, sent: seq<Packet>)
    requires WellFormed(g) && v < |g.ids|
  {
    forall i :: 0 <= i < |sent| ==> sent[i] == LeafPacket(g.ids[v], g.rank[v])
  }

  ghost predicate RelayRound(g: Graph, v: nat, r: Round)
    requires WellFormed(g) && |r.start| == |r.events| == |r.sent| == |g.ids| && v < |g.ids|
  {
    && StartsRound(g, v, r.start[v]) && TopologyRun(r.events[v])
    && Run(r.start[v], r.events[v]).sent == r.sent[v]
    && Run(r.start[v], r.events[v]).node.sums == []
    && forall c :: c in Children(g, v) ==>
         c < |g.ids| && multiset(PacketsFrom(r.events[v], g.ids[c])) == multiset(r.sent[c])
  }

  /** All that a node sends. */
  function TotalOf(ps: seq<Packet>): bv64 {
    XorAll(Checksums(ps))
  }

  lemma TotalSnoc(ps: seq<Packet>, p: Packet)
    ensures TotalOf(ps + [p]) == Xor(TotalOf(ps), p.checksum)
  {
    hide Xor;
    ChecksumsConcat(ps, [p]);
    ChecksumsOne(p);
  }

  lemma TotalRemove(ps: seq<Packet>, k: nat)
    requires k < |ps|
    ensures TotalOf(ps) == Xor(TotalOf(ps[..k] + ps[k + 1..]), ps[k].checksum)
  {
    hide Xor;
    XorRemove(Checksums(ps), k);
    assert Checksums(ps[..k] + ps[k + 1..]) == Checksums(ps)[..k] + Checksums(ps)[k + 1..];
  }

  /** The order of arrival does not matter. */
  lemma {:induction false} TotalOfPermutation(ps: seq<Packet>, qs: seq<Packet>)
    requires multiset(ps) == multiset(qs)
    ensures TotalOf(ps) == TotalOf(qs)
    decreases |ps|
  {
    hide Xor, TotalOf;
    assert |ps| == |multiset(ps)| == |qs|;
    if ps != [] {
      var n := |ps| - 1;
      assert ps[n] in multiset(qs);
      var k :| 0 <= k < |qs| && qs[k] == ps[n];
      MultisetRemove(ps, n);
      MultisetRemove(qs, k);
      TotalOfPermutation(ps[..n] + ps[n + 1..], qs[..k] + qs[k + 1..]);
      TotalRemove(ps, n);
      TotalRemove(qs, k);
    }
  }

  /** What has arrived from the nodes in `cs`. */
  ghost function FromAll(g: Graph, cs: seq<nat>, es: seq<Event>): bv64
    requires forall i :: 0 <= i < |cs| ==> cs[i] < |g.ids|
  {
    if cs == [] then 0
    else Xor(FromAll(g, cs[..|cs| - 1], es), TotalOf(PacketsFrom(es, g.ids[cs[|cs| - 1]])))
  }

  /** The event is an arrival from a node in `cs`. */
  ghost predicate IsFrom(g: Graph, cs: seq<nat>, e: Event)
    requires forall i :: 0 <= i < |cs| ==> cs[i] < |g.ids|
  {
    e.Arrive? && exists i :: 0 <= i < |cs| && g.ids[cs[i]] == e.child
  }

  lemma {:induction false} FromNothing(g: Graph, cs: seq<nat>)
    requires forall i :: 0 <= i < |cs| ==> cs[i] < |g.ids|
    ensures FromAll(g, cs, []) == 0
  {
    hide Xor;
    if cs != [] {
      FromNothing(g, cs[..|cs| - 1]);
      XorZero(0);
    }
  }

  lemma OneMore(es: seq<Event>, id: Id)
    requires es != []
    ensures var front, e := es[..|es| - 1], es[|es| - 1];
            var added := if e.Arrive? && e.child == id then e.pkt.checksum else 0;
            TotalOf(PacketsFrom(es, id)) == Xor(TotalOf(PacketsFrom(front, id)), added)
  {
    hide Xor, TotalOf;
    var front, e := es[..|es| - 1], es[|es| - 1];
    XorZero(TotalOf(PacketsFrom(front, id)));
    if e.Arrive? && e.child == id {
      TotalSnoc(PacketsFrom(front, id), e.pkt);
    }
  }

  /** An arrival adds its checksum to what has come from its sender. */
  lemma {:induction false} FromSnoc(g: Graph, cs: seq<nat>, es: seq<Event>)
    requires NoDup(g.ids) && NoDup(cs) && es != [] && forall i :: 0 <= i < |cs| ==> cs[i] < |g.ids|
    ensures var front, e := es[..|es| - 1], es[|es| - 1];
            FromAll(g, cs, es) == Xor(FromAll(g, cs, front), if IsFrom(g, cs, e) then e.pkt.checksum else 0)
  {
    hide Xor, TotalOf, PacketsFrom;
    var front, e := es[..|es| - 1], es[|es| - 1];
    if cs == [] {
      XorZero(0);
    } else {
      var ds, c := cs[..|cs| - 1], cs[|cs| - 1];
      FromSnoc(g, ds, es);
      OneMore(es, g.ids[c]);
      var here, there := e.Arrive? && e.child == g.ids[c], IsFrom(g, ds, e);
      assert IsFrom(g, cs, e) <==> here || there by {
        assert forall i :: 0 <= i < |ds| ==> ds[i] == cs[i];
      }
      assert !(here && there);
      var a, b := if there then e.pkt.checksum else 0, if here then e.pkt.checksum else 0;
      XorExchange(FromAll(g, ds, front), a, TotalOf(PacketsFrom(front, g.ids[c])), b);
      XorZero(a);
      XorZero(b);
    }
  }

  /** A relay keeps exactly the arrivals from its children. */
  lemma KeepsChildren(g: Graph, v: nat, n: Node, e: Event)
    requires WellFormed(g) && v < |g.ids| && SameIds(n.table, TableAt(g, v)) && TopologyEvent(e)
    requires forall i :: 0 <= i < |Children(g, v)| ==> Children(g, v)[i] < |g.ids|
    ensures Accepts(n, e) <==> IsFrom(g, Children(g, v), e)
  {
    hide Children, TableAt;
    var cs := Children(g, v);
    TableAtLists(g, v);
    if e.Arrive? {
      if Has(n.table, e.child) {
        SameIdsHas(n.table, TableAt(g, v), e.child);
        var i :| 0 <= i < |TableAt(g, v)| && TableAt(g, v)[i].id == e.child;
        assert g.ids[cs[i]] == e.child;
      }
      if i :| 0 <= i < |cs| && g.ids[cs[i]] == e.child {
        assert TableAt(g, v)[i].id == e.child;
        SameIdsHas(TableAt(g, v), n.table, e.child);
      }
    }
  }

  lemma {:induction false} RoundBrings(g: Graph, v: nat, n: Node, es: seq<Event>)
    requires WellFormed(g) && v < |g.ids| && StartsRound(g, v, n) && TopologyRun(es)
    ensures forall i :: 0 <= i < |Children(g, v)| ==> Children(g, v)[i] < |g.ids|
    ensures BroughtBy(n, es) == FromAll(g, Children(g, v), es)
  {
    hide Xor, Children, TableAt, Step, Bounded, Complete, Accepts, IsFrom;
    ChildrenAre(g, v);
    assert forall i :: 0 <= i < |Children(g, v)| ==> Children(g, v)[i] in Children(g, v);
    if es == [] {
      FromNothing(g, Children(g, v));
    } else {
      var front := es[..|es| - 1];
      RoundBrings(g, v, n, front);
      RunBounded(n, front);
      KeepsChildren(g, v, Run(n, front).node, es[|es| - 1]);
      FromSnoc(g, Children(g, v), es);
    }
  }

  /** What the nodes in `cs` send in the round. */
  ghost function SentBy(r: Round, cs: seq<nat>): bv64
    requires forall i :: 0 <= i < |cs| ==> cs[i] < |r.sent|
  {
    if cs == [] then 0 else Xor(SentBy(r, cs[..|cs| - 1]), TotalOf(r.sent[cs[|cs| - 1]]))
  }

  lemma {:induction false} ArrivesAsSent(g: Graph, r: Round, cs: seq<nat>, es: seq<Event>)
    requires |r.sent| == |g.ids| && forall i :: 0 <= i < |cs| ==> cs[i] < |g.ids|
    requires forall i :: 0 <= i < |cs| ==> multiset(PacketsFrom(es, g.ids[cs[i]])) == multiset(r.sent[cs[i]])
    ensures FromAll(g, cs, es) == SentBy(r, cs)
  {
    hide Xor, TotalOf, PacketsFrom;
    if cs != [] {
      var ds, c := cs[..|cs| - 1], cs[|cs| - 1];
      assert forall i :: 0 <= i < |ds| ==> ds[i] == cs[i];
      ArrivesAsSent(g, r, ds, es);
      TotalOfPermutation(PacketsFrom(es, g.ids[c]), r.sent[c]);
    }
  }

  /** Between two states with an empty buffer, all that comes in goes out. */
  lemma NothingStays(n: Node, brought: bv64, o: Out)
    requires n.sums == [] && o.node.sums == [] && Balanced(n, brought, o)
    ensures TotalOf(o.sent) == Xor(brought, Times(OwnChecksum(n.id), |o.sent|))
  {
    hide Xor, OwnChecksum;
    XorZero(TotalOf(o.sent));
    XorZero(brought);
  }

  /** All that a relay sends is what its children sent and its own checksum once for each packet. */
  lemma RelayValue(g: Graph, v: nat, r: Round)
    requires WellFormed(g) && |r.start| == |r.events| == |r.sent| == |g.ids| && v < |g.ids| && RelayRound(g, v, r)
    ensures forall i :: 0 <= i < |Children(g, v)| ==> Children(g, v)[i] < |g.ids|
    ensures TotalOf(r.sent[v]) == Xor(SentBy(r, Children(g, v)), Times(OwnChecksum(g.ids[v]), |r.sent[v]|))
  {
    hide Xor, Children, TableAt, Balanced, Run, BroughtBy, PacketsFrom, TotalOf, FromAll, SentBy;
    var n, es := r.start[v], r.events[v];
    RoundBrings(g, v, n, es);
    ArrivesAsSent(g, r, Children(g, v), es);
    PathRoom(n);
    RunConserves(n, es);
    NothingStays(n, BroughtBy(n, es), Run(n, es));
  }

  lemma {:induction false} LeafTotal(g: Graph, v: nat, sent: seq<Packet>)
    requires WellFormed(g) && v < |g.ids| && LeafRound(g, v, sent)
    ensures TotalOf(sent) == Times(OwnChecksum(g.ids[v]), |sent|)
  {
    hide Xor, OwnChecksum;
    if sent != [] {
      var front := sent[..|sent| - 1];
      LeafTotal(g, v, front);
      assert sent == front + [sent[|sent| - 1]];
      TotalSnoc(front, sent[|sent| - 1]);
    }
  }

  /** How many packets each node sends. */
  function Counts(r: Round): (c: seq<nat>)
    ensures |c| == |r.sent| && forall v :: 0 <= v < |c| ==> c[v] == |r.sent[v]|
  {
    seq(|r.sent|, v requires 0 <= v < |r.sent| => |r.sent[v]|)
  }

  /**
   The aggregate: all that a node sends in a round is the XOR of the own checksums of exactly those
   nodes, itself included, that send an odd number of packets and to which an odd number of downward
   paths leads, whatever the order of arrival, the splits and the timers.
   */
  lemma {:induction false} AggregateIsOddXor(g: Graph, r: Round, v: nat)
    requires WellFormed(g) && IsRound(g, r) && v < |g.ids|
    ensures TotalOf(r.sent[v]) == OddXor(g, Counts(r), v, |g.ids|)
    decreases Top(g.rank) - g.rank[v]
  {
    hide Xor, Children, RelayRound, LeafRound, OwnChecksum, TotalOf, Odd, Pick, Times, SentBy;
    var cs, n, own := Children(g, v), |g.ids|, OwnChecksum(g.ids[v]);
    OddXorUnfolds(g, Counts(r), v, n);
    ChildrenAre(g, v);
    TimesIsPick(own, |r.sent[v]|);
    assert forall i :: 0 <= i < |cs| ==> cs[i] in cs;
    forall c | c in cs ensures c < n && TotalOf(r.sent[c]) == OddXor(g, Counts(r), c, n) {
      AggregateIsOddXor(g, r, c);
    }
    ViaIsSent(g, r, v, cs);
    if cs == [] {
      SentByNone(r);
      LeafTotal(g, v, r.sent[v]);
      XorZero(Times(own, |r.sent[v]|));
    } else {
      RelayValue(g, v, r);
    }
  }

  lemma SentByNone(r: Round)
    ensures SentBy(r, []) == 0
  {
  }

  lemma {:induction false} ViaIsSent(g: Graph, r: Round, v: nat, cs: seq<nat>)
    requires WellFormed(g) && v < |g.ids| && |r.sent| == |g.ids|
    requires forall i :: 0 <= i < |cs| ==> cs[i] in Children(g, v) && cs[i] < |g.ids|
    requires forall c :: c in cs ==> c < |g.ids| && TotalOf(r.sent[c]) == OddXor(g, Counts(r), c, |g.ids|)
    ensures ViaXor(g, Counts(r), v, cs, |g.ids|) == SentBy(r, cs)
  {
    hide Xor, Children, TotalOf, OddXor, ViaXor;
    var n := |g.ids|;
    if cs == [] {
      ViaEmpty(g, Counts(r), v, n);
    } else {
      var front, c := cs[..|cs| - 1], cs[|cs| - 1];
      assert cs == front + [c];
      assert forall d :: d in front ==> d in cs;
      ViaIsSent(g, r, v, front);
      ViaSnoc(g, Counts(r), v, front, c, n);
    }
  }

  lemma {:induction false} ViaEmpty(g: Graph, counts: seq<nat>, v: nat, k: nat)
    requires WellFormed(g) && v < |g.ids| && k <= |g.ids| == |counts|
    ensures ViaXor(g, counts, v, [], k) == 0
  {
    hide Xor, OwnChecksum;
    if k != 0 {
      ViaEmpty(g, counts, v, k - 1);
      OddSmall();
      XorZero(0);
    }
  }

  /** When every node sends one packet, only the number of paths counts. */
  lemma OnePacketAggregate(g: Graph, r: Round, v: nat)
    requires WellFormed(g) && IsRound(g, r) && v < |g.ids|
    requires forall u :: 0 <= u < |r.sent| ==> |r.sent[u]| == 1
    ensures r.sent[v][0].checksum == OddXor(g, seq(|g.ids|, _ => 1), v, |g.ids|)
  {
    hide Xor, OddXor, RelayRound, LeafRound;
    AggregateIsOddXor(g, r, v);
    ChecksumsOne(r.sent[v][0]);
    assert r.sent[v] == [r.sent[v][0]];
    assert Counts(r) == seq(|g.ids|, _ => 1);
  }

  // ---- Trees ----

  /** No node has two parents. */
  ghost predicate IsTree(g: Graph)
    requires WellFormed(g)
  {
    forall v, w, u | 0 <= v < |g.ids| && 0 <= w < |g.ids| ::
      u in Children(g, v) && u in Children(g, w) ==> v == w
  }

  lemma {:induction false} PathRises(g: Graph, p: seq<nat>, v: nat, u: nat)
    requires WellFormed(g) && IsDownPath(g, p, v, u)
    ensures g.rank[u] >= g.rank[v] + |p| - 1
    decreases |p|
  {
    hide NoDup;
    if |p| > 1 {
      var q := p[..|p| - 1];
      assert IsDownPath(g, q, v, q[|q| - 1]);
      PathRises(g, q, v, q[|q| - 1]);
      assert p[|p| - 2 + 1] in Children(g, p[|p| - 2]);
      ChildrenAre(g, p[|p| - 2]);
    }
  }

  lemma {:induction false} PathUnique(g: Graph, p: seq<nat>, q: seq<nat>, v: nat, u: nat)
    requires WellFormed(g) && IsTree(g) && IsDownPath(g, p, v, u) && IsDownPath(g, q, v, u)
    ensures p == q
    decreases |p|
  {
    if |p| == 1 || |q| == 1 {
      PathRises(g, p, v, u);
      PathRises(g, q, v, u);
    } else {
      var p', q' := p[..|p| - 1], q[..|q| - 1];
      assert p[|p| - 2 + 1] in Children(g, p[|p| - 2]);
      assert q[|q| - 2 + 1] in Children(g, q[|q| - 2]);
      assert p'[|p'| - 1] == q'[|q'| - 1];
      PathUnique(g, p', q', v, p'[|p'| - 1]);
      assert p == p' + [u] && q == q' + [u];
    }
  }

  lemma AtMostOnePath(g: Graph, v: nat, u: nat)
    requires WellFormed(g) && IsTree(g) && v < |g.ids| && u < |g.ids|
    ensures |Paths(g, v, u)| <= 1
  {
    hide WellFormed, IsTree, IsDownPath, Paths;
    PathsExact(g, v, u);
    var ps := Paths(g, v, u);
    if |ps| >= 2 {
      assert ps[0] in ps && ps[1] in ps;
      PathUnique(g, ps[0], ps[1], v, u);
      assert false;
    }
  }

  /** In a tree the nodes to which an odd number of paths leads are `v` and all its descendants. */
  lemma TreeCountsDescendants(g: Graph, v: nat, u: nat)
    requires WellFormed(g) && IsTree(g) && v < |g.ids| && u < |g.ids|
    ensures Odd(|Paths(g, v, u)|) <==> exists p :: IsDownPath(g, p, v, u)
  {
    hide WellFormed, IsTree, IsDownPath, Paths;
    PathsExact(g, v, u);
    AtMostOnePath(g, v, u);
    var ps := Paths(g, v, u);
    if p :| IsDownPath(g, p, v, u) {
      assert p in ps;
    }
    if |ps| == 1 {
      assert ps[0] in ps;
    }
  }
}
