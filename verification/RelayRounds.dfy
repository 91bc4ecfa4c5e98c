/**
 Rounds of one relay: when it takes a round for complete, what it reports then, and what it
 remembers for the second round.
 */
module RelayRounds {
  import opened Words
  import opened ChildTable
  import opened RelayModel
  import opened RelayRuns

  // ---- The counter and the flags ----

  /** The step that would ask `is_all_child_set()` in place of comparing the counter. */
  function StepByFlags(n: Node, e: Event): Out
    requires TopologyEvent(e)
  {
    if !Accepts(n, e) then Step(n, e)
    else
      var g := Gather(n, e.child, e.pkt);
      if AllSet(g.node.table) then
        var last := SendTopology(g.node);
        Out(last.node, g.sent + last.sent)
      else g
  }

  function RunByFlags(n: Node, es: seq<Event>): Out
    requires TopologyRun(es)
  {
    if es == [] then Out(n, [])
    else
      var before := RunByFlags(n, es[..|es| - 1]);
      var o := StepByFlags(before.node, es[|es| - 1]);
      Out(o.node, before.sent + o.sent)
  }

  /** The event is not a second report of a child within one round. */
  predicate FirstReport(n: Node, e: Event) {
    Accepts(n, e) ==> !IsSet(n.table, e.child)
  }

  /** No child reports twice between two resets. */
  predicate FirstReports(n: Node, es: seq<Event>)
    requires AllSane(es)
  {
    es == [] || (FirstReports(n, es[..|es| - 1]) && FirstReport(Run(n, es[..|es| - 1]).node, es[|es| - 1]))
  }

  predicate CounterAgrees(n: Node) {
    |n.sums| == FlagCount(n.table)
  }

  /** Between rounds the counter is never below the number of flags. */
  predicate CounterCovers(n: Node) {
    FlagCount(n.table) <= |n.sums|
  }

  lemma GatherCounts(n: Node, child: Id, pkt: Packet)
    requires pkt.Topology? && pkt.Readable() && Bounded(n)
    requires NoDup(ChildTable.Ids(n.table)) && Has(n.table, child) && CounterCovers(n)
    ensures var g := Gather(n, child, pkt).node;
            && CounterCovers(g)
            && (CounterAgrees(n) && !IsSet(n.table, child) ==> CounterAgrees(g))
            && (AllSet(g.table) ==> |g.sums| == |g.table|)
            && (CounterAgrees(g) ==> (|g.sums| == |g.table| <==> AllSet(g.table)))
  {
    hide Xor, Gather;
    var g := Gather(n, child, pkt).node;
    GatherShape(n, child, pkt);
    MarkCounts(n.table, child);
    ClearedCount(Mark(n.table, child));
    FlagCountBound(g.table);
    assert |g.sums| <= |g.table| by {
      assert |n.sums| < |n.table|;
    }
  }

  lemma StepCounts(n: Node, e: Event)
    requires Bounded(n) && TopologyEvent(e) && NoDup(ChildTable.Ids(n.table)) && CounterCovers(n)
    ensures var o := Step(n, e);
            && CounterCovers(o.node)
            && (CounterAgrees(n) && FirstReport(n, e) ==> CounterAgrees(o.node))
  {
    hide Xor, Gather;
    if e.TopologyTimer? {
      ClearedCount(n.table);
    } else if Has(n.table, e.child) {
      var g := Gather(n, e.child, e.pkt);
      GatherCounts(n, e.child, e.pkt);
      ClearedCount(g.node.table);
    }
  }

  /** The copy loop sends something exactly when the packet fills the path buffer. */
  lemma GatherSends(n: Node, child: Id, pkt: Packet)
    requires pkt.Topology? && pkt.Readable() && |n.paths| < CAPACITY
    ensures Gather(n, child, pkt).sent != [] <==> Fills(n, pkt.Ids())
  {
    hide Xor;
    var marked := n.(table := Mark(n.table, child), sums := n.sums + [pkt.checksum]);
    AbsorbFits(marked, marked.paths, pkt.Ids());
  }

  /** With this report the counter reaches the number of children, though some child has not reported. */
  predicate EndsEarly(n: Node, e: Event)
    requires TopologyEvent(e)
  {
    && Accepts(n, e) && !Fills(n, e.pkt.Ids())
    && |n.sums| + 1 == |n.table|
    && exists i :: 0 <= i < |n.table| && n.table[i].id != e.child && !n.table[i].received
  }

  lemma Distinct(ids: seq<Id>, k: nat)
    requires NoDup(ids) && k < |ids|
    ensures forall i :: 0 <= i < |ids| && i != k ==> ids[i] != ids[k]
  {
  }

  lemma AllSetAfterMark(t: seq<Child>, c: Id)
    requires Has(t, c) && NoDup(Ids(t))
    ensures AllSet(Mark(t, c)) <==> forall i :: 0 <= i < |t| ==> t[i].id == c || t[i].received
  {
    hide Mark, NoDup;
    var k := FirstIndex(t, c);
    MarkAt(t, c, k);
    Distinct(Ids(t), k);
    var r := Mark(t, c);
    assert forall i :: 0 <= i < |t| && i != k ==> Ids(t)[i] != Ids(t)[k] && r[i] == t[i];
  }

  /** Once the packet is copied the two tests differ exactly when the round ends early. */
  lemma TestsDiffer(n: Node, e: Event)
    requires Bounded(n) && TopologyEvent(e) && NoDup(ChildTable.Ids(n.table)) && CounterCovers(n)
    requires Accepts(n, e)
    ensures var g := Gather(n, e.child, e.pkt).node;
            (|g.sums| == |g.table| <==> AllSet(g.table)) <==> !EndsEarly(n, e)
  {
    hide Xor, Gather, Has, Kept, IsSet;
    var g := Gather(n, e.child, e.pkt).node;
    GatherShape(n, e.child, e.pkt);
    GatherSends(n, e.child, e.pkt);
    HasMany(n.table, e.child);
    if Fills(n, e.pkt.Ids()) {
      assert !g.table[0].received;
    } else {
      MarkCounts(n.table, e.child);
      FlagCountBound(g.table);
      AllSetAfterMark(n.table, e.child);
    }
  }

  lemma HasMany(t: seq<Child>, c: Id)
    requires Has(t, c)
    ensures t != []
  {
  }

  /**
   Counting decides like looking at the flags exactly when the round does not end early. While counter
   and flags agree that is: a second report, of which there is room for the ids, that completes the
   count.
   */
  lemma StepDecides(n: Node, e: Event)
    requires Bounded(n) && TopologyEvent(e) && NoDup(ChildTable.Ids(n.table)) && CounterCovers(n)
    ensures StepByFlags(n, e) == Step(n, e) <==> !EndsEarly(n, e)
    ensures CounterAgrees(n) ==>
              (StepByFlags(n, e) == Step(n, e) <==>
               FirstReport(n, e) || |n.sums| + 1 != |n.table| || Fills(n, e.pkt.Ids()))
  {
    hide Xor, Gather, Kept, SendTopology;
    if Accepts(n, e) {
      var g := Gather(n, e.child, e.pkt);
      TestsDiffer(n, e);
      SendsOne(g.node);
      if CounterAgrees(n) && |n.sums| + 1 == |n.table| && !Fills(n, e.pkt.Ids()) {
        MarkCounts(n.table, e.child);
        FlagCountBound(Mark(n.table, e.child));
        AllSetAfterMark(n.table, e.child);
      }
    }
  }

  lemma SendsOne(n: Node)
    ensures |SendTopology(n).sent| == 1
  {
  }

  /** No round of the run ends early. */
  predicate NeverEndsEarly(n: Node, es: seq<Event>)
    requires TopologyRun(es)
  {
    es == [] ||
    (NeverEndsEarly(n, es[..|es| - 1]) && !EndsEarly(Run(n, es[..|es| - 1]).node, es[|es| - 1]))
  }

  /** A run and all its prefixes are those of a relay that tests the flags. */
  predicate AsByFlags(n: Node, es: seq<Event>)
    requires TopologyRun(es)
  {
    RunByFlags(n, es) == Run(n, es) && (es == [] || AsByFlags(n, es[..|es| - 1]))
  }

  /** The relay behaves throughout as if it tested the flags exactly when no round ends early. */
  lemma {:induction false} RunDecides(n: Node, es: seq<Event>)
    requires Bounded(n) && TopologyRun(es) && NoDup(ChildTable.Ids(n.table)) && CounterCovers(n)
    ensures AsByFlags(n, es) <==> NeverEndsEarly(n, es)
  {
    hide Xor, Step, StepByFlags, EndsEarly;
    if es != [] {
      var front, e := es[..|es| - 1], es[|es| - 1];
      var before := Run(n, front);
      RunBounded(n, front);
      CounterNeverLags(n, front);
      RunDecides(n, front);
      StepDecides(before.node, e);
      SentApart(before.sent, Step(before.node, e).sent, StepByFlags(before.node, e).sent);
    }
  }

  lemma SentApart(before: seq<Packet>, a: seq<Packet>, b: seq<Packet>)
    ensures before + a == before + b <==> a == b
  {
    if before + a == before + b {
      assert a == (before + a)[|before|..];
      assert b == (before + b)[|before|..];
    }
  }

  /**
   From agreement, counter and flags part exactly at a second report that neither completes the count
   nor fills the path buffer: any packet sent brings them together again.
   */
  lemma CounterPartsExactly(n: Node, e: Event)
    requires Bounded(n) && TopologyEvent(e) && NoDup(ChildTable.Ids(n.table)) && CounterAgrees(n)
    ensures CounterAgrees(Step(n, e).node)
       <==> FirstReport(n, e) || |n.sums| + 1 == |n.table| || Fills(n, e.pkt.Ids())
  {
    hide Xor, Gather, Kept;
    StepCounts(n, e);
    if Accepts(n, e) {
      var g := Gather(n, e.child, e.pkt);
      GatherShape(n, e.child, e.pkt);
      GatherSends(n, e.child, e.pkt);
      MarkCounts(n.table, e.child);
      ClearedCount(Mark(n.table, e.child));
      ClearedCount(g.node.table);
    } else {
      ClearedCount(n.table);
    }
  }

  /**
   While no child reports twice between resets, the counter equals the number of set flags after
   every event, splits and timer sends included, and the relay behaves as if it tested the flags.
   */
  lemma {:induction false} CounterRefinesFlags(n: Node, es: seq<Event>)
    requires Bounded(n) && TopologyRun(es) && NoDup(ChildTable.Ids(n.table))
    requires CounterAgrees(n) && FirstReports(n, es)
    ensures CounterAgrees(Run(n, es).node)
    ensures RunByFlags(n, es) == Run(n, es)
  {
    hide Xor, Step, StepByFlags, FirstReport;
    if es != [] {
      var before := Run(n, es[..|es| - 1]);
      RunBounded(n, es[..|es| - 1]);
      CounterRefinesFlags(n, es[..|es| - 1]);
      StepCounts(before.node, es[|es| - 1]);
      StepDecides(before.node, es[|es| - 1]);
    }
  }

  /** Without that condition the counter still never lags behind the flags. */
  lemma {:induction false} CounterNeverLags(n: Node, es: seq<Event>)
    requires Bounded(n) && TopologyRun(es) && NoDup(ChildTable.Ids(n.table)) && CounterCovers(n)
    ensures CounterCovers(Run(n, es).node)
  {
    hide Xor, Gather;
    if es != [] {
      RunBounded(n, es[..|es| - 1]);
      CounterNeverLags(n, es[..|es| - 1]);
      StepCounts(Run(n, es[..|es| - 1]).node, es[|es| - 1]);
    }
  }

  // ---- One round of reports ----

  /** Reports of children only. */
  predicate Reports(n: Node, es: seq<Event>)
    ensures Reports(n, es) ==> TopologyRun(es)
  {
    forall i :: 0 <= i < |es| ==> TopologyEvent(es[i]) && es[i].Arrive? && Has(n.table, es[i].child)
  }

  /** The path buffer after some reports, had it room for everything. */
  function Filed(n: Node, es: seq<Event>): seq<Id>
    requires Reports(n, es)
  {
    if es == [] then n.paths
    else
      ReportsPrefix(n, es);
      var before := Filed(n, es[..|es| - 1]);
      before + Kept(before, es[|es| - 1].pkt.Ids())
  }

  lemma ReportsPrefix(n: Node, es: seq<Event>)
    requires Reports(n, es) && es != []
    ensures Reports(n, es[..|es| - 1])
  {
  }

  function Reported(n: Node, es: seq<Event>): (r: seq<bv64>)
    requires Reports(n, es)
    ensures |r| == |es|
  {
    seq(|es|, i requires 0 <= i < |es| => es[i].pkt.checksum)
  }

  function Max(a: nat, b: nat): nat {
    if a < b then b else a
  }

  function TopRank(n: Node, es: seq<Event>): nat
    requires Reports(n, es)
  {
    if es == [] then n.maxLeafRank
    else ReportsPrefix(n, es); Max(TopRank(n, es[..|es| - 1]), es[|es| - 1].pkt.maxLeafRank)
  }

  lemma SameIdsHas(t: seq<Child>, u: seq<Child>, c: Id)
    requires SameIds(t, u) && Has(t, c)
    ensures Has(u, c)
  {
    var i :| 0 <= i < |t| && t[i].id == c;
    assert ChildTable.Ids(t)[i] == ChildTable.Ids(u)[i];
    assert u[i].id == c;
  }

  lemma ReportedSnoc(n: Node, es: seq<Event>)
    requires Reports(n, es) && es != []
    ensures Reports(n, es[..|es| - 1])
    ensures Reported(n, es) == Reported(n, es[..|es| - 1]) + [es[|es| - 1].pkt.checksum]
  {
    hide Has;
    ReportsPrefix(n, es);
  }

  /** The event makes the relay send something. */
  predicate Sends(n: Node, e: Event)
    requires Sane(e)
  {
    match e
    case Arrive(child, pkt) =>
      pkt.Topology? && Has(n.table, child) && (Fills(n, pkt.Ids()) || |n.sums| + 1 == |n.table|)
    case TopologyTimer => true
    case AttestationTimer => Combined(n) != 0
  }

  lemma StepSends(n: Node, e: Event)
    requires Sane(e) && |n.paths| < CAPACITY
    ensures Step(n, e).sent != [] <==> Sends(n, e)
  {
    hide Xor, Gather, Kept, Has, SendTopology;
    SendsOne(n);
    if Accepts(n, e) && e.pkt.Topology? {
      var g := Gather(n, e.child, e.pkt);
      GatherSends(n, e.child, e.pkt);
      GatherShape(n, e.child, e.pkt);
      SendsOne(g.node);
    }
  }

  /** A report that leaves room in the path buffer. */
  lemma Buffered(n: Node, e: Event)
    requires TopologyEvent(e) && e.Arrive? && Has(n.table, e.child)
    requires |n.paths| < CAPACITY && !Fills(n, e.pkt.Ids())
    ensures var g := Gather(n, e.child, e.pkt).node;
            && Step(n, e) == (if |n.sums| + 1 == |n.table| then SendTopology(g) else Out(g, []))
            && g.table == Mark(n.table, e.child)
            && g == n.(table := g.table, sums := n.sums + [e.pkt.checksum],
                       paths := n.paths + Kept(n.paths, e.pkt.Ids()),
                       maxLeafRank := Max(n.maxLeafRank, e.pkt.maxLeafRank))
  {
    hide Xor, SendTopology, Kept;
    var g := Gather(n, e.child, e.pkt);
    var marked := n.(table := Mark(n.table, e.child), sums := n.sums + [e.pkt.checksum]);
    AbsorbFits(marked, marked.paths, e.pkt.Ids());
    if |g.node.sums| == |g.node.table| {
      assert [] + SendTopology(g.node).sent == SendTopology(g.node).sent;
    }
  }

  /** The relay after some reports of an unfinished round, but for its flags. */
  predicate Waiting(n: Node, es: seq<Event>, m: Node)
    requires Reports(n, es)
  {
    SameIds(m.table, n.table)
    && m == n.(table := m.table, sums := Reported(n, es), paths := Filed(n, es), maxLeafRank := TopRank(n, es))
  }

  /**
   An unfinished round: nothing has been sent exactly when all new ids fit the path buffer, and then
   everything reported is buffered in order.
   */
  lemma {:induction false} UnfinishedRound(n: Node, es: seq<Event>)
    requires n.sums == [] && |n.paths| < CAPACITY && Reports(n, es) && |es| < |n.table|
    ensures Run(n, es).sent == [] <==> |Filed(n, es)| < CAPACITY
    ensures Run(n, es).sent == [] ==> Waiting(n, es, Run(n, es).node)
  {
    hide Xor, Gather, Step, Has, Kept;
    if es != [] {
      var front, e := es[..|es| - 1], es[|es| - 1];
      ReportedSnoc(n, es);
      UnfinishedRound(n, front);
      var before := Run(n, front);
      if before.sent == [] {
        SameIdsHas(n.table, before.node.table, e.child);
        StepSends(before.node, e);
        if !Fills(before.node, e.pkt.Ids()) {
          Buffered(before.node, e);
        }
      }
    }
  }

  /** What a relay sends and becomes when a round ends with all reports buffered. */
  function Completed(n: Node, es: seq<Event>): Out
    requires Reports(n, es)
  {
    SendTopology(n.(sums := Reported(n, es), paths := Filed(n, es), maxLeafRank := TopRank(n, es)))
  }

  lemma ClearedByIds(t: seq<Child>, u: seq<Child>)
    requires SameIds(t, u)
    ensures Cleared(t) == Cleared(u)
  {
    assert forall i :: 0 <= i < |t| ==> Cleared(t)[i] == Child(ChildTable.Ids(t)[i], false);
    assert forall i :: 0 <= i < |u| ==> Cleared(u)[i] == Child(ChildTable.Ids(u)[i], false);
  }

  /**
   A round in which as many reports arrive as there are children ends, with its last report and not
   before, in the one packet that accounts for all of them exactly when all new ids fit the path buffer.
   */
  lemma CompleteRound(n: Node, es: seq<Event>)
    requires n.sums == [] && |n.paths| < CAPACITY && Reports(n, es) && |es| == |n.table| > 0
    ensures Run(n, es) == Completed(n, es) <==> |Filed(n, es)| < CAPACITY
  {
    hide Xor, Gather, Step, Has, Kept, SendTopology;
    var front, e := es[..|es| - 1], es[|es| - 1];
    ReportedSnoc(n, es);
    UnfinishedRound(n, front);
    var before := Run(n, front);
    SendsOne(n.(sums := Reported(n, es), paths := Filed(n, es), maxLeafRank := TopRank(n, es)));
    CompletedLeaves(n, es);
    if before.sent != [] {
      LeftOver(n, front, e);
    } else {
      SameIdsHas(n.table, before.node.table, e.child);
      if Fills(before.node, e.pkt.Ids()) {
        SplitForgets(before.node, e);
      } else {
        Buffered(before.node, e);
        FlagsDoNotMatter(Gather(before.node, e.child, e.pkt).node, n.table);
      }
    }
  }

  lemma FlagsDoNotMatter(n: Node, t: seq<Child>)
    requires SameIds(n.table, t)
    ensures SendTopology(n) == SendTopology(n.(table := t))
  {
    hide Xor;
    ClearedByIds(n.table, t);
  }

  /** After a complete round nothing is buffered and the snapshot holds every report. */
  lemma CompletedLeaves(n: Node, es: seq<Event>)
    requires Reports(n, es)
    ensures var o := Completed(n, es);
            && o.node.sums == [] && o.node.paths == [] && o.node.snapshot == Reported(n, es)
            && |o.sent| == 1
            && o.sent[0].checksum == Xor(XorAll(Reported(n, es)), OwnChecksum(n.id))
            && o.sent[0].maxLeafRank == TopRank(n, es)
            && (|Filed(n, es)| < CAPACITY ==> Complete(o.sent[0], n.id) && o.sent[0].Ids() == Filed(n, es) + [n.id])
  {
    hide Xor, Filed, TopRank;
  }

  lemma SplitForgets(n: Node, e: Event)
    requires TopologyEvent(e) && |n.paths| < CAPACITY && Accepts(n, e) && Fills(n, e.pkt.Ids())
    ensures Step(n, e).node.snapshot == []
  {
    hide Xor, Gather, Kept;
    GatherShape(n, e.child, e.pkt);
    GatherSends(n, e.child, e.pkt);
    HasMany(n.table, e.child);
  }

  /** A report that sends nothing stays buffered. */
  lemma LeftOver(n: Node, front: seq<Event>, e: Event)
    requires |n.paths| < CAPACITY && Reports(n, front + [e]) && AllSane(front) && Run(n, front).sent != []
    ensures |Run(n, front + [e]).sent| > 1 || Run(n, front + [e]).node.sums != []
  {
    hide Xor, Gather, Has, Kept, SendTopology;
    var es := front + [e];
    assert es[..|es| - 1] == front && es[|es| - 1] == e;
    var m := Run(n, front).node;
    assert forall i :: 0 <= i < |front| ==> front[i] == es[i];
    RunKeepsRoom(n, front);
    SameIdsHas(n.table, m.table, e.child);
    GatherShape(m, e.child, e.pkt);
    SendsOne(Gather(m, e.child, e.pkt).node);
  }

  lemma {:induction false} RunKeepsRoom(n: Node, es: seq<Event>)
    requires TopologyRun(es) && |n.paths| < CAPACITY
    ensures var o := Run(n, es); SameIds(o.node.table, n.table) && |o.node.paths| < CAPACITY
  {
    hide Xor, Gather, SendTopology, Has;
    if es != [] {
      var m, e := Run(n, es[..|es| - 1]).node, es[|es| - 1];
      RunKeepsRoom(n, es[..|es| - 1]);
      ResetShape(m);
      if Accepts(m, e) {
        GatherShape(m, e.child, e.pkt);
        ResetShape(Gather(m, e.child, e.pkt).node);
      }
    }
  }

  lemma ResetShape(n: Node)
    ensures SameIds(SendTopology(n).node.table, n.table) && SendTopology(n).node.paths == []
  {
  }

  /** The same report twice cancels in the fold. */
  lemma TwiceCancels(x: bv64, own: bv64)
    ensures Xor(XorAll([x, x]), own) == own
  {
    hide Xor;
    assert [x, x] == [x] + [x];
    XorSnoc([x], x);
    XorOne(x);
    XorZero(x);
    XorZero(own);
  }

  /**
   A child that reports twice ends the round of a relay with two children before the other child
   reports, and its own contribution cancels: the relay sends its own checksum only. A relay that
   tested the flags would still wait.
   */
  lemma RepeatedReportEndsRound(id: Id, a: Id, b: Id, x: bv64)
    requires a != b
    ensures var n := Fresh(id, [Child(a, false), Child(b, false)]);
            var report := Arrive(a, Topology([a], Some(1), 0, x));
            && TopologyRun([report, report]) && !FirstReports(n, [report, report])
            && var o := Run(n, [report, report]);
            && |o.sent| == 1 && o.sent[0].checksum == OwnChecksum(id)
            && RunByFlags(n, [report, report]).sent == []
  {
    hide Xor, Step, StepByFlags, XorAll, IsSet, OwnChecksum;
    var report := Arrive(a, Topology([a], Some(1), 0, x));
    var m := FirstOfTwo(id, a, b, x);
    var es := [report, report];
    assert es[..1] == [report] && es[1] == report;
    SecondOfTwo(m, a, b, x);
    assert [] + Step(m, report).sent == Step(m, report).sent;
  }

  /** The child that has reported reports again. */
  lemma SecondOfTwo(m: Node, a: Id, b: Id, x: bv64)
    requires a != b && m.table == [Child(a, true), Child(b, false)] && m.sums == [x] && |m.paths| <= 1
    ensures var report := Arrive(a, Topology([a], Some(1), 0, x));
            && |Step(m, report).sent| == 1
            && Step(m, report).sent[0].checksum == OwnChecksum(m.id)
            && StepByFlags(m, report).sent == []
  {
    hide Xor, Gather, XorAll;
    var report := Arrive(a, Topology([a], Some(1), 0, x));
    assert m.table[0].id == a && !m.table[1].received;
    Buffered(m, report);
    var g := Gather(m, a, report.pkt).node;
    assert g.table == m.table;
    assert g.sums == [x, x];
    TwiceCancels(x, OwnChecksum(m.id));
  }

  /** One of two children has reported. */
  lemma FirstOfTwo(id: Id, a: Id, b: Id, x: bv64) returns (m: Node)
    requires a != b
    ensures var n := Fresh(id, [Child(a, false), Child(b, false)]);
            var report := Arrive(a, Topology([a], Some(1), 0, x));
            && Run(n, [report]) == Out(m, []) == RunByFlags(n, [report])
    ensures m.id == id && m.table == [Child(a, true), Child(b, false)] && m.sums == [x] && |m.paths| <= 1
    ensures Has(m.table, a) && IsSet(m.table, a) && !AllSet(m.table)
  {
    hide Xor, Gather, SendTopology;
    var n := Fresh(id, [Child(a, false), Child(b, false)]);
    var report := Arrive(a, Topology([a], Some(1), 0, x));
    assert [report][..0] == [];
    assert n.table[0].id == a;
    Buffered(n, report);
    m := Gather(n, a, report.pkt).node;
    assert m.table[0].id == a && m.table[0].received && !m.table[1].received;
  }

  // ---- The leaf rank ----

  /** The event fills the path buffer, so the last thing it sends is a split. */
  predicate EndsInSplit(n: Node, e: Event)
    requires Sane(e)
  {
    e.Arrive? && e.pkt.Topology? && Has(n.table, e.child) && Fills(n, e.pkt.Ids())
  }

  /** The highest leaf rank among what a relay knew and all it has accepted. */
  function HighestHeard(n: Node, es: seq<Event>): nat
    requires TopologyRun(es)
  {
    if es == [] then n.maxLeafRank
    else
      var m, e := Run(n, es[..|es| - 1]).node, es[|es| - 1];
      var before := HighestHeard(n, es[..|es| - 1]);
      if Accepts(m, e) then Max(before, e.pkt.maxLeafRank) else before
  }

  /** Topology packets of which the last carries the rank `late` and the others the rank `early`. */
  predicate CarryRanks(ps: seq<Packet>, early: nat, late: nat) {
    forall i :: 0 <= i < |ps| ==>
      ps[i].Topology? && ps[i].maxLeafRank == (if i == |ps| - 1 then late else early)
  }

  lemma StepRank(n: Node, e: Event)
    requires TopologyEvent(e) && |n.paths| <= MAX_PATH_NODES - 3
    ensures var o := Step(n, e);
            && o.node.maxLeafRank == (if Accepts(n, e) then Max(n.maxLeafRank, e.pkt.maxLeafRank) else n.maxLeafRank)
            && CarryRanks(o.sent, n.maxLeafRank, if EndsInSplit(n, e) then n.maxLeafRank else o.node.maxLeafRank)
  {
    hide Xor, Absorb, Kept, Has;
    if Accepts(n, e) {
      var marked := n.(table := Mark(n.table, e.child), sums := n.sums + [e.pkt.checksum]);
      AbsorbShape(marked, marked.paths, e.pkt.Ids());
      GatherSends(n, e.child, e.pkt);
      HasMany(n.table, e.child);
    }
  }

  /**
   A relay's leaf rank is the maximum of all it ever accepted, over any run: resets keep it. A packet
   sent because the path buffer is full still carries the rank from before the arrival that filled it.
   */
  lemma {:induction false} RunRank(n: Node, es: seq<Event>)
    requires TopologyRun(es) && Bounded(n)
    ensures Run(n, es).node.maxLeafRank == HighestHeard(n, es)
    ensures es != [] ==>
              var m, e := Run(n, es[..|es| - 1]).node, es[|es| - 1];
              var early := HighestHeard(n, es[..|es| - 1]);
              CarryRanks(Step(m, e).sent, early, if EndsInSplit(m, e) then early else HighestHeard(n, es))
  {
    hide Xor, Step, EndsInSplit;
    if es != [] {
      RunRank(n, es[..|es| - 1]);
      RunBounded(n, es[..|es| - 1]);
      StepRank(Run(n, es[..|es| - 1]).node, es[|es| - 1]);
    }
  }

  // ---- The second-round snapshot ----

  /** What the second round can account for: the saved child checksums and the saved own checksum. */
  function SnapshotValue(n: Node): bv64 {
    Xor(XorAll(n.snapshot), n.myChecksum)
  }

  /** The last packet of the run came from a full path buffer. */
  predicate LastWasSplit(n: Node, es: seq<Event>)
    requires AllSane(es)
  {
    if es == [] then false
    else
      var m, e := Run(n, es[..|es| - 1]).node, es[|es| - 1];
      if Sends(m, e) then EndsInSplit(m, e) else LastWasSplit(n, es[..|es| - 1])
  }

  /**
   What the children contributed to the last packet of a split: everything buffered, unless the rest
   of the path fills the buffer once more.
   */
  function SplitLoss(n: Node, pkt: Packet): bv64
    requires pkt.Readable() && |n.paths| < CAPACITY
  {
    if |Unread(n.paths, CAPACITY - |n.paths|, pkt.Ids())| < CAPACITY then Xor(XorAll(n.sums), pkt.checksum)
    else 0
  }

  /** What the snapshot misses of the last packet of a run. */
  function Lost(n: Node, es: seq<Event>): bv64
    requires AllSane(es) && |n.paths| < CAPACITY
  {
    if es == [] then 0
    else
      RunConserves(n, es[..|es| - 1]);
      var m, e := Run(n, es[..|es| - 1]).node, es[|es| - 1];
      if !Sends(m, e) then Lost(n, es[..|es| - 1])
      else if EndsInSplit(m, e) then SplitLoss(m, e.pkt)
      else 0
  }

  /** From an empty buffer every split carries the relay's own checksum only. */
  lemma {:induction false} AbsorbAlone(n: Node, buf: seq<Id>, ids: seq<Id>)
    requires |buf| < CAPACITY && n.sums == []
    ensures forall p :: p in Absorb(n, buf, ids).sent ==> p.checksum == OwnChecksum(n.id)
    decreases |ids|
  {
    hide Xor, OwnChecksum;
    XorZero(OwnChecksum(n.id));
    if ids != [] {
      var longer := buf + [ids[0]];
      if ids[0] in n.paths {
        AbsorbAlone(n, buf, ids[1..]);
      } else if |longer| < CAPACITY {
        AbsorbAlone(n, longer, ids[1..]);
      } else {
        AbsorbAlone(Reset(SendTopology(n.(paths := longer)).node), [], ids[1..]);
      }
    }
  }

  lemma SplitCarries(n: Node, child: Id, pkt: Packet)
    requires pkt.Topology? && pkt.Readable() && |n.paths| < CAPACITY && Fills(n, pkt.Ids())
    ensures var ps := Gather(n, child, pkt).sent;
            ps != [] && ps[|ps| - 1].checksum == Xor(SplitLoss(n, pkt), OwnChecksum(n.id))
  {
    hide Xor, Absorb, Kept, Unread, OwnChecksum;
    var ids := pkt.Ids();
    var marked := n.(table := Mark(n.table, child), sums := n.sums + [pkt.checksum]);
    var room := CAPACITY - |n.paths|;
    var m := marked.(paths := n.paths + Kept(n.paths, ids)[..room]);
    var next, rest := Reset(SendTopology(m).node), Unread(n.paths, room, ids);
    AbsorbSplits(marked, n.paths, ids);
    NothingKnown(rest);
    AbsorbFits(next, [], rest);
    AbsorbAlone(next, [], rest);
    XorSnoc(n.sums, pkt.checksum);
    XorZero(OwnChecksum(n.id));
    var o := Absorb(next, [], rest);
    assert SendTopology(m).sent[0].checksum == Combined(m);
    if |rest| < CAPACITY {
      assert SendTopology(m).sent + o.sent == SendTopology(m).sent;
    } else {
      assert o.sent[|o.sent| - 1] in o.sent;
    }
  }

  lemma SplitSnapshot(n: Node, e: Event)
    requires Sane(e) && |n.paths| < CAPACITY && EndsInSplit(n, e)
    ensures var o := Step(n, e);
            && o.sent != [] && o.node.snapshot == [] && o.node.myChecksum == OwnChecksum(n.id)
            && o.sent[|o.sent| - 1].checksum == Xor(SplitLoss(n, e.pkt), OwnChecksum(n.id))
  {
    hide Xor, Gather, Kept, Has, SplitLoss;
    GatherShape(n, e.child, e.pkt);
    SplitCarries(n, e.child, e.pkt);
    HasMany(n.table, e.child);
  }

  lemma ArrivalSnapshot(n: Node, e: Event)
    requires Sane(e) && |n.paths| < CAPACITY && Accepts(n, e) && e.pkt.Topology? && !Fills(n, e.pkt.Ids())
    ensures var o := Step(n, e);
            && (o.sent == [] ==> o.node.snapshot == n.snapshot && o.node.myChecksum == n.myChecksum)
            && (o.sent != [] ==> && o.node.myChecksum == OwnChecksum(n.id)
                                 && SnapshotValue(o.node) == o.sent[|o.sent| - 1].checksum)
  {
    hide Xor, Gather, Kept, Has;
    GatherShape(n, e.child, e.pkt);
    GatherSends(n, e.child, e.pkt);
  }

  lemma StepSnapshot(n: Node, e: Event)
    requires Sane(e) && |n.paths| < CAPACITY && !EndsInSplit(n, e)
    ensures var o := Step(n, e);
            && (o.sent == [] ==> o.node.snapshot == n.snapshot)
            && (o.sent == [] ==> o.node.myChecksum == n.myChecksum || o.node.myChecksum == OwnChecksum(n.id))
            && (o.sent != [] ==> && o.node.myChecksum == OwnChecksum(n.id)
                                 && SnapshotValue(o.node) == o.sent[|o.sent| - 1].checksum)
  {
    hide Xor, Gather, Kept, Fills;
    if Accepts(n, e) && e.pkt.Topology? {
      ArrivalSnapshot(n, e);
    }
  }

  /**
   In every run, topology and attestation mixed: what the snapshot accounts for differs from the
   checksum sent last by exactly what the last packet, if it was a split, carried of the children; a
   split resets twice, so it leaves an empty snapshot. Later arrivals change nothing.
   */
  lemma {:induction false} SnapshotAccountsForLastSend(n: Node, es: seq<Event>)
    requires AllSane(es) && |n.paths| < CAPACITY && Run(n, es).sent != []
    ensures var o := Run(n, es);
            var last := o.sent[|o.sent| - 1].checksum;
            && o.node.myChecksum == OwnChecksum(n.id)
            && (LastWasSplit(n, es) ==> o.node.snapshot == [])
            && last == Xor(Lost(n, es), SnapshotValue(o.node))
            && (SnapshotValue(o.node) == last <==> Lost(n, es) == 0)
  {
    hide Xor, Step, EndsInSplit, XorAll, SplitLoss, Sends, Balanced, SnapshotValue, Has;
    var before, e := Run(n, es[..|es| - 1]), es[|es| - 1];
    var o := Step(before.node, e);
    RunConserves(n, es[..|es| - 1]);
    StepAccounts(before.node, e);
    if !Sends(before.node, e) {
      SnapshotAccountsForLastSend(n, es[..|es| - 1]);
      assert Run(n, es).sent == before.sent;
    } else {
      assert Run(n, es).sent[|Run(n, es).sent| - 1] == o.sent[|o.sent| - 1];
    }
    MissedExactly(Lost(n, es), SnapshotValue(Run(n, es).node));
  }

  /** One event, with what its last packet carried of the children if it was a split. */
  lemma StepAccounts(n: Node, e: Event)
    requires Sane(e) && |n.paths| < CAPACITY
    ensures var o := Step(n, e);
            && (o.sent != [] <==> Sends(n, e))
            && (o.sent == [] ==> o.node.snapshot == n.snapshot)
            && (o.sent == [] ==> o.node.myChecksum == n.myChecksum || o.node.myChecksum == OwnChecksum(n.id))
            && (o.sent == [] && n.myChecksum == OwnChecksum(n.id) ==> SnapshotValue(o.node) == SnapshotValue(n))
            && (o.sent != [] ==>
                  && o.node.myChecksum == OwnChecksum(n.id)
                  && (EndsInSplit(n, e) ==> o.node.snapshot == [])
                  && o.sent[|o.sent| - 1].checksum
                  == Xor(if EndsInSplit(n, e) then SplitLoss(n, e.pkt) else 0, SnapshotValue(o.node)))
  {
    hide Xor, Step, EndsInSplit, XorAll, SplitLoss, Sends;
    StepSends(n, e);
    SplitsSend(n, e);
    if EndsInSplit(n, e) {
      SplitSnapshot(n, e);
      EmptySnapshot(Step(n, e).node);
    } else {
      StepSnapshot(n, e);
      XorZero(SnapshotValue(Step(n, e).node));
    }
  }

  lemma SplitsSend(n: Node, e: Event)
    requires Sane(e)
    ensures EndsInSplit(n, e) ==> Sends(n, e)
  {
  }

  /** With nothing saved only the own checksum is accounted for. */
  lemma EmptySnapshot(n: Node)
    requires n.snapshot == []
    ensures SnapshotValue(n) == n.myChecksum
  {
    hide Xor;
    XorZero(n.myChecksum);
  }

  lemma MissedExactly(lost: bv64, value: bv64)
    ensures value == Xor(lost, value) <==> lost == 0
    ensures Xor(0, value) == value
  {
    hide Xor;
    XorMove(lost, value, value);
    XorZero(value);
  }

  /**
   The failing family: after a path that fills the buffer once, the snapshot misses all the children
   reported up to then, unless that is 0.
   */
  lemma SplitLosesSnapshot(n: Node, child: Id, pkt: Packet)
    requires Bounded(n) && Has(n.table, child) && pkt.Topology? && pkt.Readable() && Fills(n, pkt.Ids())
    requires |Unread(n.paths, CAPACITY - |n.paths|, pkt.Ids())| < CAPACITY
    ensures var o := Step(n, Arrive(child, pkt));
            var reported := Xor(XorAll(n.sums), pkt.checksum);
            && o.sent != [] && o.node.snapshot == []
            && o.sent[|o.sent| - 1].checksum == Xor(reported, OwnChecksum(n.id))
            && (SnapshotValue(o.node) == o.sent[|o.sent| - 1].checksum <==> reported == 0)
  {
    hide Xor, Step, Kept, Unread, Has;
    SplitSnapshot(n, Arrive(child, pkt));
    EmptySnapshot(Step(n, Arrive(child, pkt)).node);
    MissedExactly(Xor(XorAll(n.sums), pkt.checksum), OwnChecksum(n.id));
  }
}
