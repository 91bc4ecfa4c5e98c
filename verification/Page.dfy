/**
 The status page of the border router, written through a buffer of 256 characters
 (border-router-server/border-router.c).
 */
module Page {
  import opened Words
  import opened AddressText

  const BUFFER_SIZE := 256

  // The fixed parts of the page.

  function Top(): string {
    "<html><head><title>" + "ContikiRPL" + "</title></head><body>" + "\n"
  }

  function Bottom(): string { "</body></html>\n" }

  function NeighboursHead(): (s: string)
    ensures |s| == 14 && '\0' !in s
  {
    "Neighbors<pre>"
  }

  function RoutesHead(): (s: string)
    ensures |s| == 18 && '\0' !in s
  {
    "</pre>Routes<pre>\n"
  }

  function RoutesTail(): (s: string)
    ensures |s| == 6 && '\0' !in s
  {
    "</pre>"
  }

  type Address = a: seq<uint8> | |a| == 16 witness seq(16, _ => 0)

  /** `unsigned int`, as printed by `%u`. */
  type Unsigned = x: int | 0 <= x < 0x1_0000_0000

  datatype Route = Route(address: Address, length: uint8, nextHop: Address, lifetime: Unsigned)

  function Dec(n: nat): (s: string)
    ensures '\0' !in s
  {
    Digits(n, 10)
  }

  // ---- The page without a buffer ----

  function NeighbourLines(nbrs: seq<Address>): string {
    if nbrs == [] then ""
    else NeighbourLines(nbrs[..|nbrs| - 1]) + Text(GroupsOf(nbrs[|nbrs| - 1])) + "\n"
  }

  function RouteLine(r: Route): string {
    Text(GroupsOf(r.address)) + ("/" + Dec(r.length as nat) + " (via ")
    + Text(GroupsOf(r.nextHop)) + (") " + Dec(r.lifetime) + "s\n")
  }

  function RouteLines(routes: seq<Route>): string {
    if routes == [] then "" else RouteLines(routes[..|routes| - 1]) + RouteLine(routes[|routes| - 1])
  }

  function PageText(nbrs: seq<Address>, routes: seq<Route>): string {
    Top() + (NeighboursHead() + NeighbourLines(nbrs) + RoutesHead()) + RouteLines(routes) + RoutesTail() + Bottom()
  }

  function Concat(ss: seq<string>): string {
    if ss == [] then "" else Concat(ss[..|ss| - 1]) + ss[|ss| - 1]
  }

  lemma ConcatSnoc(ss: seq<string>, s: string)
    ensures Concat(ss + [s]) == Concat(ss) + s
  {
    assert (ss + [s])[..|ss|] == ss;
  }

  lemma AppendTwo(a: string, b: string, c: string)
    ensures (a + b) + c == a + (b + c)
  {
  }

  lemma AppendThree(a: string, b: string, c: string, d: string)
    ensures a + (b + c + d) == (a + b) + (c + d)
  {
  }

  lemma AppendPage(start: string, a: string, b: string, c: string, d: string)
    ensures start + a + b + c + d == start + (a + b + c + d)
  {
  }

  /** What extends the waiting part extends the whole. */
  lemma Extend(flushed: string, waiting: string, start: string, lines: string, line: string)
    requires flushed + waiting == start + lines
    ensures flushed + (waiting + line) == start + (lines + line)
  {
    assert flushed + (waiting + line) == (flushed + waiting) + line;
  }

  lemma NoLines()
    ensures NeighbourLines([]) == ""
  {
  }

  lemma NeighbourLinesNext(nbrs: seq<Address>, k: nat)
    requires k < |nbrs|
    ensures NeighbourLines(nbrs[..k + 1]) == NeighbourLines(nbrs[..k]) + (Text(GroupsOf(nbrs[k])) + "\n")
  {
    hide Text;
    assert nbrs[..k + 1][..k] == nbrs[..k];
    assert NeighbourLines(nbrs[..k]) + Text(GroupsOf(nbrs[k])) + "\n"
        == NeighbourLines(nbrs[..k]) + (Text(GroupsOf(nbrs[k])) + "\n");
  }

  // ---- The printer's loop ----

  /** The text after `i` groups. */
  function PartialText(gs: seq<Group>, i: nat): string
    requires i <= |gs|
  {
    var z := FirstZero(gs);
    var e := RunEnd(gs, z);
    if i <= z then Join(gs[..i])
    else if i <= e then Join(gs[..z]) + "::"
    else Join(gs[..z]) + "::" + Join(gs[e..i])
  }

  /** The printer's state `f` before group `i`: 0, then the length of the run, then -1 for good. */
  function RunState(gs: seq<Group>, i: nat): int
    requires i <= |gs|
  {
    var z := FirstZero(gs);
    if i <= z then 0 else if i <= RunEnd(gs, z) then i - z else -1
  }

  /** What group `i` adds. */
  function Piece(gs: seq<Group>, i: nat): string
    requires i < |gs|
  {
    var f := RunState(gs, i);
    if gs[i] == 0 && f >= 0 then (if f == 0 then "::" else "")
    else if f <= 0 && i > 0 then ":" + Hex(gs[i])
    else Hex(gs[i])
  }

  lemma JoinSnoc(gs: seq<Group>, a: Group)
    requires gs != []
    ensures Join(gs + [a]) == Join(gs) + ":" + Hex(a)
  {
    hide Hex;
    assert (gs + [a])[..|gs|] == gs;
  }

  lemma JoinOne(a: Group)
    ensures Join([a]) == Hex(a)
  {
    hide Hex;
  }

  lemma JoinNext(gs: seq<Group>, from: nat, i: nat)
    requires from < i < |gs|
    ensures Join(gs[from..i + 1]) == Join(gs[from..i]) + ":" + Hex(gs[i])
  {
    hide Join, Hex;
    assert gs[from..i + 1] == gs[from..i] + [gs[i]];
    JoinSnoc(gs[from..i], gs[i]);
  }

  /** Adding each piece in turn builds the text. */
  lemma PieceExtends(gs: seq<Group>, i: nat)
    requires i < |gs|
    ensures PartialText(gs, i + 1) == PartialText(gs, i) + Piece(gs, i)
  {
    hide RunEnd, FirstZero, Piece, PartialText;
    var z := FirstZero(gs);
    if i < z {
      PieceBeforeRun(gs, i);
    } else if i < RunEnd(gs, z) {
      PieceInRun(gs, i);
    } else {
      PieceAfterRun(gs, i);
    }
  }

  lemma PieceBeforeRun(gs: seq<Group>, i: nat)
    requires i < FirstZero(gs)
    ensures PartialText(gs, i + 1) == PartialText(gs, i) + Piece(gs, i)
  {
    hide Join, Hex, RunEnd, FirstZero;
    if i == 0 {
      EmptyJoin();
      JoinOne(gs[0]);
      assert gs[..0] == [] && gs[..1] == [gs[0]];
      assert "" + Hex(gs[0]) == Hex(gs[0]);
    } else {
      JoinNext(gs, 0, i);
      assert gs[0..i] == gs[..i] && gs[0..i + 1] == gs[..i + 1];
      AppendTwo(Join(gs[..i]), ":", Hex(gs[i]));
    }
  }

  lemma PieceInRun(gs: seq<Group>, i: nat)
    requires FirstZero(gs) <= i < RunEnd(gs, FirstZero(gs))
    ensures PartialText(gs, i + 1) == PartialText(gs, i) + Piece(gs, i)
  {
    hide Join, Hex, RunEnd, FirstZero;
    assert PartialText(gs, i) + "" == PartialText(gs, i);
  }

  lemma PieceAfterRun(gs: seq<Group>, i: nat)
    requires i < |gs| && RunEnd(gs, FirstZero(gs)) <= i
    ensures PartialText(gs, i + 1) == PartialText(gs, i) + Piece(gs, i)
  {
    hide Join, Hex, RunEnd, FirstZero, Piece, PartialText;
    RunHasZero(gs);
    var left := TextAfterRun(gs, i);
    SeparatorAfterRun(gs, i);
    if RunEnd(gs, FirstZero(gs)) == i {
      LoneGroup(gs, i);
    } else {
      JoinNext(gs, RunEnd(gs, FirstZero(gs)), i);
    }
    var e := RunEnd(gs, FirstZero(gs));
    Grows(left, Join(gs[e..i]), if e == i then "" else ":", Hex(gs[i]),
          PartialText(gs, i), PartialText(gs, i + 1), Join(gs[e..i + 1]), Piece(gs, i));
  }

  /** Both ends of an equation, from their parts. */
  lemma Grows(left: string, right: string, sep: string, digits: string,
              before: string, after: string, longer: string, piece: string)
    requires before == left + right && after == left + longer
    requires longer == right + sep + digits && piece == sep + digits
    ensures after == before + piece
  {
    AppendThree(left, right, sep, digits);
  }

  lemma LoneGroup(gs: seq<Group>, i: nat)
    requires i < |gs|
    ensures Join(gs[i..i + 1]) == Join(gs[i..i]) + "" + Hex(gs[i])
  {
    hide Join, Hex;
    EmptyJoin();
    JoinOne(gs[i]);
    assert gs[i..i] == [] && gs[i..i + 1] == [gs[i]];
    assert "" + "" + Hex(gs[i]) == Hex(gs[i]);
  }

  lemma RunHasZero(gs: seq<Group>)
    ensures FirstZero(gs) == |gs| ==> RunEnd(gs, FirstZero(gs)) == |gs|
  {
  }

  lemma SeparatorAfterRun(gs: seq<Group>, i: nat)
    requires i < |gs| && FirstZero(gs) < |gs| && RunEnd(gs, FirstZero(gs)) <= i
    ensures RunEnd(gs, FirstZero(gs)) == i ==> Piece(gs, i) == "" + Hex(gs[i])
    ensures RunEnd(gs, FirstZero(gs)) < i ==> Piece(gs, i) == ":" + Hex(gs[i])
  {
    hide Hex, RunEnd, FirstZero;
    assert "" + Hex(gs[i]) == Hex(gs[i]);
  }

  lemma TextAfterRun(gs: seq<Group>, i: nat) returns (left: string)
    requires i < |gs| && FirstZero(gs) < |gs| && RunEnd(gs, FirstZero(gs)) <= i
    ensures PartialText(gs, i) == left + Join(gs[RunEnd(gs, FirstZero(gs))..i])
    ensures PartialText(gs, i + 1) == left + Join(gs[RunEnd(gs, FirstZero(gs))..i + 1])
  {
    hide Join, RunEnd, FirstZero;
    var e := RunEnd(gs, FirstZero(gs));
    left := Join(gs[..FirstZero(gs)]) + "::";
    EmptyJoin();
    assert gs[e..e] == [];
    assert left + "" == left;
  }

  /** The printer's state follows the groups. */
  lemma RunStateStep(gs: seq<Group>, i: nat)
    requires i < |gs|
    ensures RunState(gs, i + 1) ==
            if gs[i] == 0 && RunState(gs, i) >= 0 then RunState(gs, i) + 1
            else if RunState(gs, i) > 0 then -1 else RunState(gs, i)
  {
    hide RunEnd, FirstZero;
  }

  lemma PieceIs(gs: seq<Group>, i: nat)
    requires i < |gs|
    ensures RunState(gs, 0) == 0
    ensures var f := RunState(gs, i);
            Piece(gs, i) == if gs[i] == 0 && f >= 0 then (if f == 0 then "::" else "")
                            else if f <= 0 && i > 0 then ":" + Hex(gs[i]) else Hex(gs[i])
  {
    hide Hex;
  }

  lemma EmptyJoin()
    ensures Join([]) == ""
  {
  }

  lemma PartialWhole(gs: seq<Group>)
    ensures PartialText(gs, |gs|) == Text(gs)
    ensures PartialText(gs, 0) == "" && RunState(gs, 0) == 0
  {
    EmptyJoin();
    var z := FirstZero(gs);
    assert gs[..|gs|] == gs;
    assert gs[..0] == [];
    assert RunEnd(gs, z) == |gs| ==> gs[RunEnd(gs, z)..] == [];
    if RunEnd(gs, z) < |gs| {
      assert gs[RunEnd(gs, z)..|gs|] == gs[RunEnd(gs, z)..];
    }
  }

  lemma PartialLength(gs: seq<Group>, i: nat)
    requires i <= |gs| == 8
    ensures |PartialText(gs, i)| <= 39
  {
    hide Join;
    var z := FirstZero(gs);
    var e := RunEnd(gs, z);
    JoinLength(gs[..i]);
    JoinLength(gs[..z]);
    if e <= i {
      JoinLength(gs[e..i]);
    }
  }

  // ---- The buffer ----

  class PageWriter {
    const buf: array<char>
    var blen: nat
    /** Every string handed to the connection, in order. */
    var sent: seq<string>
    /** Some `snprintf` did not fit. */
    ghost var cut: bool

    ghost predicate Valid()
      reads this, buf
    {
      buf.Length == BUFFER_SIZE && blen < BUFFER_SIZE && '\0' !in buf[..blen]
    }

    /** The characters added since the last flush. */
    ghost function Pending(): string
      requires Valid()
      reads this, buf
    {
      buf[..blen]
    }

    /** The string in the buffer ends where the next one would be added. */
    ghost predicate Terminated()
      requires Valid()
      reads this, buf
    {
      buf[blen] == '\0'
    }

    constructor ()
      ensures Valid() && blen == 0 && sent == [] && !cut
    {
      buf := new char[BUFFER_SIZE](_ => '\0');
      blen, sent, cut := 0, [], false;
    }

    /** `ADD`: `snprintf` into the rest of the buffer, which returns the length it would have needed. */
    method Add(text: string)
      requires Valid() && '\0' !in text
      modifies this`blen, this`cut, buf
      ensures blen == old(blen) + |text|
      ensures cut == (old(cut) || blen >= BUFFER_SIZE)
      ensures blen < BUFFER_SIZE ==> Valid() && Terminated() && Pending() == old(Pending()) + text
      ensures blen >= BUFFER_SIZE ==>
                buf[..BUFFER_SIZE - 1] == old(Pending()) + text[..BUFFER_SIZE - 1 - old(blen)]
                && buf[BUFFER_SIZE - 1] == '\0'
    {
      var room := BUFFER_SIZE - 1 - blen;
      var n := if |text| < room then |text| else room;
      var i := 0;
      while i < n
        invariant 0 <= i <= n && blen == old(blen) && cut == old(cut)
        invariant buf[..blen + i] == old(Pending()) + text[..i]
      {
        buf[blen + i] := text[i];
        i := i + 1;
      }
      buf[blen + n] := '\0';
      cut := cut || |text| > room;
      assert buf[..blen + n] == old(Pending()) + text[..n];
      assert n == |text| ==> text[..n] == text;
      blen := blen + |text|;
    }

    /** `SEND_STRING` of the buffer: everything up to the first terminator. */
    method SendBuffer()
      requires Valid() && Terminated()
      modifies this`sent
      ensures sent == old(sent) + [Pending()]
    {
      var n := 0;
      while buf[n] != '\0'
        invariant 0 <= n <= blen
        invariant forall k :: 0 <= k < n ==> buf[k] != '\0'
        decreases blen - n
      {
        n := n + 1;
      }
      assert n == blen;
      sent := sent + [buf[..n]];
    }

    /** The branch of the loop in `ipaddr_add` that prints digits. */
    method AddDigits(a: Group, i: nat, f: int) returns (next: int)
      requires Valid() && blen + |Hex(a)| + (if f <= 0 && i > 0 then 1 else 0) < BUFFER_SIZE
      modifies this`blen, this`cut, buf
      ensures Valid() && Terminated() && cut == old(cut)
      ensures Pending() == old(Pending()) + (if f <= 0 && i > 0 then ":" + Hex(a) else Hex(a))
      ensures next == if f > 0 then -1 else f
    {
      hide Hex;
      next := f;
      if f > 0 {
        next := -1;
      } else if i > 0 {
        AppendTwo(Pending(), ":", Hex(a));
        Add(":");
      }
      Add(Hex(a));
    }

    /** The body of the loop in `ipaddr_add`: group `i` is `a`, and `f` the loop's state. */
    method AddGroup(a: Group, i: nat, f: int, ghost gs: seq<Group>) returns (next: int)
      requires Valid() && i < |gs| && a == gs[i] && f == RunState(gs, i)
      requires blen + |Piece(gs, i)| < BUFFER_SIZE && (i > 0 ==> Terminated())
      modifies this`blen, this`cut, buf
      ensures Valid() && Terminated() && cut == old(cut)
      ensures Pending() == old(Pending()) + Piece(gs, i)
      ensures next == RunState(gs, i + 1)
    {
      hide Hex, RunState, Piece;
      RunStateStep(gs, i);
      PieceIs(gs, i);
      if a == 0 && f >= 0 {
        if f == 0 { Add("::"); }
        next := f + 1;
      } else {
        next := AddDigits(a, i, f);
      }
    }

    /** `ipaddr_add`. */
    method IpaddrAdd(address: Address)
      requires Valid() && blen + 39 < BUFFER_SIZE
      modifies this`blen, this`cut, buf
      ensures Valid() && Terminated() && cut == old(cut)
      ensures Pending() == old(Pending()) + Text(GroupsOf(address))
      ensures blen <= old(blen) + 39
    {
      hide Text, PartialText, RunState, Piece;
      ghost var gs, start := GroupsOf(address), Pending();
      PartialWhole(gs);
      var i, f := 0, 0;
      while i < 16
        invariant 0 <= i <= 16 && i % 2 == 0
        invariant Valid() && cut == old(cut)
        invariant Pending() == start + PartialText(gs, i / 2)
        invariant f == RunState(gs, i / 2)
        invariant i > 0 ==> Terminated()
      {
        PieceExtends(gs, i / 2);
        PartialLength(gs, i / 2 + 1);
        f := AddGroup(address[i] as int * 256 + address[i + 1] as int, i / 2, f, gs);
        i := i + 2;
      }
      PartialLength(gs, 8);
    }

    /** The neighbour loop: flushes whenever fewer than 45 characters are left. */
    method AddNeighbours(nbrs: seq<Address>)
      requires Valid() && Terminated() && blen <= BUFFER_SIZE - 45
      modifies this, buf
      ensures Valid() && cut == old(cut) && blen <= BUFFER_SIZE - 45
      ensures Concat(sent) + Pending() == old(Concat(sent) + Pending()) + NeighbourLines(nbrs)
    {
      hide Text, NeighbourLines, Concat;
      ghost var start := Concat(sent) + Pending();
      NoLines();
      var k := 0;
      while k < |nbrs|
        invariant 0 <= k <= |nbrs|
        invariant Valid() && cut == old(cut) && blen <= BUFFER_SIZE - 45
        invariant Concat(sent) + Pending() == start + NeighbourLines(nbrs[..k])
      {
        ghost var before := Pending();
        ghost var line := Text(GroupsOf(nbrs[k])) + "\n";
        IpaddrAdd(nbrs[k]);
        Add("\n");
        assert Pending() == before + line;
        NeighbourLinesNext(nbrs, k);
        Extend(Concat(sent), before, start, NeighbourLines(nbrs[..k]), line);
        if blen > BUFFER_SIZE - 45 {
          ConcatSnoc(sent, Pending());
          SendBuffer();
          blen := 0;
          assert Pending() == "";
        }
        k := k + 1;
      }
      assert nbrs[..k] == nbrs;
    }

    /** One line of the route loop, sent at once. */
    method SendRoute(r: Route)
      requires Valid() && blen == 0
      modifies this, buf
      ensures Valid() && cut == old(cut) && blen == 0
      ensures sent == old(sent) + [RouteLine(r)]
    {
      hide Text, Digits;
      var length, lifetime := "/" + Dec(r.length as nat) + " (via ", ") " + Dec(r.lifetime) + "s\n";
      NumbersFit(r);
      IpaddrAdd(r.address);
      Add(length);
      IpaddrAdd(r.nextHop);
      Add(lifetime);
      assert Pending() == RouteLine(r);
      SendBuffer();
      blen := 0;
    }

    method SendRoutes(routes: seq<Route>)
      requires Valid() && blen == 0
      modifies this, buf
      ensures Valid() && cut == old(cut) && blen == 0
      ensures Concat(sent) == Concat(old(sent)) + RouteLines(routes)
    {
      hide RouteLine;
      var k := 0;
      assert RouteLines(routes[..0]) == "";
      while k < |routes|
        invariant 0 <= k <= |routes|
        invariant Valid() && cut == old(cut) && blen == 0
        invariant Concat(sent) == Concat(old(sent)) + RouteLines(routes[..k])
      {
        ConcatSnoc(sent, RouteLine(routes[k]));
        SendRoute(routes[k]);
        assert routes[..k + 1][..k] == routes[..k];
        k := k + 1;
      }
      assert routes[..k] == routes;
    }

    /** The page up to the routes. */
    method SendHead(nbrs: seq<Address>)
      requires Valid()
      modifies this, buf
      ensures Valid() && cut == old(cut) && blen == 0
      ensures Concat(sent)
           == Concat(old(sent)) + (Top() + (NeighboursHead() + NeighbourLines(nbrs) + RoutesHead()))
    {
      hide NeighbourLines, Top, NeighboursHead, RoutesHead;
      ghost var start := Concat(sent);
      ConcatSnoc(sent, Top());
      sent := sent + [Top()];
      blen := 0;
      assert Pending() == "";
      Add(NeighboursHead());
      assert Pending() == NeighboursHead();
      AddNeighbours(nbrs);
      ghost var flushed, waiting := Concat(sent), Pending();
      Add(RoutesHead());
      ConcatSnoc(sent, Pending());
      SendBuffer();
      blen := 0;
      Regroup(start, Top(), NeighboursHead(), NeighbourLines(nbrs), RoutesHead(), flushed, waiting);
    }

    /**
     `generate_routes` on one connection: no `snprintf` is cut, and what is sent is exactly the
     unbuffered page, for any neighbours and routes.
     */
    method GenerateRoutes(nbrs: seq<Address>, routes: seq<Route>)
      requires Valid() && !cut
      modifies this, buf
      ensures Valid() && !cut
      ensures Concat(sent) == Concat(old(sent)) + PageText(nbrs, routes)
    {
      hide NeighbourLines, RouteLines, Top, Bottom, RoutesTail, NeighboursHead, RoutesHead, Concat;
      ghost var start := Concat(sent);
      SendHead(nbrs);
      SendRoutes(routes);
      Add(RoutesTail());
      assert Pending() == RoutesTail();
      ConcatSnoc(sent, Pending());
      SendBuffer();
      ConcatSnoc(sent, Bottom());
      sent := sent + [Bottom()];
      AppendPage(start, Top() + (NeighboursHead() + NeighbourLines(nbrs) + RoutesHead()),
                 RouteLines(routes), RoutesTail(), Bottom());
    }
  }

  lemma Regroup(start: string, top: string, head: string, lines: string, tail: string,
                flushed: string, waiting: string)
    requires flushed + waiting == start + top + head + lines
    ensures flushed + (waiting + tail) == start + (top + (head + lines + tail))
  {
    calc {
      flushed + (waiting + tail);
      (flushed + waiting) + tail;
      start + (top + (head + lines + tail));
    }
  }

  /** A byte prints in three digits, an unsigned int in ten. */
  lemma NumbersFit(r: Route)
    ensures |Dec(r.length as nat)| <= 3 && |Dec(r.lifetime)| <= 10
  {
    hide Digits;
    assert Pow(10, 3) == 1000;
    assert Pow(10, 5) == 100000;
    assert Pow(10, 7) == 10000000;
    assert Pow(10, 10) == 10000000000;
    DigitsLength(r.length as nat, 10, 3);
    DigitsLength(r.lifetime, 10, 10);
  }
}
