/** What a reader finds on the status page of the border router. */
module PageReading {
  import opened Words
  import opened AddressText
  import opened Page

  // ---- Cutting text ----

  /** The text before the first `c` and after it. */
  function Cut(s: string, c: char): (r: Option<(string, string)>)
    ensures r.Some? ==> |r.value.1| < |s|
  {
    if s == "" then None
    else if s[0] == c then Some(("", s[1..]))
    else
      match Cut(s[1..], c)
      case None => None
      case Some((a, b)) => Some(([s[0]] + a, b))
  }

  lemma {:induction false} CutAt(a: string, c: char, b: string)
    requires c !in a
    ensures Cut(a + [c] + b, c) == Some((a, b))
  {
    var s := a + [c] + b;
    if a == "" {
      assert s == [c] + b;
    } else {
      CutAt(a[1..], c, b);
      assert s[1..] == a[1..] + [c] + b;
      assert [s[0]] + a[1..] == a;
    }
  }

  lemma {:induction false} CutNothing(s: string, c: char)
    requires c !in s
    ensures Cut(s, c) == None
  {
    if s != "" {
      CutNothing(s[1..], c);
    }
  }

  /** The lines of a text, and what follows the last newline. */
  function SplitLines(s: string): (r: seq<string>)
    ensures r != []
    decreases |s|
  {
    match Cut(s, '\n')
    case None => [s]
    case Some((a, b)) => [a] + SplitLines(b)
  }

  lemma SplitCons(a: string, b: string)
    requires '\n' !in a
    ensures SplitLines(a + "\n" + b) == [a] + SplitLines(b)
  {
    CutAt(a, '\n', b);
    assert a + "\n" + b == a + ['\n'] + b;
  }

  lemma {:induction false} CutPrefix(p: string, s: string, c: char)
    requires c !in p
    ensures match Cut(s, c)
            case None => Cut(p + s, c) == None
            case Some((a, b)) => Cut(p + s, c) == Some((p + a, b))
  {
    if p == "" {
      assert p + s == s;
      if Cut(s, c).Some? {
        assert p + Cut(s, c).value.0 == Cut(s, c).value.0;
      }
    } else {
      CutPrefix(p[1..], s, c);
      assert (p + s)[1..] == p[1..] + s;
      if Cut(s, c).Some? {
        assert [p[0]] + (p[1..] + Cut(s, c).value.0) == p + Cut(s, c).value.0;
      }
    }
  }

  /** Text without a newline in front only lengthens the first line. */
  lemma SplitPrefix(p: string, s: string)
    requires '\n' !in p
    ensures var r := SplitLines(s); SplitLines(p + s) == [p + r[0]] + r[1..]
  {
    CutPrefix(p, s, '\n');
  }

  // ---- Numbers ----

  function DecValue(s: string): nat {
    if s == "" then 0 else DecValue(s[..|s| - 1]) * 10 + DigitValue(s[|s| - 1])
  }

  predicate IsDecimal(s: string) {
    s != "" && forall c :: c in s ==> DigitValue(c) < 10
  }

  function ReadDec(s: string): Option<nat> {
    if IsDecimal(s) then Some(DecValue(s)) else None
  }

  lemma {:induction false} DecRead(n: nat)
    ensures ReadDec(Dec(n)) == Some(n)
  {
    DigitsAre(n, 10);
    DecValueOf(n);
  }

  lemma {:induction false} DecValueOf(n: nat)
    ensures DecValue(Digits(n, 10)) == n
    decreases n
  {
    DigitRead(n % 10);
    if n < 10 {
      assert DecValue("") == 0;
    } else {
      DecValueOf(n / 10);
    }
  }

  // ---- Characters of the parts ----

  predicate AddressChars(s: string) {
    forall c :: c in s ==> c == ':' || LowerDigit(c, 16)
  }

  lemma {:induction false} JoinChars(gs: seq<Group>)
    ensures AddressChars(Join(gs))
  {
    if gs != [] {
      DigitsAre(gs[|gs| - 1], 16);
      JoinChars(gs[..|gs| - 1]);
    }
  }

  lemma TextChars(gs: seq<Group>)
    ensures AddressChars(Text(gs))
  {
    hide Join;
    var z := FirstZero(gs);
    JoinChars(gs);
    JoinChars(gs[..z]);
    JoinChars(gs[RunEnd(gs, z)..]);
  }

  lemma AddressFree(s: string)
    requires AddressChars(s)
    ensures '/' !in s && ' ' !in s && ')' !in s && '\n' !in s && '<' !in s
  {
  }

  lemma DecFree(n: nat)
    ensures ' ' !in Dec(n) && 's' !in Dec(n) && '\n' !in Dec(n)
  {
    DigitsAre(n, 10);
  }

  // ---- A route ----

  /** What a line of the routes tells. */
  datatype Seen = Seen(address: seq<Group>, length: nat, nextHop: seq<Group>, lifetime: nat)

  function SeenOf(r: Route): Seen {
    Seen(GroupsOf(r.address), r.length as nat, GroupsOf(r.nextHop), r.lifetime)
  }

  /** "<address>/<length> (via <next hop>) <lifetime>s". */
  function ReadRoute(line: string): Option<Seen> {
    match Cut(line, '/')
    case None => None
    case Some((address, r1)) =>
      match Cut(r1, ' ')
      case None => None
      case Some((length, r2)) =>
        if !("(via " <= r2) then None
        else
          match Cut(r2[5..], ')')
          case None => None
          case Some((nextHop, r3)) =>
            if r3 == "" || r3[0] != ' ' || r3[|r3| - 1] != 's' then None
            else
              match (Parse(address), ReadDec(length), Parse(nextHop), ReadDec(r3[1..|r3| - 1]))
              case (Some(a), Some(l), Some(n), Some(t)) => Some(Seen(a, l, n, t))
              case _ => None
  }

  /** A line of the routes without its newline. */
  function RouteText(r: Route): string {
    Text(GroupsOf(r.address)) + "/" + Dec(r.length as nat) + " (via " + Text(GroupsOf(r.nextHop)) + ") "
    + Dec(r.lifetime) + "s"
  }

  lemma RouteLineIs(r: Route)
    ensures RouteLine(r) == RouteText(r) + "\n"
    ensures '\n' !in RouteText(r) && RouteText(r) != End()[0]
  {
    hide Text, Dec;
    var a, n := Text(GroupsOf(r.address)), Text(GroupsOf(r.nextHop));
    TextChars(GroupsOf(r.address));
    TextChars(GroupsOf(r.nextHop));
    AddressFree(a);
    AddressFree(n);
    DecFree(r.length as nat);
    DecFree(r.lifetime);
    RouteShape(a, Dec(r.length as nat), n, Dec(r.lifetime));
    EndIs();
  }

  lemma RouteShape(a: string, l: string, n: string, t: string)
    ensures a + ("/" + l + " (via ") + n + (") " + t + "s\n")
         == a + "/" + l + " (via " + n + ") " + t + "s" + "\n"
    ensures '<' !in a ==> (a + "/" + l + " (via " + n + ") " + t + "s")[0] != '<'
  {
    assert "s\n" == "s" + "\n";
  }

  lemma RoutePieces(a: string, l: string, n: string, t: string)
    requires '/' !in a && ' ' !in l && ')' !in n
    ensures var line := a + "/" + l + " (via " + n + ") " + t + "s";
            var r1, r2, r3 := l + " (via " + n + ") " + t + "s", "(via " + n + ") " + t + "s", " " + t + "s";
            && Cut(line, '/') == Some((a, r1)) && Cut(r1, ' ') == Some((l, r2))
            && "(via " <= r2 && Cut(r2[5..], ')') == Some((n, r3))
            && r3[0] == ' ' && r3[|r3| - 1] == 's' && r3[1..|r3| - 1] == t
  {
    var r3 := " " + t + "s";
    var r2 := "(via " + n + ") " + t + "s";
    var r1 := l + " (via " + n + ") " + t + "s";
    assert r2[5..] == n + [')'] + r3;
    CutAt(n, ')', r3);
    assert r1 == l + [' '] + r2;
    CutAt(l, ' ', r2);
    assert a + "/" + l + " (via " + n + ") " + t + "s" == a + ['/'] + r1;
    CutAt(a, '/', r1);
  }

  /** A route's line gives the route back. */
  lemma RouteRead(r: Route)
    ensures ReadRoute(RouteText(r)) == Some(SeenOf(r))
  {
    hide Text, Dec, Parse, ReadDec, Cut;
    var a, n := GroupsOf(r.address), GroupsOf(r.nextHop);
    TextChars(a);
    TextChars(n);
    AddressFree(Text(a));
    AddressFree(Text(n));
    DecFree(r.length as nat);
    RoutePieces(Text(a), Dec(r.length as nat), Text(n), Dec(r.lifetime));
    TextRoundTrip(a);
    TextRoundTrip(n);
    DecRead(r.length as nat);
    DecRead(r.lifetime);
  }

  // ---- The whole page ----

  /** Neighbours up to the heading of the routes, and the lines after it. */
  function ReadNeighbours(lines: seq<string>): Option<(seq<seq<Group>>, seq<string>)> {
    if lines == [] then None
    else if lines[0] == "</pre>Routes<pre>" then Some(([], lines[1..]))
    else
      match (Parse(lines[0]), ReadNeighbours(lines[1..]))
      case (Some(gs), Some((more, rest))) => Some(([gs] + more, rest))
      case _ => None
  }

  /** Routes up to the end of the page. */
  function ReadRoutes(lines: seq<string>): Option<seq<Seen>> {
    if lines == End() then Some([])
    else if lines == [] then None
    else
      match (ReadRoute(lines[0]), ReadRoutes(lines[1..]))
      case (Some(r), Some(more)) => Some([r] + more)
      case _ => None
  }

  const TITLE := "<html><head><title>" + "ContikiRPL" + "</title></head><body>"
  const HEADING := "Neighbors<pre>"

  /** The neighbours and the routes on a page. */
  function ReadPage(page: string): Option<(seq<seq<Group>>, seq<Seen>)> {
    var lines := SplitLines(page);
    if |lines| < 2 || lines[0] != TITLE || !(HEADING <= lines[1]) then None
    else
      match ReadNeighbours([lines[1][|HEADING|..]] + lines[2..])
      case None => None
      case Some((nbrs, rest)) =>
        match ReadRoutes(rest)
        case None => None
        case Some(routes) => Some((nbrs, routes))
  }

  function GroupsOfAll(nbrs: seq<Address>): (r: seq<seq<Group>>)
    ensures |r| == |nbrs| && forall i :: 0 <= i < |nbrs| ==> r[i] == GroupsOf(nbrs[i])
  {
    seq(|nbrs|, i requires 0 <= i < |nbrs| => GroupsOf(nbrs[i]))
  }

  function SeenOfAll(routes: seq<Route>): (r: seq<Seen>)
    ensures |r| == |routes| && forall i :: 0 <= i < |routes| ==> r[i] == SeenOf(routes[i])
  {
    seq(|routes|, i requires 0 <= i < |routes| => SeenOf(routes[i]))
  }

  function TextsOf(nbrs: seq<Address>): (r: seq<string>)
    ensures |r| == |nbrs|
  {
    seq(|nbrs|, i requires 0 <= i < |nbrs| => Text(GroupsOf(nbrs[i])))
  }

  function RouteTexts(routes: seq<Route>): (r: seq<string>)
    ensures |r| == |routes|
  {
    seq(|routes|, i requires 0 <= i < |routes| => RouteText(routes[i]))
  }

  lemma {:induction false} SplitNeighbours(nbrs: seq<Address>, tail: string)
    ensures SplitLines(NeighbourLines(nbrs) + tail) == TextsOf(nbrs) + SplitLines(tail)
  {
    hide Text, SplitLines;
    if nbrs == [] {
      assert "" + tail == tail;
    } else {
      var front, last := nbrs[..|nbrs| - 1], Text(GroupsOf(nbrs[|nbrs| - 1]));
      TextChars(GroupsOf(nbrs[|nbrs| - 1]));
      AddressFree(last);
      SplitCons(last, tail);
      SplitNeighbours(front, last + "\n" + tail);
      assert NeighbourLines(nbrs) + tail == NeighbourLines(front) + (last + "\n" + tail);
      assert TextsOf(nbrs) == TextsOf(front) + [last];
    }
  }

  lemma {:induction false} SplitRoutes(routes: seq<Route>, tail: string)
    ensures SplitLines(RouteLines(routes) + tail) == RouteTexts(routes) + SplitLines(tail)
  {
    hide RouteText, RouteLine, SplitLines, RouteTexts;
    if routes == [] {
      assert RouteTexts(routes) == [];
      assert "" + tail == tail;
    } else {
      var front, last := routes[..|routes| - 1], RouteText(routes[|routes| - 1]);
      RouteLineIs(routes[|routes| - 1]);
      SplitCons(last, tail);
      SplitRoutes(front, last + "\n" + tail);
      AppendTwo(RouteLines(front), last + "\n", tail);
      LastRoute(routes);
    }
  }

  lemma LastRoute(routes: seq<Route>)
    requires routes != []
    ensures var front := routes[..|routes| - 1];
            RouteTexts(routes) == RouteTexts(front) + [RouteText(routes[|routes| - 1])]
  {
    hide RouteText;
  }

  /** The page, line by line. */
  lemma PageLines(nbrs: seq<Address>, routes: seq<Route>)
    ensures var body := TextsOf(nbrs) + ["</pre>Routes<pre>"] + (RouteTexts(routes) + End());
            SplitLines(PageText(nbrs, routes)) == [TITLE, HEADING + body[0]] + body[1..]
  {
    hide SplitLines, NeighbourLines, RouteLines, TextsOf, RouteTexts, PageText, End;
    var tail := RoutesHead() + (RouteLines(routes) + (RoutesTail() + Bottom()));
    var body := BodyLines(nbrs, routes);
    SplitPrefix(HEADING, NeighbourLines(nbrs) + tail);
    TitleIsOneLine();
    SplitCons(TITLE, HEADING + (NeighbourLines(nbrs) + tail));
    PageShape(nbrs, routes);
  }

  lemma BodyLines(nbrs: seq<Address>, routes: seq<Route>) returns (body: seq<string>)
    ensures body == TextsOf(nbrs) + ["</pre>Routes<pre>"] + (RouteTexts(routes) + End())
    ensures var tail := RoutesHead() + (RouteLines(routes) + (RoutesTail() + Bottom()));
            SplitLines(NeighbourLines(nbrs) + tail) == body
  {
    hide SplitLines, NeighbourLines, RouteLines, TextsOf, RouteTexts, End;
    var bottom := RoutesTail() + Bottom();
    var tail := RoutesHead() + (RouteLines(routes) + bottom);
    BottomLines();
    SplitRoutes(routes, bottom);
    HeadLine(RouteLines(routes) + bottom);
    SplitNeighbours(nbrs, tail);
    body := TextsOf(nbrs) + ["</pre>Routes<pre>"] + (RouteTexts(routes) + End());
  }

  lemma BottomLines()
    ensures SplitLines(RoutesTail() + Bottom()) == End()
  {
    hide SplitLines;
    SplitCons("</pre></body></html>", "");
    assert RoutesTail() + Bottom() == "</pre></body></html>" + "\n" + "";
    NoLine();
  }

  lemma HeadLine(rest: string)
    ensures SplitLines(RoutesHead() + rest) == ["</pre>Routes<pre>"] + SplitLines(rest)
  {
    hide SplitLines;
    SplitCons("</pre>Routes<pre>", rest);
    assert RoutesHead() == "</pre>Routes<pre>" + "\n";
  }

  lemma TitleIsOneLine()
    ensures '\n' !in TITLE && '\n' !in HEADING
  {
    TitleParts();
    OneLine("<html><head><title>", "ContikiRPL", "</title></head><body>");
  }

  lemma TitleParts()
    ensures TITLE == "<html><head><title>" + "ContikiRPL" + "</title></head><body>"
  {
  }

  lemma OneLine(a: string, b: string, c: string)
    requires '\n' !in a && '\n' !in b && '\n' !in c
    ensures '\n' !in a + b + c
  {
  }

  lemma NoLine()
    ensures SplitLines("") == [""]
  {
  }

  lemma PageShape(nbrs: seq<Address>, routes: seq<Route>)
    ensures var tail := RoutesHead() + (RouteLines(routes) + (RoutesTail() + Bottom()));
            PageText(nbrs, routes) == TITLE + "\n" + (HEADING + (NeighbourLines(nbrs) + tail))
  {
    hide NeighbourLines, RouteLines, Top, RoutesHead, RoutesTail, Bottom, NeighboursHead;
    FirstParts();
    Regrouped(Top(), NeighboursHead(), NeighbourLines(nbrs), RoutesHead(), RouteLines(routes), RoutesTail(), Bottom());
  }

  lemma FirstParts()
    ensures Top() == TITLE + "\n" && NeighboursHead() == HEADING
  {
  }

  lemma Regrouped(a: string, b: string, c: string, d: string, e: string, f: string, g: string)
    ensures a + (b + c + d) + e + f + g == a + (b + (c + (d + (e + (f + g)))))
  {
  }

  lemma {:induction false} NeighboursRead(nbrs: seq<Address>, rest: seq<string>)
    ensures ReadNeighbours(TextsOf(nbrs) + ["</pre>Routes<pre>"] + rest)
         == Some((GroupsOfAll(nbrs), rest))
  {
    hide Text, Parse;
    var lines := TextsOf(nbrs) + ["</pre>Routes<pre>"] + rest;
    if nbrs == [] {
      assert lines == ["</pre>Routes<pre>"] + rest;
    } else {
      var gs := GroupsOf(nbrs[0]);
      NeighboursRead(nbrs[1..], rest);
      TextChars(gs);
      AddressFree(Text(gs));
      TextRoundTrip(gs);
      assert lines[0] == Text(gs);
      assert "</pre>Routes<pre>"[0] == '<';
      assert lines[1..] == TextsOf(nbrs[1..]) + ["</pre>Routes<pre>"] + rest;
      assert [gs] + GroupsOfAll(nbrs[1..]) == GroupsOfAll(nbrs);
    }
  }

  lemma {:induction false} RoutesRead(routes: seq<Route>)
    ensures ReadRoutes(RouteTexts(routes) + End()) == Some(SeenOfAll(routes))
  {
    hide RouteText, ReadRoute, SeenOf, SeenOfAll, RouteTexts, End, ReadRoutes;
    if routes == [] {
      assert RouteTexts(routes) + End() == End();
      AllRead(routes);
    } else {
      RoutesRead(routes[1..]);
      RouteRead(routes[0]);
      RouteLineIs(routes[0]);
      RouteTextsNext(routes);
      assert [RouteText(routes[0])] + RouteTexts(routes[1..]) + End()
          == [RouteText(routes[0])] + (RouteTexts(routes[1..]) + End());
      OneRead(RouteText(routes[0]), RouteTexts(routes[1..]) + End());
    }
  }

  lemma AllRead(routes: seq<Route>)
    requires routes == []
    ensures ReadRoutes(End()) == Some([]) && SeenOfAll(routes) == []
  {
  }

  lemma OneRead(line: string, rest: seq<string>)
    requires line != End()[0] && ReadRoute(line).Some? && ReadRoutes(rest).Some?
    ensures ReadRoutes([line] + rest) == Some([ReadRoute(line).value] + ReadRoutes(rest).value)
  {
    hide ReadRoute, End;
    var lines := [line] + rest;
    assert lines[0] == line && lines[1..] == rest;
  }

  /** The last line of the page and the nothing behind it. */
  function End(): (r: seq<string>)
    ensures |r| == 2
  {
    ["</pre></body></html>", ""]
  }

  lemma EndIs()
    ensures |End()| == 2 && End()[0] != "" && End()[0][0] == '<'
  {
  }

  lemma RouteTextsNext(routes: seq<Route>)
    requires routes != []
    ensures RouteTexts(routes) == [RouteText(routes[0])] + RouteTexts(routes[1..])
    ensures SeenOfAll(routes) == [SeenOf(routes[0])] + SeenOfAll(routes[1..])
  {
    hide RouteText, SeenOf;
  }

  /** The page gives back all neighbours and all routes, each where it belongs. */
  lemma PageRead(nbrs: seq<Address>, routes: seq<Route>)
    ensures ReadPage(PageText(nbrs, routes)) == Some((GroupsOfAll(nbrs), SeenOfAll(routes)))
  {
    hide SplitLines, ReadNeighbours, ReadRoutes, PageText, GroupsOfAll, SeenOfAll, TextsOf, RouteTexts, End;
    PageLines(nbrs, routes);
    var rest := RouteTexts(routes) + End();
    var body := TextsOf(nbrs) + ["</pre>Routes<pre>"] + rest;
    NeighboursRead(nbrs, rest);
    RoutesRead(routes);
    var lines := SplitLines(PageText(nbrs, routes));
    assert lines[1][|HEADING|..] == body[0];
    assert [lines[1][|HEADING|..]] + lines[2..] == body;
  }
}
