/**
 IPv6 addresses as text: what `ipaddr_add` prints (border-router-server/border-router.c) and how
 section 2.2 of RFC 4291 reads it.
 */
module AddressText {
  import opened Words

  /** One 16-bit piece of an address. */
  type Group = x: int | 0 <= x < 0x1_0000

  // ---- Numbers in a base ----

  function DigitChar(d: nat): (c: char)
    requires d < 16
    ensures c != ':' && c != '\0' && c < 128 as char
  {
    "0123456789abcdef"[d]
  }

  /** `%x` for base 16, `%u` for base 10. */
  function Digits(n: nat, base: nat): (s: string)
    requires 2 <= base <= 16
    ensures s != [] && ':' !in s && '\0' !in s
    decreases n
  {
    if n < base then [DigitChar(n)] else Digits(n / base, base) + [DigitChar(n % base)]
  }

  function Hex(n: nat): (s: string)
    ensures s != [] && ':' !in s && '\0' !in s
  {
    Digits(n, 16)
  }

  /** The value of a hexadecimal digit of either case, 16 for any other character. */
  function DigitValue(c: char): (v: nat)
    ensures v <= 16
  {
    if '0' <= c <= '9' then (c - '0') as nat
    else if 'a' <= c <= 'f' then (c - 'a') as nat + 10
    else if 'A' <= c <= 'F' then (c - 'A') as nat + 10
    else 16
  }

  predicate AllDigits(s: string) {
    forall i :: 0 <= i < |s| ==> DigitValue(s[i]) < 16
  }

  function HexValue(s: string): nat
  {
    if s == "" then 0 else HexValue(s[..|s| - 1]) * 16 + DigitValue(s[|s| - 1])
  }

  lemma DigitRead(d: nat)
    requires d < 16
    ensures DigitValue(DigitChar(d)) == d
  {
  }

  /** A digit of the base, in lower case. */
  predicate LowerDigit(c: char, base: nat) {
    DigitValue(c) < base && ('0' <= c <= '9' || 'a' <= c <= 'f')
  }

  /** Printed digits are lower case and below the base. */
  lemma {:induction false} DigitsAre(n: nat, base: nat)
    requires 2 <= base <= 16
    ensures forall c :: c in Digits(n, base) ==> LowerDigit(c, base)
    decreases n
  {
    hide LowerDigit, DigitChar;
    if n >= base {
      DigitIs(n % base, base);
      DigitsAre(n / base, base);
    } else {
      DigitIs(n, base);
    }
  }

  lemma DigitIs(d: nat, base: nat)
    requires d < base <= 16
    ensures LowerDigit(DigitChar(d), base)
    ensures DigitChar(d) == '0' <==> d == 0
  {
  }

  /** Only 0 is printed with a leading zero. */
  lemma {:induction false} NoLeadingZero(n: nat, base: nat)
    requires 2 <= base <= 16
    ensures Digits(n, base)[0] == '0' <==> n == 0
    decreases n
  {
    hide DigitChar;
    if n < base {
      DigitIs(n, base);
    } else {
      NoLeadingZero(n / base, base);
    }
  }

  /** Reading back a printed number. */
  lemma {:induction false} HexRead(n: nat)
    ensures AllDigits(Hex(n)) && HexValue(Hex(n)) == n
    decreases n
  {
    DigitRead(n % 16);
    if n < 16 {
      assert HexValue("") == 0;
    } else {
      HexRead(n / 16);
    }
  }

  function Pow(base: nat, k: nat): nat {
    if k == 0 then 1 else base * Pow(base, k - 1)
  }

  /** A number below base^k has at most k digits. */
  lemma {:induction false} DigitsLength(n: nat, base: nat, k: nat)
    requires 2 <= base <= 16 && k >= 1 && n < Pow(base, k)
    ensures |Digits(n, base)| <= k
    decreases k
  {
    if n >= base {
      assert k > 1 by {
        assert Pow(base, 0) == 1;
        assert Pow(base, 1) == base;
      }
      QuotientBelow(n, base, Pow(base, k - 1));
      DigitsLength(n / base, base, k - 1);
    }
  }

  lemma QuotientBelow(n: nat, base: nat, p: nat)
    requires base > 0 && n < base * p
    ensures n / base < p
  {
  }

  lemma GroupLength(a: Group)
    ensures 1 <= |Hex(a)| <= 4
  {
    assert Pow(16, 2) == 256;
    assert Pow(16, 4) == 65536;
    DigitsLength(a, 16, 4);
  }

  // ---- What the printer should write ----

  /** Groups with a colon between neighbours. */
  function Join(gs: seq<Group>): string {
    if gs == [] then ""
    else if |gs| == 1 then Hex(gs[0])
    else Join(gs[..|gs| - 1]) + ":" + Hex(gs[|gs| - 1])
  }

  /** The index of the first zero group, or the length. */
  function FirstZero(gs: seq<Group>): (z: nat)
    ensures z <= |gs| && (z < |gs| ==> gs[z] == 0) && forall i :: 0 <= i < z ==> gs[i] != 0
  {
    if gs == [] || gs[0] == 0 then 0 else 1 + FirstZero(gs[1..])
  }

  /** The end of the run of zeroes that starts at `z`. */
  function RunEnd(gs: seq<Group>, z: nat): (e: nat)
    requires z <= |gs|
    ensures z <= e <= |gs| && (e < |gs| ==> gs[e] != 0) && forall i :: z <= i < e ==> gs[i] == 0
    decreases |gs| - z
  {
    if z == |gs| || gs[z] != 0 then z else RunEnd(gs, z + 1)
  }

  /** The text of an address: the first run of zero groups becomes "::". */
  function Text(gs: seq<Group>): string {
    var z := FirstZero(gs);
    if z == |gs| then Join(gs)
    else Join(gs[..z]) + "::" + Join(gs[RunEnd(gs, z)..])
  }

  /** The groups of sixteen address bytes. */
  function GroupsOf(bytes: seq<uint8>): (gs: seq<Group>)
    requires |bytes| == 16
    ensures |gs| == 8
    ensures forall k :: 0 <= k < 8 ==> gs[k] == bytes[2 * k] as int * 256 + bytes[2 * k + 1] as int
  {
    seq(8, k requires 0 <= k < 8 => bytes[2 * k] as int * 256 + bytes[2 * k + 1] as int)
  }

  lemma {:induction false} JoinLength(gs: seq<Group>)
    ensures gs != [] ==> |Join(gs)| <= 5 * |gs| - 1
    ensures gs == [] ==> Join(gs) == ""
  {
    if gs != [] {
      GroupLength(gs[|gs| - 1]);
      JoinLength(gs[..|gs| - 1]);
    }
  }

  /** A printed address has at most 39 characters. */
  lemma TextLength(gs: seq<Group>)
    requires |gs| == 8
    ensures |Text(gs)| <= 39
  {
    var z := FirstZero(gs);
    JoinLength(gs);
    if z < 8 {
      JoinLength(gs[..z]);
      JoinLength(gs[RunEnd(gs, z)..]);
    }
  }

  // ---- Reading: RFC 4291, section 2.2, forms 1 and 2 ----

  /** One group: one to four hexadecimal digits. */
  function ParseGroup(s: string): (r: Option<Group>)
  {
    if 1 <= |s| <= 4 && AllDigits(s) then
      HexValueBound(s);
      Some(HexValue(s))
    else None
  }

  lemma {:induction false} HexValueBound(s: string)
    requires AllDigits(s)
    ensures HexValue(s) < Pow(16, |s|)
    ensures |s| <= 4 ==> HexValue(s) < 0x1_0000
  {
    if s != "" {
      HexValueBound(s[..|s| - 1]);
    }
    assert Pow(16, 2) == 256;
    assert Pow(16, 4) == 65536;
    assert |s| <= 4 ==> |s| == 0 || |s| == 1 || |s| == 2 || |s| == 3 || |s| == 4;
  }

  /** The index of the last colon, or the length if there is none. */
  function LastColon(s: string): (k: nat)
    ensures k <= |s|
    ensures k < |s| ==> s[k] == ':'
    ensures forall i :: k < i < |s| ==> s[i] != ':'
    ensures k == |s| ==> ':' !in s
  {
    if s == "" then 0
    else if s[|s| - 1] == ':' then |s| - 1
    else
      assert s == s[..|s| - 1] + [s[|s| - 1]];
      var k := LastColon(s[..|s| - 1]);
      if k == |s| - 1 then |s| else k
  }

  /** The pieces between colons. */
  function Fields(s: string): seq<string>
    decreases |s|
  {
    var k := LastColon(s);
    if k == |s| then [s] else Fields(s[..k]) + [s[k + 1..]]
  }

  function ParseFields(fs: seq<string>): Option<seq<Group>>
  {
    if fs == [] then Some([])
    else
      match (ParseFields(fs[..|fs| - 1]), ParseGroup(fs[|fs| - 1]))
      case (Some(gs), Some(g)) => Some(gs + [g])
      case _ => None
  }

  /** The groups on one side of "::", possibly none. */
  function ParseSide(s: string): Option<seq<Group>> {
    if s == "" then Some([]) else ParseFields(Fields(s))
  }

  predicate DoubleColonAt(s: string, k: nat) {
    k + 1 < |s| && s[k] == ':' && s[k + 1] == ':'
  }

  /** The index of the first "::", or the length if there is none. */
  function DoubleColon(s: string, from: nat := 0): (k: nat)
    requires from <= |s|
    ensures from <= k <= |s|
    ensures k < |s| ==> DoubleColonAt(s, k)
    ensures forall i :: from <= i < k ==> !DoubleColonAt(s, i)
    decreases |s| - from
  {
    if from == |s| then |s|
    else if DoubleColonAt(s, from) then from
    else DoubleColon(s, from + 1)
  }

  function Zeroes(n: nat): (gs: seq<Group>)
    ensures |gs| == n && forall i :: 0 <= i < n ==> gs[i] == 0
  {
    seq(n, _ => 0)
  }

  /**
   Reads an address: eight groups, or one "::" that stands for one or more groups of zeroes. A second
   "::" leaves an empty field on the right, which no group matches.
   */
  function Parse(s: string): Option<seq<Group>> {
    var k := DoubleColon(s);
    if k == |s| then
      match ParseFields(Fields(s))
      case Some(gs) => if |gs| == 8 then Some(gs) else None
      case None => None
    else
      match (ParseSide(s[..k]), ParseSide(s[k + 2..]))
      case (Some(l), Some(r)) =>
        if |l| + |r| <= 7 then Some(l + Zeroes(8 - |l| - |r|) + r) else None
      case _ => None
  }

  // ---- Round trip ----

  lemma GroupRead(a: Group)
    ensures ParseGroup(Hex(a)) == Some(a)
  {
    HexRead(a);
    GroupLength(a);
  }

  lemma {:induction false} LastColonAt(s: string, h: string)
    requires ':' !in h
    ensures LastColon(s + ":" + h) == |s|
    decreases |h|
  {
    var t := s + ":" + h;
    if h != "" {
      LastColonAt(s, h[..|h| - 1]);
      assert t[..|t| - 1] == s + ":" + h[..|h| - 1];
      assert t[|t| - 1] == h[|h| - 1];
    } else {
      assert t[|t| - 1] == ':';
    }
  }

  lemma OneField(h: string)
    requires ':' !in h
    ensures Fields(h) == [h]
  {
  }

  lemma FieldsSnoc(s: string, h: string)
    requires ':' !in h
    ensures Fields(s + ":" + h) == Fields(s) + [h]
  {
    var t := s + ":" + h;
    LastColonAt(s, h);
    assert t[..|s|] == s && t[|s| + 1..] == h;
  }

  lemma ParseOneField(h: string)
    requires ParseGroup(h).Some?
    ensures ParseFields([h]) == Some([ParseGroup(h).value])
  {
    hide ParseGroup;
    ParseSnoc([], h);
    assert [] + [h] == [h];
    assert ParseFields([]).value + [ParseGroup(h).value] == [ParseGroup(h).value];
  }

  lemma ParseSnoc(fs: seq<string>, h: string)
    requires ParseFields(fs).Some? && ParseGroup(h).Some?
    ensures ParseFields(fs + [h]) == Some(ParseFields(fs).value + [ParseGroup(h).value])
  {
    hide ParseGroup;
    assert (fs + [h])[..|fs|] == fs;
  }

  /** Joined groups are read back one by one. */
  lemma {:induction false} JoinRead(gs: seq<Group>)
    ensures ParseSide(Join(gs)) == Some(gs)
    ensures gs != [] ==> ParseFields(Fields(Join(gs))) == Some(gs) && Join(gs) != ""
  {
    hide Hex, ParseGroup, Fields, ParseFields, LastColon;
    if gs != [] {
      var front, a := gs[..|gs| - 1], gs[|gs| - 1];
      GroupRead(a);
      assert front + [a] == gs;
      if front == [] {
        OneField(Hex(a));
        ParseOneField(Hex(a));
        assert Join(gs) == Hex(a);
      } else {
        JoinRead(front);
        FieldsSnoc(Join(front), Hex(a));
        ParseSnoc(Fields(Join(front)), Hex(a));
      }
    }
  }

  /** Joined groups neither start nor end with a colon and contain no "::". */
  lemma {:induction false} JoinColons(gs: seq<Group>)
    requires gs != []
    ensures var s := Join(gs);
            && s != "" && s[0] != ':' && s[|s| - 1] != ':'
            && forall k: nat :: !DoubleColonAt(s, k)
  {
    var h := Hex(gs[|gs| - 1]);
    assert h[0] in h && h[|h| - 1] in h;
    assert forall k :: 0 <= k < |h| ==> h[k] in h;
    if |gs| > 1 {
      var front := gs[..|gs| - 1];
      JoinColons(front);
      var s := Join(gs);
      var f := Join(front);
      assert s == f + ":" + h;
      forall k: nat ensures !DoubleColonAt(s, k) {
        if k + 1 < |f| {
          assert !DoubleColonAt(f, k);
        } else if k > |f| && k < |s| {
          assert s[k] == h[k - |f| - 1];
        } else if k == |f| && k + 1 < |s| {
          assert s[k + 1] == h[0];
        }
      }
    }
  }

  /** Around one "::" there is no other. */
  lemma OneDoubleColon(a: seq<Group>, b: seq<Group>)
    ensures var s := Join(a) + "::" + Join(b);
            forall k: nat :: DoubleColonAt(s, k) <==> k == |Join(a)|
  {
    var l, r := Join(a), Join(b);
    var s := l + "::" + r;
    var n := |l|;
    if a != [] { JoinColons(a); }
    if b != [] { JoinColons(b); }
    assert s[n] == ':' && s[n + 1] == ':';
    forall k: nat ensures DoubleColonAt(s, k) <==> k == n {
      if k + 1 < n {
        assert !DoubleColonAt(l, k);
        assert s[k] == l[k] && s[k + 1] == l[k + 1];
      } else if k + 1 == n {
        assert s[k] == l[n - 1];
      } else if k == n + 1 && k + 1 < |s| {
        assert s[k + 1] == r[0];
      } else if k > n + 1 && k + 1 < |s| {
        assert !DoubleColonAt(r, k - n - 2);
        assert s[k] == r[k - n - 2] && s[k + 1] == r[k - n - 1];
      }
    }
  }

  /** The text holds "::" exactly once if some group is 0, in place of the first run of zeroes, and never otherwise. */
  lemma DoubleColonMarksFirstRun(gs: seq<Group>, k: nat)
    requires |gs| == 8
    ensures DoubleColonAt(Text(gs), k) <==> FirstZero(gs) < 8 && k == |Join(gs[..FirstZero(gs)])|
  {
    hide Join, DoubleColonAt;
    var z := FirstZero(gs);
    if z == 8 {
      JoinColons(gs);
      assert Text(gs) == Join(gs);
    } else {
      var l, r := gs[..z], gs[RunEnd(gs, z)..];
      OneDoubleColon(l, r);
      assert Text(gs) == Join(l) + "::" + Join(r);
    }
  }

  /** Every address is read back from its text. */
  lemma TextRoundTrip(gs: seq<Group>)
    requires |gs| == 8
    ensures Parse(Text(gs)) == Some(gs)
  {
    hide Join, Fields, ParseFields;
    var z := FirstZero(gs);
    var s := Text(gs);
    var k := DoubleColon(s);
    DoubleColonMarksFirstRun(gs, if k < |s| then k else |Join(gs[..z])|);
    if z == 8 {
      JoinRead(gs);
    } else {
      var e := RunEnd(gs, z);
      var l, r := Join(gs[..z]), Join(gs[e..]);
      assert s == l + "::" + r;
      assert k == |l|;
      assert s[..k] == l && s[k + 2..] == r;
      JoinRead(gs[..z]);
      JoinRead(gs[e..]);
      assert gs[..z] + Zeroes(e - z) + gs[e..] == gs;
    }
  }
}
