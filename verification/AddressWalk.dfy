/** The addresses of the pseudorandom memory walk (attestation_lib.c). */
module AddressWalk {
  import opened Words
  import opened Generator

  const LOWEST := 16384
  const HIGHEST := 65504

  predicate InRange(a: nat) {
    LOWEST <= a <= HIGHEST
  }

  /** The address spelled by the next three bytes, of which the last gives one bit, and the state after them. */
  function Drawn(st: State): (r: (nat, State))
    requires Sized(st)
    ensures r.0 < 0x2_0000 && Sized(r.1)
  {
    var s1 := NextState(st);
    var s2 := NextState(s1);
    (Spelled(NextByte(st), NextByte(s1), NextByte(s2)), NextState(s2))
  }

  /** Two bytes, shifted by one to make room for a bit of the third. */
  function Spelled(x: uint8, y: uint8, z: uint8): (a: nat)
    ensures a < 0x2_0000
  {
    (x as nat * 256 + y as nat) * 2 + z as nat % 2
  }

  /**
   `next_addr`, with at most `fuel` calls nested. The results of the inner calls are dropped: they only
   move the generator on.
   */
  function NextAddr(st: State, fuel: nat): (r: Option<(nat, State)>)
    requires Sized(st)
    ensures r.Some? ==> r.value.0 < 0x2_0000 && Sized(r.value.1)
    decreases fuel
  {
    if fuel == 0 then None
    else
      var (a, drawn) := Drawn(st);
      match (if a < LOWEST then Moved(NextAddr(drawn, fuel - 1)) else Some(drawn))
      case None => None
      case Some(s) =>
        match (if a > HIGHEST then Moved(NextAddr(s, fuel - 1)) else Some(s))
        case None => None
        case Some(last) => Some((a, last))
  }

  function Moved(r: Option<(nat, State)>): (s: Option<State>)
    requires r.Some? ==> Sized(r.value.1)
    ensures s.Some? ==> Sized(s.value)
  {
    if r.Some? then Some(r.value.1) else None
  }

  /** The state after `k` addresses have been drawn and rejected. */
  function Redrawn(st: State, k: nat): (r: State)
    requires Sized(st)
    ensures Sized(r)
    decreases k
  {
    if k == 0 then st else Redrawn(Drawn(st).1, k - 1)
  }

  /**
   What `next_addr` gives: always the first address drawn, in range or not. The generator ends up behind
   the first address in range.
   */
  lemma {:induction false} FirstIsReturned(st: State, fuel: nat, k: nat)
    requires Sized(st) && k < fuel && InRange(Drawn(Redrawn(st, k)).0)
    requires forall i :: 0 <= i < k ==> !InRange(Drawn(Redrawn(st, i)).0)
    ensures NextAddr(st, fuel) == Some((Drawn(st).0, Drawn(Redrawn(st, k)).1))
    decreases fuel
  {
    hide Drawn;
    assert Redrawn(st, 0) == st;
    if k != 0 {
      var drawn := Drawn(st).1;
      forall i | 0 <= i < k - 1 ensures !InRange(Drawn(Redrawn(drawn, i)).0) {
        assert !InRange(Drawn(Redrawn(st, i + 1)).0);
      }
      assert !InRange(Drawn(Redrawn(st, 0)).0);
      FirstIsReturned(drawn, fuel - 1, k - 1);
    }
  }

  lemma {:induction false} NeverInRange(st: State, fuel: nat)
    requires Sized(st) && forall i :: 0 <= i < fuel ==> !InRange(Drawn(Redrawn(st, i)).0)
    ensures NextAddr(st, fuel) == None
    decreases fuel
  {
    hide Drawn;
    assert Redrawn(st, 0) == st;
    if fuel != 0 {
      var drawn := Drawn(st).1;
      forall i | 0 <= i < fuel - 1 ensures !InRange(Drawn(Redrawn(drawn, i)).0) {
        assert !InRange(Drawn(Redrawn(st, i + 1)).0);
      }
      assert !InRange(Drawn(Redrawn(st, 0)).0);
      NeverInRange(drawn, fuel - 1);
    }
  }

  lemma {:induction false} FirstInRange(st: State, fuel: nat) returns (k: nat)
    requires Sized(st)
    ensures k <= fuel && (k < fuel ==> InRange(Drawn(Redrawn(st, k)).0))
    ensures forall i :: 0 <= i < k ==> !InRange(Drawn(Redrawn(st, i)).0)
  {
    hide Drawn, InRange;
    if fuel == 0 {
      k := 0;
    } else {
      k := FirstInRange(st, fuel - 1);
      if k == fuel - 1 && !InRange(Drawn(Redrawn(st, k)).0) {
        k := fuel;
      }
    }
  }

  /**
   The call ends within `fuel` nested calls exactly if one of the first `fuel` addresses drawn is in
   range; and the address it gives is in range exactly if the first one drawn is.
   */
  lemma NextAddrExactly(st: State, fuel: nat)
    requires Sized(st)
    ensures NextAddr(st, fuel).Some? <==> exists k :: 0 <= k < fuel && InRange(Drawn(Redrawn(st, k)).0)
    ensures NextAddr(st, fuel).Some? ==>
              (16384 <= NextAddr(st, fuel).value.0 <= 65504 <==> InRange(Drawn(st).0))
  {
    hide Drawn, NextAddr;
    var k := FirstInRange(st, fuel);
    if k < fuel {
      FirstIsReturned(st, fuel, k);
    } else {
      NeverInRange(st, fuel);
    }
  }

  /** More nested calls change nothing once the call ends. */
  lemma FuelDoesNotMatter(st: State, fuel: nat, more: nat)
    requires Sized(st) && fuel <= more && NextAddr(st, fuel).Some?
    ensures NextAddr(st, more) == NextAddr(st, fuel)
  {
    hide Drawn, InRange, NextAddr;
    var k := FirstInRange(st, fuel);
    if k < fuel {
      FirstIsReturned(st, fuel, k);
      FirstIsReturned(st, more, k);
    } else {
      NeverInRange(st, fuel);
    }
  }

  /** An address holds two bytes and one bit of the generator, highest first, and costs three calls. */
  lemma DrawnHoldsBytes(st: State)
    requires Sized(st)
    ensures Drawn(st).0 / 512 == NextByte(st) as nat
    ensures Drawn(st).0 / 2 % 256 == NextByte(After(st, 1)) as nat
    ensures Drawn(st).0 % 2 == NextByte(After(st, 2)) as nat % 2
    ensures Drawn(st).1 == After(st, 3)
  {
    hide NextState, NextByte, After, Sized, Spelled;
    ThreeCalls(st);
    BytesOfAddress(NextByte(st), NextByte(After(st, 1)), NextByte(After(st, 2)));
  }

  lemma ThreeCalls(st: State)
    requires Sized(st)
    ensures After(st, 1) == NextState(st)
    ensures After(st, 2) == NextState(NextState(st))
    ensures After(st, 3) == NextState(NextState(NextState(st)))
  {
    hide NextState, Sized;
    assert After(st, 0) == st;
  }

  lemma BytesOfAddress(x: uint8, y: uint8, z: uint8)
    ensures var a := Spelled(x, y, z);
            a / 512 == x as nat && a / 2 % 256 == y as nat && a % 2 == z as nat % 2
  {
  }

  /** The addresses of `n` calls in turn. */
  function Addresses(st: State, n: nat, fuel: nat): (r: Option<(seq<nat>, State)>)
    requires Sized(st)
    ensures r.Some? ==> |r.value.0| == n && Sized(r.value.1) && forall a :: a in r.value.0 ==> a < 0x2_0000
  {
    if n == 0 then Some(([], st))
    else
      match Addresses(st, n - 1, fuel)
      case None => None
      case Some((before, s)) =>
        match NextAddr(s, fuel)
        case None => None
        case Some((a, last)) => Some((before + [a], last))
  }

  lemma {:induction false} AddressesStop(st: State, k: nat, n: nat, fuel: nat)
    requires Sized(st) && k <= n && Addresses(st, k, fuel).None?
    ensures Addresses(st, n, fuel).None?
  {
    hide NextAddr;
    if k != n {
      AddressesStop(st, k, n - 1, fuel);
    }
  }

  /** The four bytes of a nonce, highest first. */
  function NonceBytes(nonce: nat): (key: seq<uint8>)
    requires nonce < 0x1_0000_0000
    ensures |key| == 4
  {
    [ToByte(nonce / 0x100_0000), ToByte(nonce / 0x1_0000), ToByte(nonce / 0x100), ToByte(nonce)]
  }

  /** The nonce is read back from its bytes. */
  lemma NonceRead(nonce: nat)
    requires nonce < 0x1_0000_0000
    ensures var k := NonceBytes(nonce);
            ((k[0] as nat * 256 + k[1] as nat) * 256 + k[2] as nat) * 256 + k[3] as nat == nonce
  {
    var a, b := nonce / 0x100, nonce / 0x1_0000;
    assert a / 0x100 == b && b / 0x100 == nonce / 0x100_0000;
  }

  /** Different nonces give different tables at the latest after four rounds of the key schedule. */
  lemma NoncesDiffer(nonce1: nat, nonce2: nat) returns (k: nat)
    requires nonce1 < 0x1_0000_0000 && nonce2 < 0x1_0000_0000 && nonce1 != nonce2
    ensures k < 4 && Schedule(NonceBytes(nonce1), k + 1).1 != Schedule(NonceBytes(nonce2), k + 1).1
  {
    hide NonceBytes, Schedule;
    var x, y := NonceBytes(nonce1), NonceBytes(nonce2);
    NonceRead(nonce1);
    NonceRead(nonce2);
    k := if x[0] != y[0] then 0 else if x[1] != y[1] then 1 else if x[2] != y[2] then 2 else 3;
    assert x[..k] == y[..k];
    KeySensitive(x, y, k);
  }

  /** The generator's state when the walk begins: a new table from the nonce, and 256 bytes discarded. */
  function Ready(st: State, nonce: nat): (r: State)
    requires Sized(st) && nonce < 0x1_0000_0000
    ensures Sized(r)
  {
    After(st.(s := Schedule(NonceBytes(nonce), 256).1), 256)
  }

  /** The discarded bytes bring the first index back to where it was. */
  lemma DiscardsOneRound(st: State, nonce: nat)
    requires Sized(st) && nonce < 0x1_0000_0000
    ensures Ready(st, nonce).i == st.i
  {
    hide Schedule, NonceBytes, After;
    CallsCounted(st.(s := Schedule(NonceBytes(nonce), 256).1), 256);
    FullCircle(st.i);
  }

  lemma FullCircle(i: nat)
    requires i < 256
    ensures (i + 256) % 256 == i
  {
  }

  // ---- The program ----

  /** The first part of `next_addr`: two bytes and a bit. */
  method DrawAddress(g: Rc4) returns (addr: uint32)
    requires g.Valid()
    modifies g`i, g`j, g.s
    ensures g.Valid() && (addr as nat, g.Abs()) == Drawn(old(g.Abs()))
  {
    hide NextState, NextByte, Spelled, Sized;
    var x := g.Next();
    addr := x as uint32;
    addr := addr * 256;
    var y := g.Next();
    addr := addr + y as uint32;
    addr := addr * 2;
    var z := g.Next();
    addr := addr + z as uint32 % 2;
    SpelledIs(x, y, z);
  }

  lemma SpelledIs(x: uint8, y: uint8, z: uint8)
    ensures Spelled(x, y, z) == (x as nat * 256 + y as nat) * 2 + z as nat % 2
  {
  }

  method NextAddress(g: Rc4, fuel: nat) returns (r: Option<nat>)
    requires g.Valid()
    modifies g`i, g`j, g.s
    ensures g.Valid()
    ensures match NextAddr(old(g.Abs()), fuel)
            case None => r == None
            case Some((a, st)) => r == Some(a) && g.Abs() == st
    decreases fuel
  {
    hide NextState, NextByte, Spelled, Sized;
    if fuel == 0 { return None; }
    ghost var start := g.Abs();
    var addr := DrawAddress(g);
    if addr < LOWEST as uint32 {
      var inner := NextAddress(g, fuel - 1);
      if inner.None? { return None; }
    }
    if addr > HIGHEST as uint32 {
      var inner := NextAddress(g, fuel - 1);
      if inner.None? { return None; }
    }
    return Some(addr as nat);
  }

  /** `rc4_init` with the nonce, then the bytes that are thrown away. */
  method Prepare(g: Rc4, nonce: nat)
    requires g.Valid() && nonce < 0x1_0000_0000
    modifies g`i, g`j, g.s
    ensures g.Valid() && g.Abs() == Ready(old(g.Abs()), nonce)
  {
    hide NextState;
    g.Init(NonceBytes(nonce));
    ghost var start := g.Abs();
    var i := 0;
    while i < 256
      invariant 0 <= i <= 256 && g.Valid() && g.Abs() == After(start, i)
    {
      var _ := g.Next();
      i := i + 1;
    }
  }
}
