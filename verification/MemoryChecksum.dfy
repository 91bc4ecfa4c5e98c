/** The checksum over a pseudorandom memory walk (attestation_lib.c). */
module MemoryChecksum {
  import opened Words
  import opened Generator
  import opened AddressWalk

  const CHECKSUM_LENGTH := 8

  /** Accesses made by `attestation`. */
  const ACCESSES := 15

  /** What `read_byte_far` returns for each address. */
  type Memory = bv32 -> bv8

  /** One bit to the left; the bit that falls out comes back in at the right. */
  function RotateLeft(b: bv8): bv8 {
    (b << 1) + (b >> 7)
  }

  /** Addition of bytes, which wraps. */
  function Add(a: bv8, b: bv8): bv8 {
    a + b
  }

  /** The index two before `target`, computed in a `uint8_t`. */
  function Source(target: nat): nat {
    (target + 0x100 - 2) % 0x100 % CHECKSUM_LENGTH
  }

  /** The checksum byte updated at access `i`. */
  function Target(i: nat): nat {
    (5 * i) % CHECKSUM_LENGTH
  }

  function LowBits(a: bv32): bv8 {
    (a & 0xff) as bv8
  }

  /** What one access adds to the target byte. */
  function Mix(m: bv8, s: bv8, last: bv8): bv8 {
    (m ^ s) + last
  }

  /** One access: reads `m`, having come from address `last`. */
  function Update(c: seq<bv8>, target: nat, m: bv8, last: bv8): (r: seq<bv8>)
    requires |c| == CHECKSUM_LENGTH && target < CHECKSUM_LENGTH
    ensures |r| == CHECKSUM_LENGTH
  {
    c[target := RotateLeft(Add(c[target], Mix(m, c[Source(target)], last)))]
  }

  /** The address visited before access `i`; the first access has only itself. */
  function Previous(addrs: seq<bv32>, i: nat): bv32
    requires i < |addrs|
  {
    if i == 0 then addrs[0] else addrs[i - 1]
  }

  /** The checksum bytes after the first `n` accesses. */
  function Walk(mem: Memory, addrs: seq<bv32>, n: nat): (c: seq<bv8>)
    requires n <= |addrs|
    ensures |c| == CHECKSUM_LENGTH
  {
    if n == 0 then seq(CHECKSUM_LENGTH, _ => 0)
    else Update(Walk(mem, addrs, n - 1), Target(n - 1), mem(addrs[n - 1]), LowBits(Previous(addrs, n - 1)))
  }

  /** A word with one more byte at its low end. */
  function Append(w: bv64, b: bv8): bv64 {
    (w << 8) + (b as bv64)
  }

  /** The bytes as one word, first byte highest. */
  function Pack(c: seq<bv8>): bv64 {
    if c == [] then 0 else Append(Pack(c[..|c| - 1]), c[|c| - 1])
  }

  /** The result of `attestation` for a given memory and address walk. */
  function Attest(mem: Memory, addrs: seq<bv32>): bv64 {
    Pack(Walk(mem, addrs, |addrs|))
  }

  // ---- The loops ----

  method RotateInPlace(checksum: array<bv8>, target: nat)
    requires target < checksum.Length
    modifies checksum
    ensures checksum[..] == old(checksum[..])[target := RotateLeft(old(checksum[target]))]
  {
    var carry := checksum[target] >> 7;
    checksum[target] := checksum[target] << 1;
    checksum[target] := checksum[target] + carry;
  }

  /** The body of the access loop, for the byte `target`. */
  method UpdateByte(checksum: array<bv8>, target: nat, m: bv8, last: bv8)
    requires checksum.Length == CHECKSUM_LENGTH && target < CHECKSUM_LENGTH
    modifies checksum
    ensures checksum[..] == Update(old(checksum[..]), target, m, last)
  {
    hide Add, Mix, RotateLeft;
    var tmp := checksum[Source(target)];
    tmp := Mix(m, tmp, last);
    checksum[target] := Add(checksum[target], tmp);
    RotateInPlace(checksum, target);
  }

  /** The packing loop. */
  method PackBytes(checksum: array<bv8>) returns (result: bv64)
    requires checksum.Length == CHECKSUM_LENGTH
    ensures result == Pack(checksum[..])
  {
    result := 0;
    var i := 0;
    while i < CHECKSUM_LENGTH
      invariant 0 <= i <= CHECKSUM_LENGTH
      invariant result == Pack(checksum[..i])
    {
      assert checksum[..i + 1][..i] == checksum[..i];
      result := result << 8;
      result := result + (checksum[i] as bv64);
      i := i + 1;
    }
    assert checksum[..i] == checksum[..];
  }

  lemma WalkStarts(mem: Memory, addrs: seq<bv32>)
    ensures Walk(mem, addrs, 0) == seq(CHECKSUM_LENGTH, _ => 0)
  {
  }

  lemma TargetStarts()
    ensures Target(0) == 0
  {
  }

  lemma TargetNext(i: nat)
    ensures Target(i + 1) == (Target(i) + 5) % CHECKSUM_LENGTH && Target(i) < CHECKSUM_LENGTH
  {
  }

  /** The checksum bytes depend only on the addresses visited so far. */
  lemma {:induction false} WalkPrefix(mem: Memory, addrs: seq<bv32>, more: seq<bv32>, n: nat)
    requires n <= |addrs|
    ensures Walk(mem, addrs + more, n) == Walk(mem, addrs, n)
  {
    hide Update, LowBits;
    if n != 0 {
      WalkPrefix(mem, addrs, more, n - 1);
      assert Previous(addrs + more, n - 1) == Previous(addrs, n - 1);
    }
  }

  /** Addresses as `uint32_t` words. */
  function AsWords(addrs: seq<nat>): (r: seq<bv32>)
    requires forall a :: a in addrs ==> a < 0x2_0000
    ensures |r| == |addrs|
  {
    seq(|addrs|, k requires 0 <= k < |addrs| =>
      assert addrs[k] in addrs;
      AsWord(addrs[k]))
  }

  function AsWord(a: nat): bv32
    requires a < 0x2_0000
  {
    a as bv32
  }

  /** The addresses that are read for a nonce, from a generator in state `st`; the walk draws one more. */
  function Visited(st: State, nonce: nat, fuel: nat): (r: Option<seq<bv32>>)
    requires Sized(st) && nonce < 0x1_0000_0000
    ensures r.Some? ==> |r.value| == ACCESSES
  {
    match Addresses(Ready(st, nonce), ACCESSES + 1, fuel)
    case None => None
    case Some((addrs, _)) => Some(AsWords(addrs)[..ACCESSES])
  }

  /** One more address drawn. */
  lemma NextDrawn(st: State, n: nat, fuel: nat)
    requires Sized(st) && Addresses(st, n, fuel).Some?
    ensures var (addrs, s) := Addresses(st, n, fuel).value;
            match NextAddr(s, fuel)
            case None => Addresses(st, n + 1, fuel).None?
            case Some((a, last)) =>
              && a < 0x2_0000
              && Addresses(st, n + 1, fuel) == Some((addrs + [a], last))
              && AsWords(addrs + [a]) == AsWords(addrs) + [AsWord(a)]
  {
    hide NextAddr, AsWord;
  }

  /**
   `attestation`, with at most `fuel` nested calls of `next_addr`: the checksum of the memory along the
   addresses that the generator gives for the nonce, which do not depend on the memory.
   */
  method Attestation(g: Rc4, mem: Memory, nonce: nat, fuel: nat) returns (result: Option<bv64>)
    requires g.Valid() && nonce < 0x1_0000_0000
    modifies g`i, g`j, g.s
    ensures g.Valid()
    ensures match Visited(old(g.Abs()), nonce, fuel)
            case None => result == None
            case Some(addrs) => result == Some(Attest(mem, addrs))
  {
    hide Update, LowBits, Pack, Target, NextAddr, Addresses, AsWord, AsWords, Ready, Walk;
    ghost var st := Ready(g.Abs(), nonce);
    ghost var drawn: seq<nat> := [];
    Prepare(g, nonce);
    var checksum := new bv8[CHECKSUM_LENGTH](_ => 0);
    NoneDrawn(st, fuel);
    NextDrawn(st, 0, fuel);
    var next := NextAddress(g, fuel);
    if next.None? {
      AddressesStop(st, 1, ACCESSES + 1, fuel);
      return None;
    }
    drawn := [next.value];
    assert [] + [next.value] == drawn;
    var currentAddr, lastAddr := AsWord(next.value), AsWord(next.value);
    var byte := 0;
    var i := 0;
    TargetStarts();
    WalkStarts(mem, AsWords(drawn));
    while i < ACCESSES
      invariant 0 <= i <= ACCESSES && g.Valid()
      invariant byte == Target(i) < CHECKSUM_LENGTH
      invariant Addresses(st, i + 1, fuel) == Some((drawn, g.Abs())) && |AsWords(drawn)| == i + 1
      invariant currentAddr == AsWords(drawn)[i] && lastAddr == Previous(AsWords(drawn), i)
      invariant checksum[..] == Walk(mem, AsWords(drawn), i)
    {
      ghost var words := AsWords(drawn);
      UpdateByte(checksum, byte, mem(currentAddr), LowBits(lastAddr));
      WalkNext(mem, words, i);
      TargetNext(i);
      byte := (byte + 5) % CHECKSUM_LENGTH;
      NextDrawn(st, i + 1, fuel);
      next := NextAddress(g, fuel);
      if next.None? {
        AddressesStop(st, i + 2, ACCESSES + 1, fuel);
        return None;
      }
      i := i + 1;
      WalkPrefix(mem, words, [AsWord(next.value)], i);
      drawn := drawn + [next.value];
      lastAddr := currentAddr;
      currentAddr := AsWord(next.value);
    }
    ghost var words := AsWords(drawn);
    WalkPrefix(mem, words[..ACCESSES], words[ACCESSES..], ACCESSES);
    assert words == words[..ACCESSES] + words[ACCESSES..];
    var packed := PackBytes(checksum);
    return Some(packed);
  }

  lemma NoneDrawn(st: State, fuel: nat)
    requires Sized(st)
    ensures Addresses(st, 0, fuel) == Some(([], st)) && AsWords([]) == []
    ensures forall a | a < 0x2_0000 :: AsWords([a]) == [AsWord(a)]
  {
    hide AsWord;
  }

  lemma WalkNext(mem: Memory, addrs: seq<bv32>, n: nat)
    requires n < |addrs|
    ensures Walk(mem, addrs, n + 1)
         == Update(Walk(mem, addrs, n), Target(n), mem(addrs[n]), LowBits(Previous(addrs, n)))
    ensures Target(n) < CHECKSUM_LENGTH
  {
    hide Update, LowBits;
  }

  // ---- What the byte operations do ----

  /** One place to the left below the top bit, and back again after eight. */
  lemma RotateEight(b: bv8)
    ensures b < 0x80 ==> RotateLeft(b) == b << 1
    ensures RotateLeft(0x80) == 0x01
    ensures RotateLeft(RotateLeft(RotateLeft(RotateLeft(RotateLeft(RotateLeft(RotateLeft(RotateLeft(b)))))))) == b
  {
  }

  /** The byte read is XORed with the source byte, and then the low byte of the last address is added. */
  lemma MixUndone(m: bv8, s: bv8, last: bv8)
    ensures Mix(m, s, last) - last == m ^ s
    ensures Add(m, last) - last == m
  {
  }

  /**
   The first two accesses: the first takes its own address as the one before it, the second the first,
   and they write bytes 0 and 5.
   */
  lemma FirstTwoAccesses(mem: Memory, addrs: seq<bv32>)
    requires |addrs| >= 2
    ensures var x := RotateLeft(Add(0, Mix(mem(addrs[0]), 0, LowBits(addrs[0]))));
            var y := RotateLeft(Add(0, Mix(mem(addrs[1]), 0, LowBits(addrs[0]))));
            && Walk(mem, addrs, 1) == seq(8, _ => 0)[0 := x]
            && Walk(mem, addrs, 2) == seq(8, _ => 0)[0 := x][5 := y]
  {
    hide RotateLeft, Add, Mix, LowBits, Target, Source, Walk, Update;
    Indices();
    WalkStarts(mem, addrs);
    WalkNext(mem, addrs, 0);
    WalkNext(mem, addrs, 1);
    UpdateIs(seq(8, _ => 0), 0, mem(addrs[0]), LowBits(addrs[0]));
    UpdateIs(Walk(mem, addrs, 1), 5, mem(addrs[1]), LowBits(addrs[0]));
  }

  lemma UpdateIs(c: seq<bv8>, target: nat, m: bv8, last: bv8)
    requires |c| == 8 && target < 8
    ensures Source(target) < 8
    ensures Update(c, target, m, last)
         == c[target := RotateLeft(Add(c[target], Mix(m, c[Source(target)], last)))]
  {
    hide RotateLeft, Add, Mix;
  }

  lemma LowBitsAre(a: bv32)
    ensures ((a >> 8) << 8) | (LowBits(a) as bv32) == a
  {
  }

  /** The word without its `k` lowest bytes. */
  function DropBytes(w: bv64, k: nat): bv64 {
    if k == 0 then w else DropBytes(DropLow(w), k - 1)
  }

  function LowByteOf(w: bv64): bv8 {
    (w & 0xff) as bv8
  }

  /** Packing puts the first byte highest: byte `i` lies above the bytes that follow it. */
  lemma {:induction false} PackedBytes(c: seq<bv8>, i: nat)
    requires i < |c| <= CHECKSUM_LENGTH
    ensures LowByteOf(DropBytes(Pack(c), |c| - 1 - i)) == c[i]
  {
    hide Append, Fits, DropLow, LowByteOf;
    var n := |c| - 1;
    PackFits(c[..n]);
    FitsRoom(Pack(c[..n]), n);
    AppendUndone(Pack(c[..n]), c[n]);
    if i < n {
      PackedBytes(c[..n], i);
    }
  }

  /** The word shifted down until byte `i` from the top is the lowest. */
  function ShiftDown(w: bv64, i: nat): bv64 {
    match i
    case 0 => w >> 56
    case 1 => w >> 48
    case 2 => w >> 40
    case 3 => w >> 32
    case 4 => w >> 24
    case 5 => w >> 16
    case 6 => w >> 8
    case _ => w
  }

  lemma ShiftsDrop(w: bv64, i: nat)
    requires i < 8
    ensures ShiftDown(w, i) == DropBytes(w, 7 - i)
  {
    hide DropBytes;
    Shifts(w);
  }

  lemma Shifts(w: bv64)
    ensures DropBytes(w, 7) == w >> 56 && DropBytes(w, 6) == w >> 48 && DropBytes(w, 5) == w >> 40
    ensures DropBytes(w, 4) == w >> 32 && DropBytes(w, 3) == w >> 24 && DropBytes(w, 2) == w >> 16
    ensures DropBytes(w, 1) == w >> 8 && DropBytes(w, 0) == w
  {
  }

  /** Byte `i` of the result is found 56 - 8i bits up. */
  lemma ResultBytes(c: seq<bv8>, i: nat)
    requires |c| == 8 && i < 8
    ensures LowByteOf(ShiftDown(Pack(c), i)) == c[i]
  {
    hide Pack, LowByteOf, DropBytes, ShiftDown;
    ShiftsDrop(Pack(c), i);
    PackedBytes(c, i);
  }

  // ---- Each step is injective ----

  /** The byte read is never the byte written. */
  lemma SourceIsNotTarget(target: nat)
    requires target < CHECKSUM_LENGTH
    ensures Source(target) != target && Source(target) < CHECKSUM_LENGTH
  {
  }

  lemma RotateInjective(a: bv8, b: bv8)
    requires RotateLeft(a) == RotateLeft(b)
    ensures a == b
  {
  }

  lemma MixInjective(m: bv8, k: bv8, s: bv8, last: bv8)
    requires Mix(m, s, last) == Mix(k, s, last)
    ensures m == k
  {
  }

  lemma AddInjective(a: bv8, b: bv8, x: bv8)
    requires Add(a, x) == Add(b, x)
    ensures a == b
  {
  }

  lemma AddInjectiveRight(a: bv8, x: bv8, y: bv8)
    requires Add(a, x) == Add(a, y)
    ensures x == y
  {
  }

  /** Equal results come from equal bytes. */
  lemma UpdateInjective(c: seq<bv8>, d: seq<bv8>, target: nat, m: bv8, last: bv8)
    requires |c| == |d| == CHECKSUM_LENGTH && target < CHECKSUM_LENGTH
    requires Update(c, target, m, last) == Update(d, target, m, last)
    ensures c == d
  {
    hide RotateLeft, Mix, Add, Source;
    var e, f := Update(c, target, m, last), Update(d, target, m, last);
    SourceIsNotTarget(target);
    forall k | 0 <= k < CHECKSUM_LENGTH && k != target ensures c[k] == d[k] {
      assert e[k] == c[k] && f[k] == d[k];
    }
    var x := Mix(m, c[Source(target)], last);
    assert e[target] == RotateLeft(Add(c[target], x)) && f[target] == RotateLeft(Add(d[target], x));
    RotateInjective(Add(c[target], x), Add(d[target], x));
    AddInjective(c[target], d[target], x);
  }

  /** Different bytes read give different results. */
  lemma UpdateSensitive(c: seq<bv8>, target: nat, m: bv8, k: bv8, last: bv8)
    requires |c| == CHECKSUM_LENGTH && target < CHECKSUM_LENGTH
    requires Update(c, target, m, last) == Update(c, target, k, last)
    ensures m == k
  {
    hide RotateLeft, Mix, Add, Source;
    SourceIsNotTarget(target);
    var s := c[Source(target)];
    var e, f := Update(c, target, m, last), Update(c, target, k, last);
    assert e[target] == f[target];
    RotateInjective(Add(c[target], Mix(m, s, last)), Add(c[target], Mix(k, s, last)));
    AddInjectiveRight(c[target], Mix(m, s, last), Mix(k, s, last));
    MixInjective(m, k, s, last);
  }

  // ---- Packing ----

  /** The word without its low byte. */
  function DropLow(w: bv64): bv64 {
    w >> 8
  }

  /** Appending loses nothing while the word has room. */
  lemma AppendInjective(w: bv64, b: bv8, v: bv64, a: bv8)
    requires w < 0x100_0000_0000_0000 && v < 0x100_0000_0000_0000
    requires Append(w, b) == Append(v, a)
    ensures w == v && b == a
  {
    AppendUndone(w, b);
    AppendUndone(v, a);
  }

  lemma AppendUndone(w: bv64, b: bv8)
    requires w < 0x100_0000_0000_0000
    ensures DropLow(Append(w, b)) == w
    ensures LowByteOf(Append(w, b)) == b
  {
  }

  /** 2 to the power 8k. */
  function Bound(k: nat): bv64
    requires k <= 7
  {
    match k
    case 0 => 0x1
    case 1 => 0x100
    case 2 => 0x1_0000
    case 3 => 0x100_0000
    case 4 => 0x1_0000_0000
    case 5 => 0x100_0000_0000
    case 6 => 0x1_0000_0000_0000
    case _ => 0x100_0000_0000_0000
  }

  ghost predicate Fits(w: bv64, k: nat)
    requires k <= 7
  {
    w < Bound(k)
  }

  lemma FitsRoom(w: bv64, k: nat)
    requires k <= 7 && Fits(w, k)
    ensures w < 0x100_0000_0000_0000
  {
  }

  lemma AppendFits(w: bv64, b: bv8, k: nat)
    requires k <= 6 && Fits(w, k)
    ensures Fits(Append(w, b), k + 1)
  {
  }

  lemma {:induction false} PackFits(c: seq<bv8>)
    requires |c| <= 7
    ensures Fits(Pack(c), |c|)
  {
    if c != [] {
      hide Append, Fits;
      PackFits(c[..|c| - 1]);
      AppendFits(Pack(c[..|c| - 1]), c[|c| - 1], |c| - 1);
    }
  }

  /** At most eight bytes can be read back from the packed word. */
  lemma {:induction false} PackInjective(c: seq<bv8>, d: seq<bv8>)
    requires |c| == |d| <= CHECKSUM_LENGTH && Pack(c) == Pack(d)
    ensures c == d
  {
    hide Append, Fits;
    if c != [] {
      var n := |c| - 1;
      PackFits(c[..n]);
      PackFits(d[..n]);
      FitsRoom(Pack(c[..n]), n);
      FitsRoom(Pack(d[..n]), n);
      AppendInjective(Pack(c[..n]), c[n], Pack(d[..n]), d[n]);
      PackInjective(c[..n], d[..n]);
      assert c == c[..n] + [c[n]] && d == d[..n] + [d[n]];
    }
  }

  // ---- Sensitivity ----

  /** How often `x` is among the first `n` addresses. */
  function Visits(addrs: seq<bv32>, x: bv32, n: nat): nat
    requires n <= |addrs|
  {
    if n == 0 then 0 else Visits(addrs, x, n - 1) + (if addrs[n - 1] == x then 1 else 0)
  }

  ghost predicate DifferOnlyAt(mem1: Memory, mem2: Memory, x: bv32) {
    mem1(x) != mem2(x) && forall a :: a != x ==> mem1(a) == mem2(a)
  }

  /** One access to an address where the memories agree, byte by byte. */
  lemma DifferenceMoves(c: seq<bv8>, d: seq<bv8>, target: nat, m: bv8, last: bv8)
    requires |c| == |d| == CHECKSUM_LENGTH && target < CHECKSUM_LENGTH
    ensures var e, f, s := Update(c, target, m, last), Update(d, target, m, last), Source(target);
            && (forall k :: 0 <= k < CHECKSUM_LENGTH && k != target ==> e[k] == c[k] && f[k] == d[k])
            && (c[s] == d[s] ==> (e[target] == f[target] <==> c[target] == d[target]))
            && (c[s] != d[s] && c[target] == d[target] ==> e[target] != f[target])
  {
    hide RotateLeft, Mix, Add, Source;
    SourceIsNotTarget(target);
    var s := Source(target);
    var x, y := Mix(m, c[s], last), Mix(m, d[s], last);
    if RotateLeft(Add(c[target], x)) == RotateLeft(Add(d[target], y)) {
      RotateInjective(Add(c[target], x), Add(d[target], y));
      if c[s] == d[s] {
        AddInjective(c[target], d[target], x);
      } else if c[target] == d[target] {
        AddInjectiveRight(c[target], x, y);
        MixInjectiveSource(m, c[s], d[s], last);
      }
    }
  }

  lemma MixInjectiveSource(m: bv8, s: bv8, r: bv8, last: bv8)
    requires Mix(m, s, last) == Mix(m, r, last)
    ensures s == r
  {
  }

  /** The byte `o` places behind `base`. */
  function At(base: nat, o: nat): (k: nat)
    ensures k < CHECKSUM_LENGTH
  {
    (base + o) % CHECKSUM_LENGTH
  }

  /** The place, counted from the byte of an access, of the byte written `i` accesses later. */
  function Place(i: nat): (o: nat)
    ensures o < CHECKSUM_LENGTH
  {
    (5 * i) % CHECKSUM_LENGTH
  }

  lemma ModSum(a: nat, b: nat)
    ensures (a + b) % 8 == (a % 8 + b) % 8
  {
    assert a + b == 8 * (a / 8) + (a % 8 + b);
    DropEights(a / 8, a % 8 + b);
  }

  lemma DropEights(k: nat, z: nat)
    ensures (8 * k + z) % 8 == z % 8
  {
  }

  lemma TargetAt(a: nat, i: nat)
    ensures Target(a + i) == At(Target(a), Place(i))
  {
    ModSum(5 * a, 5 * i);
    ModSum(5 * i, 5 * a % 8);
  }

  lemma SourceAt(base: nat, o: nat)
    ensures Source(At(base, o)) == At(base, (o + 6) % CHECKSUM_LENGTH)
  {
    ModSum(o + 6, base);
    ModSum(base + o, 6);
    SourceIs(At(base, o));
  }

  lemma SourceIs(t: nat)
    requires t < CHECKSUM_LENGTH
    ensures Source(t) == (t + 6) % CHECKSUM_LENGTH
  {
  }

  lemma PlacesDiffer(base: nat, o: nat, p: nat)
    requires o < CHECKSUM_LENGTH && p < CHECKSUM_LENGTH && o != p
    ensures At(base, o) != At(base, p)
  {
  }

  ghost predicate Differs(c: seq<bv8>, d: seq<bv8>, base: nat, o: nat)
    requires |c| == |d| == CHECKSUM_LENGTH
  {
    c[At(base, o)] != d[At(base, o)]
  }

  /**
   How a difference in byte `base` has spread after `j` further accesses: each access carries it two
   places on, and only an access that reads and writes differing bytes can take it away.
   */
  ghost predicate Spread(c: seq<bv8>, d: seq<bv8>, base: nat, j: nat)
    requires |c| == |d| == CHECKSUM_LENGTH
  {
    && (j < 8 ==> Differs(c, d, base, 0))
    && (j < 2 ==> !Differs(c, d, base, 2)) && (2 <= j < 10 ==> Differs(c, d, base, 2))
    && (j < 4 ==> !Differs(c, d, base, 4)) && (4 <= j < 12 ==> Differs(c, d, base, 4))
    && (j < 6 ==> !Differs(c, d, base, 6)) && (6 <= j < 14 ==> Differs(c, d, base, 6))
    && (10 <= j ==> Differs(c, d, base, 0) || Differs(c, d, base, 2))
  }

  lemma SpreadStarts(c: seq<bv8>, d: seq<bv8>, base: nat)
    requires |c| == |d| == CHECKSUM_LENGTH && base < CHECKSUM_LENGTH
    requires forall k :: 0 <= k < CHECKSUM_LENGTH ==> (c[k] == d[k] <==> k != base)
    ensures Spread(c, d, base, 0)
  {
  }

  /** What the access `i` places after the first visit does to the difference at place `o`. */
  lemma DifferenceAt(c: seq<bv8>, d: seq<bv8>, base: nat, i: nat, o: nat, m: bv8, last: bv8)
    requires |c| == |d| == CHECKSUM_LENGTH && o < CHECKSUM_LENGTH
    ensures var w := Place(i);
            var e, f := Update(c, At(base, w), m, last), Update(d, At(base, w), m, last);
            var from := (w + 6) % CHECKSUM_LENGTH;
            && (o != w ==> (Differs(e, f, base, o) <==> Differs(c, d, base, o)))
            && (!Differs(c, d, base, from) ==> (Differs(e, f, base, w) <==> Differs(c, d, base, w)))
            && (Differs(c, d, base, from) && !Differs(c, d, base, w) ==> Differs(e, f, base, w))
  {
    hide Update, At, Place;
    var w := Place(i);
    DifferenceMoves(c, d, At(base, w), m, last);
    SourceAt(base, w);
    if o != w {
      PlacesDiffer(base, o, w);
    }
  }

  lemma SpreadStep(c: seq<bv8>, d: seq<bv8>, base: nat, j: nat, m: bv8, last: bv8)
    requires |c| == |d| == CHECKSUM_LENGTH && j < 14 && Spread(c, d, base, j)
    ensures var t := At(base, Place(j + 1));
            Spread(Update(c, t, m, last), Update(d, t, m, last), base, j + 1)
  {
    hide Update, At, Differs;
    DifferenceAt(c, d, base, j + 1, 0, m, last);
    DifferenceAt(c, d, base, j + 1, 2, m, last);
    DifferenceAt(c, d, base, j + 1, 4, m, last);
    DifferenceAt(c, d, base, j + 1, 6, m, last);
  }

  /** Whatever byte the next access writes, some other byte differs. */
  lemma AnotherDiffers(c: seq<bv8>, d: seq<bv8>, base: nat, j: nat) returns (k: nat)
    requires |c| == |d| == CHECKSUM_LENGTH && j < 14 && Spread(c, d, base, j)
    ensures k < CHECKSUM_LENGTH && k != At(base, Place(j + 1)) && c[k] != d[k]
  {
    var w := Place(j + 1);
    var o := if w != 0 && Differs(c, d, base, 0) then 0
             else if w != 2 && Differs(c, d, base, 2) then 2
             else if w != 4 && Differs(c, d, base, 4) then 4
             else 6;
    k := At(base, o);
    PlacesDiffer(base, o, w);
  }

  /** From the first visit, at access `a`, until the next one. */
  lemma {:induction false} DifferenceSpreads(mem1: Memory, mem2: Memory, addrs: seq<bv32>, x: bv32, a: nat, n: nat)
    requires DifferOnlyAt(mem1, mem2, x) && a < n <= |addrs| <= ACCESSES
    requires forall i :: 0 <= i < n ==> (addrs[i] == x <==> i == a)
    ensures Spread(Walk(mem1, addrs, n), Walk(mem2, addrs, n), Target(a), n - a - 1)
  {
    hide Update, Spread, Target, LowBits;
    var c, d := Walk(mem1, addrs, n - 1), Walk(mem2, addrs, n - 1);
    var last := LowBits(Previous(addrs, n - 1));
    if n - 1 == a {
      Unvisited(mem1, mem2, addrs, x, a);
      TargetInRange(a);
      FirstDifference(c, Target(a), mem1(x), mem2(x), last);
      SpreadStarts(Walk(mem1, addrs, n), Walk(mem2, addrs, n), Target(a));
    } else {
      DifferenceSpreads(mem1, mem2, addrs, x, a, n - 1);
      TargetAt(a, n - 1 - a);
      SpreadStep(c, d, Target(a), n - a - 2, mem1(addrs[n - 1]), last);
    }
  }

  lemma TargetInRange(i: nat)
    ensures Target(i) < CHECKSUM_LENGTH
  {
  }

  /** A visit from equal bytes makes exactly the byte written differ. */
  lemma FirstDifference(c: seq<bv8>, target: nat, m: bv8, k: bv8, last: bv8)
    requires |c| == CHECKSUM_LENGTH && target < CHECKSUM_LENGTH && m != k
    ensures var e, f := Update(c, target, m, last), Update(c, target, k, last);
            forall i :: 0 <= i < CHECKSUM_LENGTH ==> (e[i] == f[i] <==> i != target)
  {
    hide RotateLeft, Mix, Add, Source;
    SourceIsNotTarget(target);
    var e, f := Update(c, target, m, last), Update(c, target, k, last);
    if e[target] == f[target] {
      assert e == f;
      UpdateSensitive(c, target, m, k, last);
    }
  }

  lemma {:induction false} Unvisited(mem1: Memory, mem2: Memory, addrs: seq<bv32>, x: bv32, n: nat)
    requires DifferOnlyAt(mem1, mem2, x) && n <= |addrs| && forall i :: 0 <= i < n ==> addrs[i] != x
    ensures Walk(mem1, addrs, n) == Walk(mem2, addrs, n)
  {
    hide Update, LowBits;
    if n != 0 {
      Unvisited(mem1, mem2, addrs, x, n - 1);
    }
  }

  lemma {:induction false} OnlyVisit(addrs: seq<bv32>, x: bv32, n: nat) returns (a: nat)
    requires n <= |addrs| && Visits(addrs, x, n) == 1
    ensures a < n && forall i :: 0 <= i < n ==> (addrs[i] == x <==> i == a)
  {
    if addrs[n - 1] == x {
      NoVisit(addrs, x, n - 1);
      a := n - 1;
    } else {
      a := OnlyVisit(addrs, x, n - 1);
    }
  }

  lemma {:induction false} NoVisit(addrs: seq<bv32>, x: bv32, n: nat)
    requires n <= |addrs| && Visits(addrs, x, n) == 0
    ensures forall i :: 0 <= i < n ==> addrs[i] != x
  {
    if n != 0 {
      NoVisit(addrs, x, n - 1);
    }
  }

  /** A second visit cannot take the difference away. */
  lemma SecondVisit(mem1: Memory, mem2: Memory, addrs: seq<bv32>, x: bv32, n: nat)
    requires DifferOnlyAt(mem1, mem2, x) && 0 < n <= |addrs| <= ACCESSES
    requires Visits(addrs, x, n - 1) == 1 && addrs[n - 1] == x
    ensures Walk(mem1, addrs, n) != Walk(mem2, addrs, n)
  {
    hide Spread, Target, LowBits, RotateLeft, Add, Mix;
    var a := OnlyVisit(addrs, x, n - 1);
    var c, d := Walk(mem1, addrs, n - 1), Walk(mem2, addrs, n - 1);
    DifferenceSpreads(mem1, mem2, addrs, x, a, n - 1);
    var k := AnotherDiffers(c, d, Target(a), n - a - 2);
    TargetAt(a, n - 1 - a);
    assert Walk(mem1, addrs, n)[k] == c[k] && Walk(mem2, addrs, n)[k] == d[k];
  }

  /** The address is visited so rarely that no visit can undo what the others did. */
  predicate FewVisits(addrs: seq<bv32>, x: bv32, n: nat)
    requires n <= |addrs|
  {
    Visits(addrs, x, n) <= 1 || (Visits(addrs, x, n) == 2 && |addrs| <= ACCESSES)
  }

  /** Until the address is visited the two runs agree; after one or two visits they differ for good. */
  lemma {:induction false} WalkSensitive(mem1: Memory, mem2: Memory, addrs: seq<bv32>, x: bv32, n: nat)
    requires DifferOnlyAt(mem1, mem2, x) && n <= |addrs| && FewVisits(addrs, x, n)
    ensures Walk(mem1, addrs, n) == Walk(mem2, addrs, n) <==> Visits(addrs, x, n) == 0
  {
    hide Update, LowBits;
    if n != 0 {
      var a, last := addrs[n - 1], LowBits(Previous(addrs, n - 1));
      var c, d := Walk(mem1, addrs, n - 1), Walk(mem2, addrs, n - 1);
      WalkSensitive(mem1, mem2, addrs, x, n - 1);
      if a == x && Visits(addrs, x, n - 1) == 1 {
        SecondVisit(mem1, mem2, addrs, x, n);
      } else if a == x {
        if Update(c, Target(n - 1), mem1(a), last) == Update(c, Target(n - 1), mem2(a), last) {
          UpdateSensitive(c, Target(n - 1), mem1(a), mem2(a), last);
        }
      } else if Update(c, Target(n - 1), mem1(a), last) == Update(d, Target(n - 1), mem1(a), last) {
        UpdateInjective(c, d, Target(n - 1), mem1(a), last);
      }
    }
  }

  /**
   Two memories that differ in one address, walked along the same addresses with at most one visit to
   it, or at most two in a walk as long as the program's, give different results exactly when it is
   visited.
   */
  lemma AttestSensitive(mem1: Memory, mem2: Memory, addrs: seq<bv32>, x: bv32)
    requires DifferOnlyAt(mem1, mem2, x) && FewVisits(addrs, x, |addrs|)
    ensures Attest(mem1, addrs) != Attest(mem2, addrs) <==> x in addrs
  {
    hide Pack, Walk;
    WalkSensitive(mem1, mem2, addrs, x, |addrs|);
    VisitedIsListed(addrs, x, |addrs|);
    assert addrs[..|addrs|] == addrs;
    if Attest(mem1, addrs) == Attest(mem2, addrs) {
      PackInjective(Walk(mem1, addrs, |addrs|), Walk(mem2, addrs, |addrs|));
    }
  }

  lemma {:induction false} VisitedIsListed(addrs: seq<bv32>, x: bv32, n: nat)
    requires n <= |addrs|
    ensures Visits(addrs, x, n) > 0 <==> x in addrs[..n]
  {
    if n != 0 {
      VisitedIsListed(addrs, x, n - 1);
      assert addrs[..n] == addrs[..n - 1] + [addrs[n - 1]];
    }
  }

  // ---- Three visits can cancel ----

  const CHANGED: bv32 := 0x4000
  const NOISE: bv32 := 0x4100
  const QUIET: bv32 := 0x4200

  function Clean(a: bv32): bv8 {
    if a == NOISE then 0xff else 0
  }

  function Changed(a: bv32): bv8 {
    if a == CHANGED || a == NOISE then 0xff else 0
  }

  const CANCELLING := [CHANGED, QUIET, CHANGED, QUIET, QUIET, QUIET, NOISE, QUIET, CHANGED,
                       QUIET, QUIET, QUIET, QUIET, QUIET, QUIET]

  lemma UpdateZeroes()
    ensures RotateLeft(Add(0, Mix(0, 0, 0))) == 0
    ensures RotateLeft(Add(0, Mix(0xff, 0, 0))) == 0xff
    ensures RotateLeft(Add(0, Mix(0xff, 0xff, 0))) == 0
    ensures RotateLeft(Add(0, Mix(0, 0xff, 0))) == 0xff
    ensures RotateLeft(Add(0xff, Mix(0xff, 0xff, 0))) == 0xff
    ensures LowBits(CHANGED) == 0 && LowBits(NOISE) == 0 && LowBits(QUIET) == 0
    ensures Clean(CHANGED) == 0 && Clean(NOISE) == 0xff && Clean(QUIET) == 0
    ensures Changed(CHANGED) == 0xff && Changed(NOISE) == 0xff && Changed(QUIET) == 0
  {
  }

  lemma StartsAtZero(mem: Memory)
    ensures Walk(mem, CANCELLING, 0) == [0, 0, 0, 0, 0, 0, 0, 0]
  {
  }

  /** Access `n` of the walk puts `v` into its target byte. */
  lemma TakeStep(mem: Memory, n: nat, c: seq<bv8>, v: bv8) returns (d: seq<bv8>)
    requires n < |CANCELLING| && |c| == CHECKSUM_LENGTH && Walk(mem, CANCELLING, n) == c
    requires LowBits(Previous(CANCELLING, n)) == 0
    requires v == RotateLeft(Add(c[Target(n)], Mix(mem(CANCELLING[n]), c[Source(Target(n))], 0)))
    ensures d == c[Target(n) := v] && Walk(mem, CANCELLING, n + 1) == d
  {
    hide RotateLeft, Add, Mix, LowBits;
    d := c[Target(n) := v];
  }

  /** Where the accesses of the walk write and read. */
  lemma Indices()
    ensures Target(0) == 0 && Target(1) == 5 && Target(2) == 2 && Target(3) == 7 && Target(4) == 4
    ensures Target(5) == 1 && Target(6) == 6 && Target(7) == 3 && Target(8) == 0
    ensures Source(0) == 6 && Source(1) == 7 && Source(2) == 0 && Source(3) == 1
    ensures Source(4) == 2 && Source(5) == 3 && Source(6) == 4 && Source(7) == 5
  {
  }

  lemma CleanStart()
    ensures Walk(Clean, CANCELLING, 3) == [0, 0, 0, 0, 0, 0, 0, 0]
  {
    hide RotateLeft, Add, Mix, LowBits, Clean, Walk, Target, Source;
    UpdateZeroes();
    Indices();
    StartsAtZero(Clean);
    var c: seq<bv8> := [0, 0, 0, 0, 0, 0, 0, 0];
    c := TakeStep(Clean, 0, c, 0);
    c := TakeStep(Clean, 1, c, 0);
    c := TakeStep(Clean, 2, c, 0);
  }

  lemma CleanMiddle()
    ensures Walk(Clean, CANCELLING, 6) == [0, 0, 0, 0, 0, 0, 0, 0]
  {
    hide RotateLeft, Add, Mix, LowBits, Clean, Walk, Target, Source;
    UpdateZeroes();
    Indices();
    CleanStart();
    var c: seq<bv8> := [0, 0, 0, 0, 0, 0, 0, 0];
    c := TakeStep(Clean, 3, c, 0);
    c := TakeStep(Clean, 4, c, 0);
    c := TakeStep(Clean, 5, c, 0);
  }

  lemma CleanWalk()
    ensures Walk(Clean, CANCELLING, 9) == [0xff, 0, 0, 0, 0, 0, 0xff, 0]
  {
    hide RotateLeft, Add, Mix, LowBits, Clean, Walk, Target, Source;
    UpdateZeroes();
    Indices();
    CleanMiddle();
    var c: seq<bv8> := [0, 0, 0, 0, 0, 0, 0, 0];
    c := TakeStep(Clean, 6, c, 0xff);
    c := TakeStep(Clean, 7, c, 0);
    c := TakeStep(Clean, 8, c, 0xff);
  }

  lemma ChangedStart()
    ensures Walk(Changed, CANCELLING, 3) == [0xff, 0, 0, 0, 0, 0, 0, 0]
  {
    hide RotateLeft, Add, Mix, LowBits, Changed, Walk, Target, Source;
    UpdateZeroes();
    Indices();
    StartsAtZero(Changed);
    var c: seq<bv8> := [0, 0, 0, 0, 0, 0, 0, 0];
    c := TakeStep(Changed, 0, c, 0xff);
    c := TakeStep(Changed, 1, c, 0);
    c := TakeStep(Changed, 2, c, 0);
  }

  lemma ChangedMiddle()
    ensures Walk(Changed, CANCELLING, 6) == [0xff, 0, 0, 0, 0, 0, 0, 0]
  {
    hide RotateLeft, Add, Mix, LowBits, Changed, Walk, Target, Source;
    UpdateZeroes();
    Indices();
    ChangedStart();
    var c: seq<bv8> := [0xff, 0, 0, 0, 0, 0, 0, 0];
    c := TakeStep(Changed, 3, c, 0);
    c := TakeStep(Changed, 4, c, 0);
    c := TakeStep(Changed, 5, c, 0);
  }

  lemma ChangedWalk()
    ensures Walk(Changed, CANCELLING, 9) == [0xff, 0, 0, 0, 0, 0, 0xff, 0]
  {
    hide RotateLeft, Add, Mix, LowBits, Changed, Walk, Target, Source;
    UpdateZeroes();
    Indices();
    ChangedMiddle();
    var c: seq<bv8> := [0xff, 0, 0, 0, 0, 0, 0, 0];
    c := TakeStep(Changed, 6, c, 0xff);
    c := TakeStep(Changed, 7, c, 0);
    c := TakeStep(Changed, 8, c, 0xff);
  }

  lemma {:induction false} AgreeFromThere(mem1: Memory, mem2: Memory, addrs: seq<bv32>, x: bv32, k: nat, n: nat)
    requires DifferOnlyAt(mem1, mem2, x) && k <= n <= |addrs|
    requires Walk(mem1, addrs, k) == Walk(mem2, addrs, k)
    requires forall i :: k <= i < n ==> addrs[i] != x
    ensures Walk(mem1, addrs, n) == Walk(mem2, addrs, n)
  {
    hide Update, LowBits;
    if n != k {
      AgreeFromThere(mem1, mem2, addrs, x, k, n - 1);
    }
  }

  /**
   With three visits a change can go unnoticed: a walk of full length with three visits to the one
   address in which two memories differ, and the same result.
   */
  lemma RepeatedVisitsCanCancel()
    ensures |CANCELLING| == ACCESSES && DifferOnlyAt(Clean, Changed, CHANGED)
    ensures Visits(CANCELLING, CHANGED, ACCESSES) == 3
    ensures Attest(Clean, CANCELLING) == Attest(Changed, CANCELLING)
  {
    hide Pack, Walk;
    CleanWalk();
    ChangedWalk();
    AgreeFromThere(Clean, Changed, CANCELLING, CHANGED, 9, ACCESSES);
    assert Visits(CANCELLING, CHANGED, 1) == 1;
    assert Visits(CANCELLING, CHANGED, 2) == 1;
    assert Visits(CANCELLING, CHANGED, 3) == 2;
    assert Visits(CANCELLING, CHANGED, 5) == 2;
    assert Visits(CANCELLING, CHANGED, 7) == 2;
    assert Visits(CANCELLING, CHANGED, 9) == 3;
    assert Visits(CANCELLING, CHANGED, 11) == 3;
    assert Visits(CANCELLING, CHANGED, 13) == 3;
  }
}
