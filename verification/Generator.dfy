/** The byte generator behind the memory walk (attestation_lib.c). */
module Generator {
  import opened Words

  /** C types: assignments and sums are checked not to leave their range. */
  newtype uint16 = x: int | 0 <= x < 0x1_0000
  newtype uint32 = x: int | 0 <= x < 0x1_0000_0000

  /** `rc4_i`, `rc4_j` and `rc4_s`. */
  datatype State = State(i: nat, j: nat, s: seq<uint8>)

  function Swapped(s: seq<uint8>, a: nat, b: nat): (r: seq<uint8>)
    requires a < |s| && b < |s|
    ensures |r| == |s|
  {
    s[a := s[b]][b := s[a]]
  }

  /** Every byte occurs exactly once. */
  ghost predicate IsPermutation(s: seq<uint8>)
    ensures IsPermutation(s) ==> |s| == 256
  {
    && |s| == 256
    && NoDup(s)
    && forall b: uint8 :: b in s
  }

  /** What holds of the generator between calls. */
  ghost predicate Ok(st: State) {
    st.i < 256 && st.j < 256 && IsPermutation(st.s)
  }

  predicate Sized(st: State) {
    st.i < 256 && st.j < 256 && |st.s| == 256
  }

  /** The index is doubled before a byte is added. */
  function Advance(j: nat, added: nat): nat {
    (2 * j + added) % 256
  }

  /** The byte that the next call adds to the index. */
  function NextAdded(st: State): nat
    requires Sized(st)
  {
    st.s[(st.i + 1) % 256] as nat
  }

  /** The state after one call of `rc4_next`. */
  function NextState(st: State): (r: State)
    requires Sized(st)
    ensures Sized(r)
  {
    var i := (st.i + 1) % 256;
    var j := Advance(st.j, st.s[i] as nat);
    State(i, j, Swapped(st.s, i, j))
  }

  /** The byte that call returns. */
  function NextByte(st: State): uint8
    requires Sized(st)
  {
    var r := NextState(st);
    r.s[(r.s[r.i] as nat + r.s[r.j] as nat) % 256]
  }

  /** The state after `n` calls. */
  function After(st: State, n: nat): (r: State)
    requires Sized(st)
    ensures Sized(r)
  {
    if n == 0 then st else NextState(After(st, n - 1))
  }

  function Identity(): (s: seq<uint8>)
    ensures |s| == 256 && forall k :: 0 <= k < 256 ==> s[k] as int == k
  {
    seq(256, k requires 0 <= k < 256 => k as uint8)
  }

  /** What round `k` of the key schedule adds to its index. */
  function KeyAdded(s: seq<uint8>, key: seq<uint8>, k: nat): nat
    requires key != [] && k < |s|
  {
    s[k] as nat + key[k % |key|] as nat
  }

  /** The index and the table after `n` rounds of `rc4_init`. */
  function Schedule(key: seq<uint8>, n: nat): (r: (nat, seq<uint8>))
    requires key != [] && n <= 256
    ensures r.0 < 256 && |r.1| == 256
  {
    if n == 0 then (0, Identity())
    else
      var (j, s) := Schedule(key, n - 1);
      var j' := Advance(j, KeyAdded(s, key, n - 1));
      (j', Swapped(s, n - 1, j'))
  }

  // ---- The program ----

  class Rc4 {
    var i: uint16
    var j: uint16
    const s: array<uint8>

    ghost predicate Valid()
      reads this, s
    {
      s.Length == 256 && i < 256 && j < 256
    }

    ghost function Abs(): (st: State)
      requires Valid()
      reads this, s
      ensures Sized(st)
    {
      State(i as nat, j as nat, s[..])
    }

    constructor ()
      ensures Valid() && i == 0 && j == 0
    {
      i, j := 0, 0;
      s := new uint8[256](_ => 0);
    }

    /** `rc4_swap`. */
    method Swap(a: uint8, b: uint8)
      requires Valid()
      modifies s
      ensures Valid() && s[..] == Swapped(old(s[..]), a as nat, b as nat)
    {
      var tmp := s[a];
      s[a] := s[b];
      s[b] := tmp;
    }

    /** `rc4_init`: a new table from the key; the two indices of the generator stay. */
    method Init(key: seq<uint8>)
      requires Valid() && 0 < |key| < 256
      modifies s
      ensures Valid() && Abs() == old(Abs()).(s := Schedule(key, 256).1)
      ensures Ok(Abs())
    {
      hide Advance;
      var k: uint32 := 0;
      while k < 256
        invariant k <= 256 && Valid() && i == old(i) && j == old(j)
        invariant forall x :: 0 <= x < k as int ==> s[x] as int == x
      {
        s[k] := k as uint8;
        k := k + 1;
      }
      assert s[..] == Identity();
      var index: uint32 := 0;
      k := 0;
      while k < 256
        invariant k <= 256 && Valid() && i == old(i) && j == old(j)
        invariant index < 256
        invariant (index as nat, s[..]) == Schedule(key, k as nat)
      {
        ghost var before := index as nat;
        index := index + index;
        index := index + s[k] as uint32;
        index := index + key[k % |key| as uint32] as uint32;
        index := index % 256;
        assert index as nat == Advance(before, KeyAdded(s[..], key, k as nat)) by {
          AdvanceIs(before, KeyAdded(s[..], key, k as nat));
        }
        Swap(k as uint8, index as uint8);
        k := k + 1;
      }
      SchedulePermutes(key, 256);
    }

    /** `rc4_next`. */
    method Next() returns (r: uint8)
      requires Valid()
      modifies this`i, this`j, s
      ensures Valid() && Abs() == NextState(old(Abs())) && r == NextByte(old(Abs()))
    {
      hide Swapped, Advance;
      ghost var st := Abs();
      i := i + 1;
      i := i % 256;
      j := j + j;
      j := j + s[i] as uint16;
      j := j % 256;
      AdvanceIs(st.j, NextAdded(st));
      assert j as nat == Advance(st.j, NextAdded(st));
      Swap(i as uint8, j as uint8);
      assert Abs() == NextState(st);
      var tmp: uint32 := s[i] as uint32;
      tmp := tmp + s[j] as uint32;
      tmp := tmp % 256;
      return s[tmp];
    }
  }

  lemma AdvanceIs(j: nat, added: nat)
    ensures Advance(j, added) == (j + j + added) % 256
  {
  }

  /** The two entries change places and no other entry moves. */
  lemma SwapExchanges(s: seq<uint8>, a: nat, b: nat)
    requires a < |s| && b < |s|
    ensures var r := Swapped(s, a, b);
            && r[a] == s[b] && r[b] == s[a]
            && forall k :: 0 <= k < |s| && k != a && k != b ==> r[k] == s[k]
  {
  }

  /** The first index counts the calls. */
  lemma {:induction false} CallsCounted(st: State, n: nat)
    requires Sized(st)
    ensures After(st, n).i == (st.i + n) % 256
  {
    hide Swapped, Advance;
    if n != 0 {
      CallsCounted(st, n - 1);
      ModNext(st.i + n - 1);
    }
  }

  lemma ModNext(x: nat)
    ensures (x % 256 + 1) % 256 == (x + 1) % 256
  {
  }

  /**
   The byte returned: the sum of the two entries exchanged points at it. From the identity table that is
   the sum itself, unless it is one of the two indices, which then name each other.
   */
  lemma ByteFromIdentity(i: nat, j: nat)
    requires i < 256 && j < 256
    ensures var a := (i + 1) % 256;
            var b := (2 * j + a) % 256;
            var sum := (a + b) % 256;
            NextByte(State(i, j, Identity())) as nat == if sum == a then b else if sum == b then a else sum
  {
  }

  lemma ByteReturned(st: State)
    requires Sized(st)
    ensures var a := (st.i + 1) % 256;
            var b := (2 * st.j + st.s[a] as nat) % 256;
            var r := NextState(st);
            && r.i == a && r.j == b && r.s[a] == st.s[b] && r.s[b] == st.s[a]
            && NextByte(st) == r.s[(st.s[a] as nat + st.s[b] as nat) % 256]
  {
    SwapExchanges(st.s, (st.i + 1) % 256, NextState(st).j);
  }

  // ---- The table stays a permutation ----

  lemma SwapPermutes(s: seq<uint8>, a: nat, b: nat)
    requires IsPermutation(s) && a < 256 && b < 256
    ensures IsPermutation(Swapped(s, a, b))
  {
    var r := Swapped(s, a, b);
    forall x: uint8 ensures x in r {
      assert x in s;
      var k :| 0 <= k < 256 && s[k] == x;
      assert r[if k == a then b else if k == b then a else k] == x;
    }
  }

  lemma IdentityPermutes()
    ensures IsPermutation(Identity())
  {
    forall b: uint8 ensures b in Identity() {
      assert Identity()[b as int] == b;
    }
  }

  lemma {:induction false} SchedulePermutes(key: seq<uint8>, n: nat)
    requires key != [] && n <= 256
    ensures IsPermutation(Schedule(key, n).1)
  {
    hide IsPermutation, Advance, Swapped;
    if n == 0 {
      IdentityPermutes();
    } else {
      SchedulePermutes(key, n - 1);
      SwapPermutes(Schedule(key, n - 1).1, n - 1, Schedule(key, n).0);
    }
  }

  /** After any number of calls the table is a permutation and both indices are below 256. */
  lemma {:induction false} AfterOk(st: State, n: nat)
    requires Ok(st)
    ensures Ok(After(st, n))
  {
    hide IsPermutation, Advance, Swapped;
    if n != 0 {
      AfterOk(st, n - 1);
      var m := After(st, n - 1);
      SwapPermutes(m.s, (m.i + 1) % 256, NextState(m).j);
    }
  }

  /** From any initialisation, whatever the key and the indices left from before. */
  lemma GeneratorStaysPermutation(key: seq<uint8>, i: nat, j: nat, n: nat)
    requires key != [] && i < 256 && j < 256
    ensures Ok(After(State(i, j, Schedule(key, 256).1), n))
  {
    SchedulePermutes(key, 256);
    AfterOk(State(i, j, Schedule(key, 256).1), n);
  }

  // ---- The doubling index ----

  function Pow2(n: nat): nat {
    if n == 0 then 1 else 2 * Pow2(n - 1)
  }

  /** The index after adding the values of `a` in turn. */
  function IndexAfter(j: nat, a: seq<nat>): nat {
    if a == [] then j else Advance(IndexAfter(j, a[..|a| - 1]), a[|a| - 1])
  }

  /** The sum of 2^(n - 1 - t) * a[t] over t below `k`. */
  function WeightedSum(a: seq<nat>, n: nat, k: nat): nat
    requires k <= n && k <= |a|
  {
    if k == 0 then 0 else WeightedSum(a, n, k - 1) + Pow2(n - k) * a[k - 1]
  }

  lemma {:induction false} WeightsDouble(a: seq<nat>, x: nat, n: nat, k: nat)
    requires k <= n && k <= |a|
    ensures WeightedSum(a + [x], n + 1, k) == 2 * WeightedSum(a, n, k)
  {
    if k != 0 {
      WeightsDouble(a, x, n, k - 1);
      assert (a + [x])[k - 1] == a[k - 1];
      assert Pow2(n + 1 - k) * a[k - 1] == 2 * (Pow2(n - k) * a[k - 1]);
    }
  }

  lemma ModDouble(x: nat, y: nat, added: nat)
    requires x % 256 == y % 256
    ensures (2 * x + added) % 256 == (2 * y + added) % 256
  {
    var q, p := x / 256, y / 256;
    assert 2 * x + added == (2 * (x % 256) + added) + 256 * (2 * q);
    assert 2 * y + added == (2 * (y % 256) + added) + 256 * (2 * p);
  }

  /** Closed form of the index modulo 256. */
  lemma {:induction false} IndexClosedForm(j: nat, a: seq<nat>)
    ensures IndexAfter(j, a) % 256 == (Pow2(|a|) * j + WeightedSum(a, |a|, |a|)) % 256
  {
    hide Advance;
    if a != [] {
      var n := |a| - 1;
      var front, x := a[..n], a[n];
      IndexClosedForm(j, front);
      WeightsDouble(front, x, n, n);
      assert front + [x] == a;
      var y := Pow2(n) * j + WeightedSum(front, n, n);
      ModDouble(IndexAfter(j, front), y, x);
      AdvanceMod(IndexAfter(j, front), x);
      calc {
        2 * y + x;
        2 * (Pow2(n) * j) + 2 * WeightedSum(front, n, n) + x;
        { assert 2 * (Pow2(n) * j) == Pow2(n + 1) * j; assert Pow2(0) == 1; }
        Pow2(n + 1) * j + WeightedSum(a, n + 1, n + 1);
      }
    }
  }

  lemma AdvanceMod(j: nat, added: nat)
    ensures Advance(j, added) % 256 == (2 * j + added) % 256
  {
  }

  lemma {:induction false} IndexConcat(j: nat, a: seq<nat>, b: seq<nat>)
    ensures IndexAfter(j, a + b) == IndexAfter(IndexAfter(j, a), b)
  {
    hide Advance;
    if b == [] {
      assert a + b == a;
    } else {
      IndexConcat(j, a, b[..|b| - 1]);
      assert (a + b)[..|a + b| - 1] == a + b[..|b| - 1];
    }
  }

  lemma DropMultiple(m: nat, w: nat)
    ensures (256 * m + w) % 256 == w % 256
  {
  }

  lemma IndexBelow(j: nat, a: seq<nat>)
    requires a != []
    ensures IndexAfter(j, a) < 256
  {
  }

  /** Eight steps shift the starting index out. */
  lemma EightSteps(j: nat, y: seq<nat>)
    requires |y| == 8
    ensures IndexAfter(j, y) == WeightedSum(y, 8, 8) % 256
  {
    hide WeightedSum, IndexAfter;
    IndexClosedForm(j, y);
    IndexBelow(j, y);
    assert Pow2(4) == 16;
    assert Pow2(8) == 256;
    DropMultiple(j, WeightedSum(y, 8, 8));
  }

  /** After eight or more steps the index depends only on the last eight values added. */
  lemma LastEightDecide(j: nat, k: nat, a: seq<nat>)
    requires |a| >= 8
    ensures IndexAfter(j, a) == IndexAfter(k, a[|a| - 8..])
  {
    hide WeightedSum, IndexAfter;
    var x, y := a[..|a| - 8], a[|a| - 8..];
    assert a == x + y;
    IndexConcat(j, x, y);
    EightSteps(IndexAfter(j, x), y);
    EightSteps(k, y);
  }

  // ---- The key schedule ----

  /** What the rounds of the key schedule add: an entry of the table and a byte of the key. */
  function KeyAddends(key: seq<uint8>, n: nat): (a: seq<nat>)
    requires key != [] && n <= 256
    ensures |a| == n
    ensures forall t :: 0 <= t < n ==> a[t] == Schedule(key, t).1[t] as nat + key[t % |key|] as nat
  {
    seq(n, t requires 0 <= t < n => Schedule(key, t).1[t] as nat + key[t % |key|] as nat)
  }

  lemma ScheduleNext(key: seq<uint8>, n: nat)
    requires key != [] && n < 256
    ensures Schedule(key, 0).0 == 0
    ensures Schedule(key, n + 1).0
         == Advance(Schedule(key, n).0, Schedule(key, n).1[n] as nat + key[n % |key|] as nat)
  {
    hide Swapped, Advance;
  }

  /** A round exchanges the entry of its number with the one at the index; the table starts in order. */
  lemma ScheduleExchanges(key: seq<uint8>, n: nat)
    requires key != [] && n < 256
    ensures Schedule(key, 0).1[n] as nat == n
    ensures var s, j, r := Schedule(key, n).1, Schedule(key, n + 1).0, Schedule(key, n + 1).1;
            && r[n] == s[j] && r[j] == s[n]
            && forall k :: 0 <= k < 256 && k != n && k != j ==> r[k] == s[k]
  {
    hide Swapped, Advance;
    SwapExchanges(Schedule(key, n).1, n, Schedule(key, n + 1).0);
  }

  lemma {:induction false} ScheduleIsIndexAfter(key: seq<uint8>, n: nat)
    requires key != [] && n <= 256
    ensures Schedule(key, n).0 == IndexAfter(0, KeyAddends(key, n))
  {
    hide Schedule, Advance;
    ScheduleNext(key, if n == 0 then 0 else n - 1);
    if n != 0 {
      ScheduleIsIndexAfter(key, n - 1);
      AddendsPrefix(key, n);
    }
  }

  lemma AddendsPrefix(key: seq<uint8>, n: nat)
    requires key != [] && 0 < n <= 256
    ensures KeyAddends(key, n)[..n - 1] == KeyAddends(key, n - 1)
  {
    hide Schedule;
  }

  /** The index of the key schedule in closed form. */
  lemma ScheduleClosedForm(key: seq<uint8>, n: nat)
    requires key != [] && n <= 256
    ensures var a := KeyAddends(key, n);
            Schedule(key, n).0 == WeightedSum(a, n, n) % 256
  {
    hide Schedule, IndexAfter, WeightedSum, KeyAddends;
    ScheduleIsIndexAfter(key, n);
    var a := KeyAddends(key, n);
    IndexClosedForm(0, a);
    FromZero(Pow2(n), WeightedSum(a, n, n));
    SmallMod(Schedule(key, n).0, 256);
  }

  lemma FromZero(p: nat, sum: nat)
    ensures (p * 0 + sum) % 256 == sum % 256
  {
  }

  /** Rounds that see the same key bytes give the same table. */
  lemma {:induction false} SameKeySoFar(key1: seq<uint8>, key2: seq<uint8>, k: nat)
    requires |key1| == |key2| && k <= |key1| <= 256 && key1 != [] && key1[..k] == key2[..k]
    ensures Schedule(key1, k) == Schedule(key2, k)
  {
    hide Swapped, Advance;
    if k != 0 {
      assert key1[..k - 1] == key1[..k][..k - 1] && key2[..k - 1] == key2[..k][..k - 1];
      SameKeySoFar(key1, key2, k - 1);
      assert key1[k - 1] == key1[..k][k - 1] && key2[k - 1] == key2[..k][k - 1];
      SmallMod(k - 1, |key1|);
    }
  }

  lemma SmallMod(k: nat, n: nat)
    requires k < n
    ensures k % n == k
  {
  }

  lemma AdvanceApart(j: nat, e: nat, x: uint8, y: uint8)
    requires x != y
    ensures Advance(j, e + x as nat) != Advance(j, e + y as nat)
  {
  }

  /**
   The schedule depends on the key: for two keys that first differ at byte `k`, the table is the same
   before round `k`, and after it both the index and the table differ.
   */
  lemma KeySensitive(key1: seq<uint8>, key2: seq<uint8>, k: nat)
    requires |key1| == |key2| <= 256 && k < |key1| && key1[..k] == key2[..k] && key1[k] != key2[k]
    ensures Schedule(key1, k) == Schedule(key2, k)
    ensures Schedule(key1, k + 1).0 != Schedule(key2, k + 1).0
    ensures Schedule(key1, k + 1).1 != Schedule(key2, k + 1).1
  {
    hide Swapped, Advance, IsPermutation;
    SameKeySoFar(key1, key2, k);
    SmallMod(k, |key1|);
    var (j, s) := Schedule(key1, k);
    AdvanceApart(j, s[k] as nat, key1[k], key2[k]);
    SchedulePermutes(key1, k);
    var a, b := Schedule(key1, k + 1).0, Schedule(key2, k + 1).0;
    SwapExchanges(s, k, a);
    SwapExchanges(s, k, b);
    NoEntryTwice(s, a, b);
  }

  lemma NoEntryTwice(s: seq<uint8>, a: nat, b: nat)
    requires IsPermutation(s) && a < 256 && b < 256 && a != b
    ensures s[a] != s[b]
  {
    if a < b { assert s[a] != s[b]; } else { assert s[b] != s[a]; }
  }

  // ---- The generator's own runs ----

  /** The bytes that `n` calls add to the index. */
  function AddedBytes(st: State, n: nat): (a: seq<nat>)
    requires Sized(st)
    ensures |a| == n
  {
    if n == 0 then [] else AddedBytes(st, n - 1) + [NextAdded(After(st, n - 1))]
  }

  lemma {:induction false} IndexOfRun(st: State, n: nat)
    requires Sized(st)
    ensures After(st, n).j == IndexAfter(st.j, AddedBytes(st, n))
  {
    hide Advance;
    if n != 0 {
      IndexOfRun(st, n - 1);
      assert AddedBytes(st, n)[..n - 1] == AddedBytes(st, n - 1);
    }
  }

  /**
   The index of the generator after `n` calls in closed form; from eight calls on it is a function of
   the last eight bytes added: starting from any other index `k` gives the same.
   */
  lemma GeneratorIndex(st: State, n: nat, k: nat)
    requires Sized(st)
    ensures var a := AddedBytes(st, n);
            && After(st, n).j == (Pow2(n) * st.j + WeightedSum(a, n, n)) % 256
            && (n >= 8 ==> After(st, n).j == IndexAfter(k, a[n - 8..]))
  {
    hide WeightedSum, IndexAfter, After, AddedBytes;
    var a := AddedBytes(st, n);
    IndexOfRun(st, n);
    IndexClosedForm(st.j, a);
    if n >= 8 {
      LastEightDecide(st.j, k, a);
    }
  }
}
