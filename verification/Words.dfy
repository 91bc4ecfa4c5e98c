/** Machine words shared by the model, and the algebra of XOR folds over them. */
module Words {

  /** A node id: the last two bytes of the node's address. */
  type Id = bv16

  /** `uint8_t`: every assignment to such a variable is checked not to wrap. */
  newtype uint8 = x: int | 0 <= x < 0x100

  /** Assignment of a C int to a `uint8_t`. */
  function ToByte(n: int): uint8 {
    (n % 0x100) as uint8
  }

  datatype Option<+T> = None | Some(value: T)

  // ---- XOR folds ----
  //
  // Proofs that only regroup XORs hide the definition of Xor and cite the identities below, which
  // keeps 64-bit reasoning out of their obligations.

  function Xor(a: bv64, b: bv64): bv64 {
    a ^ b
  }

  /** The XOR of all elements, 0 for the empty sequence. */
  function XorAll(s: seq<bv64>): bv64 {
    if s == [] then 0 else Xor(XorAll(s[..|s| - 1]), s[|s| - 1])
  }

  /** `x` XORed with itself `k` times. */
  function Times(x: bv64, k: nat): bv64 {
    if k == 0 then 0 else Xor(Times(x, k - 1), x)
  }

  lemma XorZero(a: bv64)
    ensures Xor(a, 0) == a && Xor(0, a) == a && Xor(a, a) == 0
  {
  }

  lemma XorCommutes(a: bv64, b: bv64)
    ensures Xor(a, b) == Xor(b, a)
  {
  }

  lemma XorAssociates(a: bv64, b: bv64, c: bv64)
    ensures Xor(Xor(a, b), c) == Xor(a, Xor(b, c))
  {
    hide Xor;
    LeftBits(a, b, c);
    RightBits(a, b, c);
  }

  lemma LeftBits(a: bv64, b: bv64, c: bv64)
    ensures Xor(Xor(a, b), c) == a ^ b ^ c
  {
  }

  lemma RightBits(a: bv64, b: bv64, c: bv64)
    ensures Xor(a, Xor(b, c)) == a ^ b ^ c
  {
  }

  /** The two middle words of four may change places. */
  lemma XorExchange(a: bv64, b: bv64, c: bv64, d: bv64)
    ensures Xor(Xor(a, b), Xor(c, d)) == Xor(Xor(a, c), Xor(b, d))
  {
    hide Xor;
    XorAssociates(Xor(a, b), c, d);
    XorAssociates(a, b, c);
    XorCommutes(b, c);
    XorAssociates(a, c, b);
    XorAssociates(Xor(a, c), b, d);
  }

  /** A word occurs on one side of an equation exactly when it may occur on the other. */
  lemma XorMove(a: bv64, b: bv64, c: bv64)
    ensures Xor(a, b) == c <==> a == Xor(c, b)
  {
    hide Xor;
    XorAssociates(a, b, b);
    XorAssociates(c, b, b);
    XorZero(a);
    XorZero(b);
    XorZero(c);
  }

  lemma XorSnoc(s: seq<bv64>, x: bv64)
    ensures XorAll(s + [x]) == Xor(XorAll(s), x)
  {
    hide Xor;
    assert (s + [x])[..|s|] == s;
  }

  lemma XorOne(x: bv64)
    ensures XorAll([x]) == x
  {
    XorSnoc([], x);
    assert [] + [x] == [x];
  }

  lemma {:induction false} XorConcat(s: seq<bv64>, t: seq<bv64>)
    ensures XorAll(s + t) == Xor(XorAll(s), XorAll(t))
  {
    hide Xor;
    if t == [] {
      assert s + t == s;
      XorZero(XorAll(s));
    } else {
      var u, x := t[..|t| - 1], t[|t| - 1];
      XorConcat(s, u);
      assert s + t == (s + u) + [x];
      XorSnoc(s + u, x);
      XorAssociates(XorAll(s), XorAll(u), x);
    }
  }

  /** Taking out the element at `k` takes its value out of the fold. */
  lemma XorRemove(s: seq<bv64>, k: nat)
    requires k < |s|
    ensures XorAll(s) == Xor(XorAll(s[..k] + s[k + 1..]), s[k])
  {
    hide Xor, XorAll;
    var a, x, b := s[..k], s[k], s[k + 1..];
    assert s == a + [x] + b;
    XorConcat(a + [x], b);
    XorSnoc(a, x);
    XorConcat(a, b);
    XorAssociates(XorAll(a), x, XorAll(b));
    XorCommutes(x, XorAll(b));
    XorAssociates(XorAll(a), XorAll(b), x);
  }

  /** Replacing the element at `k` replaces its value in the fold. */
  lemma XorReplace(s: seq<bv64>, k: nat, y: bv64)
    requires k < |s|
    ensures Xor(XorAll(s[k := y]), s[k]) == Xor(XorAll(s), y)
  {
    hide Xor;
    var t := s[k := y];
    var rest := s[..k] + s[k + 1..];
    XorRemove(s, k);
    XorRemove(t, k);
    assert t[..k] + t[k + 1..] == rest;
    XorAssociates(XorAll(rest), y, s[k]);
    XorCommutes(y, s[k]);
    XorAssociates(XorAll(rest), s[k], y);
  }

  lemma {:induction false} TimesAdd(x: bv64, a: nat, b: nat)
    ensures Times(x, a + b) == Xor(Times(x, a), Times(x, b))
  {
    hide Xor;
    if b == 0 {
      XorZero(Times(x, a));
    } else {
      TimesAdd(x, a, b - 1);
      XorAssociates(Times(x, a), Times(x, b - 1), x);
    }
  }

  lemma TimesOne(x: bv64)
    ensures Times(x, 1) == x
  {
    XorZero(x);
  }

  // ---- Sequences without repetition ----

  ghost predicate NoDup<T>(s: seq<T>) {
    forall i, j :: 0 <= i < j < |s| ==> s[i] != s[j]
  }

  lemma JoinNoDup<T>(a: seq<T>, b: seq<T>)
    requires NoDup(a) && NoDup(b) && forall x :: x in b ==> x !in a
    ensures NoDup(a + b)
  {
    assert forall i :: 0 <= i < |b| ==> b[i] in b;
    assert forall i :: 0 <= i < |a| ==> a[i] in a;
  }

  lemma MultisetRemove<T>(s: seq<T>, k: nat)
    requires k < |s|
    ensures multiset(s[..k] + s[k + 1..]) == multiset(s) - multiset{s[k]}
  {
    assert s == s[..k] + [s[k]] + s[k + 1..];
  }

  /** The elements of a sequence. */
  function SetOf<T>(s: seq<T>): set<T> {
    set x | x in s
  }
}
