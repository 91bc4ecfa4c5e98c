/** The child table of a relay (relay-node/list_utility.c). */
module ChildTable {
  import opened Words

  /** Entries in the memory pool the table is allocated from (utility-functions.h). */
  const MAX_CHILD := 10

  datatype Child = Child(id: Id, received: bool)

  /** An entry of the RPL neighbour table: the neighbour's address bytes and its rank. */
  datatype Neighbour = Neighbour(address: seq<bv8>, rank: nat)

  // ---- What the table operations compute ----

  /** The ids in the table, in order. */
  function Ids(t: seq<Child>): (r: seq<Id>)
    ensures |r| == |t|
    ensures forall i :: 0 <= i < |t| ==> r[i] == t[i].id
  {
    seq(|t|, i requires 0 <= i < |t| => t[i].id)
  }

  predicate Has(t: seq<Child>, c: Id) {
    exists i :: 0 <= i < |t| && t[i].id == c
  }

  predicate IsSet(t: seq<Child>, c: Id) {
    exists i :: 0 <= i < |t| && t[i].id == c && t[i].received
  }

  predicate AllSet(t: seq<Child>) {
    forall i :: 0 <= i < |t| ==> t[i].received
  }

  /** Sets the flag of the first entry for `c`. */
  function Mark(t: seq<Child>, c: Id): (r: seq<Child>)
    ensures |r| == |t| && Ids(r) == Ids(t)
  {
    if t == [] then []
    else if t[0].id == c then [t[0].(received := true)] + t[1..]
    else [t[0]] + Mark(t[1..], c)
  }

  function Cleared(t: seq<Child>): (r: seq<Child>)
    ensures |r| == |t| && Ids(r) == Ids(t)
    ensures forall i :: 0 <= i < |t| ==> !r[i].received
  {
    seq(|t|, i requires 0 <= i < |t| => t[i].(received := false))
  }

  /** The number of set flags. */
  function FlagCount(t: seq<Child>): nat {
    if t == [] then 0 else FlagCount(t[1..]) + (if t[0].received then 1 else 0)
  }

  // ---- Lemmas about the flags ----

  lemma {:induction false} MarkAt(t: seq<Child>, c: Id, k: nat)
    requires k < |t| && t[k].id == c
    requires forall i :: 0 <= i < k ==> t[i].id != c
    ensures Mark(t, c) == t[k := Child(c, true)]
  {
    if k != 0 {
      MarkAt(t[1..], c, k - 1);
    }
  }

  lemma {:induction false} FlagCountUpdate(t: seq<Child>, k: nat)
    requires k < |t|
    ensures FlagCount(t[k := t[k].(received := true)])
         == FlagCount(t) + (if t[k].received then 0 else 1)
  {
    var u := t[k := t[k].(received := true)];
    if k == 0 {
      assert u[1..] == t[1..];
    } else {
      FlagCountUpdate(t[1..], k - 1);
      assert u[1..] == t[1..][k - 1 := t[1..][k - 1].(received := true)];
    }
  }

  lemma FirstIndex(t: seq<Child>, c: Id) returns (k: nat)
    requires Has(t, c)
    ensures k < |t| && t[k].id == c && forall i :: 0 <= i < k ==> t[i].id != c
  {
    ghost var w :| 0 <= w < |t| && t[w].id == c;
    k := 0;
    while t[k].id != c
      invariant k <= w && forall i :: 0 <= i < k ==> t[i].id != c
      decreases w - k
    {
      k := k + 1;
    }
  }

  /** Marking a known child adds one flag exactly when the child's first entry was clear. */
  lemma MarkCounts(t: seq<Child>, c: Id)
    requires Has(t, c) && NoDup(Ids(t))
    ensures FlagCount(Mark(t, c)) == FlagCount(t) + (if IsSet(t, c) then 0 else 1)
  {
    var k := FirstIndex(t, c);
    MarkAt(t, c, k);
    FlagCountUpdate(t, k);
    assert t[k] == Child(c, t[k].received);
    if t[k].received {
      assert IsSet(t, c);
    } else if IsSet(t, c) {
      var i :| 0 <= i < |t| && t[i].id == c && t[i].received;
      assert false;
    }
  }

  lemma AllSetTail(t: seq<Child>)
    requires t != []
    ensures AllSet(t) <==> t[0].received && AllSet(t[1..])
  {
    assert forall i :: 1 <= i < |t| ==> t[i] == t[1..][i - 1];
  }

  lemma {:induction false} FlagCountBound(t: seq<Child>)
    ensures FlagCount(t) <= |t|
    ensures FlagCount(t) == |t| <==> AllSet(t)
  {
    if t != [] {
      FlagCountBound(t[1..]);
      AllSetTail(t);
    }
  }

  lemma {:induction false} ClearedCount(t: seq<Child>)
    ensures FlagCount(Cleared(t)) == 0
  {
    if t != [] {
      ClearedCount(t[1..]);
      assert Cleared(t)[1..] == Cleared(t[1..]);
    }
  }

  // ---- From the neighbour table to the child table ----

  /** Bytes 14 and 15 of the address, high byte first. */
  function IdOfAddress(address: seq<bv8>): Id
    requires |address| == 16
  {
    SpellId(address[14], address[15])
  }

  function SpellId(high: bv8, low: bv8): Id {
    ((high as Id) << 8) | (low as Id)
  }

  /** The test of `fill_child_entries`. */
  predicate IsBelow(p: Neighbour, rank: nat) {
    p.rank > rank
  }

  /** The neighbours whose rank is above `rank`, as unmarked entries. */
  function ChildEntries(neighbours: seq<Neighbour>, rank: nat): seq<Child>
    requires forall p :: p in neighbours ==> |p.address| == 16
  {
    if neighbours == [] then []
    else
      var p := neighbours[|neighbours| - 1];
      var before := ChildEntries(neighbours[..|neighbours| - 1], rank);
      if IsBelow(p, rank) then before + [Child(IdOfAddress(p.address), false)] else before
  }

  lemma {:induction false} ChildEntriesFresh(neighbours: seq<Neighbour>, rank: nat)
    requires forall p :: p in neighbours ==> |p.address| == 16
    ensures |ChildEntries(neighbours, rank)| <= |neighbours|
    ensures forall e :: e in ChildEntries(neighbours, rank) ==> !e.received
    ensures forall c :: Has(ChildEntries(neighbours, rank), c) <==>
                        exists p :: p in neighbours && p.rank > rank && IdOfAddress(p.address) == c
  {
    var es := ChildEntries(neighbours, rank);
    if neighbours != [] {
      var n := |neighbours| - 1;
      var before := ChildEntries(neighbours[..n], rank);
      ChildEntriesFresh(neighbours[..n], rank);
      forall c
        ensures Has(es, c) <==> exists p :: p in neighbours && p.rank > rank && IdOfAddress(p.address) == c
      {
        if Has(es, c) {
          var i :| 0 <= i < |es| && es[i].id == c;
          if i < |before| {
            assert Has(before, c);
          } else {
            assert neighbours[n] in neighbours;
          }
        }
        if p :| p in neighbours && p.rank > rank && IdOfAddress(p.address) == c {
          if p in neighbours[..n] {
            assert Has(before, c);
            var i :| 0 <= i < |before| && before[i].id == c;
            assert es[i].id == c;
          } else {
            assert es[|es| - 1].id == c;
          }
        }
      }
    }
  }

  // ---- Where packets go (utility-functions.c) ----

  /** `rpl_neighbor_is_parent`. */
  predicate IsParent(p: Neighbour, rank: nat, isClient: bool) {
    isClient || p.rank < rank
  }

  /** The ids of the neighbours a node of rank `rank` sends to. */
  function Targets(neighbours: seq<Neighbour>, rank: nat, isClient: bool): seq<Id>
    requires forall p :: p in neighbours ==> |p.address| == 16
  {
    if neighbours == [] then []
    else
      var p := neighbours[|neighbours| - 1];
      var before := Targets(neighbours[..|neighbours| - 1], rank, isClient);
      if IsParent(p, rank, isClient) then before + [IdOfAddress(p.address)] else before
  }

  /** `send_to_parents`: the destinations, in the order of the neighbour table. */
  method SendToParents(neighbours: seq<Neighbour>, rank: nat, isClient: bool) returns (sentTo: seq<Id>)
    requires forall p :: p in neighbours ==> |p.address| == 16
    ensures sentTo == Targets(neighbours, rank, isClient)
  {
    sentTo := [];
    var i := 0;
    while i < |neighbours|
      invariant 0 <= i <= |neighbours|
      invariant sentTo == Targets(neighbours[..i], rank, isClient)
    {
      assert neighbours[..i + 1][..i] == neighbours[..i];
      if IsParent(neighbours[i], rank, isClient) {
        sentTo := sentTo + [IdOfAddress(neighbours[i].address)];
      }
      i := i + 1;
    }
    assert neighbours[..i] == neighbours;
  }

  lemma {:induction false} TargetsAre(neighbours: seq<Neighbour>, rank: nat, isClient: bool, c: Id)
    requires forall p :: p in neighbours ==> |p.address| == 16
    ensures c in Targets(neighbours, rank, isClient) <==>
            exists p :: p in neighbours && (isClient || p.rank < rank) && IdOfAddress(p.address) == c
  {
    if neighbours != [] {
      var n := |neighbours| - 1;
      TargetsAre(neighbours[..n], rank, isClient, c);
      assert neighbours == neighbours[..n] + [neighbours[n]];
    }
  }

  /** The destinations are those of the parents, each once, in the order of the neighbour table. */
  lemma {:induction false} TargetsInOrder(neighbours: seq<Neighbour>, rank: nat, isClient: bool) returns (ks: seq<nat>)
    requires forall p :: p in neighbours ==> |p.address| == 16
    ensures |ks| == |Targets(neighbours, rank, isClient)|
    ensures forall i :: 0 <= i < |ks| ==> ks[i] < |neighbours|
    ensures forall i, j :: 0 <= i < j < |ks| ==> ks[i] < ks[j]
    ensures forall i :: 0 <= i < |ks| ==>
              Targets(neighbours, rank, isClient)[i] == IdOfAddress(neighbours[ks[i]].address)
    ensures forall k :: k in ks <==> 0 <= k < |neighbours| && IsParent(neighbours[k], rank, isClient)
  {
    hide IdOfAddress, IsParent;
    if neighbours == [] {
      ks := [];
    } else {
      var n := |neighbours| - 1;
      ks := TargetsInOrder(neighbours[..n], rank, isClient);
      assert forall k :: 0 <= k < n ==> neighbours[..n][k] == neighbours[k];
      assert forall i :: 0 <= i < |ks| ==> ks[i] in ks;
      if IsParent(neighbours[n], rank, isClient) {
        ks := ks + [n];
      }
    }
  }

  /** The neighbours with id `c` to which packets go. */
  function Addressed(neighbours: seq<Neighbour>, rank: nat, isClient: bool, c: Id): set<nat>
    requires forall p :: p in neighbours ==> |p.address| == 16
  {
    set k: nat | k < |neighbours| && IsParent(neighbours[k], rank, isClient)
                 && IdOfAddress(neighbours[k].address) == c
  }

  /** How often `c` is in a list of ids. */
  function Occurrences(ids: seq<Id>, c: Id): nat {
    if ids == [] then 0 else Occurrences(ids[..|ids| - 1], c) + (if ids[|ids| - 1] == c then 1 else 0)
  }

  /** An id is a destination as often as there are such neighbours. */
  lemma {:induction false} TargetsCount(neighbours: seq<Neighbour>, rank: nat, isClient: bool, c: Id)
    requires forall p :: p in neighbours ==> |p.address| == 16
    ensures Occurrences(Targets(neighbours, rank, isClient), c) == |Addressed(neighbours, rank, isClient, c)|
  {
    hide IdOfAddress, IsParent;
    if neighbours != [] {
      var n := |neighbours| - 1;
      var front := neighbours[..n];
      TargetsCount(front, rank, isClient, c);
      var before, after := Addressed(front, rank, isClient, c), Addressed(neighbours, rank, isClient, c);
      assert n !in before;
      if IsParent(neighbours[n], rank, isClient) && IdOfAddress(neighbours[n].address) == c {
        assert after == before + {n};
      } else {
        assert after == before;
      }
    } else {
      assert Addressed(neighbours, rank, isClient, c) == {};
    }
  }

  lemma ChildEntriesNext(neighbours: seq<Neighbour>, rank: nat)
    requires forall p :: p in neighbours ==> |p.address| == 16
    ensures neighbours == [] ==> ChildEntries(neighbours, rank) == []
    ensures neighbours != [] ==>
              var n := |neighbours| - 1;
              ChildEntries(neighbours, rank) == ChildEntries(neighbours[..n], rank)
                + if IsBelow(neighbours[n], rank) then [Child(IdOfAddress(neighbours[n].address), false)] else []
  {
    hide IdOfAddress, IsBelow;
  }

  /** The child table follows the neighbours of higher rank in the same way. */
  lemma {:induction false} ChildEntriesInOrder(neighbours: seq<Neighbour>, rank: nat) returns (ks: seq<nat>)
    requires forall p :: p in neighbours ==> |p.address| == 16
    ensures |ks| == |ChildEntries(neighbours, rank)|
    ensures forall i :: 0 <= i < |ks| ==> ks[i] < |neighbours|
    ensures forall i, j :: 0 <= i < j < |ks| ==> ks[i] < ks[j]
    ensures forall i :: 0 <= i < |ks| ==>
              ChildEntries(neighbours, rank)[i].id == IdOfAddress(neighbours[ks[i]].address)
    ensures forall k :: k in ks <==> 0 <= k < |neighbours| && IsBelow(neighbours[k], rank)
  {
    hide IdOfAddress, IsBelow, ChildEntries;
    ChildEntriesNext(neighbours, rank);
    if neighbours == [] {
      ks := [];
    } else {
      var n := |neighbours| - 1;
      ks := ChildEntriesInOrder(neighbours[..n], rank);
      assert forall k :: 0 <= k < n ==> neighbours[..n][k] == neighbours[k];
      assert forall i :: 0 <= i < |ks| ==> ks[i] in ks;
      if IsBelow(neighbours[n], rank) {
        ks := ks + [n];
      }
    }
  }

  /** The id consists of bytes 14 and 15, high byte first, so two addresses have one id if they agree there. */
  lemma IdIsLastBytes(a: seq<bv8>, b: seq<bv8>)
    requires |a| == |b| == 16
    ensures HighByte(IdOfAddress(a)) == a[14] && LowByte(IdOfAddress(a)) == a[15]
    ensures IdOfAddress(a) == IdOfAddress(b) <==> a[14] == b[14] && a[15] == b[15]
  {
    hide SpellId, HighByte, LowByte;
    BytesOfId(a[14], a[15]);
    BytesOfId(b[14], b[15]);
  }

  function HighByte(id: Id): bv8 {
    (id >> 8) as bv8
  }

  function LowByte(id: Id): bv8 {
    (id & 0xff) as bv8
  }

  lemma BytesOfId(high: bv8, low: bv8)
    ensures HighByte(SpellId(high, low)) == high && LowByte(SpellId(high, low)) == low
  {
  }

  // ---- The table itself ----

  /** `child_list` and `num_nodes`. */
  class Table {
    var entries: seq<Child>
    var numNodes: nat

    ghost predicate Valid()
      reads this
    {
      numNodes == |entries| <= MAX_CHILD
    }

    /** `init_child_list`: fills the table from the RPL neighbour table. */
    constructor (neighbours: seq<Neighbour>, rank: nat)
      requires forall p :: p in neighbours ==> |p.address| == 16
      requires |ChildEntries(neighbours, rank)| <= MAX_CHILD
      ensures Valid() && entries == ChildEntries(neighbours, rank)
    {
      numNodes := 0;
      entries := [];
      new;
      var i := 0;
      while i < |neighbours|
        invariant 0 <= i <= |neighbours|
        invariant numNodes == |entries| && entries == ChildEntries(neighbours[..i], rank)
      {
        assert neighbours[..i + 1][..i] == neighbours[..i];
        var p := neighbours[i];
        if p.rank > rank {
          entries := entries + [Child(IdOfAddress(p.address), false)];
          numNodes := numNodes + 1;
        }
        i := i + 1;
      }
      assert neighbours[..i] == neighbours;
    }

    method IsChildSet(c: Id) returns (r: bool)
      ensures r == IsSet(entries, c)
    {
      var i := 0;
      while i < |entries|
        invariant 0 <= i <= |entries|
        invariant forall k :: 0 <= k < i ==> !(entries[k].id == c && entries[k].received)
      {
        if entries[i].id == c && entries[i].received { return true; }
        i := i + 1;
      }
      return false;
    }

    method RestChildList()
      requires Valid()
      modifies this
      ensures Valid() && entries == Cleared(old(entries))
    {
      var i := 0;
      while i < |entries|
        invariant 0 <= i <= |entries| == |old(entries)|
        invariant Valid()
        invariant forall k :: 0 <= k < i ==> entries[k] == old(entries)[k].(received := false)
        invariant forall k :: i <= k < |entries| ==> entries[k] == old(entries)[k]
      {
        entries := entries[i := entries[i].(received := false)];
        i := i + 1;
      }
    }

    method IsAllChildSet() returns (r: bool)
      ensures r == AllSet(entries)
    {
      var i := 0;
      while i < |entries|
        invariant 0 <= i <= |entries|
        invariant forall k :: 0 <= k < i ==> entries[k].received
      {
        if !entries[i].received { return false; }
        i := i + 1;
      }
      return true;
    }

    method IsChild(c: Id) returns (r: bool)
      ensures r == Has(entries, c)
    {
      var i := 0;
      while i < |entries|
        invariant 0 <= i <= |entries|
        invariant forall k :: 0 <= k < i ==> entries[k].id != c
      {
        if entries[i].id == c { return true; }
        i := i + 1;
      }
      return false;
    }

    method ChildSetPktReceived(c: Id) returns (r: bool)
      requires Valid()
      modifies this
      ensures Valid()
      ensures r == Has(old(entries), c) && entries == Mark(old(entries), c)
    {
      var i := 0;
      while i < |entries|
        invariant 0 <= i <= |entries|
        invariant Valid() && entries == old(entries)
        invariant forall k :: 0 <= k < i ==> entries[k].id != c
      {
        if entries[i].id == c {
          MarkAt(entries, c, i);
          entries := entries[i := entries[i].(received := true)];
          return true;
        }
        i := i + 1;
      }
      MarkAbsent(entries, c);
      return false;
    }

    method GetChildCount() returns (n: nat)
      requires Valid()
      ensures n == |entries|
    {
      return numNodes;
    }
  }

  lemma {:induction false} MarkAbsent(t: seq<Child>, c: Id)
    requires !Has(t, c)
    ensures Mark(t, c) == t
  {
    if t != [] {
      assert t[0].id != c;
      assert forall i :: 0 <= i < |t[1..]| ==> t[1..][i] == t[i + 1];
      MarkAbsent(t[1..], c);
    }
  }
}
