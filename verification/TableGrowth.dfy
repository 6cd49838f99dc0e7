/**
 What `hashmap_put` and `hashmap_rehash` do to the slots of any table, duplicates and holes
 included, nested rehashes included. `limit` is the largest table the allocator grants: a
 rehash beyond it is MAP_OMEM, written None.
 */
module TableGrowth {
  import opened Prelude
  import opened HashTable

  /** The slots after an operation, and the pairs it handed to the free functions. */
  datatype Change = Change(slots: seq<Slot>, freed: seq<Slot>)

  function Blank(n: nat): seq<Slot> { seq(n, _ => Empty) }

  /** `hashmap_hash` returns an index: not half full, and one of the eight probes stops. */
  predicate HasRoom(hash: Hash, s: seq<Slot>, k: Key)
    requires Big(s)
  {
    |UsedSlots(s)| < |s| / 2 && Probe(hash, s, k, 0).Some?
  }

  /** The pair in the slot a put stops at, if there is one. */
  function Overwritten(hash: Hash, s: seq<Slot>, k: Key): seq<Slot>
    requires Big(s) && Probe(hash, s, k, 0).Some?
  {
    var x := SlotAt(hash, s, k, Probe(hash, s, k, 0).value);
    if x.Used? then [x] else []
  }

  function Room(limit: nat, n: nat): nat { if n < limit then limit - n else 0 }

  function After(freed: seq<Slot>, r: Option<Change>): Option<Change> {
    if r.Some? then Some(Change(r.value.slots, freed + r.value.freed)) else None
  }

  lemma AfterAfter(f: seq<Slot>, g: seq<Slot>, r: Option<Change>)
    ensures After(f, After(g, r)) == After(f + g, r) && After([], r) == r
  {
    if r.Some? {
      Assoc(f, g, r.value.freed);
      assert [] + r.value.freed == r.value.freed;
    }
  }

  function PutSlots(hash: Hash, limit: nat, s: seq<Slot>, k: Key, v: Pointer): (r: Option<Change>)
    requires Big(s)
    ensures r.Some? ==> |r.value.slots| >= |s|
    decreases Room(limit, |s|), 1, 0
  {
    if HasRoom(hash, s, k) then Some(Change(Written(hash, s, k, v), Overwritten(hash, s, k)))
    else if 2 * |s| > limit then None
    else
      var g := RehashSlots(hash, limit, s);
      if g.None? then None else After(g.value.freed, PutSlots(hash, limit, g.value.slots, k, v))
  }

  function RehashSlots(hash: Hash, limit: nat, s: seq<Slot>): (r: Option<Change>)
    requires Big(s) && 2 * |s| <= limit
    ensures r.Some? ==> |r.value.slots| >= 2 * |s|
    decreases Room(limit, |s|), 0, 0
  {
    RefillSlots(hash, limit, s, 0, Blank(2 * |s|))
  }

  /** Put the pairs of s from slot i on into t, slot by slot. */
  function RefillSlots(hash: Hash, limit: nat, s: seq<Slot>, i: nat, t: seq<Slot>): (r: Option<Change>)
    requires Big(t) && i <= |s|
    ensures r.Some? ==> |r.value.slots| >= |t|
    decreases Room(limit, |t|), 3, |s| - i
  {
    if i == |s| then Some(Change(t, []))
    else
      var p := RefillNext(hash, limit, s[i], t);
      if p.None? then None else After(p.value.freed, RefillSlots(hash, limit, s, i + 1, p.value.slots))
  }

  /** One turn of the rehash loop: an empty slot is skipped. */
  function RefillNext(hash: Hash, limit: nat, x: Slot, t: seq<Slot>): (r: Option<Change>)
    requires Big(t)
    ensures r.Some? ==> |r.value.slots| >= |t|
    decreases Room(limit, |t|), 2, 0
  {
    if x.Empty? then Some(Change(t, [])) else PutSlots(hash, limit, t, x.key, x.value)
  }

  // ---------------------------------------- conservation, for every table

  /** The pairs a table holds, with multiplicity. */
  function Pairs(s: seq<Slot>): multiset<Slot> { multiset(s)[Empty := 0] }

  lemma PairsUpdate(s: seq<Slot>, j: nat, x: Slot)
    requires j < |s|
    ensures Pairs(s[j := x]) + multiset(if s[j].Used? then [s[j]] else []) ==
            Pairs(s) + multiset(if x.Used? then [x] else [])
  {
    assert s[j] in multiset(s);
    assert multiset(s[j := x]) == multiset(s) - multiset{s[j]} + multiset{x};
  }

  lemma PairsStep(s: seq<Slot>, i: nat)
    requires i < |s|
    ensures Pairs(s[i..]) == (if s[i].Used? then multiset{s[i]} else multiset{}) + Pairs(s[i + 1..])
  {
    assert s[i..] == [s[i]] + s[i + 1..];
  }

  lemma BlankPairs(n: nat)
    ensures Pairs(Blank(n)) == multiset{}
  {
    assert forall x :: x in Blank(n) ==> x == Empty;
    forall x ensures Pairs(Blank(n))[x] == 0 {
      if x != Empty { assert x !in Blank(n); }
    }
  }

  /** Two changes in a row: p0 to p1 taking n in and freeing f, p1 to p2 taking r in and freeing g. */
  lemma Compose(p0: multiset<Slot>, n: multiset<Slot>, f: seq<Slot>, p1: multiset<Slot>, r: multiset<Slot>,
                g: seq<Slot>, p2: multiset<Slot>)
    requires p1 + multiset(f) == p0 + n && p2 + multiset(g) == p1 + r
    ensures p2 + multiset(f + g) == p0 + (n + r)
  {
    assert multiset(f + g) == multiset(f) + multiset(g);
    assert p2 + multiset(f + g) == (p2 + multiset(g)) + multiset(f);
    assert (p1 + r) + multiset(f) == (p1 + multiset(f)) + r;
  }

  /**
   For every table, a put keeps or frees every pair exactly once: what the table holds
   afterwards and what was freed is what it held before and the new pair.
   */
  lemma {:induction false} PutConserves(hash: Hash, limit: nat, s: seq<Slot>, k: Key, v: Pointer)
    requires Big(s) && PutSlots(hash, limit, s, k, v).Some?
    ensures var r := PutSlots(hash, limit, s, k, v).value;
            Pairs(r.slots) + multiset(r.freed) == Pairs(s) + multiset{Used(k, v)}
    decreases Room(limit, |s|), 1, 0
  {
    if HasRoom(hash, s, k) {
      PairsUpdate(s, Ix(hash, |s|, k, Probe(hash, s, k, 0).value), Used(k, v));
    } else {
      var g := RehashSlots(hash, limit, s).value;
      RehashConserves(hash, limit, s);
      PutConserves(hash, limit, g.slots, k, v);
      var r := PutSlots(hash, limit, g.slots, k, v).value;
      Compose(Pairs(s), multiset{}, g.freed, Pairs(g.slots), multiset{Used(k, v)}, r.freed, Pairs(r.slots));
    }
  }

  lemma {:induction false} RehashConserves(hash: Hash, limit: nat, s: seq<Slot>)
    requires Big(s) && 2 * |s| <= limit && RehashSlots(hash, limit, s).Some?
    ensures var r := RehashSlots(hash, limit, s).value;
            Pairs(r.slots) + multiset(r.freed) == Pairs(s)
    decreases Room(limit, |s|), 0, 0
  {
    RefillConserves(hash, limit, s, 0, Blank(2 * |s|));
    BlankPairs(2 * |s|);
    assert s[0..] == s;
  }

  lemma {:induction false} RefillConserves(hash: Hash, limit: nat, s: seq<Slot>, i: nat, t: seq<Slot>)
    requires Big(t) && i <= |s| && RefillSlots(hash, limit, s, i, t).Some?
    ensures var r := RefillSlots(hash, limit, s, i, t).value;
            Pairs(r.slots) + multiset(r.freed) == Pairs(t) + Pairs(s[i..])
    decreases Room(limit, |t|), 3, |s| - i
  {
    if i < |s| {
      PairsStep(s, i);
      var p := RefillNext(hash, limit, s[i], t).value;
      if s[i].Used? { PutConserves(hash, limit, t, s[i].key, s[i].value); }
      RefillConserves(hash, limit, s, i + 1, p.slots);
      var r, one := RefillSlots(hash, limit, s, i + 1, p.slots).value, if s[i].Used? then multiset{s[i]} else multiset{};
      Compose(Pairs(t), one, p.freed, Pairs(p.slots), Pairs(s[i + 1..]), r.freed, Pairs(r.slots));
    }
  }

  // --------------------------------------------------- one slot per key

  /** The put would make a second copy of its key: it does not grow, and stops at a hole before it. */
  predicate HoleMet(hash: Hash, s: seq<Slot>, k: Key)
    requires Big(s)
  {
    |UsedSlots(s)| < |s| / 2 && HoleBefore(hash, s, k)
  }

  /** From one slot per key: the map changes at k only, the pair overwritten is freed and no other. */
  lemma {:induction false} PutStores(hash: Hash, limit: nat, s: seq<Slot>, k: Key, v: Pointer)
    requires Big(s) && OneSlot(hash, s) && !HoleMet(hash, s, k) && PutSlots(hash, limit, s, k, v).Some?
    ensures var r := PutSlots(hash, limit, s, k, v).value;
            && Stored(hash, s, r.slots, k, v, r.freed)
            && (Tight(hash, s) || |r.slots| > |s| ==> Tight(hash, r.slots))
    decreases Room(limit, |s|), 1, 0
  {
    if HasRoom(hash, s, k) {
      PutFacts(hash, s, k, v);
      PutSlot(hash, s, k);
      if Tight(hash, s) { PutKeepsTight(hash, s, k, v); }
    } else {
      var g := RehashSlots(hash, limit, s).value;
      RehashKeeps(hash, limit, s);
      TightHasNoHole(hash, g.slots, k);
      PutStores(hash, limit, g.slots, k, v);
      var r := PutSlots(hash, limit, g.slots, k, v).value;
      assert g.freed + r.freed == r.freed;
      StoredAfterGrowth(hash, s, g.slots, r.slots, k, v, r.freed);
    }
  }

  lemma PutLookups(hash: Hash, limit: nat, s: seq<Slot>, k: Key, v: Pointer, q: Key)
    requires Big(s) && OneSlot(hash, s) && !HoleMet(hash, s, k) && PutSlots(hash, limit, s, k, v).Some?
    ensures var r, before := PutSlots(hash, limit, s, k, v).value, Lookup(hash, s, k);
            && Lookup(hash, r.slots, q) == (if q == k then Some(v) else Lookup(hash, s, q))
            && r.freed == if before.Some? then [Used(k, before.value)] else []
  {
    PutStores(hash, limit, s, k, v);
    KeysAreFound(hash, s, k);
  }

  lemma BlankRefilled(hash: Hash, s: seq<Slot>, n: nat)
    requires n >= MAX_CHAIN_LENGTH
    ensures Refilled(hash, s, 0, Blank(n))
  {
    assert Keys(Blank(n)) == {} == Keys(s[..0]);
  }

  /**
   A rehash, nested rehashes included: same key-value map and keys, nothing freed, and no
   empty slot earlier on any key's probe path.
   */
  lemma {:induction false} RehashKeeps(hash: Hash, limit: nat, s: seq<Slot>)
    requires Big(s) && 2 * |s| <= limit && OneSlot(hash, s) && RehashSlots(hash, limit, s).Some?
    ensures var r := RehashSlots(hash, limit, s).value;
            OneSlot(hash, r.slots) && Tight(hash, r.slots) && Regrown(hash, s, r.slots) && r.freed == []
    decreases Room(limit, |s|), 0, 0
  {
    BlankRefilled(hash, s, 2 * |s|);
    RefillKeeps(hash, limit, s, 0, Blank(2 * |s|));
    RefillEnd(hash, s, RehashSlots(hash, limit, s).value.slots);
  }

  /** One turn of the rehash loop, from the pairs of the first i slots to those of the first i + 1. */
  lemma {:induction false} RefillOne(hash: Hash, limit: nat, s: seq<Slot>, i: nat, t: seq<Slot>)
    requires Big(s) && OneSlot(hash, s) && i < |s| && Big(t) && Refilled(hash, s, i, t)
    requires RefillNext(hash, limit, s[i], t).Some?
    ensures var p := RefillNext(hash, limit, s[i], t).value;
            Refilled(hash, s, i + 1, p.slots) && p.freed == []
    decreases Room(limit, |t|), 2, 0
  {
    if s[i].Empty? {
      RefillSkip(hash, s, i, t);
    } else {
      var p := PutSlots(hash, limit, t, s[i].key, s[i].value).value;
      TightHasNoHole(hash, t, s[i].key);
      PutStores(hash, limit, t, s[i].key, s[i].value);
      RefillPut(hash, s, i, t, p.slots, p.freed);
    }
  }

  lemma {:induction false} RefillKeeps(hash: Hash, limit: nat, s: seq<Slot>, i: nat, t: seq<Slot>)
    requires Big(s) && OneSlot(hash, s) && i <= |s| && Big(t) && Refilled(hash, s, i, t)
    requires RefillSlots(hash, limit, s, i, t).Some?
    ensures var r := RefillSlots(hash, limit, s, i, t).value;
            Refilled(hash, s, |s|, r.slots) && r.freed == []
    decreases Room(limit, |t|), 3, |s| - i
  {
    hide Refilled;
    if i < |s| {
      RefillOne(hash, limit, s, i, t);
      RefillKeeps(hash, limit, s, i + 1, RefillNext(hash, limit, s[i], t).value.slots);
    }
  }

  /** A put, growing or not, keeps one slot per key exactly when it meets no hole before its key. */
  lemma PutOneSlotExactlyWhen(hash: Hash, limit: nat, s: seq<Slot>, k: Key, v: Pointer)
    requires Big(s) && OneSlot(hash, s) && PutSlots(hash, limit, s, k, v).Some?
    ensures OneSlot(hash, PutSlots(hash, limit, s, k, v).value.slots) <==> !HoleMet(hash, s, k)
  {
    if HoleMet(hash, s, k) {
      PutKeepsOneSlotExactlyWhen(hash, s, k, v);
    } else {
      PutStores(hash, limit, s, k, v);
    }
  }

  /** A window whose first copy of k is at probe p is left, without that slot, with the copy at f. */
  lemma NextCopy(hash: Hash, s: seq<Slot>, k: Key, p: nat, f: nat)
    requires Big(s) && p < f < MAX_CHAIN_LENGTH && Has(SlotAt(hash, s, k, f), k)
    requires forall x :: 0 <= x < f && x != p ==> !Has(SlotAt(hash, s, k, x), k)
    ensures Lookup(hash, s[Ix(hash, |s|, k, p) := Empty], k) == Some(SlotAt(hash, s, k, f).value)
  {
    var u := s[Ix(hash, |s|, k, p) := Empty];
    assert forall x :: 0 <= x < MAX_CHAIN_LENGTH && x != p ==> SlotAt(hash, u, k, x) == SlotAt(hash, s, k, x);
    assert Find(hash, u, k, 0) == Some(f);
  }

  /** The other copy: a key put past a hole and then removed is found again, with its old value. */
  lemma HoleResurfaces(hash: Hash, limit: nat, s: seq<Slot>, k: Key, v: Pointer)
    requires Big(s) && HoleMet(hash, s, k)
    ensures PutSlots(hash, limit, s, k, v).Some?
    ensures var t := PutSlots(hash, limit, s, k, v).value.slots;
            Lookup(hash, t, k) == Some(v) && Lookup(hash, Erased(hash, t, k), k) == Lookup(hash, s, k) != None
  {
    var t := Written(hash, s, k, v);
    var p, f := Probe(hash, s, k, 0).value, Find(hash, s, k, 0).value;
    assert forall x :: 0 <= x < MAX_CHAIN_LENGTH && x != p ==> SlotAt(hash, t, k, x) == SlotAt(hash, s, k, x);
    assert Has(SlotAt(hash, t, k, p), k);
    assert Find(hash, t, k, 0) == Some(p);
    NextCopy(hash, t, k, p, f);
  }

  lemma PutHalfFull(hash: Hash, limit: nat, s: seq<Slot>, k: Key, v: Pointer)
    requires Big(s) && PutSlots(hash, limit, s, k, v).Some?
    ensures var t := PutSlots(hash, limit, s, k, v).value.slots; |UsedSlots(t)| <= |t| / 2
    decreases Room(limit, |s|)
  {
    if HasRoom(hash, s, k) {
      WrittenSets(hash, s, k, v);
    } else {
      PutHalfFull(hash, limit, RehashSlots(hash, limit, s).value.slots, k, v);
    }
  }

  // --------------------------------------------------------- growth ends

  lemma HomesAreOneSlot(hash: Hash, s: seq<Slot>)
    requires Big(s) && AllHome(hash, s)
    ensures OneSlot(hash, s)
  {
  }

  lemma SubsetCount<T>(a: set<T>, b: set<T>)
    requires a <= b
    ensures |a| <= |b|
  {
    assert b == a + (b - a);
  }

  /** A table that must grow can: at the assumed size every key has a home of its own. */
  lemma CanGrow(hash: Hash, limit: nat, s: seq<Slot>, keys: set<Key>, k: Key)
    requires Big(s) && Growable(hash, s, keys, limit) && k in keys && !HasRoom(hash, s, k)
    ensures 2 * |s| <= limit && Doubles(2 * |s|, limit)
  {
    if |s| == limit {
      HomeProbe(hash, s, keys, k);
      HomesAreOneSlot(hash, s);
      SizeIsKeys(hash, s);
      SubsetCount(Keys(s), keys);
    }
  }

  /** For every table, duplicates or not: a put succeeds under the assumption that growth can end. */
  lemma {:induction false} PutSucceeds(hash: Hash, limit: nat, s: seq<Slot>, keys: set<Key>, k: Key, v: Pointer)
    requires Big(s) && Growable(hash, s, keys, limit) && k in keys
    ensures PutSlots(hash, limit, s, k, v).Some?
    ensures Growable(hash, PutSlots(hash, limit, s, k, v).value.slots, keys, limit)
    decreases Room(limit, |s|), 1, 0
  {
    if HasRoom(hash, s, k) {
      WrittenGrowable(hash, s, keys, limit, k, v);
    } else {
      CanGrow(hash, limit, s, keys, k);
      RehashSucceeds(hash, limit, s, keys);
      PutSucceeds(hash, limit, RehashSlots(hash, limit, s).value.slots, keys, k, v);
    }
  }

  lemma {:induction false} RehashSucceeds(hash: Hash, limit: nat, s: seq<Slot>, keys: set<Key>)
    requires Big(s) && Growable(hash, s, keys, limit) && 2 * |s| <= limit && Doubles(2 * |s|, limit)
    ensures RehashSlots(hash, limit, s).Some?
    ensures Growable(hash, RehashSlots(hash, limit, s).value.slots, keys, limit)
    decreases Room(limit, |s|), 0, 0
  {
    var t := Blank(2 * |s|);
    assert Keys(t) == {};
    RefillSucceeds(hash, limit, s, 0, t, keys);
  }

  lemma {:induction false} RefillSucceeds(hash: Hash, limit: nat, s: seq<Slot>, i: nat, t: seq<Slot>, keys: set<Key>)
    requires i <= |s| && Keys(s) <= keys && Big(t) && Growable(hash, t, keys, limit)
    ensures RefillSlots(hash, limit, s, i, t).Some?
    ensures Growable(hash, RefillSlots(hash, limit, s, i, t).value.slots, keys, limit)
    decreases Room(limit, |t|), 3, |s| - i
  {
    if i < |s| {
      if s[i].Used? {
        assert s[i].key in Keys(s);
        PutSucceeds(hash, limit, t, keys, s[i].key, s[i].value);
      }
      RefillSucceeds(hash, limit, s, i + 1, RefillNext(hash, limit, s[i], t).value.slots, keys);
    }
  }
}
