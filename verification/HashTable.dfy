/**
 The open-addressing table of src/hashmap.c: an eight-slot probe window, insertion
 that stops at the first empty slot, lookup and removal that scan the whole window.
 Slot sequences first: what one probe, put or removal does to the lookup function of
 an arbitrary table, and exactly when the table is a map. `hash` is any function.
 */
module HashTable {
  import opened Prelude

  const MAX_CHAIN_LENGTH: nat := 8
  const INITIAL_SIZE: nat := 256

  type Key = DataString

  /** A value the caller stores, as an address. */
  type Pointer = nat

  datatype Slot = Empty | Used(key: Key, value: Pointer)

  type Hash = Key -> nat

  predicate Has(x: Slot, k: Key) { x.Used? && x.key == k }

  function Home(hash: Hash, k: Key, n: nat): (h: nat)
    requires n > 0
    ensures h < n
  {
    hash(k) % n
  }

  /** The i-th slot of a probe that starts at home h. */
  function At(h: nat, i: nat, n: nat): (j: nat)
    requires h < n && i < n
    ensures j < n
  {
    if h + i < n then h + i else h + i - n
  }

  /** How far along the probe from h slot j lies. */
  function Dist(h: nat, j: nat, n: nat): (i: nat)
    requires h < n && j < n
    ensures i < n && At(h, i, n) == j
    ensures forall x :: 0 <= x < n && At(h, x, n) == j ==> x == i
  {
    if j >= h then j - h else j + n - h
  }

  function Ix(hash: Hash, n: nat, k: Key, i: nat): (j: nat)
    requires n >= MAX_CHAIN_LENGTH && i < MAX_CHAIN_LENGTH
    ensures j < n
  {
    At(Home(hash, k, n), i, n)
  }

  predicate Big(s: seq<Slot>) { |s| >= MAX_CHAIN_LENGTH }

  function SlotAt(hash: Hash, s: seq<Slot>, k: Key, i: nat): Slot
    requires Big(s) && i < MAX_CHAIN_LENGTH
  {
    s[Ix(hash, |s|, k, i)]
  }

  /** First probe at or after i that holds k: what `hashmap_get` and `hashmap_remove` look for. */
  function Find(hash: Hash, s: seq<Slot>, k: Key, i: nat): (r: Option<nat>)
    requires Big(s) && i <= MAX_CHAIN_LENGTH
    ensures r.Some? ==> i <= r.value < MAX_CHAIN_LENGTH && Has(SlotAt(hash, s, k, r.value), k)
    ensures r.Some? ==> forall x :: i <= x < r.value ==> !Has(SlotAt(hash, s, k, x), k)
    ensures r.None? ==> forall x :: i <= x < MAX_CHAIN_LENGTH ==> !Has(SlotAt(hash, s, k, x), k)
    decreases MAX_CHAIN_LENGTH - i
  {
    if i == MAX_CHAIN_LENGTH then None
    else if Has(SlotAt(hash, s, k, i), k) then Some(i)
    else Find(hash, s, k, i + 1)
  }

  predicate Stops(x: Slot, k: Key) { x.Empty? || x.key == k }

  /** First probe at or after i that is empty or holds k: where `hashmap_hash` stops. */
  function Probe(hash: Hash, s: seq<Slot>, k: Key, i: nat): (r: Option<nat>)
    requires Big(s) && i <= MAX_CHAIN_LENGTH
    ensures r.Some? ==> i <= r.value < MAX_CHAIN_LENGTH && Stops(SlotAt(hash, s, k, r.value), k)
    ensures r.Some? ==> forall x :: i <= x < r.value ==> !Stops(SlotAt(hash, s, k, x), k)
    ensures r.None? ==> forall x :: i <= x < MAX_CHAIN_LENGTH ==> !Stops(SlotAt(hash, s, k, x), k)
    decreases MAX_CHAIN_LENGTH - i
  {
    if i == MAX_CHAIN_LENGTH then None
    else if Stops(SlotAt(hash, s, k, i), k) then Some(i)
    else Probe(hash, s, k, i + 1)
  }

  /** `hashmap_get`: None is MAP_MISSING. */
  function Lookup(hash: Hash, s: seq<Slot>, k: Key): Option<Pointer>
    requires Big(s)
  {
    var r := Find(hash, s, k, 0);
    if r.Some? then Some(SlotAt(hash, s, k, r.value).value) else None
  }

  /** The table after a put that found its slot without rehashing. */
  function Written(hash: Hash, s: seq<Slot>, k: Key, v: Pointer): seq<Slot>
    requires Big(s) && Probe(hash, s, k, 0).Some?
  {
    s[Ix(hash, |s|, k, Probe(hash, s, k, 0).value) := Used(k, v)]
  }

  /** The table after `hashmap_remove`. */
  function Erased(hash: Hash, s: seq<Slot>, k: Key): seq<Slot>
    requires Big(s)
  {
    var r := Find(hash, s, k, 0);
    if r.Some? then s[Ix(hash, |s|, k, r.value) := Empty] else s
  }

  // ----------------------------------------------------- arbitrary tables

  /** Two lookups agree when the slots on the probe path agree about the key. */
  lemma SamePath(hash: Hash, s: seq<Slot>, t: seq<Slot>, k: Key)
    requires Big(s) && |s| == |t|
    requires forall i :: 0 <= i < MAX_CHAIN_LENGTH && (Has(SlotAt(hash, s, k, i), k) || Has(SlotAt(hash, t, k, i), k)) ==>
               SlotAt(hash, s, k, i) == SlotAt(hash, t, k, i)
    ensures Lookup(hash, s, k) == Lookup(hash, t, k)
  {
    var a, b := Find(hash, s, k, 0), Find(hash, t, k, 0);
    if a.Some? { assert Has(SlotAt(hash, s, k, a.value), k); }
    if b.Some? { assert Has(SlotAt(hash, t, k, b.value), k); }
  }

  /** For every table, a put without rehash changes the lookup of its own key only, to the new value. */
  lemma PutUpdatesLookup(hash: Hash, s: seq<Slot>, k: Key, v: Pointer, q: Key)
    requires Big(s) && Probe(hash, s, k, 0).Some?
    ensures Lookup(hash, Written(hash, s, k, v), q) == if q == k then Some(v) else Lookup(hash, s, q)
  {
    var t := Written(hash, s, k, v);
    if q == k {
      var i := Probe(hash, s, k, 0).value;
      assert Has(SlotAt(hash, t, k, i), k);
      forall x | 0 <= x < i ensures !Has(SlotAt(hash, t, k, x), k) {
        assert !Stops(SlotAt(hash, s, k, x), k);
      }
    } else {
      SamePath(hash, s, t, q);
    }
  }

  /** Some other probe of k's window also holds k. */
  predicate Duplicated(hash: Hash, s: seq<Slot>, k: Key)
    requires Big(s)
  {
    var r := Find(hash, s, k, 0);
    r.Some? && exists x :: r.value < x < MAX_CHAIN_LENGTH && Has(SlotAt(hash, s, k, x), k)
  }

  /**
   For every table: removal leaves every other key alone, and makes its key missing if
   and only if no second slot of the window held it; otherwise an older value resurfaces.
   */
  lemma RemoveExact(hash: Hash, s: seq<Slot>, k: Key, q: Key)
    requires Big(s)
    ensures q != k ==> Lookup(hash, Erased(hash, s, k), q) == Lookup(hash, s, q)
    ensures Lookup(hash, Erased(hash, s, k), k) == None <==> !Duplicated(hash, s, k)
  {
    var t := Erased(hash, s, k);
    if q != k { SamePath(hash, s, t, q); }
    var r := Find(hash, s, k, 0);
    if r.Some? {
      forall x | 0 <= x < MAX_CHAIN_LENGTH && x != r.value
        ensures SlotAt(hash, t, k, x) == SlotAt(hash, s, k, x)
      {
        assert Ix(hash, |s|, k, x) != Ix(hash, |s|, k, r.value);
      }
      var f := Find(hash, t, k, 0);
      if f.Some? {
        assert f.value != r.value;
        assert Has(SlotAt(hash, s, k, f.value), k);
      }
    }
  }

  // ------------------------------------------------------ when it is a map

  /** Each key sits in one slot, inside its probe window. */
  ghost predicate OneSlot(hash: Hash, s: seq<Slot>)
    requires Big(s)
  {
    && (forall j :: 0 <= j < |s| && s[j].Used? ==> Dist(Home(hash, s[j].key, |s|), j, |s|) < MAX_CHAIN_LENGTH)
    && (forall i, j :: 0 <= i < j < |s| && s[i].Used? && s[j].Used? ==> s[i].key != s[j].key)
  }

  /** No empty slot lies earlier on any key's probe path. */
  ghost predicate Tight(hash: Hash, s: seq<Slot>)
    requires Big(s)
  {
    forall k, i, j :: 0 <= i < j < MAX_CHAIN_LENGTH && Has(SlotAt(hash, s, k, j), k) ==> SlotAt(hash, s, k, i).Used?
  }

  /** An empty slot precedes k's slot on its probe path. */
  predicate HoleBefore(hash: Hash, s: seq<Slot>, k: Key)
    requires Big(s)
  {
    var p, f := Probe(hash, s, k, 0), Find(hash, s, k, 0);
    p.Some? && f.Some? && p.value < f.value
  }

  function Keys(s: seq<Slot>): set<Key> { set j | 0 <= j < |s| && s[j].Used? :: s[j].key }

  function UsedSlots(s: seq<Slot>): set<nat> { set j: nat | 0 <= j < |s| && s[j].Used? }

  lemma ProbeBeforeFind(hash: Hash, s: seq<Slot>, k: Key)
    requires Big(s) && Find(hash, s, k, 0).Some?
    ensures Probe(hash, s, k, 0).Some? && Probe(hash, s, k, 0).value <= Find(hash, s, k, 0).value
    ensures HoleBefore(hash, s, k) <==> SlotAt(hash, s, k, Probe(hash, s, k, 0).value).Empty?
  {
    var f := Find(hash, s, k, 0).value;
    assert Stops(SlotAt(hash, s, k, f), k);
  }

  /** Lookup finds a key exactly when some slot holds it. */
  lemma KeysAreFound(hash: Hash, s: seq<Slot>, k: Key)
    requires Big(s) && OneSlot(hash, s)
    ensures Find(hash, s, k, 0).Some? <==> k in Keys(s)
  {
    if k in Keys(s) {
      var j :| 0 <= j < |s| && s[j].Used? && s[j].key == k;
      var d := Dist(Home(hash, k, |s|), j, |s|);
      assert Has(SlotAt(hash, s, k, d), k);
    }
  }

  /** Writing the key where it already is, or where it is not yet anywhere, makes no second copy. */
  lemma WriteKeepsOneSlot(hash: Hash, s: seq<Slot>, k: Key, v: Pointer, p: nat)
    requires Big(s) && OneSlot(hash, s) && p < |s| && Dist(Home(hash, k, |s|), p, |s|) < MAX_CHAIN_LENGTH
    requires k in Keys(s) ==> Has(s[p], k)
    ensures OneSlot(hash, s[p := Used(k, v)])
  {
    assert forall j :: 0 <= j < |s| && j != p && s[j].Used? ==> s[j].key in Keys(s);
  }

  /**
   A put without rehash keeps one slot per key if and only if no empty slot precedes the
   key's existing slot on its probe path.
   */
  lemma PutKeepsOneSlotExactlyWhen(hash: Hash, s: seq<Slot>, k: Key, v: Pointer)
    requires Big(s) && OneSlot(hash, s) && Probe(hash, s, k, 0).Some?
    ensures OneSlot(hash, Written(hash, s, k, v)) <==> !HoleBefore(hash, s, k)
  {
    var t := Written(hash, s, k, v);
    var p := Ix(hash, |s|, k, Probe(hash, s, k, 0).value);
    KeysAreFound(hash, s, k);
    if Find(hash, s, k, 0).Some? { ProbeBeforeFind(hash, s, k); }
    if HoleBefore(hash, s, k) {
      var f := Ix(hash, |s|, k, Find(hash, s, k, 0).value);
      assert t[f] == s[f] && t[p] == Used(k, v) && f != p;
    } else {
      assert Dist(Home(hash, k, |s|), p, |s|) == Probe(hash, s, k, 0).value;
      WriteKeepsOneSlot(hash, s, k, v, p);
    }
  }

  lemma TightHasNoHole(hash: Hash, s: seq<Slot>, k: Key)
    requires Big(s) && Tight(hash, s)
    ensures !HoleBefore(hash, s, k)
  {
    var f := Find(hash, s, k, 0);
    if f.Some? {
      assert Has(SlotAt(hash, s, k, f.value), k);
      ProbeBeforeFind(hash, s, k);
    }
  }

  lemma PutKeepsTight(hash: Hash, s: seq<Slot>, k: Key, v: Pointer)
    requires Big(s) && Tight(hash, s) && Probe(hash, s, k, 0).Some?
    ensures Tight(hash, Written(hash, s, k, v))
  {
    var t := Written(hash, s, k, v);
    var pi := Probe(hash, s, k, 0).value;
    forall q, i, j | 0 <= i < j < MAX_CHAIN_LENGTH && Has(SlotAt(hash, t, q, j), q)
      ensures SlotAt(hash, t, q, i).Used?
    {
      if SlotAt(hash, t, q, j) == SlotAt(hash, s, q, j) {
        assert SlotAt(hash, s, q, i).Used?;
      } else {
        assert q == k && Ix(hash, |s|, k, j) == Ix(hash, |s|, k, pi);
        assert j == pi;
        assert !Stops(SlotAt(hash, s, k, i), k);
      }
    }
  }

  /** Removal keeps one slot per key (but may leave a hole). */
  lemma RemoveKeepsOneSlot(hash: Hash, s: seq<Slot>, k: Key)
    requires Big(s) && OneSlot(hash, s)
    ensures OneSlot(hash, Erased(hash, s, k)) && !Duplicated(hash, s, k)
  {
    var r := Find(hash, s, k, 0);
    if r.Some? {
      forall x | r.value < x < MAX_CHAIN_LENGTH ensures !Has(SlotAt(hash, s, k, x), k) {
        assert Ix(hash, |s|, k, x) != Ix(hash, |s|, k, r.value);
      }
    }
  }

  /** Every lookup in t is the lookup in s, except that k now gives v. */
  ghost predicate Updates(hash: Hash, s: seq<Slot>, t: seq<Slot>, k: Key, v: Pointer)
    requires Big(s) && Big(t)
  {
    forall q :: Lookup(hash, t, q) == if q == k then Some(v) else Lookup(hash, s, q)
  }

  /** The same key-value map. */
  ghost predicate SameMap(hash: Hash, s: seq<Slot>, t: seq<Slot>)
    requires Big(s) && Big(t)
  {
    forall q :: Lookup(hash, t, q) == Lookup(hash, s, q)
  }

  // ------------------------------------------------------------- counting

  lemma WrittenSets(hash: Hash, s: seq<Slot>, k: Key, v: Pointer)
    requires Big(s) && Probe(hash, s, k, 0).Some?
    ensures var t := Written(hash, s, k, v);
            && Keys(t) == Keys(s) + {k}
            && |UsedSlots(t)| == |UsedSlots(s)| + if SlotAt(hash, s, k, Probe(hash, s, k, 0).value).Used? then 0 else 1
  {
    var t := Written(hash, s, k, v);
    var p := Ix(hash, |s|, k, Probe(hash, s, k, 0).value);
    assert UsedSlots(t) == UsedSlots(s) + {p};
    assert t[p].key == k;
    forall q | q in Keys(s) ensures q in Keys(t) {
      var j :| 0 <= j < |s| && s[j].Used? && s[j].key == q;
      assert t[j].Used? && t[j].key == q;
    }
    assert k in Keys(t);
  }

  lemma ErasedSets(hash: Hash, s: seq<Slot>, k: Key)
    requires Big(s) && OneSlot(hash, s) && Find(hash, s, k, 0).Some?
    ensures var t := Erased(hash, s, k);
            Keys(t) == Keys(s) - {k} && |UsedSlots(t)| == |UsedSlots(s)| - 1
  {
    var t := Erased(hash, s, k);
    var p := Ix(hash, |s|, k, Find(hash, s, k, 0).value);
    assert UsedSlots(t) == UsedSlots(s) - {p} && p in UsedSlots(s);
    forall q | q in Keys(s) && q != k ensures q in Keys(t) {
      var j :| 0 <= j < |s| && s[j].Used? && s[j].key == q;
      assert t[j].Used? && t[j].key == q;
    }
  }

  lemma {:induction false} DistinctKeysCount(s: seq<Slot>, u: set<nat>)
    requires u <= UsedSlots(s)
    requires forall i, j :: i in u && j in u && i != j ==> s[i].key != s[j].key
    ensures |set j | j in u :: s[j].key| == |u|
    decreases |u|
  {
    if u != {} {
      var x :| x in u;
      var ks, rest := set j | j in u :: s[j].key, set j | j in u - {x} :: s[j].key;
      DistinctKeysCount(s, u - {x});
      assert s[x].key !in rest;
      assert ks == rest + {s[x].key};
    }
  }

  /** With one slot per key, used slots and distinct keys are equally many. */
  lemma SizeIsKeys(hash: Hash, s: seq<Slot>)
    requires Big(s) && OneSlot(hash, s)
    ensures |UsedSlots(s)| == |Keys(s)|
  {
    DistinctKeysCount(s, UsedSlots(s));
    assert Keys(s) == set j | j in UsedSlots(s) :: s[j].key;
  }

  // ---------------------------------------------------------------- growth

  /** limit is reached from n by doubling. */
  predicate Doubles(n: nat, limit: nat)
    decreases limit - n
  {
    n == limit || (0 < n && 2 * n <= limit && Doubles(2 * n, limit))
  }

  /** No two of these keys share a home slot in a table of size n. */
  ghost predicate Spread(hash: Hash, keys: set<Key>, n: nat)
    requires n > 0
  {
    forall a, b :: a in keys && b in keys && a != b ==> Home(hash, a, n) != Home(hash, b, n)
  }

  ghost predicate AllHome(hash: Hash, s: seq<Slot>)
    requires Big(s)
  {
    forall j :: 0 <= j < |s| && s[j].Used? ==> Home(hash, s[j].key, |s|) == j
  }

  /**
   The assumption under which growth ends: at some doubled size the keys have distinct
   homes and fill less than half the table.
   */
  ghost predicate Growable(hash: Hash, s: seq<Slot>, keys: set<Key>, limit: nat)
    requires Big(s)
  {
    && Doubles(|s|, limit) && limit > 0
    && Keys(s) <= keys && |keys| < limit / 2
    && Spread(hash, keys, limit)
    && (|s| == limit ==> AllHome(hash, s))
  }

  /** At the limit every probe stops at its home slot. */
  lemma HomeProbe(hash: Hash, s: seq<Slot>, keys: set<Key>, k: Key)
    requires Big(s) && Growable(hash, s, keys, |s|) && k in keys
    ensures Probe(hash, s, k, 0) == Some(0)
    ensures forall v :: AllHome(hash, Written(hash, s, k, v))
  {
    var h := Home(hash, k, |s|);
    assert Ix(hash, |s|, k, 0) == h;
    if s[h].Used? { assert s[h].key in Keys(s); }
    assert Stops(SlotAt(hash, s, k, 0), k);
  }

  lemma WrittenGrowable(hash: Hash, s: seq<Slot>, keys: set<Key>, limit: nat, k: Key, v: Pointer)
    requires Big(s) && Growable(hash, s, keys, limit) && k in keys && Probe(hash, s, k, 0).Some?
    ensures Growable(hash, Written(hash, s, k, v), keys, limit)
  {
    WrittenSets(hash, s, k, v);
    if |s| == limit { HomeProbe(hash, s, keys, k); }
  }

  /** Without a hole before it, the slot a put stops at is the key's own, or an empty one. */
  lemma PutSlot(hash: Hash, s: seq<Slot>, k: Key)
    requires Big(s) && OneSlot(hash, s) && Probe(hash, s, k, 0).Some? && !HoleBefore(hash, s, k)
    ensures k in Keys(s) <==> Lookup(hash, s, k).Some?
    ensures SlotAt(hash, s, k, Probe(hash, s, k, 0).value) ==
            if Lookup(hash, s, k).Some? then Used(k, Lookup(hash, s, k).value) else Empty
  {
    KeysAreFound(hash, s, k);
    if k in Keys(s) { ProbeBeforeFind(hash, s, k); }
  }

  /** The facts a put needs about the slot sequence, when it stores without a second copy. */
  lemma PutFacts(hash: Hash, s: seq<Slot>, k: Key, v: Pointer)
    requires Big(s) && OneSlot(hash, s) && Probe(hash, s, k, 0).Some? && !HoleBefore(hash, s, k)
    ensures OneSlot(hash, Written(hash, s, k, v)) && Updates(hash, s, Written(hash, s, k, v), k, v)
    ensures Keys(Written(hash, s, k, v)) == Keys(s) + {k}
  {
    PutKeepsOneSlotExactlyWhen(hash, s, k, v);
    WrittenSets(hash, s, k, v);
    forall q ensures Lookup(hash, Written(hash, s, k, v), q) == if q == k then Some(v) else Lookup(hash, s, q) {
      PutUpdatesLookup(hash, s, k, v, q);
    }
  }

  /** A table that holds exactly the old slots' pairs is the same map. */
  lemma SameEntries(hash: Hash, s: seq<Slot>, t: seq<Slot>)
    requires Big(s) && Big(t) && OneSlot(hash, s) && OneSlot(hash, t) && Keys(t) == Keys(s)
    requires forall j :: 0 <= j < |s| && s[j].Used? ==> Lookup(hash, t, s[j].key) == Some(s[j].value)
    ensures SameMap(hash, s, t)
  {
    forall q ensures Lookup(hash, t, q) == Lookup(hash, s, q) {
      KeysAreFound(hash, s, q);
      KeysAreFound(hash, t, q);
      var f := Find(hash, s, q, 0);
      if f.Some? { assert s[Ix(hash, |s|, q, f.value)].key == q; }
    }
  }

  /** What a rehash keeps. */
  ghost predicate Regrown(hash: Hash, s: seq<Slot>, t: seq<Slot>)
    requires Big(s) && Big(t)
  {
    SameMap(hash, s, t) && Keys(t) == Keys(s)
  }

  /** What a put promises of the slots before (s) and after (u), whether or not the table grew. */
  ghost predicate Stored(hash: Hash, s: seq<Slot>, u: seq<Slot>, k: Key, v: Pointer, freed: seq<Slot>)
    requires Big(s) && Big(u)
  {
    && OneSlot(hash, u) && Updates(hash, s, u, k, v) && Keys(u) == Keys(s) + {k}
    && (k in Keys(s) ==> Lookup(hash, s, k).Some?)
    && freed == if k in Keys(s) then [Used(k, Lookup(hash, s, k).value)] else []
  }

  lemma StoredAfterGrowth(hash: Hash, s: seq<Slot>, t: seq<Slot>, u: seq<Slot>, k: Key, v: Pointer, freed: seq<Slot>)
    requires Big(s) && Big(t) && Big(u) && Regrown(hash, s, t) && Stored(hash, t, u, k, v, freed)
    ensures Stored(hash, s, u, k, v, freed)
  {
  }

  /** Halfway through a rehash: t holds the pairs of the first i slots of s, and nothing else. */
  ghost predicate Refilled(hash: Hash, s: seq<Slot>, i: nat, t: seq<Slot>)
    requires i <= |s| && Big(t)
  {
    && OneSlot(hash, t) && Tight(hash, t) && Keys(t) == Keys(s[..i])
    && (forall j :: 0 <= j < i && s[j].Used? ==> Lookup(hash, t, s[j].key) == Some(s[j].value))
  }

  lemma KeysStep(s: seq<Slot>, i: nat)
    requires i < |s|
    ensures Keys(s[..i + 1]) == Keys(s[..i]) + if s[i].Used? then {s[i].key} else {}
    ensures s[i].Used? ==> s[i].key in Keys(s)
  {
    var a, b := s[..i], s[..i + 1];
    forall q | q in Keys(a) ensures q in Keys(b) {
      var j :| 0 <= j < |a| && a[j].Used? && a[j].key == q;
      assert b[j] == a[j];
    }
    forall q | q in Keys(b) ensures q in Keys(a) || (s[i].Used? && q == s[i].key) {
      var j :| 0 <= j < |b| && b[j].Used? && b[j].key == q;
      if j < i { assert a[j] == b[j]; }
    }
    if s[i].Used? { assert b[i] == s[i]; }
  }

  lemma RefillSkip(hash: Hash, s: seq<Slot>, i: nat, t: seq<Slot>)
    requires i < |s| && Big(t) && Refilled(hash, s, i, t) && s[i].Empty?
    ensures Refilled(hash, s, i + 1, t)
  {
    KeysStep(s, i);
  }

  /** One slot per key in s: each key is put once, so nothing is overwritten and nothing freed. */
  lemma RefillPut(hash: Hash, s: seq<Slot>, i: nat, t: seq<Slot>, u: seq<Slot>, freed: seq<Slot>)
    requires i < |s| && Big(s) && OneSlot(hash, s) && s[i].Used?
    requires Big(t) && Refilled(hash, s, i, t)
    requires Big(u) && Stored(hash, t, u, s[i].key, s[i].value, freed) && Tight(hash, u)
    ensures Refilled(hash, s, i + 1, u) && freed == []
  {
    KeysStep(s, i);
    assert s[i].key !in Keys(s[..i]);
  }

  lemma RefillEnd(hash: Hash, s: seq<Slot>, t: seq<Slot>)
    requires Big(s) && Big(t) && OneSlot(hash, s) && Refilled(hash, s, |s|, t)
    ensures Regrown(hash, s, t)
  {
    assert s[..|s|] == s;
    SameEntries(hash, s, t);
  }

  lemma ErasedKeys(hash: Hash, s: seq<Slot>, k: Key)
    requires Big(s) && OneSlot(hash, s)
    ensures Keys(Erased(hash, s, k)) == Keys(s) - {k}
  {
    KeysAreFound(hash, s, k);
    if Find(hash, s, k, 0).Some? { ErasedSets(hash, s, k); }
  }

  lemma ErasedGrowable(hash: Hash, s: seq<Slot>, keys: set<Key>, limit: nat, k: Key)
    requires Big(s) && Growable(hash, s, keys, limit)
    ensures Growable(hash, Erased(hash, s, k), keys, limit)
  {
    var t := Erased(hash, s, k);
    forall q | q in Keys(t) ensures q in Keys(s) {
      var j :| 0 <= j < |t| && t[j].Used? && t[j].key == q;
      assert s[j] == t[j];
    }
  }

  // ------------------------------------------------------ the reference map

  datatype TableOp = PutOp(key: Key, value: Pointer) | GetOp(key: Key) | RemoveOp(key: Key)

  datatype TableReply = Done | Got(value: Option<Pointer>) | Removed(found: bool)

  type Dict = map<Key, Pointer>

  function DictStep(m: Dict, op: TableOp): (Dict, TableReply) {
    match op
    case PutOp(k, v) => (m[k := v], Done)
    case GetOp(k) => (m, Got(if k in m then Some(m[k]) else None))
    case RemoveOp(k) => (m - {k}, Removed(k in m))
  }

  function DictReplies(m: Dict, ops: seq<TableOp>): seq<TableReply>
    decreases |ops|
  {
    if ops == [] then [] else [DictStep(m, ops[0]).1] + DictReplies(DictStep(m, ops[0]).0, ops[1..])
  }

  function DictAfter(m: Dict, ops: seq<TableOp>): Dict
    decreases |ops|
  {
    if ops == [] then m else DictAfter(DictStep(m, ops[0]).0, ops[1..])
  }

  /** What an operation hands to the free functions: the pair it overwrites or removes. */
  function Frees(m: Dict, op: TableOp): seq<Slot> {
    if !op.GetOp? && op.key in m then [Used(op.key, m[op.key])] else []
  }

  /** The table's lookup function is the dictionary. */
  ghost predicate Represents(hash: Hash, s: seq<Slot>, m: Dict)
    requires Big(s)
  {
    Keys(s) == m.Keys && forall k :: Lookup(hash, s, k) == if k in m then Some(m[k]) else None
  }

  lemma PutRepresents(hash: Hash, s: seq<Slot>, u: seq<Slot>, m: Dict, k: Key, v: Pointer, freed: seq<Slot>)
    requires Big(s) && Big(u) && Represents(hash, s, m) && Stored(hash, s, u, k, v, freed)
    ensures Represents(hash, u, m[k := v])
  {
  }

  lemma LookupAfterRemove(hash: Hash, s: seq<Slot>, k: Key, q: Key)
    requires Big(s) && !Duplicated(hash, s, k)
    ensures Lookup(hash, Erased(hash, s, k), q) == if q == k then None else Lookup(hash, s, q)
  {
    RemoveExact(hash, s, k, q);
  }

  lemma RemoveRepresents(hash: Hash, s: seq<Slot>, m: Dict, k: Key)
    requires Big(s) && OneSlot(hash, s) && Represents(hash, s, m)
    ensures Represents(hash, Erased(hash, s, k), m - {k})
  {
    ErasedKeys(hash, s, k);
    RemoveKeepsOneSlot(hash, s, k);
    var t, rest := Erased(hash, s, k), m - {k};
    forall q ensures Lookup(hash, t, q) == if q in rest then Some(rest[q]) else None {
      LookupAfterRemove(hash, s, k, q);
    }
  }

  /**
   One slot per key is not kept in general: put A, put B, remove A, put B, remove B, and
   get B finds the value B had first. Stated for the hash that sends every key to slot 0.
   */
  lemma ResurfacingRun(a: Key, b: Key, x: Pointer, y: Pointer, z: Pointer)
    requires a != b
    ensures var hash := (k: Key) => 0;
            var s0 := seq(INITIAL_SIZE, _ => Empty);
            && Probe(hash, s0, a, 0).Some? && var s1 := Written(hash, s0, a, x);
            && Probe(hash, s1, b, 0).Some? && var s2 := Written(hash, s1, b, y);
            && var s3 := Erased(hash, s2, a);
            && Probe(hash, s3, b, 0).Some? && HoleBefore(hash, s3, b) && var s4 := Written(hash, s3, b, z);
            && Lookup(hash, s4, b) == Some(z)
            && Lookup(hash, Erased(hash, s4, b), b) == Some(y)
  {
    var hash := (k: Key) => 0;
    var s0 := seq(INITIAL_SIZE, _ => Empty);
    assert forall k, i :: 0 <= i < MAX_CHAIN_LENGTH ==> Ix(hash, INITIAL_SIZE, k, i) == i;
    assert Stops(SlotAt(hash, s0, a, 0), a);
    var s1 := Written(hash, s0, a, x);
    assert s1 == s0[0 := Used(a, x)];
    assert !Stops(SlotAt(hash, s1, b, 0), b) && Stops(SlotAt(hash, s1, b, 1), b);
    assert Probe(hash, s1, b, 0) == Some(1);
    var s2 := Written(hash, s1, b, y);
    assert s2 == s1[1 := Used(b, y)];
    assert Has(SlotAt(hash, s2, a, 0), a);
    assert Find(hash, s2, a, 0) == Some(0);
    var s3 := Erased(hash, s2, a);
    assert s3 == s2[0 := Empty];
    assert Stops(SlotAt(hash, s3, b, 0), b);
    assert !Has(SlotAt(hash, s3, b, 0), b) && Has(SlotAt(hash, s3, b, 1), b);
    assert Probe(hash, s3, b, 0) == Some(0) && Find(hash, s3, b, 0) == Some(1);
    var s4 := Written(hash, s3, b, z);
    assert s4 == s3[0 := Used(b, z)];
    assert Has(SlotAt(hash, s4, b, 0), b);
    assert Find(hash, s4, b, 0) == Some(0);
    var s5 := Erased(hash, s4, b);
    assert s5 == s4[0 := Empty];
    assert !Has(SlotAt(hash, s5, b, 0), b) && Has(SlotAt(hash, s5, b, 1), b);
    assert Find(hash, s5, b, 0) == Some(1);
  }
}
