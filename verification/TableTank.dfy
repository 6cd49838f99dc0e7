/**
 The tank's memory: the slots of its hash table, whose values are addresses of heap entries,
 and the entries. Mutations and evictions act on it through the table, for every table;
 as long as no put meets a hole before its key, it is the abstract store of module Tank.
 */
module TableTank {
  import opened Prelude
  import opened Tank
  import opened HashTable
  import opened TableGrowth
  import opened TableRuns

  type Heap = map<Pointer, Entry>

  /** `tank->data`, the live `DataEntry` objects by address, and the next fresh address. */
  datatype Memory = Memory(slots: seq<Slot>, heap: Heap, next: Pointer)

  function Start(): Memory { Memory(Blank(INITIAL_SIZE), map[], 0) }

  // -------------------------------------------------------------- ownership

  /** Every pair is stored once and owns an entry of its own; every entry is owned; none is freed. */
  ghost predicate Owned(pairs: multiset<Slot>, heap: Heap, next: Pointer) {
    && (forall x :: x in pairs ==> x.Used? && pairs[x] == 1 && x.value in heap)
    && (forall x, y :: x in pairs && y in pairs && x != y ==> x.value != y.value)
    && (forall a :: a in heap ==> a < next && exists x :: x in pairs && x.value == a)
  }

  ghost predicate Sound(m: Memory) { Big(m.slots) && Owned(Pairs(m.slots), m.heap, m.next) }

  function Addresses(freed: seq<Slot>): set<Pointer> {
    set i | 0 <= i < |freed| && freed[i].Used? :: freed[i].value
  }

  lemma AddressesOf(freed: seq<Slot>, x: Slot)
    requires x.Used?
    ensures x in multiset(freed) ==> x.value in Addresses(freed)
  {
    if x in multiset(freed) {
      assert x in freed;
      var i :| 0 <= i < |freed| && freed[i] == x;
      assert freed[i].value in Addresses(freed);
    }
  }

  /** What stays is owned as before, when what goes is freed. */
  lemma OwnedAfter(before: multiset<Slot>, heap: Heap, next: Pointer, after: multiset<Slot>, freed: seq<Slot>)
    requires Owned(before, heap, next) && after + multiset(freed) == before
    ensures Owned(after, heap - Addresses(freed), next)
  {
    var kept := heap - Addresses(freed);
    forall x | x in after ensures x in before && after[x] == 1 && x.value in kept {
      assert before[x] == after[x] + multiset(freed)[x];
      forall i | 0 <= i < |freed| && freed[i].Used? ensures freed[i].value != x.value {
        assert freed[i] in multiset(freed) && freed[i] in before;
      }
    }
    forall a | a in kept ensures exists x :: x in after && x.value == a {
      var x :| x in before && x.value == a;
      AddressesOf(freed, x);
      assert x in after;
    }
  }

  lemma OwnedNew(pairs: multiset<Slot>, heap: Heap, next: Pointer, k: Key, e: Entry)
    requires Owned(pairs, heap, next)
    ensures Owned(pairs + multiset{Used(k, next)}, heap[next := e], next + 1)
  {
    var all, grown := pairs + multiset{Used(k, next)}, heap[next := e];
    assert Used(k, next) in all;
    assert forall x :: x in all ==> x in pairs || x == Used(k, next);
    forall a | a in grown ensures exists x :: x in all && x.value == a {
      if a != next {
        var x :| x in pairs && x.value == a;
        assert x in all;
      }
    }
  }

  lemma EraseConserves(hash: Hash, s: seq<Slot>, k: Key)
    requires Big(s)
    ensures var r := SlotStep(hash, 0, s, RemoveOp(k)).value;
            Pairs(r.slots) + multiset(r.freed) == Pairs(s)
  {
    var f := Find(hash, s, k, 0);
    if f.Some? { PairsUpdate(s, Ix(hash, |s|, k, f.value), Empty); }
  }

  // -------------------------------------------------------- what it contains

  /** The entry `hashmap_get` leads to. */
  function Seen(hash: Hash, m: Memory, k: Key): Option<Entry>
    requires Big(m.slots)
  {
    var p := Lookup(hash, m.slots, k);
    if p.Some? && p.value in m.heap then Some(m.heap[p.value]) else None
  }

  /** The store the memory stands for. */
  function Contents(hash: Hash, m: Memory): Store
    requires Big(m.slots)
  {
    map k | k in Keys(m.slots) && Seen(hash, m, k).Some? :: Seen(hash, m, k).value
  }

  function EntryOf(s: Store, k: DataString): Option<Entry> { if k in s then Some(s[k]) else None }

  lemma ContentsAt(hash: Hash, m: Memory, k: Key)
    requires Big(m.slots)
    ensures EntryOf(Contents(hash, m), k) == Seen(hash, m, k)
  {
    var f := Find(hash, m.slots, k, 0);
    if f.Some? { assert m.slots[Ix(hash, |m.slots|, k, f.value)].key in Keys(m.slots); }
  }

  lemma SameContents(hash: Hash, m: Memory, s: Store)
    requires Big(m.slots) && forall k :: Seen(hash, m, k) == EntryOf(s, k)
    ensures Contents(hash, m) == s
  {
    var t := Contents(hash, m);
    forall k ensures EntryOf(t, k) == EntryOf(s, k) {
      ContentsAt(hash, m, k);
    }
    assert forall k :: (k in t <==> EntryOf(t, k).Some?) && (k in s <==> EntryOf(s, k).Some?);
    assert t.Keys == s.Keys;
    assert forall k :: k in t ==> t[k] == EntryOf(t, k).value == EntryOf(s, k).value == s[k];
  }

  /** What a lookup returns is an owned address. */
  lemma LookupOwned(hash: Hash, m: Memory, k: Key)
    requires Sound(m)
    ensures var p := Lookup(hash, m.slots, k);
            p.Some? ==> p.value in m.heap && p.value < m.next && Used(k, p.value) in Pairs(m.slots)
  {
    var f := Find(hash, m.slots, k, 0);
    if f.Some? { assert SlotAt(hash, m.slots, k, f.value) in m.slots; }
  }

  lemma LookupsApart(hash: Hash, m: Memory, k: Key, q: Key)
    requires Sound(m) && k != q
    ensures var p, r := Lookup(hash, m.slots, k), Lookup(hash, m.slots, q);
            p.Some? && r.Some? ==> p.value != r.value
  {
    LookupOwned(hash, m, k);
    LookupOwned(hash, m, q);
  }

  // ----------------------------------------------------------------- writing

  /** The table operation behind a mutation; evictions are removals too. */
  function OpOf(u: Mutation, next: Pointer): TableOp {
    match u
    case SetTo(k, _, _) => PutOp(k, next)
    case Remove(k) => RemoveOp(k)
    case ExpireAt(k, _) => GetOp(k)
  }

  function HeapAfter(hash: Hash, m: Memory, u: Mutation, freed: seq<Slot>): Heap
    requires Big(m.slots)
  {
    match u
    case SetTo(_, v, t) => m.heap[m.next := Entry(v, FromMutationTime(t))] - Addresses(freed)
    case Remove(_) => m.heap - Addresses(freed)
    case ExpireAt(k, t) =>
      var p := Lookup(hash, m.slots, k);
      if p.Some? && p.value in m.heap then m.heap[p.value := m.heap[p.value].(expiresAt := Some(t))] else m.heap
  }

  /** `septic_tank_apply_mutation` on memory; None when the table could not grow. */
  function ApplyMem(hash: Hash, limit: nat, m: Memory, u: Mutation): (r: Option<Memory>)
    requires Big(m.slots)
    ensures r.Some? ==> Big(r.value.slots)
  {
    var c := SlotStep(hash, limit, m.slots, OpOf(u, m.next));
    if c.None? then None
    else Some(Memory(c.value.slots, HeapAfter(hash, m, u, c.value.freed), if u.SetTo? then m.next + 1 else m.next))
  }

  /** The startup replay into the table. */
  function ReplayMem(hash: Hash, limit: nat, m: Memory, us: seq<Mutation>): (r: Option<Memory>)
    requires Big(m.slots)
    ensures r.Some? ==> Big(r.value.slots)
    decreases |us|
  {
    if us == [] then Some(m)
    else
      var r := ApplyMem(hash, limit, m, us[0]);
      if r.None? then None else ReplayMem(hash, limit, r.value, us[1..])
  }

  lemma {:induction false} ReplayMemAppend(hash: Hash, limit: nat, m: Memory, a: seq<Mutation>, b: seq<Mutation>)
    requires Big(m.slots)
    ensures var r := ReplayMem(hash, limit, m, a);
            ReplayMem(hash, limit, m, a + b) == if r.None? then None else ReplayMem(hash, limit, r.value, b)
    decreases |a|
  {
    hide ApplyMem;
    if a == [] {
      assert a + b == b;
    } else {
      assert (a + b)[1..] == a[1..] + b;
      var r := ApplyMem(hash, limit, m, a[0]);
      if r.Some? { ReplayMemAppend(hash, limit, r.value, a[1..], b); }
    }
  }

  /** The table operations behind a list of mutations. */
  function OpsOf(us: seq<Mutation>, next: Pointer): seq<TableOp>
    decreases |us|
  {
    if us == [] then [] else [OpOf(us[0], next)] + OpsOf(us[1..], if us[0].SetTo? then next + 1 else next)
  }

  lemma SetSound(hash: Hash, limit: nat, m: Memory, k: Key, e: Entry)
    requires Sound(m) && PutSlots(hash, limit, m.slots, k, m.next).Some?
    ensures var c := PutSlots(hash, limit, m.slots, k, m.next).value;
            Owned(Pairs(c.slots), m.heap[m.next := e] - Addresses(c.freed), m.next + 1)
  {
    hide Owned, PutSlots, Pairs, Addresses;
    var c := PutSlots(hash, limit, m.slots, k, m.next).value;
    PutConserves(hash, limit, m.slots, k, m.next);
    OwnedNew(Pairs(m.slots), m.heap, m.next, k, e);
    OwnedAfter(Pairs(m.slots) + multiset{Used(k, m.next)}, m.heap[m.next := e], m.next + 1, Pairs(c.slots), c.freed);
  }

  lemma EraseSound(hash: Hash, limit: nat, m: Memory, k: Key)
    requires Sound(m)
    ensures Sound(ApplyMem(hash, limit, m, Remove(k)).value)
  {
    hide Owned, Pairs, Addresses, Erased, Lookup;
    var c := SlotStep(hash, limit, m.slots, RemoveOp(k)).value;
    EraseConserves(hash, m.slots, k);
    OwnedAfter(Pairs(m.slots), m.heap, m.next, Pairs(c.slots), c.freed);
  }

  lemma RetimedOwned(pairs: multiset<Slot>, heap: Heap, heap': Heap, next: Pointer)
    requires Owned(pairs, heap, next) && heap'.Keys == heap.Keys
    ensures Owned(pairs, heap', next)
  {
    assert forall a :: a in heap' <==> a in heap;
  }

  /** For every table, holes and duplicates or not: no entry is lost, freed twice or left behind. */
  lemma ApplySound(hash: Hash, limit: nat, m: Memory, u: Mutation)
    requires Sound(m) && ApplyMem(hash, limit, m, u).Some?
    ensures Sound(ApplyMem(hash, limit, m, u).value)
  {
    hide Owned, PutSlots, Pairs, Addresses, Erased;
    match u {
      case SetTo(k, v, t) => SetSound(hash, limit, m, k, Entry(v, FromMutationTime(t)));
      case Remove(k) => EraseSound(hash, limit, m, k);
      case ExpireAt(k, t) => RetimedOwned(Pairs(m.slots), m.heap, HeapAfter(hash, m, u, []), m.next);
    }
  }

  predicate MutationMeetsHole(hash: Hash, m: Memory, u: Mutation)
    requires Big(m.slots)
  {
    StepMeetsHole(hash, m.slots, OpOf(u, m.next))
  }

  // ------------------------------------------- when it is the abstract store

  lemma SetSeen(hash: Hash, limit: nat, m: Memory, u: Mutation, q: Key)
    requires Sound(m) && OneSlot(hash, m.slots) && u.SetTo?
    requires !MutationMeetsHole(hash, m, u) && ApplyMem(hash, limit, m, u).Some?
    ensures Seen(hash, ApplyMem(hash, limit, m, u).value, q) ==
            if q == u.key then Some(Entry(u.value, FromMutationTime(u.expiresAt))) else Seen(hash, m, q)
  {
    hide Owned, OneSlot, PutSlots, Lookup;
    PutLookups(hash, limit, m.slots, u.key, m.next, q);
    LookupOwned(hash, m, u.key);
    LookupOwned(hash, m, q);
    if q != u.key { LookupsApart(hash, m, u.key, q); }
  }

  lemma RemoveSeen(hash: Hash, limit: nat, m: Memory, k: Key, q: Key)
    requires Sound(m) && OneSlot(hash, m.slots)
    ensures Seen(hash, ApplyMem(hash, limit, m, Remove(k)).value, q) == if q == k then None else Seen(hash, m, q)
  {
    hide Owned, Lookup;
    RemoveKeepsOneSlot(hash, m.slots, k);
    LookupAfterRemove(hash, m.slots, k, q);
    LookupOwned(hash, m, q);
    if q != k { LookupsApart(hash, m, k, q); }
  }

  lemma ExpireSeen(hash: Hash, limit: nat, m: Memory, k: Key, t: Int64, q: Key)
    requires Sound(m)
    ensures Seen(hash, ApplyMem(hash, limit, m, ExpireAt(k, t)).value, q) ==
            if q == k && Seen(hash, m, k).Some? then Some(Seen(hash, m, k).value.(expiresAt := Some(t))) else Seen(hash, m, q)
  {
    LookupOwned(hash, m, k);
    LookupOwned(hash, m, q);
    if q != k { LookupsApart(hash, m, k, q); }
  }

  lemma SlotsStay(hash: Hash, limit: nat, m: Memory, u: Mutation)
    requires Big(m.slots) && OneSlot(hash, m.slots)
    requires !MutationMeetsHole(hash, m, u) && ApplyMem(hash, limit, m, u).Some?
    ensures OneSlot(hash, ApplyMem(hash, limit, m, u).value.slots)
  {
    StepOneSlotExactlyWhen(hash, limit, m.slots, OpOf(u, m.next));
  }

  /** A mutation or eviction that meets no hole acts on the contents as the specification says. */
  lemma ApplyOnTable(hash: Hash, limit: nat, m: Memory, u: Mutation)
    requires Sound(m) && OneSlot(hash, m.slots)
    requires !MutationMeetsHole(hash, m, u) && ApplyMem(hash, limit, m, u).Some?
    ensures var r := ApplyMem(hash, limit, m, u).value;
            && Sound(r) && OneSlot(hash, r.slots)
            && Contents(hash, r) == Apply(Contents(hash, m), u)
  {
    hide OneSlot, Owned, HeapAfter, MutationMeetsHole;
    var r, s := ApplyMem(hash, limit, m, u).value, Contents(hash, m);
    ApplySound(hash, limit, m, u);
    SlotsStay(hash, limit, m, u);
    forall q ensures Seen(hash, r, q) == EntryOf(Apply(s, u), q) {
      ContentsAt(hash, m, q);
      ContentsAt(hash, m, u.key);
      match u {
        case SetTo(_, _, _) => SetSeen(hash, limit, m, u, q);
        case Remove(k) => RemoveSeen(hash, limit, m, k, q);
        case ExpireAt(k, t) => ExpireSeen(hash, limit, m, k, t, q);
      }
    }
    SameContents(hash, r, Apply(s, u));
  }

  /** Memory and table operations go together. */
  lemma {:induction false} ReplaySlots(hash: Hash, limit: nat, m: Memory, us: seq<Mutation>)
    requires Big(m.slots)
    ensures var r, t := ReplayMem(hash, limit, m, us), SlotsAfter(hash, limit, m.slots, OpsOf(us, m.next));
            (r.Some? <==> t.Some?) && (r.Some? ==> r.value.slots == t.value)
    decreases |us|
  {
    hide SlotStep, HeapAfter;
    if us != [] {
      var r := ApplyMem(hash, limit, m, us[0]);
      var rest := OpsOf(us[1..], if us[0].SetTo? then m.next + 1 else m.next);
      assert OpsOf(us, m.next)[1..] == rest;
      if r.Some? { ReplaySlots(hash, limit, r.value, us[1..]); }
    }
  }

  /** Some SET of the list meets a hole before its key. */
  predicate ReplayMeetsHole(hash: Hash, limit: nat, m: Memory, us: seq<Mutation>)
    requires Big(m.slots)
  {
    MeetsHole(hash, limit, m.slots, OpsOf(us, m.next))
  }

  lemma ReplayMeetsHoleCons(hash: Hash, limit: nat, m: Memory, us: seq<Mutation>)
    requires Big(m.slots) && us != []
    ensures ReplayMeetsHole(hash, limit, m, us) <==>
            MutationMeetsHole(hash, m, us[0]) ||
            (ApplyMem(hash, limit, m, us[0]).Some? &&
             ReplayMeetsHole(hash, limit, ApplyMem(hash, limit, m, us[0]).value, us[1..]))
  {
    hide SlotStep, HeapAfter, StepMeetsHole;
    assert OpsOf(us, m.next)[1..] == OpsOf(us[1..], if us[0].SetTo? then m.next + 1 else m.next);
  }

  lemma ReplayOne(hash: Hash, limit: nat, m: Memory, u: Mutation)
    requires Big(m.slots)
    ensures ReplayMem(hash, limit, m, [u]) == ApplyMem(hash, limit, m, u)
    ensures ReplayMeetsHole(hash, limit, m, [u]) <==> MutationMeetsHole(hash, m, u)
  {
    hide ApplyMem, MutationMeetsHole;
    assert [u][1..] == [];
    ReplayMeetsHoleCons(hash, limit, m, [u]);
  }

  /**
   Replay into the real table: unless a SET of the list meets a hole before its key, the
   memory ends as the store the specification replays to, one slot per key, every entry owned.
   */
  lemma {:induction false} ReplayOnTable(hash: Hash, limit: nat, m: Memory, us: seq<Mutation>)
    requires Sound(m) && OneSlot(hash, m.slots)
    requires ReplayMem(hash, limit, m, us).Some? && !ReplayMeetsHole(hash, limit, m, us)
    ensures var r := ReplayMem(hash, limit, m, us).value;
            && Sound(r) && OneSlot(hash, r.slots)
            && Contents(hash, r) == Replay(Contents(hash, m), us)
    decreases |us|
  {
    hide OneSlot, Owned, ReplayMeetsHole, Contents, Apply, ApplyMem;
    if us != [] {
      ReplayMeetsHoleCons(hash, limit, m, us);
      ApplyOnTable(hash, limit, m, us[0]);
      ReplayOnTable(hash, limit, ApplyMem(hash, limit, m, us[0]).value, us[1..]);
    }
  }

  /** For every list of mutations, holes or not. */
  lemma {:induction false} ReplaySound(hash: Hash, limit: nat, m: Memory, us: seq<Mutation>)
    requires Sound(m) && ReplayMem(hash, limit, m, us).Some?
    ensures Sound(ReplayMem(hash, limit, m, us).value)
    decreases |us|
  {
    hide Owned, ApplyMem;
    if us != [] {
      ApplySound(hash, limit, m, us[0]);
      ReplaySound(hash, limit, ApplyMem(hash, limit, m, us[0]).value, us[1..]);
    }
  }

  lemma StartSound(hash: Hash)
    ensures Sound(Start()) && OneSlot(hash, Start().slots) && Tight(hash, Start().slots)
    ensures Contents(hash, Start()) == map[]
  {
    BlankPairs(INITIAL_SIZE);
    BlankFacts(hash, INITIAL_SIZE);
  }
}
