/** The table as the program updates it: an array of slots, replaced when it grows (src/hashmap.c). */
module HashMapObject {
  import opened Prelude
  import opened HashTable
  import opened TableGrowth
  import opened TableRuns

  class HashMap {
    const hash: Hash
    /** The largest table the allocator grants. */
    const limit: nat
    var data: array<Slot>
    var size: nat
    /** Slots whose key and value were handed to the free functions, in order. */
    var freed: seq<Slot>

    /** `size` counts the used slots; the table never shrinks below its initial size. */
    ghost predicate Valid()
      reads this, data
    {
      data.Length >= INITIAL_SIZE && size == |UsedSlots(data[..])|
    }

    constructor (hash: Hash, limit: nat)
      ensures Valid() && fresh(data) && this.hash == hash && this.limit == limit
      ensures data[..] == Blank(INITIAL_SIZE) && size == 0 && freed == []
    {
      this.hash, this.limit := hash, limit;
      data := new Slot[INITIAL_SIZE](_ => Empty);
      size := 0;
      freed := [];
      new;
      assert data[..] == Blank(INITIAL_SIZE) && UsedSlots(data[..]) == {};
    }

    /** `hashmap_hash`: None is MAP_FULL. */
    method HashIndex(key: Key) returns (index: Option<nat>)
      requires Valid()
      ensures index.Some? <==> size < data.Length / 2 && Probe(hash, data[..], key, 0).Some?
      ensures index.Some? ==> index.value == Ix(hash, data.Length, key, Probe(hash, data[..], key, 0).value)
    {
      if size >= data.Length / 2 { return None; }
      var curr := hash(key) % data.Length;
      var i := 0;
      while i < MAX_CHAIN_LENGTH
        invariant 0 <= i <= MAX_CHAIN_LENGTH && curr < data.Length
        invariant i < MAX_CHAIN_LENGTH ==> curr == Ix(hash, data.Length, key, i)
        invariant Probe(hash, data[..], key, 0) == Probe(hash, data[..], key, i)
      {
        if data[curr].Empty? { return Some(curr); }
        if data[curr].key == key { return Some(curr); }
        curr := if curr + 1 == data.Length then 0 else curr + 1;
        i := i + 1;
      }
      index := None;
    }

    method Get(key: Key) returns (value: Option<Pointer>)
      requires Valid()
      ensures value == Lookup(hash, data[..], key)
    {
      var curr := hash(key) % data.Length;
      var i := 0;
      while i < MAX_CHAIN_LENGTH
        invariant 0 <= i <= MAX_CHAIN_LENGTH && curr < data.Length
        invariant i < MAX_CHAIN_LENGTH ==> curr == Ix(hash, data.Length, key, i)
        invariant Find(hash, data[..], key, 0) == Find(hash, data[..], key, i)
      {
        if data[curr].Used? && data[curr].key == key { return Some(data[curr].value); }
        curr := if curr + 1 == data.Length then 0 else curr + 1;
        i := i + 1;
      }
      value := None;
    }

    method BlankSlot(j: nat)
      requires Valid() && j < data.Length && data[j].Used?
      modifies this`size, this`freed, data
      ensures Valid() && data[..] == old(data[..])[j := Empty]
      ensures size == old(size) - 1 && freed == old(freed) + [old(data[j])]
    {
      freed := freed + [data[j]];
      assert j in UsedSlots(data[..]);
      data[j] := Empty;
      assert UsedSlots(data[..]) == UsedSlots(old(data[..])) - {j};
      size := size - 1;
    }

    /** For every table, one slot per key or not. */
    method Remove(key: Key) returns (found: bool)
      requires Valid()
      modifies this, data
      ensures Valid() && data == old(data)
      ensures data[..] == Erased(hash, old(data[..]), key)
      ensures found == Lookup(hash, old(data[..]), key).Some?
      ensures size == old(size) - (if found then 1 else 0)
      ensures freed == old(freed) + if found then [Used(key, Lookup(hash, old(data[..]), key).value)] else []
    {
      var curr := hash(key) % data.Length;
      var i := 0;
      while i < MAX_CHAIN_LENGTH
        invariant 0 <= i <= MAX_CHAIN_LENGTH && curr < data.Length && data == old(data)
        invariant data[..] == old(data[..]) && size == old(size) && freed == old(freed) && Valid()
        invariant i < MAX_CHAIN_LENGTH ==> curr == Ix(hash, data.Length, key, i)
        invariant Find(hash, data[..], key, 0) == Find(hash, data[..], key, i)
      {
        if data[curr].Used? && data[curr].key == key {
          assert Find(hash, data[..], key, 0) == Some(i);
          BlankSlot(curr);
          return true;
        }
        curr := if curr + 1 == data.Length then 0 else curr + 1;
        i := i + 1;
      }
      found := false;
    }

    /** The last part of a put: overwrite, freeing what was there, or fill an empty slot. */
    method StoreAt(j: nat, key: Key, value: Pointer)
      requires Valid() && HasRoom(hash, data[..], key)
      requires j == Ix(hash, data.Length, key, Probe(hash, data[..], key, 0).value)
      modifies this`size, this`freed, data
      ensures Valid() && data[..] == Written(hash, old(data[..]), key, value)
      ensures freed == old(freed) + Overwritten(hash, old(data[..]), key)
    {
      WrittenSets(hash, data[..], key, value);
      if data[j].Used? {
        freed := freed + [data[j]];
      } else {
        size := size + 1;
      }
      data[j] := Used(key, value);
      assert data[..] == Written(hash, old(data[..]), key, value);
    }

    /** The growth loop of a put: rehash until a probe stops; None is MAP_OMEM. */
    method MakeRoom(key: Key, ghost value: Pointer) returns (index: Option<nat>)
      requires Valid()
      modifies this
      ensures data == old(data) || fresh(data)
      ensures index.None? ==> PutSlots(hash, limit, old(data[..]), key, value).None?
      ensures index.Some? ==> Valid() && HasRoom(hash, data[..], key)
      ensures index.Some? ==> index.value == Ix(hash, data.Length, key, Probe(hash, data[..], key, 0).value)
      ensures index.Some? ==> After(freed, PutSlots(hash, limit, data[..], key, value)) ==
                              After(old(freed), PutSlots(hash, limit, old(data[..]), key, value))
      ensures data == old(data) ==> data[..] == old(data[..])
      decreases Room(limit, data.Length), 1, 0
    {
      hide OneSlot, Tight, Regrown;
      ghost var s, f := data[..], freed;
      index := HashIndex(key);
      while index.None?
        invariant Valid() && (data == old(data) || fresh(data)) && data.Length >= old(data.Length)
        invariant data == old(data) ==> data[..] == s
        invariant After(freed, PutSlots(hash, limit, data[..], key, value)) == After(f, PutSlots(hash, limit, s, key, value))
        invariant index.Some? <==> HasRoom(hash, data[..], key)
        invariant index.Some? ==> index.value == Ix(hash, data.Length, key, Probe(hash, data[..], key, 0).value)
        decreases Room(limit, data.Length)
      {
        ghost var t, g := data[..], freed;
        var grown := Rehash();
        if !grown { return None; }
        AfterAfter(g, RehashSlots(hash, limit, t).value.freed, PutSlots(hash, limit, data[..], key, value));
        index := HashIndex(key);
      }
    }

    /**
     `hashmap_put`, for every table: false is MAP_OMEM. From one slot per key, unless it meets
     a hole before its key, the key-value map changes at the key only.
     */
    method Put(key: Key, value: Pointer) returns (ok: bool)
      requires Valid()
      modifies this, data
      ensures data == old(data) || fresh(data)
      ensures ok <==> PutSlots(hash, limit, old(data[..]), key, value).Some?
      ensures ok ==> Valid() && size <= data.Length / 2
      ensures ok ==> Change(data[..], freed) == After(old(freed), PutSlots(hash, limit, old(data[..]), key, value)).value
      ensures ok && old(OneSlot(hash, data[..]) && !HoleMet(hash, data[..], key)) ==>
                Stored(hash, old(data[..]), data[..], key, value, freed[|old(freed)|..])
      decreases Room(limit, data.Length), 2, 0
    {
      hide OneSlot, Stored, HoleMet, RehashSlots;
      ghost var s, f := data[..], freed;
      var index := MakeRoom(key, value);
      if index.None? { return false; }
      PutHalfFull(hash, limit, data[..], key, value);
      StoreAt(index.value, key, value);
      if OneSlot(hash, s) && !HoleMet(hash, s, key) {
        PutStores(hash, limit, s, key, value);
        assert freed[|f|..] == PutSlots(hash, limit, s, key, value).value.freed;
      }
      ok := true;
    }

    /**
     `hashmap_rehash`, nested rehashes included, for every table. From one slot per key: same
     key-value map, size recounted, nothing freed, no empty slot earlier on any probe path.
     */
    method Rehash() returns (ok: bool)
      requires Valid()
      modifies this
      ensures data == old(data) || fresh(data)
      ensures ok <==> 2 * old(data.Length) <= limit && RehashSlots(hash, limit, old(data[..])).Some?
      ensures ok ==> Valid() && fresh(data) && data.Length >= 2 * old(data.Length)
      ensures ok ==> Change(data[..], freed) == After(old(freed), RehashSlots(hash, limit, old(data[..]))).value
      ensures ok && old(OneSlot(hash, data[..])) ==>
                OneSlot(hash, data[..]) && Tight(hash, data[..]) && Regrown(hash, old(data[..]), data[..]) && freed == old(freed)
      decreases Room(limit, data.Length), 0, 0
    {
      hide OneSlot, Tight, Regrown;
      if 2 * data.Length > limit { return false; }
      var curr := data;
      ghost var s := data[..];
      data := new Slot[2 * curr.Length](_ => Empty);
      size := 0;
      assert data[..] == Blank(2 * |s|) && UsedSlots(data[..]) == {};
      ok := Refill(curr);
      if ok && OneSlot(hash, s) {
        RehashKeeps(hash, limit, s);
        assert freed == old(freed) + [];
      }
    }

    /** The rehash loop over the old slots. */
    method Refill(curr: array<Slot>) returns (ok: bool)
      requires Valid() && curr != data
      modifies this, data
      ensures data == old(data) || fresh(data)
      ensures ok <==> RefillSlots(hash, limit, old(curr[..]), 0, old(data[..])).Some?
      ensures ok ==> Valid() && data.Length >= old(data.Length)
      ensures ok ==> Change(data[..], freed) == After(old(freed), RefillSlots(hash, limit, old(curr[..]), 0, old(data[..]))).value
      decreases Room(limit, data.Length), 4, 0
    {
      hide PutSlots;
      ghost var s, f := curr[..], freed;
      ghost var spec := RefillSlots(hash, limit, s, 0, data[..]);
      AfterAfter(f, [], spec);
      var i := 0;
      while i < curr.Length
        invariant 0 <= i <= curr.Length && curr[..] == s && curr != data
        invariant Valid() && (data == old(data) || fresh(data)) && data.Length >= old(data.Length)
        invariant After(freed, RefillSlots(hash, limit, s, i, data[..])) == After(f, spec)
      {
        ghost var t, g := data[..], freed;
        ghost var p := RefillNext(hash, limit, s[i], t);
        if curr[i].Used? {
          var put := Put(curr[i].key, curr[i].value);
          if !put { return false; }
        }
        AfterAfter(g, p.value.freed, RefillSlots(hash, limit, s, i + 1, data[..]));
        i := i + 1;
      }
      ok := true;
    }
  }

  /** One operation on the table object is the step of its slots. */
  method DoOne(m: HashMap, op: TableOp) returns (reply: TableReply, ok: bool)
    requires m.Valid() && m.size <= m.data.Length / 2
    modifies m, m.data
    ensures m.data == old(m.data) || fresh(m.data)
    ensures reply == SlotReply(m.hash, old(m.data[..]), op)
    ensures ok <==> SlotStep(m.hash, m.limit, old(m.data[..]), op).Some?
    ensures ok ==> m.Valid() && m.size <= m.data.Length / 2
    ensures ok ==> m.data[..] == SlotStep(m.hash, m.limit, old(m.data[..]), op).value.slots
  {
    ok := true;
    match op {
      case GetOp(k) =>
        var v := m.Get(k);
        reply := Got(v);
      case PutOp(k, v) =>
        ok := m.Put(k, v);
        reply := Done;
      case RemoveOp(k) =>
        var found := m.Remove(k);
        reply := Removed(found);
    }
  }

  function KeysOf(ops: seq<TableOp>): set<Key> { set i | 0 <= i < |ops| :: ops[i].key }

  lemma ModelsSize(hash: Hash, s: seq<Slot>, m: Dict)
    requires Big(s) && Models(hash, s, m)
    ensures |UsedSlots(s)| == |m|
  {
    SizeIsKeys(hash, s);
  }

  lemma StartsWell(hash: Hash, limit: nat, ops: seq<TableOp>)
    requires Doubles(INITIAL_SIZE, limit) && limit > 0
    requires |KeysOf(ops)| < limit / 2 && Spread(hash, KeysOf(ops), limit)
    ensures var s := Blank(INITIAL_SIZE);
            && Models(hash, s, map[]) && SlotsAfter(hash, limit, s, ops).Some?
            && ((forall i :: 0 <= i < |ops| ==> !ops[i].RemoveOp?) ==> !MeetsHole(hash, limit, s, ops))
  {
    var s := Blank(INITIAL_SIZE);
    BlankFacts(hash, INITIAL_SIZE);
    RunSucceeds(hash, limit, s, KeysOf(ops), ops);
    if forall i :: 0 <= i < |ops| ==> !ops[i].RemoveOp? { NoRemovalNoHole(hash, limit, s, ops); }
  }

  /**
   Every run of puts, gets and removals on a new table object answers as its slots do and
   leaves it at most half full; and, unless some put of the run meets a hole before its key,
   answers as a dictionary does, with `size` the number of distinct keys.
   */
  method Drive(hash: Hash, limit: nat, ops: seq<TableOp>) returns (m: HashMap, replies: seq<TableReply>)
    requires Doubles(INITIAL_SIZE, limit) && limit > 0
    requires |KeysOf(ops)| < limit / 2 && Spread(hash, KeysOf(ops), limit)
    ensures replies == SlotReplies(hash, limit, Blank(INITIAL_SIZE), ops) && m.size <= m.data.Length / 2
    ensures !MeetsHole(hash, limit, Blank(INITIAL_SIZE), ops) ==>
              replies == DictReplies(map[], ops) && m.size == |DictAfter(map[], ops)|
    ensures (forall i :: 0 <= i < |ops| ==> !ops[i].RemoveOp?) ==> !MeetsHole(hash, limit, Blank(INITIAL_SIZE), ops)
  {
    m := new HashMap(hash, limit);
    ghost var s := m.data[..];
    StartsWell(hash, limit, ops);
    replies := [];
    var i := 0;
    assert ops[0..] == ops;
    while i < |ops|
      invariant 0 <= i <= |ops| && fresh(m) && fresh(m.data) && m.Valid() && m.hash == hash && m.limit == limit
      invariant m.size <= m.data.Length / 2
      invariant replies + SlotReplies(hash, limit, m.data[..], ops[i..]) == SlotReplies(hash, limit, s, ops)
      invariant SlotsAfter(hash, limit, m.data[..], ops[i..]) == SlotsAfter(hash, limit, s, ops)
    {
      ghost var t := m.data[..];
      assert ops[i..][0] == ops[i] && ops[i..][1..] == ops[i + 1..];
      var reply, ok := DoOne(m, ops[i]);
      Assoc(replies, [reply], SlotReplies(hash, limit, m.data[..], ops[i + 1..]));
      replies := replies + [reply];
      i := i + 1;
    }
    if !MeetsHole(hash, limit, s, ops) {
      AnswersAsDictionary(hash, limit, s, map[], ops);
      ModelsSize(hash, m.data[..], DictAfter(map[], ops));
    }
  }
}
