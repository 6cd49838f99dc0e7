/**
 What a met hole does. For every table, a SET that meets a hole before a live key leaves an
 older copy that a DEL uncovers. Two runs from an empty tank show it: one of the live server,
 and one that is harmless live and harmful only after a restart, because replay keeps the
 expired entries the live table had evicted.
 */
module Resurfacing {
  import opened Prelude
  import opened Tank
  import opened HashTable
  import opened TableGrowth
  import opened TableRuns
  import opened TableTank
  import opened TankRuns

  /** A plain SET. */
  function PlainSet(k: DataString, v: DataString): Op { Set(k, v, false, false, false, NoExpire) }

  lemma SetWrites(s: Store, k: DataString, v: DataString, c: Clock)
    requires k in s ==> !Expired(s[k], c.now)
    ensures Writes(s, PlainSet(k, v), c) == [SetTo(k, v, NO_EXPIRY)]
    ensures var r := Resolve(s, PlainSet(k, v), c); r.reply == Previous(None) && r.mutation == Some(SetTo(k, v, NO_EXPIRY))
  {
  }

  lemma DelWrites(s: Store, k: DataString, c: Clock)
    requires Alive(s, k, c.now)
    ensures Writes(s, Del(k), c) == [Remove(k)]
    ensures var r := Resolve(s, Del(k), c); r.reply == Deleted(1) && r.mutation == Some(Remove(k))
  {
  }

  /** A plain SET on memory whose entry for the key, if any, is not expired. */
  lemma SetStep(hash: Hash, limit: nat, m: Memory, k: Key, v: DataString, c: Clock)
    requires Big(m.slots) && (Seen(hash, m, k).Some? ==> !Expired(Seen(hash, m, k).value, c.now))
    ensures DigestMem(hash, limit, m, PlainSet(k, v), c) == ApplyMem(hash, limit, m, SetTo(k, v, NO_EXPIRY))
    ensures AnswerMem(hash, m, PlainSet(k, v), c) == Answer(Previous(None), Some(SetTo(k, v, NO_EXPIRY)))
    ensures DigestMeetsHole(hash, limit, m, PlainSet(k, v), c) <==> HoleMet(hash, m.slots, k)
  {
    hide ApplyMem, Resolve, Writes;
    SetWrites(Looked(hash, m, PlainSet(k, v)), k, v, c);
    ReplayOne(hash, limit, m, SetTo(k, v, NO_EXPIRY));
  }

  lemma DelStep(hash: Hash, limit: nat, m: Memory, k: Key, c: Clock)
    requires Big(m.slots) && Seen(hash, m, k).Some? && !Expired(Seen(hash, m, k).value, c.now)
    ensures DigestMem(hash, limit, m, Del(k), c) == ApplyMem(hash, limit, m, Remove(k))
    ensures AnswerMem(hash, m, Del(k), c) == Answer(Deleted(1), Some(Remove(k)))
    ensures !DigestMeetsHole(hash, limit, m, Del(k), c)
  {
    hide ApplyMem, Resolve, Writes;
    DelWrites(Looked(hash, m, Del(k)), k, c);
    ReplayOne(hash, limit, m, Remove(k));
  }

  // ----------------------------------------------------- every met hole shows

  lemma HoleOverwritesNothing(hash: Hash, s: seq<Slot>, k: Key)
    requires Big(s) && HoleMet(hash, s, k)
    ensures HasRoom(hash, s, k) && Overwritten(hash, s, k) == []
  {
    ProbeBeforeFind(hash, s, k);
  }

  lemma HoleSet(hash: Hash, limit: nat, m: Memory, k: Key, v: DataString)
    requires Big(m.slots) && HoleMet(hash, m.slots, k)
    ensures ApplyMem(hash, limit, m, SetTo(k, v, NO_EXPIRY)) ==
            Some(Memory(Written(hash, m.slots, k, m.next), m.heap[m.next := Entry(v, None)], m.next + 1))
  {
    HoleOverwritesNothing(hash, m.slots, k);
    hide HoleMet, Written;
    var grown := m.heap[m.next := Entry(v, None)];
    assert grown - Addresses([]) == grown;
  }

  lemma EraseMemory(hash: Hash, limit: nat, m: Memory, k: Key, p: Pointer)
    requires Big(m.slots) && Lookup(hash, m.slots, k) == Some(p)
    ensures ApplyMem(hash, limit, m, Remove(k)) == Some(Memory(Erased(hash, m.slots, k), m.heap - {p}, m.next))
  {
    hide Lookup, Erased;
    assert [Used(k, p)][0].value == p;
    assert Addresses([Used(k, p)]) == {p};
  }

  /** The memory after a SET that meets a hole, and after a DEL of the same key. */
  lemma HoleMemory(hash: Hash, limit: nat, m: Memory, k: Key, v: DataString)
    requires Sound(m) && HoleMet(hash, m.slots, k) && Seen(hash, m, k).Some?
    ensures ApplyMem(hash, limit, m, SetTo(k, v, NO_EXPIRY)).Some?
    ensures var m1 := ApplyMem(hash, limit, m, SetTo(k, v, NO_EXPIRY)).value;
            && Seen(hash, m1, k) == Some(Entry(v, None))
            && ApplyMem(hash, limit, m1, Remove(k)).Some?
            && Seen(hash, ApplyMem(hash, limit, m1, Remove(k)).value, k) == Seen(hash, m, k)
  {
    HoleResurfaces(hash, limit, m.slots, k, m.next);
    HoleOverwritesNothing(hash, m.slots, k);
    HoleSet(hash, limit, m, k, v);
    LookupOwned(hash, m, k);
    hide Owned, Lookup, Erased, HoleMet, Written, ApplyMem;
    var m1 := ApplyMem(hash, limit, m, SetTo(k, v, NO_EXPIRY)).value;
    EraseMemory(hash, limit, m1, k, m.next);
  }

  lemma GetSeen(hash: Hash, limit: nat, m: Memory, k: Key, c: Clock)
    requires Big(m.slots) && Seen(hash, m, k).Some? && !Expired(Seen(hash, m, k).value, c.now)
    ensures AnswerMem(hash, m, Get(k), c) == Answer(Value(Some(Seen(hash, m, k).value.value)), None)
    ensures DigestMem(hash, limit, m, Get(k), c) == Some(m)
    ensures !DigestMeetsHole(hash, limit, m, Get(k), c)
  {
    assert Writes(Looked(hash, m, Get(k)), Get(k), c) == [];
  }

  /** SET, DEL, GET of one key. */
  function SetDelGet(k: Key, v: DataString, c: Clock): seq<Timed> {
    [Timed(PlainSet(k, v), c), Timed(Del(k), c), Timed(Get(k), c)]
  }

  lemma ThreeAnswers(hash: Hash, limit: nat, m: Memory, k: Key, v: DataString, c: Clock, m1: Memory, m2: Memory)
    requires Big(m.slots) && Big(m1.slots) && Big(m2.slots)
    requires DigestMem(hash, limit, m, PlainSet(k, v), c) == Some(m1) && DigestMem(hash, limit, m1, Del(k), c) == Some(m2)
    ensures |MemAnswers(hash, limit, m, SetDelGet(k, v, c))| == 3
    ensures MemAnswers(hash, limit, m, SetDelGet(k, v, c))[2] == AnswerMem(hash, m2, Get(k), c)
  {
    hide DigestMem, AnswerMem;
    var ops := SetDelGet(k, v, c);
    assert ops[1..] == [Timed(Del(k), c), Timed(Get(k), c)] && ops[1..][1..] == [Timed(Get(k), c)] && ops[1..][1..][1..] == [];
    assert MemAnswers(hash, limit, m2, [Timed(Get(k), c)]) == [AnswerMem(hash, m2, Get(k), c)];
  }

  lemma AbstractForgets(s: Store, k: DataString, v: DataString, c: Clock)
    requires k in s ==> !Expired(s[k], c.now)
    ensures |RunAnswers(s, SetDelGet(k, v, c))| == 3
    ensures RunAnswers(s, SetDelGet(k, v, c))[2].reply == Value(None)
  {
    var ops := SetDelGet(k, v, c);
    assert ops[1..] == [Timed(Del(k), c), Timed(Get(k), c)] && ops[1..][1..] == [Timed(Get(k), c)] && ops[1..][1..][1..] == [];
    var s1 := Digest(s, PlainSet(k, v), c).store;
    assert s1[k] == Entry(v, None);
    var s2 := Digest(s1, Del(k), c).store;
    assert k !in s2;
    assert RunAnswers(s2, [Timed(Get(k), c)]) == [Answer(Value(None), None)];
  }

  /**
   For every table: if a SET meets a hole before a live key, then that SET, a DEL of the key
   and a GET of it answer the value from before the SET, where the abstract tank answers none.
   */
  lemma HoleShows(hash: Hash, limit: nat, m: Memory, k: Key, v: DataString, c: Clock)
    requires Sound(m) && HoleMet(hash, m.slots, k)
    requires Seen(hash, m, k).Some? && !Expired(Seen(hash, m, k).value, c.now)
    ensures var got, ideal := MemAnswers(hash, limit, m, SetDelGet(k, v, c)), RunAnswers(Contents(hash, m), SetDelGet(k, v, c));
            |got| == |ideal| == 3 && got[2].reply == Value(Some(Seen(hash, m, k).value.value)) && ideal[2].reply == Value(None)
  {
    hide MemAnswers, RunAnswers, DigestMem, AnswerMem, ApplyMem, Seen, HoleMet, Owned, Contents;
    HoleMemory(hash, limit, m, k, v);
    var m1 := ApplyMem(hash, limit, m, SetTo(k, v, NO_EXPIRY)).value;
    SetStep(hash, limit, m, k, v, c);
    DelStep(hash, limit, m1, k, c);
    var m2 := ApplyMem(hash, limit, m1, Remove(k)).value;
    GetSeen(hash, limit, m2, k, c);
    ThreeAnswers(hash, limit, m, k, v, c, m1, m2);
    ContentsAt(hash, m, k);
    AbstractForgets(Contents(hash, m), k, v, c);
  }

  // --------------------------------------------- tables with three cells in use

  /** Every key at home in slot 0. */
  function SameHome(k: Key): nat { 0 }

  function Row(a: Slot, b: Slot, c: Slot): (s: seq<Slot>)
    ensures |s| == INITIAL_SIZE
  {
    Blank(INITIAL_SIZE)[0 := a][1 := b][2 := c]
  }

  /** Some cell is free for k or holds it. */
  predicate Takes(a: Slot, b: Slot, c: Slot, k: Key) { Stops(a, k) || Stops(b, k) || Stops(c, k) }

  lemma RowProbe(a: Slot, b: Slot, c: Slot, k: Key)
    requires Takes(a, b, c, k)
    ensures Probe(SameHome, Row(a, b, c), k, 0) == Some(if Stops(a, k) then 0 else if Stops(b, k) then 1 else 2)
    ensures HasRoom(SameHome, Row(a, b, c), k)
  {
    var s := Row(a, b, c);
    assert forall i :: 0 <= i < MAX_CHAIN_LENGTH ==> Ix(SameHome, |s|, k, i) == i;
    assert SlotAt(SameHome, s, k, 0) == a && SlotAt(SameHome, s, k, 1) == b && SlotAt(SameHome, s, k, 2) == c;
    SubsetCount(UsedSlots(s), {0, 1, 2});
  }

  lemma RowFind(a: Slot, b: Slot, c: Slot, k: Key)
    ensures Find(SameHome, Row(a, b, c), k, 0) ==
            if Has(a, k) then Some(0) else if Has(b, k) then Some(1) else if Has(c, k) then Some(2) else None
  {
    var s := Row(a, b, c);
    assert forall i :: 0 <= i < MAX_CHAIN_LENGTH ==> Ix(SameHome, |s|, k, i) == i;
    assert SlotAt(SameHome, s, k, 0) == a && SlotAt(SameHome, s, k, 1) == b && SlotAt(SameHome, s, k, 2) == c;
    assert forall i :: 3 <= i < MAX_CHAIN_LENGTH ==> SlotAt(SameHome, s, k, i).Empty?;
  }

  lemma RowPut(limit: nat, a: Slot, b: Slot, c: Slot, k: Key, v: Pointer)
    requires Takes(a, b, c, k)
    ensures var x, r := Used(k, v), PutSlots(SameHome, limit, Row(a, b, c), k, v);
            && r.Some?
            && r.value.slots == (if Stops(a, k) then Row(x, b, c) else if Stops(b, k) then Row(a, x, c) else Row(a, b, x))
            && r.value.freed == var y := (if Stops(a, k) then a else if Stops(b, k) then b else c); if y.Used? then [y] else []
  {
    RowProbe(a, b, c, k);
    var s, x := Row(a, b, c), Used(k, v);
    assert s[0 := x] == Row(x, b, c) && s[1 := x] == Row(a, x, c) && s[2 := x] == Row(a, b, x);
  }

  lemma RowErase(a: Slot, b: Slot, c: Slot, k: Key)
    ensures Erased(SameHome, Row(a, b, c), k) ==
            if Has(a, k) then Row(Empty, b, c) else if Has(b, k) then Row(a, Empty, c) else if Has(c, k) then Row(a, b, Empty)
            else Row(a, b, c)
    ensures Lookup(SameHome, Row(a, b, c), k) ==
            if Has(a, k) then Some(a.value) else if Has(b, k) then Some(b.value) else if Has(c, k) then Some(c.value) else None
  {
    RowFind(a, b, c, k);
    var s := Row(a, b, c);
    assert s[0 := Empty] == Row(Empty, b, c) && s[1 := Empty] == Row(a, Empty, c) && s[2 := Empty] == Row(a, b, Empty);
  }

  lemma RowHole(a: Slot, b: Slot, c: Slot, k: Key)
    requires Takes(a, b, c, k)
    ensures HoleMet(SameHome, Row(a, b, c), k) <==>
            (a.Empty? && (Has(b, k) || Has(c, k))) || (!Stops(a, k) && b.Empty? && Has(c, k))
  {
    RowProbe(a, b, c, k);
    RowFind(a, b, c, k);
  }

  // ------------------------------------------------------------- two runs

  /** A memory whose table has three cells in use. */
  function Mem(a: Slot, b: Slot, c: Slot, heap: Heap, next: Pointer): Memory { Memory(Row(a, b, c), heap, next) }

  lemma StartRow()
    ensures Start() == Mem(Empty, Empty, Empty, map[], 0)
  {
    assert Row(Empty, Empty, Empty) == Blank(INITIAL_SIZE);
  }

  function CellFor(a: Slot, b: Slot, c: Slot, k: Key): Slot { if Stops(a, k) then a else if Stops(b, k) then b else c }

  function Filled(a: Slot, b: Slot, c: Slot, k: Key, x: Slot): seq<Slot> {
    if Stops(a, k) then Row(x, b, c) else if Stops(b, k) then Row(a, x, c) else Row(a, b, x)
  }

  function Dropped(heap: Heap, x: Slot): Heap { if x.Used? then heap - {x.value} else heap }

  /** SET of any deadline on a row: the first cell that is empty or holds the key is written, its entry freed. */
  lemma RowSet(limit: nat, a: Slot, b: Slot, c: Slot, heap: Heap, next: Pointer, k: Key, v: DataString, t: Int64)
    requires Takes(a, b, c, k)
    ensures ApplyMem(SameHome, limit, Mem(a, b, c, heap, next), SetTo(k, v, t)) ==
            Some(Memory(Filled(a, b, c, k, Used(k, next)),
                        Dropped(heap[next := Entry(v, FromMutationTime(t))], CellFor(a, b, c, k)), next + 1))
  {
    RowPut(limit, a, b, c, k, next);
    hide PutSlots, Row;
    var y, grown := CellFor(a, b, c, k), heap[next := Entry(v, FromMutationTime(t))];
    if y.Used? {
      assert [y][0].value == y.value;
      assert Addresses([y]) == {y.value};
    } else {
      assert grown - Addresses([]) == grown;
    }
  }

  /** DEL or eviction of the key in cell a, when it is there. */
  lemma RowDrop(limit: nat, a: Slot, b: Slot, c: Slot, heap: Heap, next: Pointer, k: Key)
    requires Has(a, k) || (!Has(a, k) && Has(b, k))
    ensures ApplyMem(SameHome, limit, Mem(a, b, c, heap, next), Remove(k)) ==
            Some(if Has(a, k) then Mem(Empty, b, c, heap - {a.value}, next) else Mem(a, Empty, c, heap - {b.value}, next))
  {
    RowErase(a, b, c, k);
    EraseMemory(SameHome, limit, Mem(a, b, c, heap, next), k, if Has(a, k) then a.value else b.value);
  }

  lemma RowSeen(a: Slot, b: Slot, c: Slot, heap: Heap, next: Pointer, k: Key)
    ensures Seen(SameHome, Mem(a, b, c, heap, next), k) ==
            var p := if Has(a, k) then Some(a.value) else if Has(b, k) then Some(b.value) else if Has(c, k) then Some(c.value) else None;
            if p.Some? && p.value in heap then Some(heap[p.value]) else None
  {
    RowErase(a, b, c, k);
  }

  predicate Fresh(heap: Heap, now: int) { forall p :: p in heap ==> !Expired(heap[p], now) }

  /** A plain SET on a row none of whose entries has expired. */
  lemma RowSetOp(limit: nat, a: Slot, b: Slot, c: Slot, heap: Heap, next: Pointer, k: Key, v: DataString, clk: Clock)
    requires Takes(a, b, c, k) && Fresh(heap, clk.now)
    ensures var m := Mem(a, b, c, heap, next);
            && DigestMem(SameHome, limit, m, PlainSet(k, v), clk) ==
               Some(Memory(Filled(a, b, c, k, Used(k, next)), Dropped(heap[next := Entry(v, None)], CellFor(a, b, c, k)), next + 1))
            && (DigestMeetsHole(SameHome, limit, m, PlainSet(k, v), clk) <==>
                (a.Empty? && (Has(b, k) || Has(c, k))) || (!Stops(a, k) && b.Empty? && Has(c, k)))
  {
    RowSeen(a, b, c, heap, next, k);
    RowSet(limit, a, b, c, heap, next, k, v, NO_EXPIRY);
    RowHole(a, b, c, k);
    hide ApplyMem, DigestMem, DigestMeetsHole, HoleMet, Row;
    SetStep(SameHome, limit, Mem(a, b, c, heap, next), k, v, clk);
  }

  /** DEL of a key in one of the first two cells, its entry not expired. */
  lemma RowDelOp(limit: nat, a: Slot, b: Slot, c: Slot, heap: Heap, next: Pointer, k: Key, clk: Clock)
    requires Fresh(heap, clk.now) && if Has(a, k) then a.value in heap else Has(b, k) && b.value in heap
    ensures var m := Mem(a, b, c, heap, next);
            && DigestMem(SameHome, limit, m, Del(k), clk) ==
               Some(if Has(a, k) then Mem(Empty, b, c, heap - {a.value}, next) else Mem(a, Empty, c, heap - {b.value}, next))
            && !DigestMeetsHole(SameHome, limit, m, Del(k), clk)
  {
    RowSeen(a, b, c, heap, next, k);
    RowDrop(limit, a, b, c, heap, next, k);
    hide ApplyMem, DigestMem, DigestMeetsHole, Row;
    DelStep(SameHome, limit, Mem(a, b, c, heap, next), k, clk);
  }

  /** The first operation of a run, then the rest. */
  lemma RunCons(hash: Hash, limit: nat, m: Memory, x: Timed, rest: seq<Timed>, m1: Memory)
    requires Big(m.slots) && Big(m1.slots) && DigestMem(hash, limit, m, x.op, x.clock) == Some(m1)
    ensures RunMem(hash, limit, m, [x] + rest) == RunMem(hash, limit, m1, rest)
    ensures MemAnswers(hash, limit, m, [x] + rest) == [AnswerMem(hash, m, x.op, x.clock)] + MemAnswers(hash, limit, m1, rest)
    ensures RunMeetsHole(hash, limit, m, [x] + rest) <==>
            DigestMeetsHole(hash, limit, m, x.op, x.clock) || RunMeetsHole(hash, limit, m1, rest)
  {
    hide DigestMem, AnswerMem, DigestMeetsHole;
    assert ([x] + rest)[1..] == rest;
  }

  /** SET a, SET b, DEL a, and whatever comes after. */
  function Opened(a: Key, x: DataString, b: Key, y: DataString, c: Clock, rest: seq<Timed>): seq<Timed> {
    [Timed(PlainSet(a, x), c)] + ([Timed(PlainSet(b, y), c)] + ([Timed(Del(a), c)] + rest))
  }

  /** They leave b behind a hole. */
  function BehindHole(b: Key, y: DataString): Memory { Mem(Empty, Used(b, 1), Empty, map[1 := Entry(y, None)], 2) }

  lemma OpenedRun(limit: nat, a: Key, x: DataString, b: Key, y: DataString, c: Clock, rest: seq<Timed>)
    requires a != b
    ensures var ops, m := Opened(a, x, b, y, c, rest), BehindHole(b, y);
            && RunMem(SameHome, limit, Start(), ops) == RunMem(SameHome, limit, m, rest)
            && (RunMeetsHole(SameHome, limit, Start(), ops) <==> RunMeetsHole(SameHome, limit, m, rest))
            && |MemAnswers(SameHome, limit, Start(), ops)| == 3 + |MemAnswers(SameHome, limit, m, rest)|
            && MemAnswers(SameHome, limit, Start(), ops)[3..] == MemAnswers(SameHome, limit, m, rest)
  {
    hide RunMem, MemAnswers, RunMeetsHole, DigestMem, AnswerMem, DigestMeetsHole, Row;
    StartRow();
    var e, f := Entry(x, None), Entry(y, None);
    var m1 := Mem(Used(a, 0), Empty, Empty, map[0 := e], 1);
    var m2 := Mem(Used(a, 0), Used(b, 1), Empty, map[0 := e, 1 := f], 2);
    var after2, after1 := [Timed(Del(a), c)] + rest, [Timed(PlainSet(b, y), c)] + ([Timed(Del(a), c)] + rest);
    RowSetOp(limit, Empty, Empty, Empty, map[], 0, a, x, c);
    assert map[][0 := e] == map[0 := e];
    RunCons(SameHome, limit, Start(), Timed(PlainSet(a, x), c), after1, m1);
    RowSetOp(limit, Used(a, 0), Empty, Empty, map[0 := e], 1, b, y, c);
    assert map[0 := e][1 := f] == map[0 := e, 1 := f];
    RunCons(SameHome, limit, m1, Timed(PlainSet(b, y), c), after2, m2);
    RowDelOp(limit, Used(a, 0), Used(b, 1), Empty, map[0 := e, 1 := f], 2, a, c);
    assert map[0 := e, 1 := f] - {0} == map[1 := f];
    RunCons(SameHome, limit, m2, Timed(Del(a), c), rest, BehindHole(b, y));
  }

  lemma AbstractCons(s: Store, x: Timed, rest: seq<Timed>)
    ensures var d := Digest(s, x.op, x.clock);
            && RunAnswers(s, [x] + rest) == [Answer(d.reply, d.mutation)] + RunAnswers(d.store, rest)
            && RunLog(s, [x] + rest) == OptSeq(d.mutation) + RunLog(d.store, rest)
  {
    hide Digest;
    assert ([x] + rest)[1..] == rest;
  }

  lemma AbstractOpened(a: Key, x: DataString, b: Key, y: DataString, c: Clock, rest: seq<Timed>) returns (s: Store)
    requires a != b
    ensures b in s && s[b] == Entry(y, None)
    ensures var all := RunAnswers(map[], Opened(a, x, b, y, c, rest));
            |all| == 3 + |RunAnswers(s, rest)| && all[3..] == RunAnswers(s, rest)
  {
    hide RunAnswers, RunLog;
    var s1, s2 := map[a := Entry(x, None)], map[a := Entry(x, None), b := Entry(y, None)];
    s := s2 - {a};
    AbstractCons(map[], Timed(PlainSet(a, x), c), [Timed(PlainSet(b, y), c)] + ([Timed(Del(a), c)] + rest));
    AbstractCons(s1, Timed(PlainSet(b, y), c), [Timed(Del(a), c)] + rest);
    AbstractCons(s2, Timed(Del(a), c), rest);
  }

  lemma BehindHoleFacts(limit: nat, a: Key, x: DataString, b: Key, y: DataString, c: Clock)
    requires a != b
    ensures var m := BehindHole(b, y);
            Sound(m) && HoleMet(SameHome, m.slots, b) && Seen(SameHome, m, b) == Some(Entry(y, None))
  {
    RowHole(Empty, Used(b, 1), Empty, b);
    RowSeen(Empty, Used(b, 1), Empty, map[1 := Entry(y, None)], 2, b);
    hide Row, Owned, DigestMem, Seen, HoleMet;
    OpenedRun(limit, a, x, b, y, c, []);
    StartSound(SameHome);
    RunSound(SameHome, limit, Start(), Opened(a, x, b, y, c, []));
  }

  lemma MeetsAtOnce(limit: nat, m: Memory, k: Key, v: DataString, c: Clock)
    requires Big(m.slots) && HoleMet(SameHome, m.slots, k)
    requires Seen(SameHome, m, k).Some? && !Expired(Seen(SameHome, m, k).value, c.now)
    ensures RunMeetsHole(SameHome, limit, m, SetDelGet(k, v, c))
  {
    hide DigestMem, DigestMeetsHole, Seen, HoleMet;
    SetStep(SameHome, limit, m, k, v, c);
  }

  /**
   SET a, SET b, DEL a, SET b, DEL b, GET b from an empty tank, all keys at home in one slot:
   the tank on the real table answers b's first value, the abstract tank answers none.
   */
  lemma ResurfacingTank(limit: nat, a: Key, x: DataString, b: Key, y: DataString, z: DataString, now: Int64)
    requires a != b
    ensures var c := Clock(now, now);
            var ops := Opened(a, x, b, y, c, SetDelGet(b, z, c));
            var got, ideal := MemAnswers(SameHome, limit, Start(), ops), RunAnswers(map[], ops);
            && RunMeetsHole(SameHome, limit, Start(), ops)
            && |got| == |ideal| == 6 && got[5].reply == Value(Some(y)) && ideal[5].reply == Value(None)
  {
    var c := Clock(now, now);
    var m, rest := BehindHole(b, y), SetDelGet(b, z, c);
    BehindHoleFacts(limit, a, x, b, y, c);
    hide MemAnswers, RunAnswers, RunMem, DigestMem, DigestMeetsHole, Row, Owned, Seen, HoleMet;
    OpenedRun(limit, a, x, b, y, c, rest);
    HoleShows(SameHome, limit, m, b, z, c);
    MeetsAtOnce(limit, m, b, z, c);
    var s := AbstractOpened(a, x, b, y, c, rest);
    AbstractForgets(s, b, z, c);
  }

  // ------------------------------------------- harmless live, harmful replayed

  /** SET a with deadline 5 at time 0; then at time 10: GET a, SET b, SET a, DEL a, SET b. */
  function Lapsing(a: Key, x: DataString, b: Key, y: DataString, w: DataString, z: DataString): seq<Timed> {
    var c := Clock(10, 10);
    [Timed(Set(a, x, false, false, false, UnixTs(5)), Clock(0, 0))] + ([Timed(Get(a), c)] +
    ([Timed(PlainSet(b, y), c)] + ([Timed(PlainSet(a, w), c)] + ([Timed(Del(a), c)] + ([Timed(PlainSet(b, z), c)] + [])))))
  }

  function LapsingLog(a: Key, x: DataString, b: Key, y: DataString, w: DataString, z: DataString): seq<Mutation> {
    [SetTo(a, x, 5)] + ([SetTo(b, y, NO_EXPIRY)] + ([SetTo(a, w, NO_EXPIRY)] + ([Remove(a)] + ([SetTo(b, z, NO_EXPIRY)] + []))))
  }

  lemma EmptyLog(s: Store)
    ensures RunLog(s, []) == []
  {
  }

  lemma LapsingLogs(a: Key, x: DataString, b: Key, y: DataString, w: DataString, z: DataString)
    requires a != b
    ensures RunLog(map[], Lapsing(a, x, b, y, w, z)) == LapsingLog(a, x, b, y, w, z)
  {
    hide RunAnswers, RunLog;
    var c := Clock(10, 10);
    var r5 := [Timed(PlainSet(b, z), c)] + [];
    var r4 := [Timed(Del(a), c)] + r5;
    var r3 := [Timed(PlainSet(a, w), c)] + r4;
    var r2 := [Timed(PlainSet(b, y), c)] + r3;
    var r1 := [Timed(Get(a), c)] + r2;
    var s1 := map[a := Entry(x, Some(5))];
    var s3, s4 := map[b := Entry(y, None)], map[b := Entry(y, None), a := Entry(w, None)];
    AbstractCons(map[], Timed(Set(a, x, false, false, false, UnixTs(5)), Clock(0, 0)), r1);
    AbstractCons(s1, Timed(Get(a), c), r2);
    assert s1 - {a} == map[];
    AbstractCons(map[], Timed(PlainSet(b, y), c), r3);
    AbstractCons(s3, Timed(PlainSet(a, w), c), r4);
    AbstractCons(s4, Timed(Del(a), c), r5);
    assert s4 - {a} == s3;
    AbstractCons(s3, Timed(PlainSet(b, z), c), []);
    EmptyLog(s3[b := Entry(z, None)]);
  }

  /** GET of an expired entry evicts it. */
  lemma EvictStep(hash: Hash, limit: nat, m: Memory, k: Key, c: Clock)
    requires Big(m.slots) && Seen(hash, m, k).Some? && Expired(Seen(hash, m, k).value, c.now)
    ensures DigestMem(hash, limit, m, Get(k), c) == ApplyMem(hash, limit, m, Remove(k))
    ensures !DigestMeetsHole(hash, limit, m, Get(k), c)
  {
    hide ApplyMem;
    assert Writes(Looked(hash, m, Get(k)), Get(k), c) == [Remove(k)];
    ReplayOne(hash, limit, m, Remove(k));
  }

  lemma DeadlineStep(limit: nat, a: Key, x: DataString)
    ensures var m, op := Start(), Set(a, x, false, false, false, UnixTs(5));
            && DigestMem(SameHome, limit, m, op, Clock(0, 0)) == Some(Mem(Used(a, 0), Empty, Empty, map[0 := Entry(x, Some(5))], 1))
            && !DigestMeetsHole(SameHome, limit, m, op, Clock(0, 0))
  {
    StartRow();
    RowSeen(Empty, Empty, Empty, map[], 0, a);
    RowSet(limit, Empty, Empty, Empty, map[], 0, a, x, 5);
    RowHole(Empty, Empty, Empty, a);
    hide ApplyMem, Row, HoleMet;
    var op := Set(a, x, false, false, false, UnixTs(5));
    assert Writes(Looked(SameHome, Start(), op), op, Clock(0, 0)) == [SetTo(a, x, 5)];
    ReplayOne(SameHome, limit, Start(), SetTo(a, x, 5));
    assert map[][0 := Entry(x, Some(5))] == map[0 := Entry(x, Some(5))];
  }

  lemma EmptyRun(limit: nat, m: Memory)
    requires Big(m.slots)
    ensures RunMem(SameHome, limit, m, []) == Some(m) && !RunMeetsHole(SameHome, limit, m, [])
  {
  }

  /** The table holds b alone when a comes and goes. */
  lemma LapsingEnd(limit: nat, a: Key, b: Key, y: DataString, w: DataString, z: DataString)
    requires a != b
    ensures var c, m3 := Clock(10, 10), Mem(Used(b, 1), Empty, Empty, map[1 := Entry(y, None)], 2);
            var ops := [Timed(PlainSet(a, w), c)] + ([Timed(Del(a), c)] + ([Timed(PlainSet(b, z), c)] + []));
            && RunMem(SameHome, limit, m3, ops) == Some(Mem(Used(b, 3), Empty, Empty, map[3 := Entry(z, None)], 4))
            && !RunMeetsHole(SameHome, limit, m3, ops)
  {
    hide RunMem, MemAnswers, RunMeetsHole, DigestMem, AnswerMem, DigestMeetsHole, Row;
    var c, f, g, h := Clock(10, 10), Entry(y, None), Entry(w, None), Entry(z, None);
    var m3 := Mem(Used(b, 1), Empty, Empty, map[1 := f], 2);
    var m4 := Mem(Used(b, 1), Used(a, 2), Empty, map[1 := f, 2 := g], 3);
    var m5 := Mem(Used(b, 1), Empty, Empty, map[1 := f], 3);
    var m6 := Mem(Used(b, 3), Empty, Empty, map[3 := h], 4);
    var r5 := [Timed(PlainSet(b, z), c)] + [];
    RowSetOp(limit, Used(b, 1), Empty, Empty, map[1 := f], 2, a, w, c);
    assert map[1 := f][2 := g] == map[1 := f, 2 := g];
    RunCons(SameHome, limit, m3, Timed(PlainSet(a, w), c), [Timed(Del(a), c)] + r5, m4);
    RowDelOp(limit, Used(b, 1), Used(a, 2), Empty, map[1 := f, 2 := g], 3, a, c);
    assert map[1 := f, 2 := g] - {2} == map[1 := f];
    RunCons(SameHome, limit, m4, Timed(Del(a), c), r5, m5);
    RowSetOp(limit, Used(b, 1), Empty, Empty, map[1 := f], 3, b, z, c);
    assert map[1 := f][3 := h] - {1} == map[3 := h];
    RunCons(SameHome, limit, m5, Timed(PlainSet(b, z), c), [], m6);
    EmptyRun(limit, m6);
  }

  lemma EvictedRow(limit: nat, a: Key, x: DataString)
    ensures var m1 := Mem(Used(a, 0), Empty, Empty, map[0 := Entry(x, Some(5))], 1);
            && DigestMem(SameHome, limit, m1, Get(a), Clock(10, 10)) == Some(Mem(Empty, Empty, Empty, map[], 1))
            && !DigestMeetsHole(SameHome, limit, m1, Get(a), Clock(10, 10))
  {
    var m1 := Mem(Used(a, 0), Empty, Empty, map[0 := Entry(x, Some(5))], 1);
    RowSeen(Used(a, 0), Empty, Empty, m1.heap, 1, a);
    RowDrop(limit, Used(a, 0), Empty, Empty, m1.heap, 1, a);
    EvictStep(SameHome, limit, m1, a, Clock(10, 10));
    assert m1.heap - {0} == map[];
  }

  lemma LapsingLive(limit: nat, a: Key, x: DataString, b: Key, y: DataString, w: DataString, z: DataString)
    requires a != b
    ensures var ops := Lapsing(a, x, b, y, w, z);
            && RunMem(SameHome, limit, Start(), ops) == Some(Mem(Used(b, 3), Empty, Empty, map[3 := Entry(z, None)], 4))
            && !RunMeetsHole(SameHome, limit, Start(), ops)
  {
    hide RunMem, MemAnswers, RunMeetsHole, DigestMem, AnswerMem, DigestMeetsHole, Row;
    var c, f := Clock(10, 10), Entry(y, None);
    var m1 := Mem(Used(a, 0), Empty, Empty, map[0 := Entry(x, Some(5))], 1);
    var m2 := Mem(Empty, Empty, Empty, map[], 1);
    var r3 := [Timed(PlainSet(a, w), c)] + ([Timed(Del(a), c)] + ([Timed(PlainSet(b, z), c)] + []));
    var r2 := [Timed(PlainSet(b, y), c)] + r3;
    DeadlineStep(limit, a, x);
    RunCons(SameHome, limit, Start(), Timed(Set(a, x, false, false, false, UnixTs(5)), Clock(0, 0)), [Timed(Get(a), c)] + r2, m1);
    EvictedRow(limit, a, x);
    RunCons(SameHome, limit, m1, Timed(Get(a), c), r2, m2);
    RowSetOp(limit, Empty, Empty, Empty, map[], 1, b, y, c);
    assert map[][1 := f] == map[1 := f];
    RunCons(SameHome, limit, m2, Timed(PlainSet(b, y), c), r3, Mem(Used(b, 1), Empty, Empty, map[1 := f], 2));
    LapsingEnd(limit, a, b, y, w, z);
  }

  lemma ReplayCons(limit: nat, m: Memory, u: Mutation, rest: seq<Mutation>, m1: Memory)
    requires Big(m.slots) && Big(m1.slots) && ApplyMem(SameHome, limit, m, u) == Some(m1)
    ensures ReplayMem(SameHome, limit, m, [u] + rest) == ReplayMem(SameHome, limit, m1, rest)
    ensures ReplayMeetsHole(SameHome, limit, m, [u] + rest) <==>
            MutationMeetsHole(SameHome, m, u) || ReplayMeetsHole(SameHome, limit, m1, rest)
  {
    hide ApplyMem, MutationMeetsHole, ReplayMeetsHole;
    assert ([u] + rest)[1..] == rest;
    ReplayMeetsHoleCons(SameHome, limit, m, [u] + rest);
  }

  lemma RowMeets(heap: Heap, next: Pointer, b: Key, z: DataString)
    ensures MutationMeetsHole(SameHome, Mem(Empty, Used(b, 1), Empty, heap, next), SetTo(b, z, NO_EXPIRY))
  {
    RowHole(Empty, Used(b, 1), Empty, b);
  }

  lemma EmptyReplay(limit: nat, m: Memory)
    requires Big(m.slots)
    ensures ReplayMem(SameHome, limit, m, []) == Some(m)
  {
  }

  /** The replayed table still holds a's dead entry in the first cell, and b behind it. */
  lemma ReplayedEnd(limit: nat, a: Key, x: DataString, b: Key, y: DataString, w: DataString, z: DataString)
    requires a != b
    ensures var m2 := Mem(Used(a, 0), Used(b, 1), Empty, map[0 := Entry(x, Some(5)), 1 := Entry(y, None)], 2);
            var log := [SetTo(a, w, NO_EXPIRY)] + ([Remove(a)] + ([SetTo(b, z, NO_EXPIRY)] + []));
            && ReplayMem(SameHome, limit, m2, log) ==
               Some(Mem(Used(b, 3), Used(b, 1), Empty, map[1 := Entry(y, None), 3 := Entry(z, None)], 4))
            && ReplayMeetsHole(SameHome, limit, m2, log)
  {
    hide ApplyMem, Row, ReplayMem, ReplayMeetsHole, MutationMeetsHole;
    var e, f, g, h := Entry(x, Some(5)), Entry(y, None), Entry(w, None), Entry(z, None);
    var m2 := Mem(Used(a, 0), Used(b, 1), Empty, map[0 := e, 1 := f], 2);
    var m3 := Mem(Used(a, 2), Used(b, 1), Empty, map[1 := f, 2 := g], 3);
    var m4 := Mem(Empty, Used(b, 1), Empty, map[1 := f], 3);
    var m5 := Mem(Used(b, 3), Used(b, 1), Empty, map[1 := f, 3 := h], 4);
    var r4 := [SetTo(b, z, NO_EXPIRY)] + [];
    RowSet(limit, Used(a, 0), Used(b, 1), Empty, map[0 := e, 1 := f], 2, a, w, NO_EXPIRY);
    assert map[0 := e, 1 := f][2 := g] - {0} == map[1 := f, 2 := g];
    ReplayCons(limit, m2, SetTo(a, w, NO_EXPIRY), [Remove(a)] + r4, m3);
    RowDrop(limit, Used(a, 2), Used(b, 1), Empty, map[1 := f, 2 := g], 3, a);
    assert map[1 := f, 2 := g] - {2} == map[1 := f];
    ReplayCons(limit, m3, Remove(a), r4, m4);
    RowSet(limit, Empty, Used(b, 1), Empty, map[1 := f], 3, b, z, NO_EXPIRY);
    assert map[1 := f][3 := h] == map[1 := f, 3 := h];
    RowMeets(map[1 := f], 3, b, z);
    ReplayCons(limit, m4, SetTo(b, z, NO_EXPIRY), [], m5);
    EmptyReplay(limit, m5);
  }

  lemma LapsingReplayed(limit: nat, a: Key, x: DataString, b: Key, y: DataString, w: DataString, z: DataString)
    requires a != b
    ensures var log := LapsingLog(a, x, b, y, w, z);
            && ReplayMem(SameHome, limit, Start(), log) ==
               Some(Mem(Used(b, 3), Used(b, 1), Empty, map[1 := Entry(y, None), 3 := Entry(z, None)], 4))
            && ReplayMeetsHole(SameHome, limit, Start(), log)
  {
    hide ApplyMem, Row, HoleMet, ReplayMem, ReplayMeetsHole;
    StartRow();
    var e, f := Entry(x, Some(5)), Entry(y, None);
    var m1 := Mem(Used(a, 0), Empty, Empty, map[0 := e], 1);
    var r2 := [SetTo(a, w, NO_EXPIRY)] + ([Remove(a)] + ([SetTo(b, z, NO_EXPIRY)] + []));
    RowSet(limit, Empty, Empty, Empty, map[], 0, a, x, 5);
    assert map[][0 := e] == map[0 := e];
    ReplayCons(limit, Start(), SetTo(a, x, 5), [SetTo(b, y, NO_EXPIRY)] + r2, m1);
    RowSet(limit, Used(a, 0), Empty, Empty, map[0 := e], 1, b, y, NO_EXPIRY);
    assert map[0 := e][1 := f] == map[0 := e, 1 := f];
    ReplayCons(limit, m1, SetTo(b, y, NO_EXPIRY), r2, Mem(Used(a, 0), Used(b, 1), Empty, map[0 := e, 1 := f], 2));
    ReplayedEnd(limit, a, x, b, y, w, z);
  }

  /** DEL b, GET b. */
  function Probing(b: Key): seq<Timed> { [Timed(Del(b), Clock(10, 10))] + ([Timed(Get(b), Clock(10, 10))] + []) }

  lemma ProbingAnswers(limit: nat, b: Key, second: Slot, heap: Heap, next: Pointer)
    requires 3 in heap && Fresh(heap, 10)
    ensures var got := MemAnswers(SameHome, limit, Mem(Used(b, 3), second, Empty, heap, next), Probing(b));
            && |got| == 2
            && got[1] == AnswerMem(SameHome, Mem(Empty, second, Empty, heap - {3}, next), Get(b), Clock(10, 10))
  {
    var m, m1, c := Mem(Used(b, 3), second, Empty, heap, next), Mem(Empty, second, Empty, heap - {3}, next), Clock(10, 10);
    hide DigestMem, AnswerMem, Row, DigestMeetsHole;
    RowDelOp(limit, Used(b, 3), second, Empty, heap, next, b, c);
    RunCons(SameHome, limit, m, Timed(Del(b), c), [Timed(Get(b), c)] + [], m1);
    assert MemAnswers(SameHome, limit, m1, [Timed(Get(b), c)]) == [AnswerMem(SameHome, m1, Get(b), c)] by {
      assert [Timed(Get(b), c)][1..] == [];
    }
    assert [Timed(Get(b), c)] + [] == [Timed(Get(b), c)];
  }

  lemma KeptAnswer(limit: nat, b: Key, z: DataString)
    ensures var m := Mem(Used(b, 3), Empty, Empty, map[3 := Entry(z, None)], 4);
            Big(m.slots) && var got := MemAnswers(SameHome, limit, m, Probing(b)); |got| == 2 && got[1].reply == Value(None)
  {
    ProbingAnswers(limit, b, Empty, map[3 := Entry(z, None)], 4);
    assert map[3 := Entry(z, None)] - {3} == map[];
    RowSeen(Empty, Empty, Empty, map[], 4, b);
  }

  lemma LostAnswer(limit: nat, b: Key, y: DataString, z: DataString)
    ensures var m := Mem(Used(b, 3), Used(b, 1), Empty, map[1 := Entry(y, None), 3 := Entry(z, None)], 4);
            Big(m.slots) && var got := MemAnswers(SameHome, limit, m, Probing(b)); |got| == 2 && got[1].reply == Value(Some(y))
  {
    var heap := map[1 := Entry(y, None), 3 := Entry(z, None)];
    ProbingAnswers(limit, b, Used(b, 1), heap, 4);
    assert heap - {3} == map[1 := Entry(y, None)];
    RowSeen(Empty, Used(b, 1), Empty, map[1 := Entry(y, None)], 4, b);
    GetSeen(SameHome, limit, Mem(Empty, Used(b, 1), Empty, map[1 := Entry(y, None)], 4), b, Clock(10, 10));
  }

  lemma {:induction false} LateClock(ops: seq<Timed>, t: int)
    requires t <= 10 && forall i :: 0 <= i < |ops| ==> ops[i].clock == Clock(10, 10)
    ensures Monotone(ops, t)
    decreases |ops|
  {
    if ops != [] { LateClock(ops[1..], 10); }
  }

  lemma LapsingClock(a: Key, x: DataString, b: Key, y: DataString, w: DataString, z: DataString)
    ensures Monotone(Lapsing(a, x, b, y, w, z), 0)
  {
    var ops := Lapsing(a, x, b, y, w, z);
    assert |ops| == 6 && ops[0].clock == Clock(0, 0) && forall i :: 1 <= i < 6 ==> ops[i].clock == Clock(10, 10);
    LateClock(ops[1..], 0);
  }

  /**
   A run of the live tank that meets no hole, whose log meets one when replayed: after a
   restart, DEL b and GET b answer a value of b the live tank had overwritten.
   */
  lemma HarmlessLiveHarmfulReplayed(limit: nat, a: Key, x: DataString, b: Key, y: DataString, w: DataString, z: DataString)
    requires a != b
    ensures var ops := Lapsing(a, x, b, y, w, z);
            var log := RunLog(map[], ops);
            var live, back := RunMem(SameHome, limit, Start(), ops), ReplayMem(SameHome, limit, Start(), log);
            && Monotone(ops, 0)
            && !RunMeetsHole(SameHome, limit, Start(), ops) && ReplayMeetsHole(SameHome, limit, Start(), log)
            && live.Some? && back.Some?
            && var kept, lost := MemAnswers(SameHome, limit, live.value, Probing(b)), MemAnswers(SameHome, limit, back.value, Probing(b));
            && |kept| == |lost| == 2 && kept[1].reply == Value(None) && lost[1].reply == Value(Some(y))
  {
    hide Mem, RunMem, MemAnswers, ReplayMem, RunMeetsHole, ReplayMeetsHole, RunLog, Monotone;
    LapsingLogs(a, x, b, y, w, z);
    LapsingLive(limit, a, x, b, y, w, z);
    LapsingReplayed(limit, a, x, b, y, w, z);
    KeptAnswer(limit, b, z);
    LostAnswer(limit, b, y, z);
    LapsingClock(a, x, b, y, w, z);
  }
}
