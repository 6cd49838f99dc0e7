/**
 Runs of put, get and remove on the table, against a dictionary. The table is one exactly as
 long as no put meets a hole before its key; two conditions a caller can check rule that out.
 */
module TableRuns {
  import opened Prelude
  import opened HashTable
  import opened TableGrowth

  function SlotStep(hash: Hash, limit: nat, s: seq<Slot>, op: TableOp): (r: Option<Change>)
    requires Big(s)
    ensures r.Some? ==> Big(r.value.slots)
  {
    match op
    case PutOp(k, v) => PutSlots(hash, limit, s, k, v)
    case GetOp(_) => Some(Change(s, []))
    case RemoveOp(k) =>
      var found := Lookup(hash, s, k);
      Some(Change(Erased(hash, s, k), if found.Some? then [Used(k, found.value)] else []))
  }

  function SlotReply(hash: Hash, s: seq<Slot>, op: TableOp): TableReply
    requires Big(s)
  {
    match op
    case PutOp(_, _) => Done
    case GetOp(k) => Got(Lookup(hash, s, k))
    case RemoveOp(k) => Removed(Lookup(hash, s, k).Some?)
  }

  /** The slots after a run, or None if the table could not grow. */
  function SlotsAfter(hash: Hash, limit: nat, s: seq<Slot>, ops: seq<TableOp>): (r: Option<seq<Slot>>)
    requires Big(s)
    ensures r.Some? ==> Big(r.value)
    decreases |ops|
  {
    if ops == [] then Some(s)
    else
      var r := SlotStep(hash, limit, s, ops[0]);
      if r.None? then None else SlotsAfter(hash, limit, r.value.slots, ops[1..])
  }

  function SlotReplies(hash: Hash, limit: nat, s: seq<Slot>, ops: seq<TableOp>): seq<TableReply>
    requires Big(s)
    decreases |ops|
  {
    if ops == [] then []
    else
      var r := SlotStep(hash, limit, s, ops[0]);
      [SlotReply(hash, s, ops[0])] + if r.None? then [] else SlotReplies(hash, limit, r.value.slots, ops[1..])
  }

  predicate StepMeetsHole(hash: Hash, s: seq<Slot>, op: TableOp)
    requires Big(s)
  {
    op.PutOp? && HoleMet(hash, s, op.key)
  }

  /** Some put of the run meets a hole before its key. */
  predicate MeetsHole(hash: Hash, limit: nat, s: seq<Slot>, ops: seq<TableOp>)
    requires Big(s)
    decreases |ops|
  {
    ops != [] &&
    (StepMeetsHole(hash, s, ops[0]) ||
     var r := SlotStep(hash, limit, s, ops[0]);
     r.Some? && MeetsHole(hash, limit, r.value.slots, ops[1..]))
  }

  /** One slot per key, before the run and after each of its operations. */
  ghost predicate OneSlotThroughout(hash: Hash, limit: nat, s: seq<Slot>, ops: seq<TableOp>)
    requires Big(s)
    decreases |ops|
  {
    OneSlot(hash, s) &&
    (ops == [] ||
     var r := SlotStep(hash, limit, s, ops[0]);
     r.Some? ==> OneSlotThroughout(hash, limit, r.value.slots, ops[1..]))
  }

  lemma StepOneSlotExactlyWhen(hash: Hash, limit: nat, s: seq<Slot>, op: TableOp)
    requires Big(s) && OneSlot(hash, s) && SlotStep(hash, limit, s, op).Some?
    ensures OneSlot(hash, SlotStep(hash, limit, s, op).value.slots) <==> !StepMeetsHole(hash, s, op)
  {
    match op {
      case PutOp(k, v) => PutOneSlotExactlyWhen(hash, limit, s, k, v);
      case GetOp(_) =>
      case RemoveOp(k) => RemoveKeepsOneSlot(hash, s, k);
    }
  }

  /** A put that meets a hole needs no growth, so it succeeds. */
  lemma HoleStepSucceeds(hash: Hash, limit: nat, s: seq<Slot>, op: TableOp)
    requires Big(s) && StepMeetsHole(hash, s, op)
    ensures SlotStep(hash, limit, s, op).Some?
  {
  }

  lemma NotThroughout(hash: Hash, limit: nat, s: seq<Slot>, ops: seq<TableOp>)
    requires Big(s) && !OneSlot(hash, s)
    ensures !OneSlotThroughout(hash, limit, s, ops)
  {
  }

  /** Every run: one slot per key is kept all along if and only if no put meets a hole before its key. */
  lemma {:induction false} OneSlotExactlyWhen(hash: Hash, limit: nat, s: seq<Slot>, ops: seq<TableOp>)
    requires Big(s) && OneSlot(hash, s)
    ensures OneSlotThroughout(hash, limit, s, ops) <==> !MeetsHole(hash, limit, s, ops)
    decreases |ops|
  {
    hide OneSlot, HoleMet;
    if ops != [] {
      var r := SlotStep(hash, limit, s, ops[0]);
      if StepMeetsHole(hash, s, ops[0]) { HoleStepSucceeds(hash, limit, s, ops[0]); }
      if r.Some? {
        StepOneSlotExactlyWhen(hash, limit, s, ops[0]);
        if OneSlot(hash, r.value.slots) {
          OneSlotExactlyWhen(hash, limit, r.value.slots, ops[1..]);
        } else {
          NotThroughout(hash, limit, r.value.slots, ops[1..]);
        }
      }
    }
  }

  // ------------------------------------------------- against a dictionary

  /** The slots are the dictionary, each key in one of them. */
  ghost predicate Models(hash: Hash, s: seq<Slot>, m: Dict)
    requires Big(s)
  {
    OneSlot(hash, s) && Represents(hash, s, m)
  }

  lemma PutModels(hash: Hash, limit: nat, s: seq<Slot>, m: Dict, k: Key, v: Pointer)
    requires Big(s) && Models(hash, s, m) && !HoleMet(hash, s, k) && PutSlots(hash, limit, s, k, v).Some?
    ensures var r := PutSlots(hash, limit, s, k, v).value;
            Models(hash, r.slots, m[k := v]) && r.freed == Frees(m, PutOp(k, v))
  {
    var r := PutSlots(hash, limit, s, k, v).value;
    PutStores(hash, limit, s, k, v);
    PutRepresents(hash, s, r.slots, m, k, v, r.freed);
  }

  lemma RemoveModels(hash: Hash, s: seq<Slot>, m: Dict, k: Key)
    requires Big(s) && Models(hash, s, m)
    ensures Models(hash, Erased(hash, s, k), m - {k})
  {
    RemoveRepresents(hash, s, m, k);
    RemoveKeepsOneSlot(hash, s, k);
  }

  lemma LookupModels(hash: Hash, s: seq<Slot>, m: Dict, k: Key)
    requires Big(s) && Models(hash, s, m)
    ensures Lookup(hash, s, k) == if k in m then Some(m[k]) else None
  {
  }

  /** One operation that meets no hole: reply, next table and freed pair are the dictionary's. */
  lemma StepModels(hash: Hash, limit: nat, s: seq<Slot>, m: Dict, op: TableOp)
    requires Big(s) && Models(hash, s, m) && !StepMeetsHole(hash, s, op) && SlotStep(hash, limit, s, op).Some?
    ensures var r := SlotStep(hash, limit, s, op).value;
            && Models(hash, r.slots, DictStep(m, op).0) && r.freed == Frees(m, op)
            && SlotReply(hash, s, op) == DictStep(m, op).1
  {
    hide Models;
    LookupModels(hash, s, m, op.key);
    match op {
      case PutOp(k, v) => PutModels(hash, limit, s, m, k, v);
      case GetOp(_) =>
      case RemoveOp(k) => RemoveModels(hash, s, m, k);
    }
  }

  /** Growth ends for these keys: every operation on them succeeds and keeps it so. */
  lemma StepSucceeds(hash: Hash, limit: nat, s: seq<Slot>, keys: set<Key>, op: TableOp)
    requires Big(s) && Growable(hash, s, keys, limit) && op.key in keys
    ensures SlotStep(hash, limit, s, op).Some?
    ensures Growable(hash, SlotStep(hash, limit, s, op).value.slots, keys, limit)
  {
    match op {
      case PutOp(k, v) => PutSucceeds(hash, limit, s, keys, k, v);
      case GetOp(_) =>
      case RemoveOp(k) => ErasedGrowable(hash, s, keys, limit, k);
    }
  }

  /**
   Every run of puts, gets and removals in which no put meets a hole before its key answers
   as a dictionary and ends as that dictionary, however often the table grew.
   */
  lemma {:induction false} AnswersAsDictionary(hash: Hash, limit: nat, s: seq<Slot>, m: Dict, ops: seq<TableOp>)
    requires Big(s) && Models(hash, s, m)
    requires SlotsAfter(hash, limit, s, ops).Some? && !MeetsHole(hash, limit, s, ops)
    ensures SlotReplies(hash, limit, s, ops) == DictReplies(m, ops)
    ensures Models(hash, SlotsAfter(hash, limit, s, ops).value, DictAfter(m, ops))
    decreases |ops|
  {
    hide Models, StepMeetsHole;
    if ops != [] {
      StepModels(hash, limit, s, m, ops[0]);
      AnswersAsDictionary(hash, limit, SlotStep(hash, limit, s, ops[0]).value.slots, DictStep(m, ops[0]).0, ops[1..]);
    }
  }

  lemma {:induction false} RunSucceeds(hash: Hash, limit: nat, s: seq<Slot>, keys: set<Key>, ops: seq<TableOp>)
    requires Big(s) && Growable(hash, s, keys, limit) && forall i :: 0 <= i < |ops| ==> ops[i].key in keys
    ensures SlotsAfter(hash, limit, s, ops).Some?
    decreases |ops|
  {
    if ops != [] {
      StepSucceeds(hash, limit, s, keys, ops[0]);
      RunSucceeds(hash, limit, SlotStep(hash, limit, s, ops[0]).value.slots, keys, ops[1..]);
    }
  }

  // ------------------------------------------- conditions a caller can check

  /** Without removals no put ever meets a hole. */
  lemma {:induction false} NoRemovalNoHole(hash: Hash, limit: nat, s: seq<Slot>, ops: seq<TableOp>)
    requires Big(s) && OneSlot(hash, s) && Tight(hash, s) && forall i :: 0 <= i < |ops| ==> !ops[i].RemoveOp?
    ensures !MeetsHole(hash, limit, s, ops)
    decreases |ops|
  {
    if ops != [] {
      TightHasNoHole(hash, s, ops[0].key);
      if SlotStep(hash, limit, s, ops[0]).Some? {
        if ops[0].PutOp? { PutStores(hash, limit, s, ops[0].key, ops[0].value); }
        NoRemovalNoHole(hash, limit, SlotStep(hash, limit, s, ops[0]).value.slots, ops[1..]);
      }
    }
  }

  lemma HomesNoHole(hash: Hash, s: seq<Slot>, keys: set<Key>, k: Key)
    requires Big(s) && Growable(hash, s, keys, |s|) && k in keys
    ensures HasRoom(hash, s, k) && !HoleMet(hash, s, k)
    ensures forall v :: Growable(hash, Written(hash, s, k, v), keys, |s|)
  {
    HomeProbe(hash, s, keys, k);
    HomesAreOneSlot(hash, s);
    SizeIsKeys(hash, s);
    SubsetCount(Keys(s), keys);
    forall v ensures Growable(hash, Written(hash, s, k, v), keys, |s|) {
      WrittenGrowable(hash, s, keys, |s|, k, v);
    }
  }

  lemma StepKeepsHomes(hash: Hash, limit: nat, s: seq<Slot>, keys: set<Key>, op: TableOp)
    requires Big(s) && Growable(hash, s, keys, |s|) && op.key in keys
    ensures !StepMeetsHole(hash, s, op) && SlotStep(hash, limit, s, op).Some?
    ensures var t := SlotStep(hash, limit, s, op).value.slots; |t| == |s| && Growable(hash, t, keys, |s|)
  {
    match op {
      case PutOp(k, v) => HomesNoHole(hash, s, keys, k);
      case GetOp(_) =>
      case RemoveOp(k) => ErasedGrowable(hash, s, keys, |s|, k);
    }
  }

  /**
   Keys with distinct home slots that fill less than half the table never make a put meet a
   hole, whatever is removed; nor does the table ever grow.
   */
  lemma {:induction false} OwnHomesNoHole(hash: Hash, limit: nat, s: seq<Slot>, keys: set<Key>, ops: seq<TableOp>)
    requires Big(s) && Growable(hash, s, keys, |s|) && forall i :: 0 <= i < |ops| ==> ops[i].key in keys
    ensures !MeetsHole(hash, limit, s, ops) && SlotsAfter(hash, limit, s, ops).Some?
    decreases |ops|
  {
    if ops != [] {
      StepKeepsHomes(hash, limit, s, keys, ops[0]);
      OwnHomesNoHole(hash, limit, SlotStep(hash, limit, s, ops[0]).value.slots, keys, ops[1..]);
    }
  }

  lemma BlankFacts(hash: Hash, n: nat)
    requires n >= MAX_CHAIN_LENGTH
    ensures var s := Blank(n);
            && Keys(s) == {} && UsedSlots(s) == {} && Models(hash, s, map[]) && Tight(hash, s) && AllHome(hash, s)
  {
    assert Keys(Blank(n)) == {};
  }
}
