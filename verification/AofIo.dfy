/** The log writer, its reader, and startup replay, as they move over a file. */
module AofIo {
  import opened Prelude
  import opened Tank
  import opened Aof
  import opened TableTank
  import HashTable
  import TankActor

  /** `data.aof`, opened for appending. */
  class AppendFile {
    var bytes: seq<Byte>

    constructor (existing: seq<Byte>)
      ensures bytes == existing
    {
      bytes := existing;
    }

    method WriteInt64(v: Int64)
      modifies this
      ensures bytes == old(bytes) + I64(v)
    {
      bytes := bytes + I64(v);
    }

    method WriteString(s: DataString)
      modifies this
      ensures bytes == old(bytes) + Str(s)
    {
      bytes := bytes + U64(|s|);
      if |s| == 0 { return; }
      bytes := bytes + s;
    }

    /** `potty_serialize_mutation`. */
    method SerializeMutation(m: Mutation)
      modifies this
      ensures bytes == old(bytes) + Encode(m)
    {
      match m {
        case SetTo(key, value, t) =>
          bytes := bytes + [SET_TAG];
          WriteInt64(t);
          WriteString(key);
          WriteString(value);
        case Remove(key) =>
          bytes := bytes + [DEL_TAG];
          WriteString(key);
        case ExpireAt(key, t) =>
          bytes := bytes + [EXPIRE_TAG];
          WriteString(key);
          WriteInt64(t);
      }
    }

    /** `perform_flush`: one record after another, in batch order. */
    method PerformFlush(waste: seq<Mutation>)
      modifies this
      ensures bytes == old(bytes) + EncodeAll(waste)
    {
      var i := 0;
      while i < |waste|
        invariant 0 <= i <= |waste|
        invariant bytes + EncodeAll(waste[i..]) == old(bytes) + EncodeAll(waste)
      {
        ghost var now := bytes;
        EncodeAllCons(waste[i..]);
        assert waste[i..][1..] == waste[i + 1..];
        SerializeMutation(waste[i]);
        Assoc(now, Encode(waste[i]), EncodeAll(waste[i + 1..]));
        i := i + 1;
      }
      assert bytes + [] == bytes;
    }
  }

  class PottyParser {
    const file: seq<Byte>
    var position: nat

    constructor (file: seq<Byte>)
      ensures this.file == file && position == 0
    {
      this.file, position := file, 0;
    }

    ghost predicate Valid()
      reads this
    {
      position <= |file|
    }

    /** Eight bytes, or nothing at end of file. */
    method FreadWord() returns (word: Option<seq<Byte>>)
      requires Valid()
      modifies this
      ensures Valid()
      ensures old(position) + 8 <= |file| ==>
                position == old(position) + 8 && word == Some(file[old(position)..position])
      ensures old(position) + 8 > |file| ==> word == None
      ensures old(position) <= position
    {
      if position + 8 <= |file| {
        word := Some(file[position..position + 8]);
        position := position + 8;
      } else {
        word := None;
        position := |file|;
      }
    }

    method FreadInt64(ghost start: nat) returns (r: Option<Int64>)
      requires Valid() && start <= position
      modifies this
      ensures Valid() && start <= position
      ensures var f := ReadI64(file[start..], old(position) - start);
              if f.Field? then r == Some(f.value) && position == start + f.next else r == None
    {
      var word := FreadWord();
      if word.None? { return None; }
      assert file[start..][old(position) - start..old(position) - start + 8] == file[old(position)..position];
      r := Some(FromI64(word.value));
    }

    method FreadString(ghost start: nat) returns (r: Option<DataString>)
      requires Valid() && start <= position
      modifies this
      ensures Valid() && start <= position
      ensures var f := ReadStr(file[start..], old(position) - start);
              if f.Field? then r == Some(f.value) && position == start + f.next else r == None
    {
      ghost var b, i := file[start..], position - start;
      var word := FreadWord();
      if word.None? { return None; }
      assert b[i..i + 8] == word.value;
      var len := FromU64(word.value);
      if len > 0 {
        if position + len > |file| {
          position := |file|;
          return None;
        }
        r := Some(file[position..position + len]);
        assert b[i + 8..i + 8 + len] == file[position..position + len];
        position := position + len;
      } else {
        assert b[i + 8..i + 8] == [];
        r := Some([]);
      }
    }

    method ReadSetBody(start: nat) returns (r: ReadResult)
      requires Valid() && position == start + 1
      modifies this
      ensures Valid() && r == ReadSetFields(file[start..])
      ensures r.Ok? ==> position == start + r.next
    {
      var t := FreadInt64(start);
      if t.None? { return UnexpectedEof; }
      var key := FreadString(start);
      if key.None? { return UnexpectedEof; }
      var value := FreadString(start);
      if value.None? { return UnexpectedEof; }
      r := Ok(SetTo(key.value, value.value, t.value), position - start);
    }

    method ReadDelBody(start: nat) returns (r: ReadResult)
      requires Valid() && position == start + 1
      modifies this
      ensures Valid() && r == ReadDelFields(file[start..])
      ensures r.Ok? ==> position == start + r.next
    {
      var key := FreadString(start);
      if key.None? { return UnexpectedEof; }
      r := Ok(Remove(key.value), position - start);
    }

    method ReadExpireBody(start: nat) returns (r: ReadResult)
      requires Valid() && position == start + 1
      modifies this
      ensures Valid() && r == ReadExpireFields(file[start..])
      ensures r.Ok? ==> position == start + r.next
    {
      var key := FreadString(start);
      if key.None? { return UnexpectedEof; }
      var t := FreadInt64(start);
      if t.None? { return UnexpectedEof; }
      r := Ok(ExpireAt(key.value, t.value), position - start);
    }

    /** `potty_parser_read`: field by field, returning at the first short read. */
    method ReadMutation() returns (r: ReadResult)
      requires Valid()
      modifies this
      ensures Valid()
      ensures r == Read(file[old(position)..])
      ensures r.Ok? ==> position == old(position) + r.next
    {
      var start := position;
      if position == |file| { return Eof; }
      var tag := file[position];
      assert file[start..][0] == tag;
      position := position + 1;
      if tag == SET_TAG {
        r := ReadSetBody(start);
      } else if tag == DEL_TAG {
        r := ReadDelBody(start);
      } else if tag == EXPIRE_TAG {
        r := ReadExpireBody(start);
      } else {
        r := BadTag;
      }
    }
  }

  /** Reading on after a record that was read whole. */
  lemma ReadOn(b: seq<Byte>)
    requires Read(b).Ok?
    ensures var r, rest := Read(b), ReadAll(b[Read(b).next..]);
            ReadAll(b) == Contents([r.mutation] + rest.records, rest.last) && ReadAll(b).records[1..] == rest.records
  {
    var r, rest := Read(b), ReadAll(b[Read(b).next..]);
    assert ([r.mutation] + rest.records)[1..] == rest.records;
  }

  /** Replaying all records from the start comes to replaying the remaining ones from here. */
  ghost predicate Ahead(hash: HashTable.Hash, limit: nat, all: Contents, rest: Contents, start: Memory, now: Memory, processed: nat)
    requires HashTable.Big(start.slots) && HashTable.Big(now.slots)
  {
    && ReplayMem(hash, limit, start, all.records) == ReplayMem(hash, limit, now, rest.records)
    && all.last == rest.last && processed + |rest.records| == |all.records|
  }

  /** A read that is not whole ends the records. */
  lemma ReadNone(b: seq<Byte>)
    requires !Read(b).Ok?
    ensures ReadAll(b) == Contents([], Read(b))
  {
  }

  /**
   `potty_trainer_train`: apply record after record to the tank's table until end of file. Any
   result other than EOF ends the process in the source; here it is reported.
   */
  method Train(tank: TankActor.SepticTank, file: seq<Byte>) returns (last: ReadResult, processed: nat)
    requires tank.Valid() && ReplayMem(tank.table.hash, tank.table.limit, tank.Mem(), ReadAll(file).records).Some?
    modifies tank`heap, tank`next, tank.table, tank.table.data
    ensures tank.Valid() && last == ReadAll(file).last && processed == |ReadAll(file).records|
    ensures Some(tank.Mem()) == ReplayMem(tank.table.hash, tank.table.limit, old(tank.Mem()), ReadAll(file).records)
  {
    hide Owned, ApplyMem, Encode, Read, ReadAll;
    ghost var hash, limit, m := tank.table.hash, tank.table.limit, tank.Mem();
    var parser := new PottyParser(file);
    processed := 0;
    ghost var rest := file;
    assert file[0..] == file;
    last := parser.ReadMutation();
    while last.Ok?
      invariant parser.Valid() && parser.file == file && fresh(parser)
      invariant tank.Valid() && (tank.table.data == old(tank.table.data) || fresh(tank.table.data))
      invariant last == Read(rest)
      invariant last.Ok? ==> last.next <= |rest| <= |file| && rest[last.next..] == file[parser.position..]
      invariant Ahead(hash, limit, ReadAll(file), ReadAll(rest), m, tank.Mem(), processed)
      decreases if last.Ok? then |rest| else 0, last.Ok?
    {
      ReadOn(rest);
      rest := rest[last.next..];
      processed := processed + 1;
      tank.ApplyMutation(last.mutation);
      last := parser.ReadMutation();
    }
    ReadNone(rest);
  }

  /**
   Startup: the replay of a file into an empty table, unless a SET record meets a hole before
   its key, leaves the store its records describe; a log without DEL records never meets one.
   */
  method Restart(hash: HashTable.Hash, limit: nat, file: seq<Byte>) returns (tank: TankActor.SepticTank, last: ReadResult)
    requires ReplayMem(hash, limit, Start(), ReadAll(file).records).Some?
    ensures tank.Valid() && tank.table.hash == hash && last == ReadAll(file).last
    ensures !ReplayMeetsHole(hash, limit, Start(), ReadAll(file).records) ==>
              tank.Data() == Replay(map[], ReadAll(file).records) && HashTable.OneSlot(hash, tank.table.data[..])
  {
    hide Owned, HashTable.OneSlot, ReadAll, ReplayMem, ReplayMeetsHole;
    tank := new TankActor.SepticTank(hash, limit);
    var processed;
    last, processed := Train(tank, file);
    StartSound(hash);
    if !ReplayMeetsHole(hash, limit, Start(), ReadAll(file).records) {
      ReplayOnTable(hash, limit, Start(), ReadAll(file).records);
    }
  }
}
