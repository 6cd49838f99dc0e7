/**
 The append-only log's record format (src/potty/potty_serializer.[ch]) and its
 reader (src/potty/potty_parser.c). Integers are written in the host's byte
 order; the model fixes little-endian hosts.
 */
module Aof {
  import opened Prelude
  import opened Tank

  // --------------------------------------------------------------- integers

  function Bytes(n: nat, k: nat): (b: seq<Byte>)
    ensures |b| == k
  {
    if k == 0 then [] else [n % 256] + Bytes(n / 256, k - 1)
  }

  function FromBytes(b: seq<Byte>): nat {
    if b == [] then 0 else b[0] + 256 * FromBytes(b[1..])
  }

  function Pow256(k: nat): nat { if k == 0 then 1 else 256 * Pow256(k - 1) }

  lemma {:induction false} BytesRoundTrip(n: nat, k: nat)
    requires n < Pow256(k)
    ensures FromBytes(Bytes(n, k)) == n
  {
    if k > 0 {
      BytesRoundTrip(n / 256, k - 1);
      assert Bytes(n, k)[1..] == Bytes(n / 256, k - 1);
    }
  }

  lemma {:induction false} FromBytesBound(b: seq<Byte>)
    ensures FromBytes(b) < Pow256(|b|)
  {
    if b != [] { FromBytesBound(b[1..]); }
  }

  lemma Pow256Of8()
    ensures Pow256(8) == TWO_64
  {
    assert Pow256(4) == 0x1_0000_0000;
  }

  function U64(n: nat): (b: seq<Byte>)
    ensures |b| == 8
  {
    Bytes(n, 8)
  }

  function FromU64(b: seq<Byte>): (n: nat)
    requires |b| == 8
    ensures n < TWO_64
  {
    FromBytesBound(b); Pow256Of8();
    FromBytes(b)
  }

  /** Two's complement. */
  function I64(v: Int64): (b: seq<Byte>)
    ensures |b| == 8
  {
    U64(if v < 0 then v as int + TWO_64 else v)
  }

  function FromI64(b: seq<Byte>): Int64
    requires |b| == 8
  {
    var u: int := FromU64(b);
    if u >= TWO_63 then u - TWO_64 else u
  }

  lemma U64RoundTrip(n: nat)
    requires n < TWO_64
    ensures FromU64(U64(n)) == n
  {
    Pow256Of8();
    BytesRoundTrip(n, 8);
  }

  lemma I64RoundTrip(v: Int64)
    ensures FromI64(I64(v)) == v
  {
    U64RoundTrip(if v < 0 then v as int + TWO_64 else v);
  }

  /** The eight bytes of a 64-bit word in the memory of a little-endian host, written out. */
  function LittleEndian(u: nat): seq<Byte> {
    [ u % 256, u / 0x100 % 256, u / 0x1_0000 % 256, u / 0x100_0000 % 256, u / 0x1_0000_0000 % 256,
      u / 0x100_0000_0000 % 256, u / 0x1_0000_0000_0000 % 256, u / 0x100_0000_0000_0000 % 256 ]
  }

  /** The unsigned word with the bits of an `int64_t`. */
  function Unsigned(v: Int64): nat { if v < 0 then v as int + 0x1_0000_0000_0000_0000 else v }

  /** Dividing by 256 again and again is dividing by its powers. */
  lemma DividedAgain(n: nat)
    ensures n / 0x100 / 256 == n / 0x1_0000
    ensures n / 0x1_0000 / 256 == n / 0x100_0000
    ensures n / 0x100_0000 / 256 == n / 0x1_0000_0000
    ensures n / 0x1_0000_0000 / 256 == n / 0x100_0000_0000
    ensures n / 0x100_0000_0000 / 256 == n / 0x1_0000_0000_0000
    ensures n / 0x1_0000_0000_0000 / 256 == n / 0x100_0000_0000_0000
  {
  }

  lemma BytesCons(n: nat, k: nat)
    ensures Bytes(n, k + 1) == [n % 256] + Bytes(n / 256, k)
  {
  }

  lemma U64IsLittleEndian(n: nat)
    ensures U64(n) == LittleEndian(n)
  {
    DividedAgain(n);
    BytesCons(n, 7);
    BytesCons(n / 0x100, 6);
    BytesCons(n / 0x1_0000, 5);
    BytesCons(n / 0x100_0000, 4);
    BytesCons(n / 0x1_0000_0000, 3);
    BytesCons(n / 0x100_0000_0000, 2);
    BytesCons(n / 0x1_0000_0000_0000, 1);
    BytesCons(n / 0x100_0000_0000_0000, 0);
    assert Bytes(n / 0x100_0000_0000_0000 / 256, 0) == [];
    hide Bytes;
  }

  lemma I64IsTwosComplement(v: Int64)
    ensures I64(v) == LittleEndian(Unsigned(v))
  {
    U64IsLittleEndian(Unsigned(v));
  }

  // ---------------------------------------------------------------- records

  const SET_TAG: Byte := 0
  const DEL_TAG: Byte := 1
  const EXPIRE_TAG: Byte := 2

  function Str(s: DataString): seq<Byte> { U64(|s|) + s }

  /** The bytes `potty_serialize_mutation` appends. */
  function Encode(m: Mutation): (b: seq<Byte>)
    ensures |b| >= 1
  {
    match m
    case SetTo(k, v, t) => [SET_TAG] + I64(t) + Str(k) + Str(v)
    case Remove(k) => [DEL_TAG] + Str(k)
    case ExpireAt(k, t) => [EXPIRE_TAG] + Str(k) + I64(t)
  }

  /** `get_mutation_size`. */
  function MutationSize(m: Mutation): nat {
    match m
    case SetTo(k, v, _) => 1 + 8 + 8 + |k| + 8 + |v|
    case Remove(k) => 1 + 8 + |k|
    case ExpireAt(k, _) => 1 + 8 + |k| + 8
  }

  lemma EncodingSize(m: Mutation)
    ensures |Encode(m)| == MutationSize(m)
  {
  }

  function EncodeAll(ms: seq<Mutation>): seq<Byte> { FlatMap(Encode, ms) }

  lemma EncodeAllCons(ms: seq<Mutation>)
    requires ms != []
    ensures EncodeAll(ms) == Encode(ms[0]) + EncodeAll(ms[1..])
  {
  }

  lemma EncodeAllAppend(a: seq<Mutation>, b: seq<Mutation>)
    ensures EncodeAll(a + b) == EncodeAll(a) + EncodeAll(b)
  {
    FlatMapAppend(Encode, a, b);
  }

  lemma EncodeAllOne(m: Mutation)
    ensures EncodeAll([m]) == Encode(m)
  {
    EncodeAllCons([m]);
    assert EncodeAll([m][1..]) == [];
  }

  // ---------------------------------------------------------------- reading

  /** `POTTY_PARSER_*`; BadTag is the reader's UNREACHABLE exit on an unknown tag. */
  datatype ReadResult = Ok(mutation: Mutation, next: nat) | Eof | UnexpectedEof | BadTag

  datatype Field<+T> = Field(value: T, next: nat) | Short

  function ReadI64(b: seq<Byte>, i: nat): Field<Int64> {
    if i + 8 <= |b| then Field(FromI64(b[i..i + 8]), i + 8) else Short
  }

  function ReadStr(b: seq<Byte>, i: nat): (r: Field<DataString>)
    ensures r.Field? ==> i + 8 <= r.next <= |b|
  {
    if i + 8 > |b| then Short
    else
      var n := FromU64(b[i..i + 8]);
      if i + 8 + n <= |b| then Field(b[i + 8..i + 8 + n], i + 8 + n) else Short
  }

  /** The fields of a SET record, after its tag. */
  function ReadSetFields(b: seq<Byte>): (r: ReadResult)
    ensures r.Ok? ==> 1 < r.next <= |b|
  {
    var t := ReadI64(b, 1);
    if t.Short? then UnexpectedEof else
    var k := ReadStr(b, t.next);
    if k.Short? then UnexpectedEof else
    var v := ReadStr(b, k.next);
    if v.Short? then UnexpectedEof else
    Ok(SetTo(k.value, v.value, t.value), v.next)
  }

  function ReadDelFields(b: seq<Byte>): (r: ReadResult)
    ensures r.Ok? ==> 1 < r.next <= |b|
  {
    var k := ReadStr(b, 1);
    if k.Short? then UnexpectedEof else Ok(Remove(k.value), k.next)
  }

  function ReadExpireFields(b: seq<Byte>): (r: ReadResult)
    ensures r.Ok? ==> 1 < r.next <= |b|
  {
    var k := ReadStr(b, 1);
    if k.Short? then UnexpectedEof else
    var t := ReadI64(b, k.next);
    if t.Short? then UnexpectedEof else Ok(ExpireAt(k.value, t.value), t.next)
  }

  /** `potty_parser_read` at the start of b. */
  function Read(b: seq<Byte>): (r: ReadResult)
    ensures r.Ok? ==> 0 < r.next <= |b|
  {
    if b == [] then Eof
    else if b[0] == SET_TAG then ReadSetFields(b)
    else if b[0] == DEL_TAG then ReadDelFields(b)
    else if b[0] == EXPIRE_TAG then ReadExpireFields(b)
    else BadTag
  }

  datatype Contents = Contents(records: seq<Mutation>, last: ReadResult)

  /** Reading until something other than a record comes back. */
  function ReadAll(b: seq<Byte>): (c: Contents)
    ensures !c.last.Ok?
    decreases |b|
  {
    var r := Read(b);
    if r.Ok? then
      var rest := ReadAll(b[r.next..]);
      Contents([r.mutation] + rest.records, rest.last)
    else Contents([], r)
  }

  // ------------------------------------------------------------ round trips

  lemma ReadI64At(b: seq<Byte>, i: nat, v: Int64)
    requires i + 8 <= |b| && b[i..i + 8] == I64(v)
    ensures ReadI64(b, i) == Field(v, i + 8)
  {
    I64RoundTrip(v);
  }

  lemma ReadStrAt(b: seq<Byte>, i: nat, s: DataString)
    requires i + 8 + |s| <= |b| && b[i..i + 8 + |s|] == Str(s)
    ensures ReadStr(b, i) == Field(s, i + 8 + |s|)
  {
    U64RoundTrip(|s|);
    var e := b[i..i + 8 + |s|];
    assert b[i..i + 8] == e[..8] == U64(|s|);
    assert b[i + 8..i + 8 + |s|] == e[8..] == s;
  }

  /** A string whose bytes run past the end of the file reads as short. */
  lemma ReadStrCut(b: seq<Byte>, i: nat, s: DataString)
    requires i <= |b| < i + 8 + |s| && b[i..] == Str(s)[..|b| - i]
    ensures ReadStr(b, i) == Short
  {
    if i + 8 <= |b| {
      U64RoundTrip(|s|);
      assert b[i..i + 8] == b[i..][..8] == U64(|s|);
    }
  }

  lemma ReadSet(b: seq<Byte>, k: DataString, v: DataString, t: Int64)
    requires |b| >= 25 + |k| + |v| && b[0] == SET_TAG
    requires b[1..9] == I64(t) && b[9..17 + |k|] == Str(k) && b[17 + |k|..25 + |k| + |v|] == Str(v)
    ensures Read(b) == Ok(SetTo(k, v, t), 25 + |k| + |v|)
  {
    ReadI64At(b, 1, t);
    ReadStrAt(b, 9, k);
    ReadStrAt(b, 17 + |k|, v);
  }

  lemma ReadDel(b: seq<Byte>, k: DataString)
    requires |b| >= 9 + |k| && b[0] == DEL_TAG
    requires b[1..9 + |k|] == Str(k)
    ensures Read(b) == Ok(Remove(k), 9 + |k|)
  {
    ReadStrAt(b, 1, k);
  }

  lemma ReadExpire(b: seq<Byte>, k: DataString, t: Int64)
    requires |b| >= 17 + |k| && b[0] == EXPIRE_TAG
    requires b[1..9 + |k|] == Str(k) && b[9 + |k|..17 + |k|] == I64(t)
    ensures Read(b) == Ok(ExpireAt(k, t), 17 + |k|)
  {
    ReadStrAt(b, 1, k);
    ReadI64At(b, 9 + |k|, t);
  }

  /** Any file that starts with m's encoding reads as m. */
  lemma ReadEncodedExpire(k: DataString, t: Int64, rest: seq<Byte>)
    ensures Read(Encode(ExpireAt(k, t)) + rest) == Ok(ExpireAt(k, t), |Encode(ExpireAt(k, t))|)
  {
    hide Read, U64, I64;
    var b := Encode(ExpireAt(k, t)) + rest;
    Slices([EXPIRE_TAG], Str(k), I64(t), [], rest);
    assert [EXPIRE_TAG] + Str(k) + I64(t) + [] + rest == b;
    ReadExpire(b, k, t);
  }

  lemma ReadEncoded(m: Mutation, rest: seq<Byte>)
    ensures Read(Encode(m) + rest) == Ok(m, |Encode(m)|)
  {
    hide Read, U64, I64;
    match m {
      case SetTo(k, v, t) =>
        Slices([SET_TAG], I64(t), Str(k), Str(v), rest);
        ReadSet(Encode(m) + rest, k, v, t);
      case Remove(k) =>
        Slices([DEL_TAG], Str(k), [], [], rest);
        assert [DEL_TAG] + Str(k) + [] + [] + rest == Encode(m) + rest;
        ReadDel(Encode(m) + rest, k);
      case ExpireAt(k, t) =>
        ReadEncodedExpire(k, t, rest);
    }
  }

  lemma SetCut(k: DataString, v: DataString, t: Int64, b: seq<Byte>)
    requires 0 < |b| < 25 + |k| + |v| && b <= Encode(SetTo(k, v, t))
    ensures Read(b) == UnexpectedEof
  {
    var e := Encode(SetTo(k, v, t));
    Slices([SET_TAG], I64(t), Str(k), Str(v), []);
    assert [SET_TAG] + I64(t) + Str(k) + Str(v) + [] == e;
    assert b[0] == e[0];
    if |b| >= 9 {
      assert b[1..9] == e[1..9];
      ReadI64At(b, 1, t);
      if |b| >= 17 + |k| {
        assert b[9..17 + |k|] == e[9..17 + |k|];
        ReadStrAt(b, 9, k);
        assert b[17 + |k|..] == e[17 + |k|..|b|];
        ReadStrCut(b, 17 + |k|, v);
      } else {
        assert b[9..] == e[9..|b|];
        ReadStrCut(b, 9, k);
      }
    }
  }

  lemma DelCut(k: DataString, b: seq<Byte>)
    requires 0 < |b| < 9 + |k| && b <= Encode(Remove(k))
    ensures Read(b) == UnexpectedEof
  {
    var e := Encode(Remove(k));
    assert b[0] == e[0];
    assert b[1..] == e[1..|b|];
    ReadStrCut(b, 1, k);
  }

  lemma ExpireCut(k: DataString, t: Int64, b: seq<Byte>)
    requires 0 < |b| < 17 + |k| && b <= Encode(ExpireAt(k, t))
    ensures Read(b) == UnexpectedEof
  {
    var e := Encode(ExpireAt(k, t));
    Slices([EXPIRE_TAG], Str(k), I64(t), [], []);
    assert [EXPIRE_TAG] + Str(k) + I64(t) + [] + [] == e;
    assert b[0] == e[0];
    if |b| >= 9 + |k| {
      assert b[1..9 + |k|] == e[1..9 + |k|];
      ReadStrAt(b, 1, k);
    } else {
      assert b[1..] == e[1..|b|];
      ReadStrCut(b, 1, k);
    }
  }

  /** A record cut anywhere inside is an unexpected end of file; cut before its tag, a clean one. */
  lemma ReadCut(m: Mutation, c: nat)
    requires c < |Encode(m)|
    ensures Read(Encode(m)[..c]) == if c == 0 then Eof else UnexpectedEof
  {
    EncodingSize(m);
    if c > 0 {
      match m {
        case SetTo(k, v, t) => SetCut(k, v, t, Encode(m)[..c]);
        case Remove(k) => DelCut(k, Encode(m)[..c]);
        case ExpireAt(k, t) => ExpireCut(k, t, Encode(m)[..c]);
      }
    }
  }

  /** How many records of ms lie wholly inside the first c bytes of their encoding. */
  function Whole(ms: seq<Mutation>, c: nat): (n: nat)
    ensures n <= |ms|
  {
    if ms == [] || c < |Encode(ms[0])| then 0 else 1 + Whole(ms[1..], c - |Encode(ms[0])|)
  }

  lemma {:induction false} WholeIsLargest(ms: seq<Mutation>, c: nat)
    requires c <= |EncodeAll(ms)|
    ensures |EncodeAll(ms[..Whole(ms, c)])| <= c
    ensures Whole(ms, c) < |ms| ==> c < |EncodeAll(ms[..Whole(ms, c) + 1])|
    decreases |ms|
  {
    if ms != [] && c >= |Encode(ms[0])| {
      var n := Whole(ms, c);
      WholeIsLargest(ms[1..], c - |Encode(ms[0])|);
      assert ms[..n][1..] == ms[1..][..n - 1];
      if n < |ms| { assert ms[..n + 1][1..] == ms[1..][..n]; }
    } else if ms != [] {
      EncodeAllOne(ms[0]);
      assert ms[..1] == [ms[0]];
    }
  }

  lemma {:induction false} WholeCovers(a: seq<Mutation>, b: seq<Mutation>, c: nat)
    requires |EncodeAll(a)| <= c
    ensures |a| <= Whole(a + b, c)
    decreases |a|
  {
    if a != [] {
      EncodeAllCons(a);
      assert (a + b)[1..] == a[1..] + b;
      WholeCovers(a[1..], b, c - |Encode(a[0])|);
    }
  }

  lemma ReadAllStep(b: seq<Byte>, m: Mutation, rest: seq<Byte>)
    requires b == Encode(m) + rest
    ensures ReadAll(b) == Contents([m] + ReadAll(rest).records, ReadAll(rest).last)
  {
    ReadEncoded(m, rest);
    assert b[|Encode(m)|..] == rest;
  }

  lemma ReadAllCut(b: seq<Byte>, m: Mutation)
    requires |b| < |Encode(m)| && b <= Encode(m)
    ensures ReadAll(b) == Contents([], if b == [] then Eof else UnexpectedEof)
  {
    ReadCut(m, |b|);
    assert Encode(m)[..|b|] == b;
  }

  /** What the reader returns for the first c bytes of an encoding. */
  function Expected(ms: seq<Mutation>, c: nat): Contents {
    var n := Whole(ms, c);
    Contents(ms[..n], if c == |EncodeAll(ms[..n])| then Eof else UnexpectedEof)
  }

  lemma ExpectedCons(m: Mutation, rest: seq<Mutation>, c: nat)
    requires c >= |Encode(m)|
    ensures var e := Expected(rest, c - |Encode(m)|);
            Expected([m] + rest, c) == Contents([m] + e.records, e.last)
  {
    var n := Whole(rest, c - |Encode(m)|);
    assert ([m] + rest)[1..] == rest;
    assert ([m] + rest)[..n + 1] == [m] + rest[..n];
    EncodeAllCons([m] + rest[..n]);
    assert ([m] + rest[..n])[1..] == rest[..n];
  }

  lemma ExpectedInside(ms: seq<Mutation>, c: nat)
    requires ms == [] ==> c == 0
    requires ms != [] ==> c < |Encode(ms[0])|
    ensures Expected(ms, c) == Contents([], if c == 0 then Eof else UnexpectedEof)
  {
    assert ms[..0] == [] && EncodeAll([]) == [];
  }

  lemma ReadNothing()
    ensures EncodeAll([]) == [] && ReadAll([]) == Contents([], Eof)
  {
  }

  lemma {:induction false} ReadsExpected(ms: seq<Mutation>, c: nat)
    requires c <= |EncodeAll(ms)|
    ensures ReadAll(EncodeAll(ms)[..c]) == Expected(ms, c)
    decreases |ms|
  {
    ReadNothing();
    hide Encode, EncodeAll, ReadAll, Expected;
    if ms == [] {
      ExpectedInside(ms, c);
      assert EncodeAll(ms)[..c] == [];
    } else {
      var m, tail := ms[0], ms[1..];
      var e, all := Encode(m), EncodeAll(tail);
      assert ms == [m] + tail;
      EncodeAllCons(ms);
      if c < |e| {
        assert (e + all)[..c] == e[..c];
        ReadAllCut(e[..c], m);
        ExpectedInside(ms, c);
      } else {
        assert (e + all)[..c] == e + all[..c - |e|];
        ReadAllStep(e + all[..c - |e|], m, all[..c - |e|]);
        ReadsExpected(tail, c - |e|);
        ExpectedCons(m, tail, c);
      }
    }
  }

  /**
   Torn tail: for every list of records and every byte cut, the reader returns
   exactly the records wholly before the cut, then EOF on a record boundary and
   UNEXPECTED_EOF anywhere else.
   */
  lemma TornTail(ms: seq<Mutation>, c: nat)
    requires c <= |EncodeAll(ms)|
    ensures var n := Whole(ms, c);
            ReadAll(EncodeAll(ms)[..c]) ==
            Contents(ms[..n], if c == |EncodeAll(ms[..n])| then Eof else UnexpectedEof)
  {
    hide EncodeAll, ReadAll, Whole;
    ReadsExpected(ms, c);
  }

  lemma {:induction false} WholeOfAll(ms: seq<Mutation>)
    ensures Whole(ms, |EncodeAll(ms)|) == |ms|
    decreases |ms|
  {
    if ms != [] {
      EncodeAllCons(ms);
      WholeOfAll(ms[1..]);
    }
  }

  /** Reading the concatenated encodings of any list of records gives that list, then EOF. */
  lemma RoundTrip(ms: seq<Mutation>)
    ensures ReadAll(EncodeAll(ms)) == Contents(ms, Eof)
  {
    var b := EncodeAll(ms);
    assert b[..|b|] == b;
    WholeOfAll(ms);
    TornTail(ms, |b|);
    assert ms[..|ms|] == ms;
  }

  /** Reading inverts itself: whatever parses cleanly is the encoding of what was parsed. */
  lemma {:induction false} CleanFileIsEncoding(ms: seq<Mutation>, b: seq<Byte>)
    requires b <= EncodeAll(ms) && ReadAll(b).last == Eof
    ensures b == EncodeAll(ReadAll(b).records)
    ensures ReadAll(b).records <= ms
  {
    assert EncodeAll(ms)[..|b|] == b;
    TornTail(ms, |b|);
    var n := Whole(ms, |b|);
    assert ms == ms[..n] + ms[n..];
    EncodeAllAppend(ms[..n], ms[n..]);
  }

  /** A file that is any prefix of an encoding holds a prefix of the records, then at most a torn tail. */
  lemma PrefixReads(ms: seq<Mutation>, b: seq<Byte>) returns (n: nat)
    requires b <= EncodeAll(ms)
    ensures n == Whole(ms, |b|) && ReadAll(b).records == ms[..n]
    ensures ReadAll(b).last in {Eof, UnexpectedEof}
    ensures ReadAll(b).last == Eof <==> |b| == |EncodeAll(ms[..n])|
  {
    assert EncodeAll(ms)[..|b|] == b;
    TornTail(ms, |b|);
    n := Whole(ms, |b|);
  }

  lemma StrParts(b: seq<Byte>, i: nat, s: DataString)
    requires i + 8 + |s| <= |b| && b[i..i + 8 + |s|] == Str(s)
    ensures b[i..i + 8] == LittleEndian(|s|) && FromU64(b[i..i + 8]) == |s| && b[i + 8..i + 8 + |s|] == s
  {
    var e := b[i..i + 8 + |s|];
    assert b[i..i + 8] == e[..8] == U64(|s|);
    assert b[i + 8..i + 8 + |s|] == e[8..] == s;
    U64RoundTrip(|s|);
    U64IsLittleEndian(|s|);
  }

  lemma SetLayout(k: DataString, v: DataString, t: Int64)
    ensures var b, n := Encode(SetTo(k, v, t)), |k|;
            && |b| == 25 + n + |v| && b[0] == 0
            && b[1..9] == LittleEndian(Unsigned(t)) && FromI64(b[1..9]) == t
            && b[9..17] == LittleEndian(n) && FromU64(b[9..17]) == n && b[17..17 + n] == k
            && b[17 + n..25 + n] == LittleEndian(|v|) && FromU64(b[17 + n..25 + n]) == |v| && b[25 + n..] == v
  {
    var b := Encode(SetTo(k, v, t));
    hide LittleEndian, U64, I64, FromU64, FromI64;
    Slices([SET_TAG], I64(t), Str(k), Str(v), []);
    assert [SET_TAG] + I64(t) + Str(k) + Str(v) + [] == b;
    I64RoundTrip(t);
    I64IsTwosComplement(t);
    StrParts(b, 9, k);
    StrParts(b, 17 + |k|, v);
  }

  lemma DelLayout(k: DataString)
    ensures var b := Encode(Remove(k));
            |b| == 9 + |k| && b[0] == 1 && b[1..9] == LittleEndian(|k|) && FromU64(b[1..9]) == |k| && b[9..] == k
  {
    var b := Encode(Remove(k));
    hide LittleEndian, U64, FromU64;
    Slices([DEL_TAG], Str(k), [], [], []);
    assert [DEL_TAG] + Str(k) + [] + [] + [] == b;
    StrParts(b, 1, k);
  }

  lemma ExpireLayout(k: DataString, t: Int64)
    ensures var b, n := Encode(ExpireAt(k, t)), |k|;
            && |b| == 17 + n && b[0] == 2 && b[1..9] == LittleEndian(n) && FromU64(b[1..9]) == n && b[9..9 + n] == k
            && b[9 + n..17 + n] == LittleEndian(Unsigned(t)) && FromI64(b[9 + n..17 + n]) == t
  {
    var b := Encode(ExpireAt(k, t));
    hide LittleEndian, U64, I64, FromU64, FromI64;
    Slices([EXPIRE_TAG], Str(k), I64(t), [], []);
    assert [EXPIRE_TAG] + Str(k) + I64(t) + [] + [] == b;
    StrParts(b, 1, k);
    I64RoundTrip(t);
    I64IsTwosComplement(t);
  }

  /**
   The documented record layout in bytes: the tag, integers with the lowest byte first and
   negative ones in two's complement, strings behind their length. What the reader makes of
   each integer field is the integer written.
   */
  lemma RecordLayout(k: DataString, v: DataString, t: Int64)
    ensures var b, n := Encode(SetTo(k, v, t)), |k|;
            && |b| == 25 + n + |v| && b[0] == 0
            && b[1..9] == LittleEndian(Unsigned(t)) && FromI64(b[1..9]) == t
            && b[9..17] == LittleEndian(n) && FromU64(b[9..17]) == n && b[17..17 + n] == k
            && b[17 + n..25 + n] == LittleEndian(|v|) && FromU64(b[17 + n..25 + n]) == |v| && b[25 + n..] == v
    ensures var b := Encode(Remove(k));
            |b| == 9 + |k| && b[0] == 1 && b[1..9] == LittleEndian(|k|) && FromU64(b[1..9]) == |k| && b[9..] == k
    ensures var b, n := Encode(ExpireAt(k, t)), |k|;
            && |b| == 17 + n && b[0] == 2 && b[1..9] == LittleEndian(n) && FromU64(b[1..9]) == n && b[9..9 + n] == k
            && b[9 + n..17 + n] == LittleEndian(Unsigned(t)) && FromI64(b[9 + n..17 + n]) == t
  {
    hide LittleEndian, Encode;
    SetLayout(k, v, t);
    DelLayout(k);
    ExpireLayout(k, t);
  }

  lemma AllOnes()
    ensures LittleEndian(Unsigned(-1)) == [255, 255, 255, 255, 255, 255, 255, 255]
  {
    assert Unsigned(-1) == 0xFFFF_FFFF_FFFF_FFFF;
  }

  /** The deadline field of a key without one: the int64 -1, eight bytes 255, and of nothing else. */
  lemma NoExpiryBytes(k: DataString, v: DataString, t: Int64)
    ensures Encode(SetTo(k, v, t))[1..9] == [255, 255, 255, 255, 255, 255, 255, 255] <==> t == -1
  {
    AllOnes();
    hide Encode, FromI64, LittleEndian;
    SetLayout(k, v, t);
    SetLayout(k, v, -1);
  }
}
