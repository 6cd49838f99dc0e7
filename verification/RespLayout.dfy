/** The wire format in bytes, as clients write and read it: module Resp against RESP's literal markers. */
module RespLayout {
  import opened Prelude
  import opened Numbers
  import opened Resp

  /** Printed integers are decimal ASCII without leading zeros, '-' in front of a negative one. */
  lemma DecimalText(n: int)
    ensures 0 <= n < 10 ==> Print(n) == [48 + n]
    ensures n >= 10 ==> Print(n) == Print(n / 10) + [48 + n % 10]
    ensures n < 0 ==> Print(n) == [45] + Print(-n)
  {
  }

  lemma {:induction false} AllInOrder(vs: seq<Value>)
    ensures SerializeAll(vs) == Flatten(seq(|vs|, i requires 0 <= i < |vs| => Serialize(vs[i])))
    decreases |vs|
  {
    if vs != [] {
      var parts := seq(|vs|, i requires 0 <= i < |vs| => Serialize(vs[i]));
      AllInOrder(vs[1..]);
      assert parts[1..] == seq(|vs[1..]|, i requires 0 <= i < |vs[1..]| => Serialize(vs[1..][i]));
    }
  }

  /** The bytes of every value: '+' 43, '-' 45, ':' 58, '$' 36, '_' 95, '*' 42, CR 13, LF 10. */
  lemma WireBytes(v: Value)
    ensures v.Simple? ==> Serialize(v) == [43] + v.text + [13, 10]
    ensures v.Error? ==> Serialize(v) == [45] + v.text + [13, 10]
    ensures v.Integer? ==> Serialize(v) == [58] + Print(v.n) + [13, 10]
    ensures v.Bulk? ==> Serialize(v) == [36] + Print(|v.data|) + [13, 10] + v.data + [13, 10]
    ensures v.Null? ==> Serialize(v) == [95, 13, 10]
    ensures v.Array? ==>
              Serialize(v) == [42] + Print(|v.items|) + [13, 10] + Flatten(seq(|v.items|, i requires 0 <= i < |v.items| => Serialize(v.items[i])))
  {
    if v.Array? { AllInOrder(v.items); }
  }

  // --------------------------------------------------------------- requests

  function BulkBytes(d: DataString): seq<Byte> { [36] + Print(|d|) + [13, 10] + d + [13, 10] }

  /** What a client sends: an array of bulk strings. */
  function Request(args: seq<DataString>): seq<Byte> { [42] + Print(|args|) + [13, 10] + FlatMap(BulkBytes, args) }

  function Bulks(args: seq<DataString>): seq<Value> { seq(|args|, i requires 0 <= i < |args| => Bulk(args[i])) }

  lemma {:induction false} BulksInOrder(args: seq<DataString>)
    ensures SerializeAll(Bulks(args)) == FlatMap(BulkBytes, args)
    decreases |args|
  {
    if args != [] {
      BulksInOrder(args[1..]);
      assert Bulks(args)[1..] == Bulks(args[1..]);
      assert Serialize(Bulks(args)[0]) == BulkBytes(args[0]);
    }
  }

  /** The parser understands every request, whatever bytes follow it, and stops exactly at its end. */
  lemma RequestParses(args: seq<DataString>, rest: seq<Byte>)
    requires |args| < TWO_64
    ensures ParseValue(Request(args) + rest, 0) == Ok(Array(Bulks(args)), |Request(args)|)
  {
    BulksInOrder(args);
    assert Serialize(Array(Bulks(args))) == Request(args);
    RoundTripExactlyWhen(Array(Bulks(args)), rest);
  }

  /** "*1\r\n$4\r\nPING\r\n". */
  lemma Ping(rest: seq<Byte>)
    ensures ParseValue([42, 49, 13, 10, 36, 52, 13, 10, 80, 73, 78, 71, 13, 10] + rest, 0) == Ok(Array([Bulk([80, 73, 78, 71])]), 14)
  {
    var word: DataString := [80, 73, 78, 71];
    assert [word][1..] == [] && FlatMap(BulkBytes, [word]) == BulkBytes(word) + FlatMap(BulkBytes, []);
    assert Request([word]) == [42, 49, 13, 10, 36, 52, 13, 10, 80, 73, 78, 71, 13, 10];
    RequestParses([word], rest);
    assert Bulks([word]) == [Bulk(word)];
  }

  // ---------------------------------------------------------------- markers

  predicate IsMarker(b: Byte) { b == 43 || b == 45 || b == 58 || b == 36 || b == 95 || b == 42 }

  predicate HasMarker(v: Value, b: Byte) {
    match v
    case Simple(_) => b == 43
    case Error(_) => b == 45
    case Integer(_) => b == 58
    case Bulk(_) => b == 36
    case Null => b == 95
    case Array(_) => b == 42
  }

  predicate AtNoMarker<T>(r: Parsed<T>, b: seq<Byte>, i: nat) {
    r.UnknownMarker? ==> i <= r.pos < |b| && !IsMarker(b[r.pos])
  }

  lemma {:induction false} ItemsAtNoMarker(b: seq<Byte>, i: nat, n: nat)
    requires i <= |b|
    ensures AtNoMarker(ParseItems(b, i, n), b, i)
    decreases |b| - i, 1, n
  {
    if n > 0 {
      ValueAtNoMarker(b, i);
      var r := ParseValue(b, i);
      if r.Ok? { ItemsAtNoMarker(b, r.next, n - 1); }
    }
  }

  lemma {:induction false} ValueAtNoMarker(b: seq<Byte>, i: nat)
    requires i <= |b|
    ensures AtNoMarker(ParseValue(b, i), b, i)
    decreases |b| - i, 0, 0
  {
    hide ScanNumber, Strtoull, Strtoll, LineEnd, UpToNul, ParseItems;
    if i < |b| && b[i] == 42 {
      var r := ReadNumber(b, i + 1);
      if r.Ok? { ItemsAtNoMarker(b, r.next, Strtoull(r.value)); }
    }
  }

  /**
   The first byte decides: a value parsed at i is of the kind its marker names, the parser reports
   an unknown marker at i exactly if the byte there is none of the six, and wherever it reports
   one, deep inside an array, the byte there is none of the six.
   */
  lemma MarkerDecides(b: seq<Byte>, i: nat)
    requires i < |b|
    ensures ParseValue(b, i) == UnknownMarker(i) <==> !IsMarker(b[i])
    ensures AtNoMarker(ParseValue(b, i), b, i)
    ensures ParseValue(b, i).Ok? ==> HasMarker(ParseValue(b, i).value, b[i])
  {
    ValueAtNoMarker(b, i);
  }
}
