/**
 The wire format (src/resp/): RESP simple strings, simple errors, integers, bulk strings,
 arrays and the RESP3 null. Reading past the received bytes, which the C parser does not
 guard against, is the outcome Overrun.
 */
module Resp {
  import opened Prelude
  import opened Numbers

  /** Text a C string can hold. */
  type CString = s: seq<Byte> | forall i :: 0 <= i < |s| ==> s[i] != 0

  datatype Value =
    | Simple(text: CString)
    | Error(text: CString)
    | Integer(n: Int64)
    | Bulk(data: DataString)
    | Null
    | Array(items: seq<Value>)

  const CR: Byte := 13
  const LF: Byte := 10
  const SIMPLE: Byte := 43
  const ERROR: Byte := 45
  const INTEGER: Byte := 58
  const BULK: Byte := 36
  const NULL: Byte := 95
  const ARRAY: Byte := 42

  const CRLF: seq<Byte> := [CR, LF]

  /** What `serialize_value_helper` appends. */
  function Serialize(v: Value): (b: seq<Byte>)
    ensures |b| >= 3
    decreases v
  {
    match v
    case Simple(t) => [SIMPLE] + t + CRLF
    case Error(t) => [ERROR] + t + CRLF
    case Integer(n) => [INTEGER] + Print(n) + CRLF
    case Bulk(d) => [BULK] + Print(|d|) + CRLF + d + CRLF
    case Null => [NULL] + CRLF
    case Array(items) => [ARRAY] + Print(|items|) + CRLF + SerializeAll(items)
  }

  function SerializeAll(vs: seq<Value>): seq<Byte>
    decreases vs
  {
    if vs == [] then [] else Serialize(vs[0]) + SerializeAll(vs[1..])
  }

  // ---------------------------------------------------------------- parsing

  /** `UnexpectedToken` and `UnknownMarker` are RESP_PARSE_UNEXPECTED_TOKEN and _UNKNOWN_DATA_TYPE_MARKER. */
  datatype Parsed<+T> = Ok(value: T, next: nat) | UnexpectedToken(pos: nat) | UnknownMarker(pos: nat) | Overrun {
    predicate IsFailure() { !Ok? }
    function PropagateFailure<U>(): Parsed<U>
      requires IsFailure()
    {
      match this
      case UnexpectedToken(p) => UnexpectedToken(p)
      case UnknownMarker(p) => UnknownMarker(p)
      case Overrun => Overrun
    }
    function Extract(): (T, nat)
      requires Ok?
    {
      (value, next)
    }
  }

  /** `CONSUME_TOKEN('\r')`, `CONSUME_TOKEN('\n')`. */
  function ReadCrlf(b: seq<Byte>, i: nat): (r: Parsed<()>)
    ensures r.Ok? ==> r.next == i + 2 <= |b|
  {
    if i >= |b| then Overrun
    else if b[i] != CR then UnexpectedToken(i)
    else if i + 1 >= |b| then Overrun
    else if b[i + 1] != LF then UnexpectedToken(i + 1)
    else Ok((), i + 2)
  }

  /** First carriage return or line feed at or after i. */
  function LineEnd(b: seq<Byte>, i: nat): (j: nat)
    requires i <= |b|
    ensures i <= j <= |b|
    ensures forall x :: i <= x < j ==> b[x] != CR && b[x] != LF
    ensures j < |b| ==> b[j] == CR || b[j] == LF
    decreases |b| - i
  {
    if i < |b| && b[i] != CR && b[i] != LF then LineEnd(b, i + 1) else i
  }

  /** Reading a copied buffer as a C string. */
  function UpToNul(s: seq<Byte>): (t: CString)
    ensures |t| <= |s|
    ensures (forall i :: 0 <= i < |s| ==> s[i] != 0) ==> t == s
  {
    if s == [] || s[0] == 0 then [] else [s[0]] + UpToNul(s[1..])
  }

  function ReadLine(b: seq<Byte>, i: nat): (r: Parsed<CString>)
    requires i <= |b|
    ensures r.Ok? ==> i < r.next <= |b|
  {
    var e := LineEnd(b, i);
    if e == |b| then Overrun
    else
      var (_, next) :- ReadCrlf(b, e);
      Ok(UpToNul(b[i..e]), next)
  }

  /** The number after a marker, and its line end. */
  function ReadNumber(b: seq<Byte>, i: nat): (r: Parsed<Scan>)
    requires i <= |b|
    ensures r.Ok? ==> i < r.next <= |b|
  {
    var scan := ScanNumber(b, i);
    if scan.touchedEnd then Overrun
    else
      var (_, next) :- ReadCrlf(b, scan.end);
      Ok(scan, next)
  }

  function ReadBulk(b: seq<Byte>, i: nat): (r: Parsed<DataString>)
    requires i <= |b|
    ensures r.Ok? ==> i < r.next <= |b|
  {
    var (scan, p) :- ReadNumber(b, i);
    var length := Strtoull(scan);
    if p + length > |b| then Overrun
    else
      var (_, next) :- ReadCrlf(b, p + length);
      Ok(b[p..p + length], next)
  }

  /** `resp_parse_value` at position i. */
  function ParseValue(b: seq<Byte>, i: nat): (r: Parsed<Value>)
    requires i <= |b|
    ensures r.Ok? ==> i < r.next <= |b|
    decreases |b| - i, 0, 0
  {
    if i == |b| then Overrun
    else if b[i] == INTEGER then
      var (scan, next) :- ReadNumber(b, i + 1);
      Ok(Integer(Strtoll(scan)), next)
    else if b[i] == SIMPLE then
      var (text, next) :- ReadLine(b, i + 1);
      Ok(Simple(text), next)
    else if b[i] == ERROR then
      var (text, next) :- ReadLine(b, i + 1);
      Ok(Error(text), next)
    else if b[i] == BULK then
      var (data, next) :- ReadBulk(b, i + 1);
      Ok(Bulk(data), next)
    else if b[i] == NULL then
      var (_, next) :- ReadCrlf(b, i + 1);
      Ok(Null, next)
    else if b[i] == ARRAY then
      var (scan, p) :- ReadNumber(b, i + 1);
      var (items, next) :- ParseItems(b, p, Strtoull(scan));
      Ok(Array(items), next)
    else UnknownMarker(i)
  }

  function ParseItems(b: seq<Byte>, i: nat, n: nat): (r: Parsed<seq<Value>>)
    requires i <= |b|
    ensures r.Ok? ==> i <= r.next <= |b| && |r.value| == n
    decreases |b| - i, 1, n
  {
    if n == 0 then Ok([], i)
    else
      var (v, p) :- ParseValue(b, i);
      var (vs, next) :- ParseItems(b, p, n - 1);
      Ok([v] + vs, next)
  }

  // ------------------------------------------------------------ round trip

  predicate OneLine(t: CString) {
    forall i :: 0 <= i < |t| ==> t[i] != CR && t[i] != LF
  }

  /** No simple string or error, at any depth, holds a CR or LF. */
  predicate Clean(v: Value)
    decreases v
  {
    match v
    case Simple(t) => OneLine(t)
    case Error(t) => OneLine(t)
    case Array(items) => forall i :: 0 <= i < |items| ==> Clean(items[i])
    case _ => true
  }

  /** Array lengths fit `size_t`, as they must in memory. */
  predicate Fits(v: Value)
    decreases v
  {
    v.Array? ==> |v.items| < TWO_64 && forall i :: 0 <= i < |v.items| ==> Fits(v.items[i])
  }

  predicate Sits(b: seq<Byte>, i: nat, s: seq<Byte>) { i + |s| <= |b| && b[i..i + |s|] == s }

  lemma SitsSplit(b: seq<Byte>, i: nat, s: seq<Byte>, t: seq<Byte>)
    requires Sits(b, i, s + t)
    ensures Sits(b, i, s) && Sits(b, i + |s|, t)
  {
    var u := b[i..i + |s + t|];
    assert b[i..i + |s|] == u[..|s|] && b[i + |s|..i + |s| + |t|] == u[|s|..];
  }

  lemma CrlfSits(b: seq<Byte>, i: nat)
    requires Sits(b, i, CRLF)
    ensures ReadCrlf(b, i) == Ok((), i + 2)
  {
    assert b[i] == b[i..i + 2][0] && b[i + 1] == b[i..i + 2][1];
  }

  lemma {:induction false} LineEndIs(b: seq<Byte>, i: nat, j: nat)
    requires i <= j < |b| && (b[j] == CR || b[j] == LF)
    requires forall x :: i <= x < j ==> b[x] != CR && b[x] != LF
    ensures LineEnd(b, i) == j
    decreases j - i
  {
    if i < j { LineEndIs(b, i + 1, j); }
  }

  lemma LineSits(b: seq<Byte>, i: nat, t: CString)
    requires Sits(b, i, t + CRLF) && OneLine(t)
    ensures ReadLine(b, i) == Ok(t, i + |t| + 2)
  {
    SitsSplit(b, i, t, CRLF);
    CrlfSits(b, i + |t|);
    forall x | i <= x < i + |t| ensures b[x] != CR && b[x] != LF { assert b[x] == b[i..i + |t|][x - i]; }
    LineEndIs(b, i, i + |t|);
  }

  lemma NumberSits(b: seq<Byte>, i: nat, n: int)
    requires Sits(b, i, Print(n) + CRLF)
    ensures ReadNumber(b, i) == Ok(Scan(i + |Print(n)|, n < 0, Magnitude(n), false), i + |Print(n)| + 2)
  {
    SitsSplit(b, i, Print(n), CRLF);
    CrlfSits(b, i + |Print(n)|);
    assert b[i + |Print(n)|] == CR;
    ScanPrinted(b, i, n);
  }

  lemma BulkSits(b: seq<Byte>, i: nat, d: DataString)
    requires Sits(b, i, Print(|d|) + CRLF + d + CRLF)
    ensures ReadBulk(b, i) == Ok(d, i + |Print(|d|)| + 2 + |d| + 2)
  {
    var p := Print(|d|);
    SitsSplit(b, i, p + CRLF + d, CRLF);
    SitsSplit(b, i, p + CRLF, d);
    NumberSits(b, i, |d|);
    CrlfSits(b, i + |p| + 2 + |d|);
  }

  lemma TextSits(b: seq<Byte>, i: nat, v: Value)
    requires (v.Simple? || v.Error?) && Sits(b, i, Serialize(v))
    ensures i < |b| && b[i] == (if v.Simple? then SIMPLE else ERROR) && Sits(b, i + 1, v.text + CRLF)
  {
    var marker := if v.Simple? then SIMPLE else ERROR;
    assert Serialize(v) == [marker] + (v.text + CRLF);
    SitsSplit(b, i, [marker], v.text + CRLF);
    assert b[i] == b[i..i + 1][0];
  }

  lemma TextParsesBack(b: seq<Byte>, i: nat, v: Value)
    requires (v.Simple? || v.Error?) && OneLine(v.text) && Sits(b, i, Serialize(v))
    ensures ParseValue(b, i) == Ok(v, i + |Serialize(v)|)
  {
    TextSits(b, i, v);
    LineSits(b, i + 1, v.text);
  }

  lemma IntegerParsesBack(b: seq<Byte>, i: nat, n: Int64)
    requires Sits(b, i, Serialize(Integer(n)))
    ensures ParseValue(b, i) == Ok(Integer(n), i + |Serialize(Integer(n))|)
  {
    assert Serialize(Integer(n)) == [INTEGER] + (Print(n) + CRLF);
    SitsSplit(b, i, [INTEGER], Print(n) + CRLF);
    assert b[i] == b[i..i + 1][0];
    NumberSits(b, i + 1, n);
  }

  lemma BulkParsesBack(b: seq<Byte>, i: nat, d: DataString)
    requires Sits(b, i, Serialize(Bulk(d)))
    ensures ParseValue(b, i) == Ok(Bulk(d), i + |Serialize(Bulk(d))|)
  {
    var rest := Print(|d|) + CRLF + d + CRLF;
    assert Serialize(Bulk(d)) == [BULK] + rest;
    hide Print, ReadBulk, ReadNumber, ReadLine, ParseItems;
    SitsSplit(b, i, [BULK], rest);
    assert b[i] == b[i..i + 1][0];
    BulkSits(b, i + 1, d);
  }

  lemma NullParsesBack(b: seq<Byte>, i: nat)
    requires Sits(b, i, Serialize(Null))
    ensures ParseValue(b, i) == Ok(Null, i + 3)
  {
    SitsSplit(b, i, [NULL], CRLF);
    assert b[i] == b[i..i + 1][0];
    CrlfSits(b, i + 1);
  }

  lemma ParseArrayAt(b: seq<Byte>, i: nat, p: nat, n: nat)
    requires i + 1 <= |b| && b[i] == ARRAY
    requires ReadNumber(b, i + 1).Ok? && ReadNumber(b, i + 1).next == p && Strtoull(ReadNumber(b, i + 1).value) == n
    ensures var r := ParseItems(b, p, n);
            && (r.Ok? ==> ParseValue(b, i) == Ok(Array(r.value), r.next))
            && (!r.Ok? ==> !ParseValue(b, i).Ok?)
  {
  }

  lemma ScalarParsesBack(b: seq<Byte>, i: nat, v: Value)
    requires !v.Array? && Clean(v) && Sits(b, i, Serialize(v))
    ensures ParseValue(b, i) == Ok(v, i + |Serialize(v)|)
  {
    match v {
      case Simple(_) => TextParsesBack(b, i, v);
      case Error(_) => TextParsesBack(b, i, v);
      case Integer(n) => IntegerParsesBack(b, i, n);
      case Bulk(d) => BulkParsesBack(b, i, d);
      case Null => NullParsesBack(b, i);
    }
  }

  lemma ArrayHeader(b: seq<Byte>, i: nat, items: seq<Value>) returns (p: nat)
    requires |items| < TWO_64 && Sits(b, i, Serialize(Array(items)))
    ensures i + 1 <= |b| && b[i] == ARRAY
    ensures ReadNumber(b, i + 1).Ok? && ReadNumber(b, i + 1).next == p
    ensures Strtoull(ReadNumber(b, i + 1).value) == |items|
    ensures Sits(b, p, SerializeAll(items)) && p + |SerializeAll(items)| == i + |Serialize(Array(items))|
  {
    p := i + 1 + |Print(|items|)| + 2;
    var h := Print(|items|) + CRLF;
    assert Serialize(Array(items)) == [ARRAY] + (h + SerializeAll(items));
    SitsSplit(b, i, [ARRAY], h + SerializeAll(items));
    SitsSplit(b, i + 1, h, SerializeAll(items));
    NumberSits(b, i + 1, |items|);
    assert b[i] == b[i..i + 1][0];
  }

  /** Parsing a value's serialization, wherever it sits, gives the value and stops exactly at its end. */
  lemma {:induction false} ParsesBack(b: seq<Byte>, i: nat, v: Value)
    requires Clean(v) && Fits(v) && Sits(b, i, Serialize(v))
    ensures ParseValue(b, i) == Ok(v, i + |Serialize(v)|)
    decreases v
  {
    if v.Array? {
      var p := ArrayHeader(b, i, v.items);
      ItemsParseBack(b, p, v.items);
      ParseArrayAt(b, i, p, |v.items|);
    } else {
      ScalarParsesBack(b, i, v);
    }
  }

  lemma ItemsHead(b: seq<Byte>, i: nat, vs: seq<Value>)
    requires vs != [] && Sits(b, i, SerializeAll(vs))
    ensures Sits(b, i, Serialize(vs[0])) && Sits(b, i + |Serialize(vs[0])|, SerializeAll(vs[1..]))
    ensures |SerializeAll(vs)| == |Serialize(vs[0])| + |SerializeAll(vs[1..])|
  {
    SitsSplit(b, i, Serialize(vs[0]), SerializeAll(vs[1..]));
  }

  lemma ItemsCons(b: seq<Byte>, i: nat, v: Value, p: nat, vs: seq<Value>, next: nat)
    requires i <= |b| && ParseValue(b, i) == Ok(v, p)
    requires ParseItems(b, p, |vs|) == Ok(vs, next)
    ensures ParseItems(b, i, |vs| + 1) == Ok([v] + vs, next)
  {
  }

  lemma {:induction false} ItemsParseBack(b: seq<Byte>, i: nat, vs: seq<Value>)
    requires forall x :: 0 <= x < |vs| ==> Clean(vs[x]) && Fits(vs[x])
    requires Sits(b, i, SerializeAll(vs))
    ensures ParseItems(b, i, |vs|) == Ok(vs, i + |SerializeAll(vs)|)
    decreases vs
  {
    if vs != [] {
      var p := i + |Serialize(vs[0])|;
      ItemsHead(b, i, vs);
      ParsesBack(b, i, vs[0]);
      ItemsParseBack(b, p, vs[1..]);
      ItemsCons(b, i, vs[0], p, vs[1..], i + |SerializeAll(vs)|);
      assert [vs[0]] + vs[1..] == vs;
    }
  }

  predicate Returns(r: Parsed<Value>, v: Value) { r.Ok? && r.value == v }

  /** A line read back is never longer than what stands before the first CR or LF. */
  lemma ReadLineShort(b: seq<Byte>, i: nat, j: nat)
    requires i <= j < |b| && (b[j] == CR || b[j] == LF)
    ensures ReadLine(b, i).Ok? ==> |ReadLine(b, i).value| <= j - i
  {
    assert LineEnd(b, i) <= j;
  }

  lemma TextReadAt(b: seq<Byte>, i: nat, v: Value)
    requires (v.Simple? || v.Error?) && i < |b| && b[i] == (if v.Simple? then SIMPLE else ERROR)
    requires Returns(ParseValue(b, i), v)
    ensures ReadLine(b, i + 1).Ok? && ReadLine(b, i + 1).value == v.text
  {
    hide ReadLine;
  }

  /** A stray CR or LF ends the line early: what comes back is shorter, or an error. */
  lemma TextMisread(b: seq<Byte>, i: nat, v: Value)
    requires (v.Simple? || v.Error?) && !OneLine(v.text) && Sits(b, i, Serialize(v))
    ensures !Returns(ParseValue(b, i), v)
  {
    hide ParseValue, ReadLine, Returns, Serialize;
    TextSits(b, i, v);
    SitsSplit(b, i + 1, v.text, CRLF);
    var k :| 0 <= k < |v.text| && (v.text[k] == CR || v.text[k] == LF);
    assert b[i + 1 + k] == b[i + 1..i + 1 + |v.text|][k];
    ReadLineShort(b, i + 1, i + 1 + k);
    if Returns(ParseValue(b, i), v) { TextReadAt(b, i, v); }
  }

  lemma {:induction false} Misread(b: seq<Byte>, i: nat, v: Value)
    requires !Clean(v) && Fits(v) && Sits(b, i, Serialize(v))
    ensures !Returns(ParseValue(b, i), v)
    decreases v
  {
    if v.Array? {
      var p := ArrayHeader(b, i, v.items);
      ItemsMisread(b, p, v.items);
      ParseArrayAt(b, i, p, |v.items|);
    } else {
      TextMisread(b, i, v);
    }
  }

  predicate ReturnsAll(r: Parsed<seq<Value>>, vs: seq<Value>) { r.Ok? && r.value == vs }

  lemma HeadMisread(b: seq<Byte>, i: nat, vs: seq<Value>)
    requires i <= |b| && vs != [] && !Returns(ParseValue(b, i), vs[0])
    ensures !ReturnsAll(ParseItems(b, i, |vs|), vs)
  {
  }

  lemma TailMisread(b: seq<Byte>, i: nat, vs: seq<Value>, p: nat)
    requires i <= |b| && vs != [] && ParseValue(b, i) == Ok(vs[0], p)
    requires !ReturnsAll(ParseItems(b, p, |vs| - 1), vs[1..])
    ensures !ReturnsAll(ParseItems(b, i, |vs|), vs)
  {
    var r, s := ParseItems(b, i, |vs|), ParseItems(b, p, |vs| - 1);
    if r.Ok? { assert r.value[1..] == s.value; }
  }

  lemma {:induction false} ItemsMisread(b: seq<Byte>, i: nat, vs: seq<Value>)
    requires forall x :: 0 <= x < |vs| ==> Fits(vs[x])
    requires exists x :: 0 <= x < |vs| && !Clean(vs[x])
    requires Sits(b, i, SerializeAll(vs))
    ensures !ReturnsAll(ParseItems(b, i, |vs|), vs)
    decreases vs
  {
    ItemsHead(b, i, vs);
    if Clean(vs[0]) {
      var x :| 0 <= x < |vs| && !Clean(vs[x]);
      assert vs[x] == vs[1..][x - 1];
      ParsesBack(b, i, vs[0]);
      var p := ParseValue(b, i).next;
      ItemsMisread(b, p, vs[1..]);
      TailMisread(b, i, vs, p);
    } else {
      Misread(b, i, vs[0]);
      HeadMisread(b, i, vs);
    }
  }

  /**
   For every value of any nesting: parsing its serialization followed by arbitrary bytes
   gives the value back and stops exactly at its end, if and only if no simple string or
   error inside it holds a CR or LF.
   */
  lemma RoundTripExactlyWhen(v: Value, rest: seq<Byte>)
    requires Fits(v)
    ensures ParseValue(Serialize(v) + rest, 0) == Ok(v, |Serialize(v)|) <==> Clean(v)
    ensures Returns(ParseValue(Serialize(v) + rest, 0), v) <==> Clean(v)
  {
    var b := Serialize(v) + rest;
    assert Sits(b, 0, Serialize(v));
    if Clean(v) { ParsesBack(b, 0, v); } else { Misread(b, 0, v); }
  }

  /** Serialization is prefix-free, hence injective: a stream of values decodes one way only. */
  lemma PrefixFree(v: Value, w: Value, r: seq<Byte>, q: seq<Byte>)
    requires Clean(v) && Fits(v) && Clean(w) && Fits(w)
    requires Serialize(v) + r == Serialize(w) + q
    ensures v == w && r == q
  {
    RoundTripExactlyWhen(v, r);
    RoundTripExactlyWhen(w, q);
    assert r == (Serialize(v) + r)[|Serialize(v)|..];
    assert q == (Serialize(w) + q)[|Serialize(w)|..];
  }

  /** Two streams with equal bytes hold equal values. */
  lemma {:induction false} StreamsDecodeUniquely(vs: seq<Value>, ws: seq<Value>)
    requires forall x :: 0 <= x < |vs| ==> Clean(vs[x]) && Fits(vs[x])
    requires forall x :: 0 <= x < |ws| ==> Clean(ws[x]) && Fits(ws[x])
    requires SerializeAll(vs) == SerializeAll(ws)
    ensures vs == ws
    decreases |vs|
  {
    if vs != [] && ws != [] {
      PrefixFree(vs[0], ws[0], SerializeAll(vs[1..]), SerializeAll(ws[1..]));
      StreamsDecodeUniquely(vs[1..], ws[1..]);
      assert vs == [vs[0]] + vs[1..] && ws == [ws[0]] + ws[1..];
    }
  }
}
