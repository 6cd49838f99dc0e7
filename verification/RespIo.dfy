/** The wire parser and serializer as they move over their buffers (src/resp/parser.c, serializer.c). */
module RespIo {
  import opened Prelude
  import opened Numbers
  import opened Resp

  function Prepend(acc: seq<Value>, r: Parsed<seq<Value>>): Parsed<seq<Value>> {
    if r.Ok? then Ok(acc + r.value, r.next) else r
  }

  lemma PrependNone(r: Parsed<seq<Value>>)
    ensures Prepend([], r) == r
  {
    if r.Ok? { assert [] + r.value == r.value; }
  }

  lemma PrependNext(b: seq<Byte>, i: nat, acc: seq<Value>, n: nat)
    requires i <= |b| && n > 0 && Resp.ParseValue(b, i).Ok?
    ensures var v := Resp.ParseValue(b, i);
            Prepend(acc, ParseItems(b, i, n)) == Prepend(acc + [v.value], ParseItems(b, v.next, n - 1))
  {
    var v := Resp.ParseValue(b, i);
    var rest := ParseItems(b, v.next, n - 1);
    if rest.Ok? { assert acc + ([v.value] + rest.value) == acc + [v.value] + rest.value; }
  }

  lemma PrependEnd(b: seq<Byte>, i: nat, acc: seq<Value>)
    requires i <= |b|
    ensures Prepend(acc, ParseItems(b, i, 0)) == Ok(acc, i)
  {
    assert acc + [] == acc;
  }

  lemma PrependFailure(b: seq<Byte>, i: nat, acc: seq<Value>, n: nat)
    requires i <= |b| && n > 0 && !Resp.ParseValue(b, i).Ok?
    ensures Prepend(acc, ParseItems(b, i, n)) == Resp.ParseValue(b, i).PropagateFailure()
  {
  }

  class RespParser {
    const input: seq<Byte>
    var pos: nat

    constructor (input: seq<Byte>)
      ensures this.input == input && pos == 0
    {
      this.input, pos := input, 0;
    }

    /** Simple strings and simple errors: scan to the line end, copy, consume CR LF. */
    method ParseText() returns (r: Parsed<CString>)
      requires pos < |input|
      modifies this
      ensures r == ReadLine(input, old(pos) + 1)
      ensures r.Ok? ==> pos == r.next
    {
      var start := pos + 1;
      var end := start;
      while end < |input| && input[end] != CR && input[end] != LF
        invariant start <= end <= |input|
        invariant LineEnd(input, start) == LineEnd(input, end)
      {
        end := end + 1;
      }
      if end == |input| { return Overrun; }
      var crlf := ReadCrlf(input, end);
      if !crlf.Ok? { return crlf.PropagateFailure(); }
      pos := crlf.next;
      r := Ok(UpToNul(input[start..end]), pos);
    }

    method ParseNumber() returns (r: Parsed<Scan>)
      requires pos < |input|
      modifies this
      ensures r == ReadNumber(input, old(pos) + 1)
      ensures r.Ok? ==> pos == r.next
    {
      var scan := ScanNumber(input, pos + 1);
      if scan.touchedEnd { return Overrun; }
      var crlf := ReadCrlf(input, scan.end);
      if !crlf.Ok? { return crlf.PropagateFailure(); }
      pos := crlf.next;
      r := Ok(scan, pos);
    }

    method ParseBulk() returns (r: Parsed<DataString>)
      requires pos < |input|
      modifies this
      ensures r == ReadBulk(input, old(pos) + 1)
      ensures r.Ok? ==> pos == r.next
    {
      var header := ParseNumber();
      if !header.Ok? { return header.PropagateFailure(); }
      var length := Strtoull(header.value);
      var start := pos;
      if start + length > |input| { return Overrun; }
      var crlf := ReadCrlf(input, start + length);
      if !crlf.Ok? { return crlf.PropagateFailure(); }
      pos := crlf.next;
      r := Ok(input[start..start + length], pos);
    }

    /** The element loop of `parse_array`. */
    method ParseElements(count: nat) returns (r: Parsed<seq<Value>>)
      requires pos <= |input|
      modifies this
      ensures r == ParseItems(input, old(pos), count)
      ensures r.Ok? ==> pos == r.next
      decreases |input| - pos, 2
    {
      hide ParseItems, Resp.ParseValue, Prepend;
      var items, length := [], count;
      PrependNone(ParseItems(input, pos, length));
      while length > 0
        invariant old(pos) <= pos <= |input|
        invariant ParseItems(input, old(pos), count) == Prepend(items, ParseItems(input, pos, length))
      {
        ghost var at := pos;
        var item := ParseValue();
        if !item.Ok? {
          PrependFailure(input, at, items, length);
          return item.PropagateFailure();
        }
        PrependNext(input, at, items, length);
        items := items + [item.value];
        length := length - 1;
      }
      PrependEnd(input, pos, items);
      r := Ok(items, pos);
    }

    method ParseArray() returns (r: Parsed<Value>)
      requires pos < |input| && input[pos] == ARRAY
      modifies this
      ensures r == Resp.ParseValue(input, old(pos))
      ensures r.Ok? ==> pos == r.next
      decreases |input| - pos, 0
    {
      var header := ParseNumber();
      if !header.Ok? { return header.PropagateFailure(); }
      var items := ParseElements(Strtoull(header.value));
      r := if items.Ok? then Ok(Array(items.value), items.next) else items.PropagateFailure();
    }

    /** `resp_parse_value`. */
    method ParseValue() returns (r: Parsed<Value>)
      requires pos <= |input|
      modifies this
      ensures r == Resp.ParseValue(input, old(pos))
      ensures r.Ok? ==> pos == r.next
      decreases |input| - pos, 1
    {
      if pos == |input| { return Overrun; }
      var marker := input[pos];
      if marker == INTEGER {
        var x := ParseNumber();
        r := if x.Ok? then Ok(Integer(Strtoll(x.value)), x.next) else x.PropagateFailure();
      } else if marker == SIMPLE {
        var x := ParseText();
        r := if x.Ok? then Ok(Simple(x.value), x.next) else x.PropagateFailure();
      } else if marker == ERROR {
        var x := ParseText();
        r := if x.Ok? then Ok(Error(x.value), x.next) else x.PropagateFailure();
      } else if marker == BULK {
        var x := ParseBulk();
        r := if x.Ok? then Ok(Bulk(x.value), x.next) else x.PropagateFailure();
      } else if marker == NULL {
        var x := ReadCrlf(input, pos + 1);
        if x.Ok? { pos := x.next; }
        r := if x.Ok? then Ok(Null, x.next) else x.PropagateFailure();
      } else if marker == ARRAY {
        r := ParseArray();
      } else {
        r := UnknownMarker(pos);
      }
    }
  }

  class RespSerializer {
    const buffer: array<Byte>
    var pos: nat

    constructor (buffer: array<Byte>)
      ensures this.buffer == buffer && pos == 0
    {
      this.buffer, pos := buffer, 0;
    }

    /** Copy bytes to the cursor and move it. */
    method Emit(bytes: seq<Byte>)
      requires pos + |bytes| <= buffer.Length
      modifies this, buffer
      ensures pos == old(pos) + |bytes|
      ensures buffer[..pos] == old(buffer[..pos]) + bytes
    {
      var start := pos;
      forall i | 0 <= i < |bytes| { buffer[start + i] := bytes[i]; }
      pos := start + |bytes|;
    }

    /** The element loop of `serialize_array`. */
    method EmitItems(items: seq<Value>)
      requires pos + |SerializeAll(items)| <= buffer.Length
      modifies this, buffer
      ensures pos == old(pos) + |SerializeAll(items)|
      ensures buffer[..pos] == old(buffer[..pos]) + SerializeAll(items)
      decreases items, 2
    {
      ghost var before := buffer[..pos];
      var i := 0;
      assert items[0..] == items;
      while i < |items|
        invariant 0 <= i <= |items|
        invariant pos + |SerializeAll(items[i..])| == old(pos) + |SerializeAll(items)|
        invariant buffer[..pos] + SerializeAll(items[i..]) == before + SerializeAll(items)
      {
        assert items[i..][1..] == items[i + 1..];
        ghost var now, rest := buffer[..pos], SerializeAll(items[i + 1..]);
        SerializeValue(items[i]);
        Assoc(now, Serialize(items[i]), rest);
        i := i + 1;
      }
      assert buffer[..pos] + [] == buffer[..pos];
    }

    method SerializeArray(items: seq<Value>)
      requires pos + |Serialize(Array(items))| <= buffer.Length
      modifies this, buffer
      ensures pos == old(pos) + |Serialize(Array(items))|
      ensures buffer[..pos] == old(buffer[..pos]) + Serialize(Array(items))
      decreases Array(items), 0
    {
      ghost var before := buffer[..pos];
      var head := [ARRAY] + Print(|items|) + CRLF;
      Emit(head);
      EmitItems(items);
      Assoc(before, head, SerializeAll(items));
    }

    /** `serialize_value_helper`; the caller's buffer must have room, as the source assumes. */
    method SerializeValue(v: Value)
      requires pos + |Serialize(v)| <= buffer.Length
      modifies this, buffer
      ensures pos == old(pos) + |Serialize(v)|
      ensures buffer[..pos] == old(buffer[..pos]) + Serialize(v)
      decreases v, 1
    {
      match v {
        case Simple(t) => Emit([SIMPLE] + t + CRLF);
        case Error(t) => Emit([ERROR] + t + CRLF);
        case Integer(n) => Emit([INTEGER] + Print(n) + CRLF);
        case Bulk(d) => Emit([BULK] + Print(|d|) + CRLF + d + CRLF);
        case Null => Emit([NULL] + CRLF);
        case Array(items) => SerializeArray(items);
      }
    }
  }

  /** What one side serializes, the other side's parser reads back, wherever the buffer ends. */
  method Exchange(v: Value, buffer: array<Byte>) returns (r: Parsed<Value>)
    requires Clean(v) && Fits(v) && |Serialize(v)| < buffer.Length
    modifies buffer
    ensures r == Ok(v, |Serialize(v)|)
  {
    var out := new RespSerializer(buffer);
    out.SerializeValue(v);
    buffer[out.pos] := 0;
    assert buffer[..out.pos] == Serialize(v);
    var input := new RespParser(buffer[..]);
    assert buffer[..] == Serialize(v) + buffer[out.pos..];
    RoundTripExactlyWhen(v, buffer[out.pos..]);
    r := input.ParseValue();
  }
}
