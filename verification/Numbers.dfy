/**
 Decimal text of 64-bit integers: `snprintf("%" PRId64)` and `sprintf("%" PRIu64)`
 on the printing side (src/data.c, src/resp/serializer.c), `strtoll`, `strtoull`
 and `parse_int64` on the reading side (src/aids.c, src/resp/parser.c).
 */
module Numbers {
  import opened Prelude

  predicate IsDigit(b: Byte) { 48 <= b <= 57 }

  /** `isspace` in the C locale. */
  predicate IsSpace(b: Byte) { b == 32 || 9 <= b <= 13 }

  const PLUS: Byte := 43
  const MINUS: Byte := 45

  /** Decimal digits of n, most significant first. */
  function Digits(n: nat): (s: seq<Byte>)
    ensures |s| >= 1
    ensures forall i :: 0 <= i < |s| ==> IsDigit(s[i])
  {
    if n < 10 then [48 + n] else Digits(n / 10) + [48 + n % 10]
  }

  function Print(v: int): (s: seq<Byte>)
    ensures |s| >= 1
  {
    if v < 0 then [MINUS] + Digits(-v) else Digits(v)
  }

  function DigitValue(b: Byte): (v: nat)
    requires IsDigit(b)
    ensures v < 10
  {
    var x: int := b;
    x - 48
  }

  function Signed(negative: bool, magnitude: nat): int {
    var m: int := magnitude;
    if negative then -m else m
  }

  function Magnitude(v: int): nat { if v < 0 then -v else v }

  /** The number a run of digits denotes. */
  function Value(s: seq<Byte>): nat
    requires forall i :: 0 <= i < |s| ==> IsDigit(s[i])
  {
    if s == [] then 0 else Value(s[..|s| - 1]) * 10 + DigitValue(s[|s| - 1])
  }

  function SpaceEnd(s: seq<Byte>, i: nat): (j: nat)
    requires i <= |s|
    ensures i <= j <= |s|
    ensures forall x :: i <= x < j ==> IsSpace(s[x])
    ensures j < |s| ==> !IsSpace(s[j])
    decreases |s| - i
  {
    if i < |s| && IsSpace(s[i]) then SpaceEnd(s, i + 1) else i
  }

  function DigitEnd(s: seq<Byte>, i: nat): (j: nat)
    requires i <= |s|
    ensures i <= j <= |s|
    ensures forall x :: i <= x < j ==> IsDigit(s[x])
    decreases |s| - i
  {
    if i < |s| && IsDigit(s[i]) then DigitEnd(s, i + 1) else i
  }

  /**
   What `strtoll` and `strtoull` read from position i: optional white space, an
   optional sign, a run of digits. `end == i` means nothing was converted;
   `touchedEnd` says that a byte past the buffer had to be looked at.
   */
  datatype Scan = Scan(end: nat, negative: bool, magnitude: nat, touchedEnd: bool)

  function ScanNumber(s: seq<Byte>, i: nat): (r: Scan)
    requires i <= |s|
    ensures i <= r.end <= |s|
  {
    var a := SpaceEnd(s, i);
    var signed := a < |s| && (s[a] == PLUS || s[a] == MINUS);
    var d := if signed then a + 1 else a;
    var e := DigitEnd(s, d);
    if e == d then Scan(i, false, 0, d == |s|)
    else Scan(e, signed && s[a] == MINUS, Value(s[d..e]), e == |s|)
  }

  /** The value `strtoll` returns: clamped to the int64 range. */
  function Strtoll(r: Scan): (v: Int64) {
    var x := Signed(r.negative, r.magnitude);
    if x < -TWO_63 then -TWO_63 else if x >= TWO_63 then TWO_63 - 1 else x
  }

  /** The value `strtoull` returns: clamped above, a minus sign negates modulo 2^64. */
  function Strtoull(r: Scan): (v: nat)
    ensures v < TWO_64
  {
    if r.magnitude >= TWO_64 then TWO_64 - 1
    else if r.negative && r.magnitude > 0 then TWO_64 - r.magnitude
    else r.magnitude
  }

  /** `parse_int64`: None where the source returns false. */
  function ParseInt64(s: seq<Byte>): Option<Int64> {
    if |s| == 0 || |s| > 20 then None
    else
      var r := ScanNumber(s, 0);
      var x := Signed(r.negative, r.magnitude);
      if r.end != |s| || !FitsInt64(x) then None else Some(x)
  }

  // ---------------------------------------------------------------- lemmas

  lemma {:induction false} ValueOfDigits(n: nat)
    ensures Value(Digits(n)) == n
  {
    if n >= 10 {
      ValueOfDigits(n / 10);
      var s := Digits(n);
      assert s[..|s| - 1] == Digits(n / 10);
    } else {
      var s := Digits(n);
      assert s[..|s| - 1] == [];
    }
  }

  function Pow10(k: nat): (p: nat)
    ensures p >= 1
  {
    if k == 0 then 1 else 10 * Pow10(k - 1)
  }

  lemma {:induction false} DigitsLength(n: nat, k: nat)
    requires k >= 1 && n < Pow10(k)
    ensures |Digits(n)| <= k
  {
    if n >= 10 {
      assert k != 1 by { assert Pow10(1) == 10 * Pow10(0); }
      DigitsLength(n / 10, k - 1);
    }
  }

  lemma PrintLength(v: Int64)
    ensures |Print(v)| <= 20
    ensures forall i :: 0 <= i < |Print(v)| ==> Print(v)[i] == MINUS || IsDigit(Print(v)[i])
  {
    assert Pow10(19) == 10_000_000_000_000_000_000 by {
      assert Pow10(4) == 10_000;
      assert Pow10(8) == 100_000_000;
      assert Pow10(12) == 1_000_000_000_000;
      assert Pow10(16) == 10_000_000_000_000_000;
    }
    DigitsLength(Magnitude(v), 19);
  }

  lemma {:induction false} DigitEndIs(s: seq<Byte>, i: nat, j: nat)
    requires i <= j <= |s|
    requires forall x :: i <= x < j ==> IsDigit(s[x])
    requires j == |s| || !IsDigit(s[j])
    ensures DigitEnd(s, i) == j
    decreases j - i
  {
    if i < j { DigitEndIs(s, i + 1, j); }
  }

  /** Reading back printed text followed by any non-digit recovers the number and its extent. */
  lemma ScanPrinted(s: seq<Byte>, i: nat, v: int)
    requires i + |Print(v)| <= |s|
    requires s[i..i + |Print(v)|] == Print(v)
    requires i + |Print(v)| == |s| || !IsDigit(s[i + |Print(v)|])
    ensures ScanNumber(s, i) == Scan(i + |Print(v)|, v < 0, Magnitude(v), i + |Print(v)| == |s|)
  {
    var p := Print(v);
    var e := i + |p|;
    var m := Magnitude(v);
    assert s[i] == p[0];
    assert SpaceEnd(s, i) == i;
    var d := if v < 0 then i + 1 else i;
    assert s[d..e] == Digits(m) by {
      assert s[d..e] == s[i..e][d - i..];
    }
    forall x | d <= x < e ensures IsDigit(s[x]) { assert s[x] == s[d..e][x - d]; }
    DigitEndIs(s, d, e);
    ValueOfDigits(m);
  }

  /** parse_int64 inverts the decimal printing of every int64 value. */
  lemma ParsePrint(v: Int64)
    ensures ParseInt64(Print(v)) == Some(v)
  {
    PrintLength(v);
    ScanPrinted(Print(v), 0, v);
  }

  /** White space up to a, a sign or nothing up to d, then digits to the end. */
  predicate IsDecimal(s: seq<Byte>, a: nat, d: nat) {
    && a <= d < |s| && (forall x :: 0 <= x < a ==> IsSpace(s[x]))
    && (d == a || (d == a + 1 && (s[a] == PLUS || s[a] == MINUS)))
    && (forall x :: d <= x < |s| ==> IsDigit(s[x]))
  }

  function DecimalValue(s: seq<Byte>, a: nat, d: nat): int
    requires IsDecimal(s, a, d)
  {
    assert forall x :: 0 <= x < |s[d..]| ==> IsDigit(s[d..][x]);
    Signed(d > a && s[a] == MINUS, Value(s[d..]))
  }

  lemma ScanDecimal(s: seq<Byte>, a: nat, d: nat)
    requires IsDecimal(s, a, d)
    ensures ScanNumber(s, 0).end == |s|
    ensures Signed(ScanNumber(s, 0).negative, ScanNumber(s, 0).magnitude) == DecimalValue(s, a, d)
  {
    assert !IsSpace(s[a]);
    assert SpaceEnd(s, 0) == a;
    DigitEndIs(s, d, |s|);
    assert s[d..|s|] == s[d..];
  }

  /**
   parse_int64 accepts exactly the texts of at most 20 bytes that are white space, an optional
   sign and digits to the end, and denote an int64; and gives the number they denote.
   */
  lemma ParseInt64Exactly(s: seq<Byte>, v: Int64)
    ensures ParseInt64(s) == Some(v) <==>
            |s| <= 20 && exists a, d :: IsDecimal(s, a, d) && DecimalValue(s, a, d) == v
  {
    if |s| <= 20 && exists a, d :: IsDecimal(s, a, d) && DecimalValue(s, a, d) == v {
      var a, d :| IsDecimal(s, a, d) && DecimalValue(s, a, d) == v;
      ScanDecimal(s, a, d);
    }
    if ParseInt64(s) == Some(v) {
      var a := SpaceEnd(s, 0);
      var d := if a < |s| && (s[a] == PLUS || s[a] == MINUS) then a + 1 else a;
      assert IsDecimal(s, a, d);
      ScanDecimal(s, a, d);
    }
  }
}
