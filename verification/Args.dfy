/**
 Command arguments (src/command/command_arg.c): a table of definitions consumes the input
 arguments through a flag per argument and a window. Double arguments are left out.
 */
module CommandArgs {
  import opened Prelude
  import Numbers

  // ------------------------------------------------------------- definitions

  datatype Kind = Text | Int | UnixTime | OneOf | PureToken

  /** The names definitions carry; handlers tell options apart by them. */
  datatype Name =
    | KeyName | ValueName | ConditionName | NxName | XxName | GetName | ExpirationName
    | SecondsName | MillisecondsName | UnixSecondsName | UnixMillisecondsName | KeepTtlName
    | OtherName(text: string)

  datatype Def = Def(name: Name, kind: Kind, optional: bool, token: Option<DataString>, inner: seq<Def>)

  datatype Code = Success | TooFewArgs | TooManyArgs | TokenMismatch | TypeMismatch

  datatype ArgValue = Bytes(bytes: DataString) | Number(n: Int64) | Flag | Absent

  /** `CommandArg`: the definition that matched and its value; Absent is an option not present. */
  datatype Output = Output(name: Name, value: ArgValue)

  datatype Result = Result(code: Code, output: Output, flags: seq<bool>)

  function Lower(b: Byte): Byte { if 65 <= b <= 90 then b + 32 else b }

  /** `str_eq_ci`. */
  predicate EqCi(a: DataString, b: DataString) {
    |a| == |b| && forall i :: 0 <= i < |a| ==> Lower(a[i]) == Lower(b[i])
  }

  /** Equal byte by byte, except that 'A'..'Z' (65..90) and 'a'..'z' (97..122) may stand for one another. */
  lemma SameButForCase(a: DataString, b: DataString)
    ensures EqCi(a, b) <==>
            |a| == |b| && forall i :: 0 <= i < |a| ==>
              || a[i] == b[i]
              || (65 <= a[i] <= 90 && b[i] == a[i] + 32)
              || (97 <= a[i] <= 122 && b[i] == a[i] - 32)
  {
  }

  // ------------------------------------------------------------------ window

  /** `iaa_peek_arg_index`: the index-th argument of the window not consumed yet. */
  function Peek(flags: seq<bool>, start: nat, end: nat, index: nat): (r: Option<nat>)
    requires end <= |flags|
    ensures r.Some? ==> start <= r.value < end && !flags[r.value] && index < end - start
    decreases end - start
  {
    if start >= end then None
    else if flags[start] then Peek(flags, start + 1, end, index)
    else if index == 0 then Some(start)
    else Peek(flags, start + 1, end, index - 1)
  }

  /** First unconsumed argument of the window that is the token, in any case. */
  function FirstMatch(args: seq<DataString>, flags: seq<bool>, start: nat, end: nat, token: DataString): (r: Option<nat>)
    requires end <= |flags| == |args|
    ensures r.Some? ==> start <= r.value < end && !flags[r.value] && EqCi(args[r.value], token)
    ensures r.None? ==> forall j :: start <= j < end && !flags[j] ==> !EqCi(args[j], token)
    decreases end - start
  {
    if start >= end then None
    else if !flags[start] && EqCi(args[start], token) then Some(start)
    else FirstMatch(args, flags, start + 1, end, token)
  }

  /** End of the run of unconsumed arguments that starts at i. */
  function RunEnd(flags: seq<bool>, i: nat): (j: nat)
    requires i <= |flags|
    ensures i <= j <= |flags|
    decreases |flags| - i
  {
    if i < |flags| && !flags[i] then RunEnd(flags, i + 1) else i
  }

  // ----------------------------------------------------------------- parsing

  function ParseScalar(def: Def, args: seq<DataString>, flags: seq<bool>, start: nat, end: nat): (r: Result)
    requires end <= |flags| == |args| && def.kind in {Text, Int, UnixTime}
    ensures |r.flags| == |flags|
  {
    var arg := Peek(flags, start, end, 0);
    if arg.None? then
      Result(if def.optional then Success else TooFewArgs, Output(def.name, Absent), flags)
    else
      var consumed := flags[arg.value := true];
      var text := args[arg.value];
      if def.kind.Text? then Result(Success, Output(def.name, Bytes(text)), consumed)
      else if def.kind.UnixTime? then
        Result(Success, Output(def.name, Number(Numbers.Strtoll(Numbers.ScanNumber(text, 0)))), consumed)
      else
        var n := Numbers.ParseInt64(text);
        if n.None? then Result(TypeMismatch, Output(def.name, Absent), consumed)
        else Result(Success, Output(def.name, Number(n.value)), consumed)
  }

  /** `parse_argument`. */
  function ParseArgument(def: Def, args: seq<DataString>, flags: seq<bool>, start: nat, end: nat): (r: Result)
    requires end <= |flags| == |args|
    ensures |r.flags| == |flags|
    decreases def, 1, 0
  {
    match def.kind
    case OneOf => ParseOneOf(def, args, flags, start, end, 0)
    case PureToken => Result(Success, Output(def.name, Flag), flags)
    case _ => ParseScalar(def, args, flags, start, end)
  }

  function ParseOneOf(def: Def, args: seq<DataString>, flags: seq<bool>, start: nat, end: nat, i: nat): (r: Result)
    requires end <= |flags| == |args| && i <= |def.inner|
    ensures |r.flags| == |flags|
    decreases def, 0, |def.inner| - i
  {
    if i == |def.inner| then
      Result(if def.optional then Success else TypeMismatch, Output(def.name, Absent), flags)
    else
      var r := ParseCommandArgument(def.inner[i], args, flags, start, end);
      if r.code.TokenMismatch? then ParseOneOf(def, args, r.flags, start, end, i + 1) else r
  }

  /** Where the window shrinks to after the token at j has been consumed. */
  function Shrunk(flags: seq<bool>, j: nat, end: nat): (w: (nat, nat))
    requires j < end <= |flags|
    ensures w.0 <= w.1 <= |flags|
  {
    var next := Peek(flags, j + 1, end, 0);
    var start := if next.Some? then next.value else end;
    (start, RunEnd(flags, start))
  }

  /** `parse_command_argument`. */
  function ParseCommandArgument(def: Def, args: seq<DataString>, flags: seq<bool>, start: nat, end: nat): (r: Result)
    requires end <= |flags| == |args|
    ensures |r.flags| == |flags|
    decreases def, 2, 0
  {
    if def.token.None? then ParseArgument(def, args, flags, start, end)
    else
      var j := FirstMatch(args, flags, start, end, def.token.value);
      if j.None? then
        Result(if def.optional then Success else TokenMismatch, Output(def.name, Absent), flags)
      else
        var consumed := flags[j.value := true];
        var (s, e) := Shrunk(consumed, j.value, end);
        ParseArgument(def, args, consumed, s, e)
  }

  datatype Parsed = Parsed(code: Code, outputs: seq<Output>, flags: seq<bool>)

  function ParseDefs(defs: seq<Def>, args: seq<DataString>, flags: seq<bool>): (r: Parsed)
    requires |flags| == |args|
    ensures |r.flags| == |args|
    decreases |defs|
  {
    if defs == [] then Parsed(Success, [], flags)
    else
      var r := ParseCommandArgument(defs[0], args, flags, 0, |args|);
      if !r.code.Success? then Parsed(r.code, [r.output], r.flags)
      else
        var rest := ParseDefs(defs[1..], args, r.flags);
        rest.(outputs := [r.output] + rest.outputs)
  }

  function NoneConsumed(n: nat): seq<bool> { seq(n, _ => false) }

  /** `parse_command_arguments`. */
  function ParseAll(defs: seq<Def>, args: seq<DataString>): (r: Parsed)
    ensures |r.flags| == |args|
  {
    var r := ParseDefs(defs, args, NoneConsumed(|args|));
    if r.code.Success? && Peek(r.flags, 0, |args|, 0).Some? then r.(code := TooManyArgs) else r
  }

  // -------------------------------------------------------------- accounting

  /** Consumed flags never revert. */
  ghost predicate Kept(f: seq<bool>, g: seq<bool>) {
    |f| == |g| && forall i :: 0 <= i < |f| && f[i] ==> g[i]
  }

  lemma {:induction false} ArgumentKeeps(def: Def, args: seq<DataString>, flags: seq<bool>, start: nat, end: nat)
    requires end <= |flags| == |args|
    ensures Kept(flags, ParseArgument(def, args, flags, start, end).flags)
    decreases def, 1, 0
  {
    if def.kind.OneOf? { OneOfKeeps(def, args, flags, start, end, 0); }
  }

  lemma {:induction false} OneOfKeeps(def: Def, args: seq<DataString>, flags: seq<bool>, start: nat, end: nat, i: nat)
    requires end <= |flags| == |args| && i <= |def.inner|
    ensures Kept(flags, ParseOneOf(def, args, flags, start, end, i).flags)
    decreases def, 0, |def.inner| - i
  {
    if i < |def.inner| {
      CommandArgumentKeeps(def.inner[i], args, flags, start, end);
      var r := ParseCommandArgument(def.inner[i], args, flags, start, end);
      OneOfKeeps(def, args, r.flags, start, end, i + 1);
    }
  }

  lemma {:induction false} CommandArgumentKeeps(def: Def, args: seq<DataString>, flags: seq<bool>, start: nat, end: nat)
    requires end <= |flags| == |args|
    ensures Kept(flags, ParseCommandArgument(def, args, flags, start, end).flags)
    decreases def, 2, 0
  {
    if def.token.None? {
      ArgumentKeeps(def, args, flags, start, end);
    } else {
      var j := FirstMatch(args, flags, start, end, def.token.value);
      if j.Some? {
        var consumed := flags[j.value := true];
        var (s, e) := Shrunk(consumed, j.value, end);
        ArgumentKeeps(def, args, consumed, s, e);
      }
    }
  }

  /** The flags after the first d definitions. */
  function FlagsAfter(defs: seq<Def>, args: seq<DataString>, flags: seq<bool>, d: nat): (f: seq<bool>)
    requires |flags| == |args| && d <= |defs|
    ensures |f| == |args|
    decreases d
  {
    if d == 0 then flags
    else FlagsAfter(defs[1..], args, ParseCommandArgument(defs[0], args, flags, 0, |args|).flags, d - 1)
  }

  /** Definition d consumes argument x. */
  ghost predicate Consumes(defs: seq<Def>, args: seq<DataString>, flags: seq<bool>, d: nat, x: nat)
    requires |flags| == |args| && d < |defs| && x < |args|
  {
    !FlagsAfter(defs, args, flags, d)[x] && FlagsAfter(defs, args, flags, d + 1)[x]
  }

  lemma {:induction false} FlagsAfterKeeps(defs: seq<Def>, args: seq<DataString>, flags: seq<bool>, d: nat, e: nat)
    requires |flags| == |args| && d <= e <= |defs|
    ensures Kept(FlagsAfter(defs, args, flags, d), FlagsAfter(defs, args, flags, e))
    decreases e
  {
    if e > 0 {
      var next := ParseCommandArgument(defs[0], args, flags, 0, |args|).flags;
      CommandArgumentKeeps(defs[0], args, flags, 0, |args|);
      if d > 0 {
        FlagsAfterKeeps(defs[1..], args, next, d - 1, e - 1);
      } else {
        FlagsAfterKeeps(defs[1..], args, next, 0, e - 1);
      }
    }
  }

  lemma {:induction false} SomeDefConsumes(defs: seq<Def>, args: seq<DataString>, flags: seq<bool>, d: nat, x: nat) returns (c: nat)
    requires |flags| == |args| && d <= |defs| && x < |args|
    requires !flags[x] && FlagsAfter(defs, args, flags, d)[x]
    ensures c < d && Consumes(defs, args, flags, c, x)
    decreases d
  {
    if FlagsAfter(defs, args, flags, d - 1)[x] {
      c := SomeDefConsumes(defs, args, flags, d - 1, x);
    } else {
      c := d - 1;
    }
  }

  lemma {:induction false} SuccessFlags(defs: seq<Def>, args: seq<DataString>, flags: seq<bool>)
    requires |flags| == |args| && ParseDefs(defs, args, flags).code.Success?
    ensures ParseDefs(defs, args, flags).flags == FlagsAfter(defs, args, flags, |defs|)
    decreases |defs|
  {
    if defs != [] {
      SuccessFlags(defs[1..], args, ParseCommandArgument(defs[0], args, flags, 0, |args|).flags);
    }
  }

  lemma {:induction false} PeekNone(flags: seq<bool>, start: nat, end: nat)
    requires start <= end <= |flags|
    ensures Peek(flags, start, end, 0).None? <==> forall j :: start <= j < end ==> flags[j]
    decreases end - start
  {
    if start < end { PeekNone(flags, start + 1, end); }
  }

  /**
   Argument accounting: for every table and every input, on success each input argument is
   consumed by exactly one definition, so the definitions' arguments partition the input.
   */
  lemma SuccessPartitions(defs: seq<Def>, args: seq<DataString>, x: nat) returns (c: nat)
    requires ParseAll(defs, args).code.Success? && x < |args|
    ensures c < |defs| && Consumes(defs, args, NoneConsumed(|args|), c, x)
    ensures forall d :: 0 <= d < |defs| && Consumes(defs, args, NoneConsumed(|args|), d, x) ==> d == c
  {
    var none := NoneConsumed(|args|);
    SuccessFlags(defs, args, none);
    PeekNone(ParseDefs(defs, args, none).flags, 0, |args|);
    c := SomeDefConsumes(defs, args, none, |defs|, x);
    forall d | 0 <= d < |defs| && Consumes(defs, args, none, d, x) ensures d == c {
      if d < c {
        FlagsAfterKeeps(defs, args, none, d + 1, c);
      } else if c < d {
        FlagsAfterKeeps(defs, args, none, c + 1, d);
      }
    }
  }
}
