/** The argument parser as it sets flags in place (src/command/command_arg.c, str_eq_ci of src/aids.c). */
module CommandArgsIo {
  import opened Prelude
  import opened CommandArgs
  import Numbers

  lemma {:induction false} PeekSucc(flags: seq<bool>, start: nat, end: nat, i: nat)
    requires end <= |flags| && Peek(flags, start, end, i).Some?
    ensures Peek(flags, start, end, i + 1) == Peek(flags, Peek(flags, start, end, i).value + 1, end, 0)
    decreases end - start
  {
    if flags[start] {
      PeekSucc(flags, start + 1, end, i);
    } else if i > 0 {
      PeekSucc(flags, start + 1, end, i - 1);
    }
  }

  /** With the i-th argument consumed, the i-th is the next one after it. */
  lemma {:induction false} PeekAfterConsume(flags: seq<bool>, start: nat, end: nat, i: nat)
    requires end <= |flags| && Peek(flags, start, end, i).Some?
    ensures var j := Peek(flags, start, end, i).value;
            Peek(flags[j := true], start, end, i) == Peek(flags[j := true], j + 1, end, 0)
    decreases end - start
  {
    if flags[start] {
      PeekAfterConsume(flags, start + 1, end, i);
    } else if i > 0 {
      PeekAfterConsume(flags, start + 1, end, i - 1);
    }
  }

  /** A token search skips consumed arguments. */
  lemma {:induction false} MatchSkips(args: seq<DataString>, flags: seq<bool>, start: nat, end: nat, t: DataString)
    requires end <= |flags| == |args|
    ensures var p := Peek(flags, start, end, 0);
            FirstMatch(args, flags, start, end, t) ==
            if p.Some? then FirstMatch(args, flags, p.value, end, t) else None
    decreases end - start
  {
    if start < end && flags[start] { MatchSkips(args, flags, start + 1, end, t); }
  }

  method StrEqCi(a: DataString, b: DataString) returns (eq: bool)
    ensures eq == EqCi(a, b)
  {
    if |a| != |b| { return false; }
    var i := 0;
    while i < |a|
      invariant 0 <= i <= |a|
      invariant forall j :: 0 <= j < i ==> Lower(a[j]) == Lower(b[j])
    {
      if Lower(a[i]) != Lower(b[i]) { return false; }
      i := i + 1;
    }
    eq := true;
  }

  class InputArgs {
    const args: seq<DataString>
    const flags: array<bool>
    const start: nat
    const end: nat

    ghost predicate Valid() { end <= flags.Length == |args| }

    /** `iaa_create`, or the copy made by `iaa_clone_shrinked_window_at_index`. */
    constructor (args: seq<DataString>, from: seq<bool>, start: nat, end: nat)
      requires end <= |from| == |args|
      ensures Valid() && fresh(flags) && flags[..] == from
      ensures this.args == args && this.start == start && this.end == end
    {
      this.args, this.start, this.end := args, start, end;
      flags := new bool[|from|](i requires 0 <= i < |from| => from[i]);
    }

    method PeekIndex(index: nat) returns (r: Option<nat>)
      requires Valid()
      ensures r == Peek(flags[..], start, end, index)
    {
      var i, j := start, 0;
      while i < end
        invariant j <= index
        invariant Peek(flags[..], start, end, index) == Peek(flags[..], i, end, index - j)
        decreases end - i
      {
        if !flags[i] {
          if index == j { return Some(i); }
          j := j + 1;
        }
        i := i + 1;
      }
      r := None;
    }

    method Consume(index: nat) returns (ok: bool)
      requires Valid()
      modifies flags
      ensures var p := Peek(old(flags[..]), start, end, index);
              ok == p.Some? && flags[..] == if p.Some? then old(flags[..])[p.value := true] else old(flags[..])
    {
      var idx := PeekIndex(index);
      if idx.None? { return false; }
      flags[idx.value] := true;
      ok := true;
    }

    method ShrunkAt(index: nat) returns (w: InputArgs)
      requires Valid()
      ensures fresh(w) && fresh(w.flags) && w.Valid() && w.args == args && w.flags[..] == flags[..]
      ensures var p := Peek(flags[..], start, end, index);
              w.start == (if p.Some? then p.value else end) && w.end == RunEnd(flags[..], w.start)
    {
      var idx := PeekIndex(index);
      var from := if idx.Some? then idx.value else end;
      var to := from;
      while to < |args| && !flags[to]
        invariant from <= to <= |args|
        invariant RunEnd(flags[..], from) == RunEnd(flags[..], to)
      {
        to := to + 1;
      }
      w := new InputArgs(args, flags[..], from, to);
    }

    /** Peek index of the token, or None; the loop of `parse_command_argument`. */
    method FindToken(token: DataString) returns (index: Option<nat>)
      requires Valid()
      ensures index.Some? ==>
                Peek(flags[..], start, end, index.value).Some? &&
                FirstMatch(args, flags[..], start, end, token) == Peek(flags[..], start, end, index.value)
      ensures index.None? ==> FirstMatch(args, flags[..], start, end, token).None?
    {
      ghost var f := flags[..];
      var i := 0;
      var idx := PeekIndex(0);
      MatchSkips(args, f, start, end, token);
      while idx.Some?
        invariant idx == Peek(f, start, end, i)
        invariant FirstMatch(args, f, start, end, token) ==
                  if idx.Some? then FirstMatch(args, f, idx.value, end, token) else None
        decreases if idx.Some? then 1 + end - start - i else 0
      {
        var eq := StrEqCi(args[idx.value], token);
        if eq { return Some(i); }
        PeekSucc(f, start, end, i);
        MatchSkips(args, f, idx.value + 1, end, token);
        i := i + 1;
        idx := PeekIndex(i);
      }
      index := None;
    }

    method ParseScalar(def: Def) returns (code: Code, output: Output)
      requires Valid() && def.kind in {Text, Int, UnixTime}
      modifies flags
      ensures Result(code, output, flags[..]) == CommandArgs.ParseScalar(def, args, old(flags[..]), start, end)
    {
      var idx := PeekIndex(0);
      output := Output(def.name, Absent);
      if idx.None? {
        code := if def.optional then Success else TooFewArgs;
        return;
      }
      var consumed := Consume(0);
      var text := args[idx.value];
      code := Success;
      match def.kind {
        case Text =>
          output := Output(def.name, Bytes(text));
        case UnixTime =>
          output := Output(def.name, Number(Numbers.Strtoll(Numbers.ScanNumber(text, 0))));
        case Int =>
          var n := Numbers.ParseInt64(text);
          if n.None? { return TypeMismatch, output; }
          output := Output(def.name, Number(n.value));
      }
    }

    method ParseArgument(def: Def) returns (code: Code, output: Output)
      requires Valid()
      modifies flags
      ensures Result(code, output, flags[..]) == CommandArgs.ParseArgument(def, args, old(flags[..]), start, end)
      decreases def, 1
    {
      match def.kind {
        case OneOf =>
          ghost var all := ParseOneOf(def, args, flags[..], start, end, 0);
          var i := 0;
          while i < |def.inner|
            invariant 0 <= i <= |def.inner|
            invariant ParseOneOf(def, args, flags[..], start, end, i) == all
          {
            code, output := ParseCommandArgument(def.inner[i]);
            if !code.TokenMismatch? { return; }
            i := i + 1;
          }
          return if def.optional then Success else TypeMismatch, Output(def.name, Absent);
        case PureToken =>
          return Success, Output(def.name, Flag);
        case _ =>
          code, output := ParseScalar(def);
      }
    }

    method ParseCommandArgument(def: Def) returns (code: Code, output: Output)
      requires Valid()
      modifies flags
      ensures Result(code, output, flags[..]) == CommandArgs.ParseCommandArgument(def, args, old(flags[..]), start, end)
      decreases def, 2
    {
      if def.token.None? {
        code, output := ParseArgument(def);
        return;
      }
      ghost var f := flags[..];
      var i := FindToken(def.token.value);
      if i.None? {
        return if def.optional then Success else TokenMismatch, Output(def.name, Absent);
      }
      ghost var j := Peek(f, start, end, i.value).value;
      ghost var g := f[j := true];
      PeekAfterConsume(f, start, end, i.value);
      var consumed := Consume(i.value);
      assert flags[..] == g;
      var window := ShrunkAt(i.value);
      assert (window.start, window.end) == Shrunk(g, j, end);
      code, output := window.ParseArgument(def);
      forall x | 0 <= x < flags.Length { flags[x] := window.flags[x]; }
      assert flags[..] == window.flags[..];
    }
  }

  lemma DefsStep(defs: seq<Def>, args: seq<DataString>, f: seq<bool>, i: nat, before: seq<Output>)
    requires i < |defs| && |f| == |args|
    ensures var r := CommandArgs.ParseCommandArgument(defs[i], args, f, 0, |args|);
            var all := ParseDefs(defs[i..], args, f);
            var rest := ParseDefs(defs[i + 1..], args, r.flags);
            if r.code.Success?
            then Parsed(all.code, before + all.outputs, all.flags) ==
                 Parsed(rest.code, before + [r.output] + rest.outputs, rest.flags)
            else Parsed(all.code, before + all.outputs, all.flags) == Parsed(r.code, before + [r.output], r.flags)
  {
    assert defs[i..][1..] == defs[i + 1..];
  }

  /** `parse_command_arguments`. */
  method ParseCommandArguments(defs: seq<Def>, args: seq<DataString>) returns (code: Code, outputs: seq<Output>)
    ensures code == ParseAll(defs, args).code && outputs == ParseAll(defs, args).outputs
  {
    var none := NoneConsumed(|args|);
    var iaa := new InputArgs(args, none, 0, |args|);
    outputs := [];
    var i := 0;
    assert defs[0..] == defs;
    while i < |defs|
      invariant 0 <= i <= |defs| && iaa.Valid() && fresh(iaa.flags) && iaa.args == args && iaa.start == 0 && iaa.end == |args|
      invariant var rest := ParseDefs(defs[i..], args, iaa.flags[..]);
                ParseDefs(defs, args, none) == Parsed(rest.code, outputs + rest.outputs, rest.flags)
    {
      DefsStep(defs, args, iaa.flags[..], i, outputs);
      var output: Output;
      code, output := iaa.ParseCommandArgument(defs[i]);
      outputs := outputs + [output];
      if !code.Success? { return; }
      i := i + 1;
    }
    var left := iaa.PeekIndex(0);
    code := if left.Some? then TooManyArgs else Success;
  }
}
