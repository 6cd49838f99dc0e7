/** SET's argument table and the operation it builds (src/command/handlers/set.c). */
module SetCommand {
  import opened Prelude
  import opened CommandArgs
  import Numbers
  import Tank

  const NX: DataString := [78, 88]
  const XX: DataString := [88, 88]
  const GET: DataString := [71, 69, 84]
  const EX: DataString := [69, 88]
  const PX: DataString := [80, 88]
  const EXAT: DataString := [69, 88, 65, 84]
  const PXAT: DataString := [80, 88, 65, 84]
  const KEEPTTL: DataString := [75, 69, 69, 80, 84, 84, 76]

  function Plain(name: Name): Def { Def(name, Text, false, None, []) }

  function Tokened(name: Name, kind: Kind, optional: bool, token: DataString): Def {
    Def(name, kind, optional, Some(token), [])
  }

  function Condition(): Def {
    Def(ConditionName, OneOf, true, None, [Tokened(NxName, PureToken, false, NX), Tokened(XxName, PureToken, false, XX)])
  }

  function ExpirationDef(): Def {
    Def(ExpirationName, OneOf, true, None, [
      Tokened(SecondsName, Int, false, EX),
      Tokened(MillisecondsName, Int, false, PX),
      Tokened(UnixSecondsName, UnixTime, false, EXAT),
      Tokened(UnixMillisecondsName, UnixTime, false, PXAT),
      Tokened(KeepTtlName, PureToken, false, KEEPTTL)])
  }

  function SetDefs(): seq<Def> {
    [Plain(KeyName), Plain(ValueName), Condition(), Tokened(GetName, PureToken, true, GET), ExpirationDef()]
  }

  // ------------------------------------------------------- counting flags

  function TrueCount(f: seq<bool>): nat {
    if f == [] then 0 else (if f[0] then 1 else 0) + TrueCount(f[1..])
  }

  lemma {:induction false} CountSet(f: seq<bool>, j: nat)
    requires j < |f| && !f[j]
    ensures TrueCount(f[j := true]) == TrueCount(f) + 1
    decreases |f|
  {
    if j == 0 {
      assert f[0 := true][1..] == f[1..];
    } else {
      CountSet(f[1..], j - 1);
      assert f[j := true][1..] == f[1..][j - 1 := true];
    }
  }

  lemma {:induction false} CountFull(f: seq<bool>)
    ensures TrueCount(f) <= |f|
    ensures TrueCount(f) == |f| <==> forall j :: 0 <= j < |f| ==> f[j]
    decreases |f|
  {
    if f != [] {
      CountFull(f[1..]);
      assert forall j :: 0 < j < |f| ==> f[j] == f[1..][j - 1];
    }
  }

  lemma {:induction false} CountNone(n: nat)
    ensures TrueCount(NoneConsumed(n)) == 0
  {
    if n > 0 {
      CountNone(n - 1);
      assert NoneConsumed(n)[1..] == NoneConsumed(n - 1);
    }
  }

  // ------------------------------------------------------------ closed form

  predicate HasToken(trail: seq<DataString>, token: DataString) {
    exists i :: 0 <= i < |trail| && EqCi(trail[i], token)
  }

  /** No trailing argument is an option that takes a value. */
  predicate NoValueOptions(trail: seq<DataString>) {
    !HasToken(trail, EX) && !HasToken(trail, PX) && !HasToken(trail, EXAT) && !HasToken(trail, PXAT)
  }

  function ConditionOutput(trail: seq<DataString>): Output {
    if HasToken(trail, NX) then Output(NxName, Flag)
    else if HasToken(trail, XX) then Output(XxName, Flag)
    else Output(ConditionName, Absent)
  }

  function GetOutput(trail: seq<DataString>): Output {
    Output(GetName, if HasToken(trail, GET) then Flag else Absent)
  }

  function ExpirationOutput(trail: seq<DataString>): Output {
    if HasToken(trail, KEEPTTL) then Output(KeepTtlName, Flag) else Output(ExpirationName, Absent)
  }

  function OptionOutputs(trail: seq<DataString>): seq<Output> {
    [ConditionOutput(trail), GetOutput(trail), ExpirationOutput(trail)]
  }

  function KeyValueOutputs(k: DataString, v: DataString): seq<Output> {
    [Output(KeyName, Bytes(k)), Output(ValueName, Bytes(v))]
  }

  function Present(o: Output): nat { if o.value.Absent? then 0 else 1 }

  /** How many trailing arguments the options account for. */
  function Accounted(trail: seq<DataString>): nat {
    Present(ConditionOutput(trail)) + Present(GetOutput(trail)) + Present(ExpirationOutput(trail))
  }

  /** State of the flags between options: key and value consumed, and trailing tokens other than `open` ones. */
  ghost predicate Consumed(args: seq<DataString>, f: seq<bool>, open: set<DataString>, n: nat) {
    && |f| == |args| >= 2 && f[0] && f[1] && TrueCount(f) == 2 + n
    && (forall j, t :: 2 <= j < |f| && f[j] && t in open ==> !EqCi(args[j], t))
  }

  /** An open token is found exactly when it is among the trailing arguments. */
  lemma OpenToken(args: seq<DataString>, f: seq<bool>, open: set<DataString>, n: nat, t: DataString)
    requires Consumed(args, f, open, n) && t in open
    ensures FirstMatch(args, f, 0, |args|, t).Some? <==> HasToken(args[2..], t)
  {
    var m := FirstMatch(args, f, 0, |args|, t);
    if m.Some? { assert args[m.value] == args[2..][m.value - 2]; }
    if HasToken(args[2..], t) {
      var i :| 0 <= i < |args[2..]| && EqCi(args[2..][i], t);
      assert args[i + 2] == args[2..][i] && !f[i + 2];
    }
  }

  /** No argument is two different tokens at once. */
  predicate Apart(a: DataString, b: DataString) {
    |a| != |b| || exists i :: 0 <= i < |a| && Lower(a[i]) != Lower(b[i])
  }

  lemma ApartTokens(x: DataString, a: DataString, b: DataString)
    requires Apart(a, b) && EqCi(x, a)
    ensures !EqCi(x, b)
  {
  }

  /** Consuming one open token closes it; tokens apart from it stay open. */
  lemma CloseToken(args: seq<DataString>, f: seq<bool>, open: set<DataString>, n: nat, t: DataString, rest: set<DataString>)
    requires Consumed(args, f, open, n) && t in open && rest <= open
    requires forall u :: u in rest ==> Apart(t, u)
    requires FirstMatch(args, f, 0, |args|, t).Some?
    ensures Consumed(args, f[FirstMatch(args, f, 0, |args|, t).value := true], rest, n + 1)
  {
    var j := FirstMatch(args, f, 0, |args|, t).value;
    CountSet(f, j);
    forall u | u in rest ensures !EqCi(args[j], u) { ApartTokens(args[j], t, u); }
  }

  lemma PureTokenFound(def: Def, args: seq<DataString>, f: seq<bool>)
    requires def.kind.PureToken? && def.token.Some? && |f| == |args|
    ensures var j := FirstMatch(args, f, 0, |args|, def.token.value);
            ParseCommandArgument(def, args, f, 0, |args|) ==
            if j.Some? then Result(Success, Output(def.name, Flag), f[j.value := true])
            else Result(if def.optional then Success else TokenMismatch, Output(def.name, Absent), f)
  {
  }

  lemma OneOfSkip(def: Def, args: seq<DataString>, f: seq<bool>, i: nat)
    requires |f| == |args| && i < |def.inner|
    requires def.inner[i].token.Some? && !def.inner[i].optional
    requires FirstMatch(args, f, 0, |args|, def.inner[i].token.value).None?
    ensures ParseOneOf(def, args, f, 0, |args|, i) == ParseOneOf(def, args, f, 0, |args|, i + 1)
  {
  }

  lemma OneOfTake(def: Def, args: seq<DataString>, f: seq<bool>, i: nat)
    requires |f| == |args| && i < |def.inner|
    requires def.inner[i].kind.PureToken? && def.inner[i].token.Some?
    requires FirstMatch(args, f, 0, |args|, def.inner[i].token.value).Some?
    ensures ParseOneOf(def, args, f, 0, |args|, i) ==
            Result(Success, Output(def.inner[i].name, Flag),
                   f[FirstMatch(args, f, 0, |args|, def.inner[i].token.value).value := true])
  {
    PureTokenFound(def.inner[i], args, f);
  }

  lemma AllApart()
    ensures Apart(NX, GET) && Apart(NX, KEEPTTL) && Apart(XX, GET) && Apart(XX, KEEPTTL) && Apart(GET, KEEPTTL)
  {
    assert |NX| == |XX| == 2 && |GET| == 3 && |KEEPTTL| == 7;
  }

  /** NX, else XX, is consumed; texts apart from both stay open. */
  lemma ConditionStep(args: seq<DataString>, f: seq<bool>, more: set<DataString>)
    requires Consumed(args, f, {NX, XX} + more, 0) && forall u :: u in more ==> Apart(NX, u) && Apart(XX, u)
    ensures var r := ParseCommandArgument(Condition(), args, f, 0, |args|);
            && r.code.Success? && r.output == ConditionOutput(args[2..])
            && Consumed(args, r.flags, more, Present(r.output))
  {
    var open: set<DataString> := {NX, XX} + more;
    var def := Condition();
    OpenToken(args, f, open, 0, NX);
    OpenToken(args, f, open, 0, XX);
    assert ParseCommandArgument(def, args, f, 0, |args|) == ParseOneOf(def, args, f, 0, |args|, 0);
    if HasToken(args[2..], NX) {
      OneOfTake(def, args, f, 0);
      CloseToken(args, f, open, 0, NX, more);
    } else {
      OneOfSkip(def, args, f, 0);
      if HasToken(args[2..], XX) {
        OneOfTake(def, args, f, 1);
        CloseToken(args, f, open, 0, XX, more);
      } else {
        OneOfSkip(def, args, f, 1);
      }
    }
  }

  lemma GetStep(args: seq<DataString>, f: seq<bool>, more: set<DataString>, n: nat)
    requires Consumed(args, f, {GET} + more, n) && forall u :: u in more ==> Apart(GET, u)
    ensures var r := ParseCommandArgument(Tokened(GetName, PureToken, true, GET), args, f, 0, |args|);
            && r.code.Success? && r.output == GetOutput(args[2..])
            && Consumed(args, r.flags, more, n + Present(r.output))
  {
    var open: set<DataString> := {GET} + more;
    OpenToken(args, f, open, n, GET);
    PureTokenFound(Tokened(GetName, PureToken, true, GET), args, f);
    if HasToken(args[2..], GET) {
      CloseToken(args, f, open, n, GET, more);
    }
  }

  /** A token that is not among the trailing arguments is not found. */
  lemma NotThere(args: seq<DataString>, f: seq<bool>, t: DataString)
    requires |f| == |args| >= 2 && f[0] && f[1] && !HasToken(args[2..], t)
    ensures FirstMatch(args, f, 0, |args|, t).None?
  {
    forall j | 2 <= j < |args| ensures !EqCi(args[j], t) { assert args[j] == args[2..][j - 2]; }
  }

  lemma SkipValueOptions(args: seq<DataString>, f: seq<bool>)
    requires |f| == |args| >= 2 && f[0] && f[1] && NoValueOptions(args[2..])
    ensures ParseCommandArgument(ExpirationDef(), args, f, 0, |args|) == ParseOneOf(ExpirationDef(), args, f, 0, |args|, 4)
  {
    var def := ExpirationDef();
    NotThere(args, f, EX);
    OneOfSkip(def, args, f, 0);
    NotThere(args, f, PX);
    OneOfSkip(def, args, f, 1);
    NotThere(args, f, EXAT);
    OneOfSkip(def, args, f, 2);
    NotThere(args, f, PXAT);
    OneOfSkip(def, args, f, 3);
  }

  lemma ExpirationStep(args: seq<DataString>, f: seq<bool>, n: nat)
    requires Consumed(args, f, {KEEPTTL}, n) && NoValueOptions(args[2..])
    ensures var r := ParseCommandArgument(ExpirationDef(), args, f, 0, |args|);
            && r.code.Success? && r.output == ExpirationOutput(args[2..])
            && Consumed(args, r.flags, {}, n + Present(r.output))
  {
    var def := ExpirationDef();
    SkipValueOptions(args, f);
    OpenToken(args, f, {KEEPTTL}, n, KEEPTTL);
    if HasToken(args[2..], KEEPTTL) {
      OneOfTake(def, args, f, 4);
      CloseToken(args, f, {KEEPTTL}, n, KEEPTTL, {});
    } else {
      OneOfSkip(def, args, f, 4);
    }
  }

  /** Key and value are the first two arguments, whatever their text. */
  lemma KeyAndValueFirst(args: seq<DataString>)
    requires |args| >= 2
    ensures var a := ParseCommandArgument(Plain(KeyName), args, NoneConsumed(|args|), 0, |args|);
            var b := ParseCommandArgument(Plain(ValueName), args, a.flags, 0, |args|);
            && a.code.Success? && a.output == Output(KeyName, Bytes(args[0]))
            && b.code.Success? && b.output == Output(ValueName, Bytes(args[1]))
            && b.flags == NoneConsumed(|args|)[0 := true][1 := true]
            && Consumed(args, b.flags, {NX, XX, GET, KEEPTTL}, 0)
  {
    var none := NoneConsumed(|args|);
    assert Peek(none, 0, |args|, 0) == Some(0);
    var one := none[0 := true];
    assert Peek(one, 0, |args|, 0) == Some(1);
    CountNone(|args|);
    CountSet(none, 0);
    CountSet(one, 1);
  }

  lemma DefsCons(defs: seq<Def>, args: seq<DataString>, f: seq<bool>)
    requires defs != [] && |f| == |args|
    ensures var r := ParseCommandArgument(defs[0], args, f, 0, |args|);
            var rest := ParseDefs(defs[1..], args, r.flags);
            ParseDefs(defs, args, f) ==
            if r.code.Success? then Parsed(rest.code, [r.output] + rest.outputs, rest.flags)
            else Parsed(r.code, [r.output], r.flags)
  {
  }

  lemma TooFew(args: seq<DataString>)
    requires |args| < 2
    ensures ParseAll(SetDefs(), args).code.TooFewArgs? && |ParseAll(SetDefs(), args).outputs| <= 2
  {
    var defs, none := SetDefs(), NoneConsumed(|args|);
    var a := ParseCommandArgument(defs[0], args, none, 0, |args|);
    if |args| == 1 {
      assert Peek(none, 0, 1, 0) == Some(0);
      assert a.flags == [true];
      assert Peek(a.flags, 0, 1, 0) == None;
    }
    var b := ParseCommandArgument(defs[1], args, a.flags, 0, |args|);
    DefsCons(defs, args, none);
    DefsCons(defs[1..], args, a.flags);
  }

  lemma SetDefsHead()
    ensures var defs := SetDefs();
            && |defs| == 5 && defs[0] == Plain(KeyName) && defs[1..][0] == Plain(ValueName) && defs[1..][1..] == defs[2..]
  {
  }

  /** The parse is the key, the value, then the three option groups. */
  lemma FiveSteps(args: seq<DataString>) returns (f: seq<bool>)
    requires |args| >= 2
    ensures Consumed(args, f, {NX, XX, GET, KEEPTTL}, 0) && f == NoneConsumed(|args|)[0 := true][1 := true]
    ensures var options := ParseDefs(SetDefs()[2..], args, f);
            && ParseDefs(SetDefs(), args, NoneConsumed(|args|)) ==
               Parsed(options.code, KeyValueOutputs(args[0], args[1]) + options.outputs, options.flags)
            && |options.outputs| >= 1
  {
    hide ParseCommandArgument, ParseDefs, Consumed, SetDefs;
    var defs, none := SetDefs(), NoneConsumed(|args|);
    KeyAndValueFirst(args);
    SetDefsHead();
    var a := ParseCommandArgument(Plain(KeyName), args, none, 0, |args|);
    var b := ParseCommandArgument(Plain(ValueName), args, a.flags, 0, |args|);
    f := b.flags;
    DefsCons(defs, args, none);
    DefsCons(defs[1..], args, a.flags);
    DefsCons(defs[2..], args, f);
    var options := ParseDefs(defs[2..], args, f);
    assert [a.output] + ([b.output] + options.outputs) == [a.output, b.output] + options.outputs;
  }

  /** The first two outputs are the first two arguments, in every outcome; fewer than two is an error. */
  lemma SetTakesFirstTwo(args: seq<DataString>)
    ensures |args| < 2 <==> ParseAll(SetDefs(), args).code.TooFewArgs? && |ParseAll(SetDefs(), args).outputs| <= 2
    ensures |args| >= 2 ==>
              |ParseAll(SetDefs(), args).outputs| >= 3 &&
              ParseAll(SetDefs(), args).outputs[..2] == KeyValueOutputs(args[0], args[1])
  {
    if |args| >= 2 {
      var f := FiveSteps(args);
    } else {
      TooFew(args);
    }
  }

  lemma SetDefsTail()
    ensures var defs := SetDefs();
            && |defs| == 5 && defs[2..][0] == Condition() && defs[2..][1..] == defs[3..]
            && defs[3..][0] == Tokened(GetName, PureToken, true, GET) && defs[3..][1..] == defs[4..]
            && defs[4..][0] == ExpirationDef() && defs[4..][1..] == []
  {
  }

  lemma NoDefs(args: seq<DataString>, f: seq<bool>)
    requires |f| == |args|
    ensures ParseDefs([], args, f) == Parsed(Success, [], f)
  {
  }

  /** The condition and GET are settled by the words present; the expiration decides the rest. */
  lemma ConditionAndGet(args: seq<DataString>, f: seq<bool>, more: set<DataString>) returns (g: seq<bool>)
    requires Consumed(args, f, {NX, XX, GET} + more, 0)
    requires forall u :: u in more ==> Apart(NX, u) && Apart(XX, u) && Apart(GET, u)
    ensures Consumed(args, g, more, Present(ConditionOutput(args[2..])) + Present(GetOutput(args[2..])))
    ensures var e := ParseCommandArgument(ExpirationDef(), args, g, 0, |args|);
            ParseDefs(SetDefs()[2..], args, f) ==
            Parsed(e.code, [ConditionOutput(args[2..]), GetOutput(args[2..]), e.output], e.flags)
  {
    var open: set<DataString> := {GET} + more;
    AllApart();
    SetDefsTail();
    assert {NX, XX} + open == {NX, XX, GET} + more;
    ConditionStep(args, f, open);
    hide ParseCommandArgument, ParseDefs, Consumed, SetDefs, Condition, ExpirationDef;
    var defs := SetDefs();
    var c := ParseCommandArgument(Condition(), args, f, 0, |args|);
    GetStep(args, c.flags, more, Present(c.output));
    g := ParseCommandArgument(Tokened(GetName, PureToken, true, GET), args, c.flags, 0, |args|).flags;
    DefsCons(defs[2..], args, f);
    DefsCons(defs[3..], args, c.flags);
    DefsCons(defs[4..], args, g);
    NoDefs(args, ParseCommandArgument(ExpirationDef(), args, g, 0, |args|).flags);
  }

  lemma OptionSteps(args: seq<DataString>, f: seq<bool>)
    requires Consumed(args, f, {NX, XX, GET, KEEPTTL}, 0) && NoValueOptions(args[2..])
    ensures var trail := args[2..];
            var r := ParseDefs(SetDefs()[2..], args, f);
            && r.code.Success?
            && r.outputs == OptionOutputs(trail)
            && Consumed(args, r.flags, {}, Accounted(trail))
  {
    AllApart();
    assert {NX, XX, GET} + {KEEPTTL} == {NX, XX, GET, KEEPTTL};
    var g := ConditionAndGet(args, f, {KEEPTTL});
    ExpirationStep(args, g, Present(ConditionOutput(args[2..])) + Present(GetOutput(args[2..])));
  }

  lemma AllConsumed(args: seq<DataString>, f: seq<bool>, n: nat)
    requires Consumed(args, f, {}, n)
    ensures Peek(f, 0, |args|, 0).None? <==> |args| == 2 + n
  {
    CountFull(f);
    PeekNone(f, 0, |args|);
  }

  /** What the definitions of SET make of an input whose trailing arguments hold no value option. */
  lemma SetDefsOutcome(args: seq<DataString>)
    requires |args| >= 2 && NoValueOptions(args[2..])
    ensures var trail := args[2..];
            var r := ParseDefs(SetDefs(), args, NoneConsumed(|args|));
            && r.code.Success?
            && r.outputs == KeyValueOutputs(args[0], args[1]) + OptionOutputs(trail)
            && (Peek(r.flags, 0, |args|, 0).None? <==> |args| == 2 + Accounted(trail))
  {
    var f := FiveSteps(args);
    OptionSteps(args, f);
    AllConsumed(args, ParseDefs(SetDefs()[2..], args, f).flags, Accounted(args[2..]));
  }

  /**
   SET in closed form. With no value-taking option among the trailing arguments, the outcome
   is decided by which option words occur and by how many trailing arguments there are.
   */
  lemma SetClosedForm(k: DataString, v: DataString, trail: seq<DataString>)
    requires NoValueOptions(trail)
    ensures var r := ParseAll(SetDefs(), [k, v] + trail);
            && r.code == (if |trail| == Accounted(trail) then Success else TooManyArgs)
            && r.outputs == KeyValueOutputs(k, v) + OptionOutputs(trail)
  {
    var args := [k, v] + trail;
    assert args[2..] == trail;
    SetDefsOutcome(args);
  }

  // ------------------------------------------------------------ permutation

  lemma TokenInMultiset(a: seq<DataString>, b: seq<DataString>, t: DataString)
    requires multiset(a) == multiset(b)
    ensures HasToken(a, t) ==> HasToken(b, t)
  {
    if HasToken(a, t) {
      var i :| 0 <= i < |a| && EqCi(a[i], t);
      assert a[i] in multiset(a);
      assert a[i] in b;
    }
  }

  lemma SameTokens(a: seq<DataString>, b: seq<DataString>)
    requires multiset(a) == multiset(b)
    ensures forall t :: HasToken(a, t) <==> HasToken(b, t)
    ensures |a| == |b|
  {
    forall t ensures HasToken(a, t) <==> HasToken(b, t) {
      TokenInMultiset(a, b, t);
      TokenInMultiset(b, a, t);
    }
    assert |a| == |multiset(a)| && |b| == |multiset(b)|;
  }

  /** With no value-taking option, the order of the trailing arguments never matters. */
  lemma OptionOrderIrrelevant(k: DataString, v: DataString, a: seq<DataString>, b: seq<DataString>)
    requires multiset(a) == multiset(b) && NoValueOptions(a)
    ensures ParseAll(SetDefs(), [k, v] + a).code == ParseAll(SetDefs(), [k, v] + b).code
    ensures ParseAll(SetDefs(), [k, v] + a).outputs == ParseAll(SetDefs(), [k, v] + b).outputs
  {
    hide ParseAll, SetDefs, HasToken;
    SameTokens(a, b);
    assert Accounted(a) == Accounted(b) && OptionOutputs(a) == OptionOutputs(b);
    SetClosedForm(k, v, a);
    SetClosedForm(k, v, b);
  }
}
