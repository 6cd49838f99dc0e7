/**
 From SET's arguments to the operation the tank is asked to carry out and to the reply
 (`get_expire_time` and `process_set`, src/command/handlers/set.c), in terms of the words a
 client sends.
 */
module SetRequest {
  import opened Prelude
  import opened CommandArgs
  import opened SetCommand
  import opened EagerExpiry
  import Numbers
  import Promises
  import Resp
  import Tank

  /** `get_expire_time`'s timestamp for an option of that name, in mathematical integers. */
  function Deadline(name: Name, n: int, now: int): int {
    match name
    case SecondsName => now + n * 1000
    case MillisecondsName => now + n
    case UnixSecondsName => n * 1000
    case _ => n
  }

  /** `get_expire_time`; the source computes in int64 and does not guard against overflow. */
  function GetExpireTime(o: Output, now: Int64): Tank.Expiration
    requires o.value.Number? ==> FitsInt64(Deadline(o.name, o.value.n, now))
  {
    match o.value
    case Number(n) => Tank.UnixTs(Deadline(o.name, n, now))
    case Flag => Tank.KeepOld
    case _ => Tank.NoExpire
  }

  /** What `process_set` expects of its arguments; the deadline is computed without an overflow test. */
  predicate Buildable(outputs: seq<Output>, now: Int64) {
    && |outputs| == 5 && outputs[0].value.Bytes? && outputs[1].value.Bytes?
    && (outputs[4].value.Number? ==> FitsInt64(Deadline(outputs[4].name, outputs[4].value.n, now)))
  }

  /** The operation `process_set` sends to the tank. */
  function BuildSet(outputs: seq<Output>, now: Int64): Tank.Op
    requires Buildable(outputs, now)
  {
    var on := !outputs[2].value.Absent?;
    Tank.Set(outputs[0].value.bytes, outputs[1].value.bytes, on && outputs[2].name == NxName, on && outputs[2].name == XxName,
             !outputs[3].value.Absent?, GetExpireTime(outputs[4], now))
  }

  /** The value `process_set` replies with. */
  function SetReply(get: bool, a: Tank.Answer): Resp.Value
    requires a.reply.Previous?
  {
    if get then
      if a.reply.previous.Some? then Resp.Bulk(a.reply.previous.value) else Resp.Null
    else if a.mutation.Some? then Resp.Simple([79, 75])
    else Resp.Null
  }

  // --------------------------------------------------- options without a value

  /** How many words NX or XX, GET and KEEPTTL settle. */
  function ConditionWords(o: seq<DataString>): nat { if HasToken(o, [78, 88]) || HasToken(o, [88, 88]) then 1 else 0 }

  function GetWords(o: seq<DataString>): nat { if HasToken(o, [71, 69, 84]) then 1 else 0 }

  function KeepWords(o: seq<DataString>): nat { if HasToken(o, [75, 69, 69, 80, 84, 84, 76]) then 1 else 0 }

  /**
   SET without EX, PX, EXAT or PXAT: accepted exactly if the words present among "NX" or "XX",
   "GET" and "KEEPTTL" are all there is, and then the tank is asked for those conditions, the
   deadline the key had with KEEPTTL, and none without.
   */
  lemma SetWithoutDeadline(k: DataString, v: DataString, trail: seq<DataString>, now: Int64)
    requires NoValueOptions(trail)
    ensures var r := ParseAll(SetDefs(), [k, v] + trail);
            && (r.code.Success? <==> |trail| == ConditionWords(trail) + GetWords(trail) + KeepWords(trail))
            && (!r.code.Success? ==> r.code.TooManyArgs?)
            && Buildable(r.outputs, now)
            && BuildSet(r.outputs, now) ==
               Tank.Set(k, v, HasToken(trail, [78, 88]), !HasToken(trail, [78, 88]) && HasToken(trail, [88, 88]), HasToken(trail, [71, 69, 84]),
                        if HasToken(trail, [75, 69, 69, 80, 84, 84, 76]) then Tank.KeepOld else Tank.NoExpire)
  {
    hide ParseAll, SetDefs, HasToken;
    SetClosedForm(k, v, trail);
  }

  // ---------------------------------------------------- options with a value

  predicate IsOptionWord(x: DataString) {
    || EqCi(x, NX) || EqCi(x, XX) || EqCi(x, GET) || EqCi(x, KEEPTTL)
    || EqCi(x, EX) || EqCi(x, PX) || EqCi(x, EXAT) || EqCi(x, PXAT)
  }

  function ValueDef(i: nat): (d: Def)
    requires i < 4
    ensures d.token.Some? && d.kind in {Int, UnixTime} && !d.optional
  {
    ExpirationDef().inner[i]
  }

  function Word(i: nat): DataString
    requires i < 4
  {
    ValueDef(i).token.value
  }

  /** What a value option makes of its value: EX and PX want an integer, EXAT and PXAT take what strtoll reads. */
  function ReadValue(i: nat, x: DataString): Option<Int64>
    requires i < 4
  {
    if ValueDef(i).kind.Int? then Numbers.ParseInt64(x) else Some(Numbers.Strtoll(Numbers.ScanNumber(x, 0)))
  }

  /** Printed numbers are never option words. */
  lemma NumbersAreNotWords(n: Int64)
    ensures |Numbers.Print(n)| <= 20 && !IsOptionWord(Numbers.Print(n))
  {
    Numbers.PrintLength(n);
    assert NX[0] == 78 && XX[0] == 88 && GET[0] == 71 && KEEPTTL[0] == 75;
    assert EX[0] == 69 && PX[0] == 80 && EXAT[0] == 69 && PXAT[0] == 80;
  }

  lemma PrintedValue(i: nat, n: Int64)
    requires i < 4 && |Numbers.Print(n)| <= 20
    ensures ReadValue(i, Numbers.Print(n)) == Some(n)
  {
    Numbers.ParsePrint(n);
    Numbers.ScanPrinted(Numbers.Print(n), 0, n);
  }

  lemma WordsApart(i: nat)
    requires i < 4
    ensures Apart(NX, Word(i)) && Apart(XX, Word(i)) && Apart(GET, Word(i))
    ensures forall j :: 0 <= j < 4 && j != i ==> Apart(Word(i), Word(j))
  {
    assert EX[0] == 69 && PX[0] == 80 && NX[0] == 78 && XX[0] == 88;
    assert EXAT[0] == 69 && PXAT[0] == 80;
  }

  /** SET's trailing arguments: an option word with its value somewhere among others. */
  function Trail(pre: seq<DataString>, opt: DataString, x: DataString, post: seq<DataString>): seq<DataString> {
    pre + [opt, x] + post
  }

  lemma TokenInTrail(pre: seq<DataString>, opt: DataString, x: DataString, post: seq<DataString>, t: DataString)
    requires !EqCi(opt, t) && !EqCi(x, t)
    ensures HasToken(Trail(pre, opt, x, post), t) <==> HasToken(pre + post, t)
  {
    var trail, o := Trail(pre, opt, x, post), pre + post;
    if HasToken(trail, t) {
      var i :| 0 <= i < |trail| && EqCi(trail[i], t);
      assert i < |pre| || i >= |pre| + 2;
      assert trail[i] == if i < |pre| then o[i] else o[i - 2];
    }
    if HasToken(o, t) {
      var i :| 0 <= i < |o| && EqCi(o[i], t);
      assert o[i] == if i < |pre| then trail[i] else trail[i + 2];
    }
  }

  /** The option word is the only one of its kind: it is found at j, and its value right behind it. */
  ghost predicate OnlyAt(args: seq<DataString>, g: seq<bool>, j: nat, w: DataString) {
    && 2 <= j < |args| == |g| && !g[j] && EqCi(args[j], w)
    && forall x :: 0 <= x < |args| && x != j && !g[x] ==> !EqCi(args[x], w)
  }

  lemma ValueWindow(args: seq<DataString>, g: seq<bool>, j: nat, w: DataString)
    requires OnlyAt(args, g, j, w) && j + 1 < |args| && !g[j + 1]
    ensures FirstMatch(args, g, 0, |args|, w) == Some(j)
    ensures var (s, e) := Shrunk(g[j := true], j, |args|); s == j + 1 < e && Peek(g[j := true], s, e, 0) == Some(j + 1)
  {
    var h := g[j := true];
    assert RunEnd(h, j + 1) == RunEnd(h, j + 2);
  }

  lemma ValueTaken(args: seq<DataString>, g: seq<bool>, i: nat, j: nat)
    requires i < 4 && OnlyAt(args, g, j, Word(i)) && j + 1 < |args| && !g[j + 1]
    ensures var x := ReadValue(i, args[j + 1]);
            ParseCommandArgument(ValueDef(i), args, g, 0, |args|) ==
            Result(if x.Some? then Success else TypeMismatch,
                   Output(ValueDef(i).name, if x.Some? then Number(x.value) else Absent), g[j := true][j + 1 := true])
  {
    ValueWindow(args, g, j, Word(i));
  }

  lemma NoValueLeft(args: seq<DataString>, g: seq<bool>, i: nat, j: nat)
    requires i < 4 && OnlyAt(args, g, j, Word(i)) && j + 1 == |args|
    ensures ParseCommandArgument(ValueDef(i), args, g, 0, |args|) ==
            Result(TooFewArgs, Output(ValueDef(i).name, Absent), g[j := true])
  {
    assert FirstMatch(args, g, 0, |args|, Word(i)) == Some(j);
  }

  /** The words before this one in the table are not there, so the table's search comes to it. */
  lemma {:induction false} SkipTo(args: seq<DataString>, g: seq<bool>, j: nat, i: nat)
    requires j <= i < 4 && |g| == |args| >= 2 && g[0] && g[1]
    requires forall x :: 0 <= x < i ==> !HasToken(args[2..], Word(x))
    requires !ParseCommandArgument(ValueDef(i), args, g, 0, |args|).code.TokenMismatch?
    ensures ParseOneOf(ExpirationDef(), args, g, 0, |args|, j) == ParseCommandArgument(ValueDef(i), args, g, 0, |args|)
    decreases i - j
  {
    if j < i {
      NotThere(args, g, Word(j));
      OneOfSkip(ExpirationDef(), args, g, j);
      SkipTo(args, g, j + 1, i);
    }
  }

  /** Nothing but key and value consumed: any text is open. */
  lemma AnythingOpen(args: seq<DataString>, f: seq<bool>, open: set<DataString>)
    requires |args| >= 2 && f == NoneConsumed(|args|)[0 := true][1 := true] && Consumed(args, f, {NX, XX, GET, KEEPTTL}, 0)
    ensures Consumed(args, f, open, 0)
  {
  }

  /** What the trailing arguments are as far as the table can see. */
  ghost predicate Lone(args: seq<DataString>, i: nat, j: nat) {
    && i < 4 && 2 <= j < |args| && EqCi(args[j], Word(i))
    && (forall x :: 2 <= x < |args| && x != j ==> !EqCi(args[x], Word(i)))
    && (forall x :: 0 <= x < i ==> !HasToken(args[2..], Word(x)))
  }

  lemma LoneOnly(args: seq<DataString>, g: seq<bool>, i: nat, j: nat, open: set<DataString>, n: nat)
    requires Lone(args, i, j) && Consumed(args, g, open, n) && Word(i) in open
    ensures OnlyAt(args, g, j, Word(i))
  {
  }

  /** Everything up to the expiration: the option word and its value are still to be consumed. */
  lemma BeforeExpiration(args: seq<DataString>, i: nat, j: nat, x: DataString) returns (f: seq<bool>, g: seq<bool>)
    requires Lone(args, i, j) && !IsOptionWord(x)
    ensures Consumed(args, g, {Word(i), x}, Present(ConditionOutput(args[2..])) + Present(GetOutput(args[2..])))
    ensures OnlyAt(args, g, j, Word(i))
    ensures var e := ParseCommandArgument(ExpirationDef(), args, g, 0, |args|);
            ParseDefs(SetDefs(), args, NoneConsumed(|args|)) ==
            Parsed(e.code, KeyValueOutputs(args[0], args[1]) + [ConditionOutput(args[2..]), GetOutput(args[2..]), e.output], e.flags)
  {
    var more: set<DataString> := {Word(i), x};
    WordsApart(i);
    assert Apart(NX, x) && Apart(XX, x) && Apart(GET, x);
    f := FiveSteps(args);
    AnythingOpen(args, f, {NX, XX, GET} + more);
    hide ParseDefs, ParseCommandArgument, SetDefs, ExpirationDef, Consumed, Apart, IsOptionWord, ConditionOutput, GetOutput, HasToken, Word, OnlyAt;
    g := ConditionAndGet(args, f, more);
    LoneOnly(args, g, i, j, more, Present(ConditionOutput(args[2..])) + Present(GetOutput(args[2..])));
  }

  lemma ConsumedTwoMore(args: seq<DataString>, g: seq<bool>, open: set<DataString>, n: nat, j: nat)
    requires Consumed(args, g, open, n) && 2 <= j && j + 1 < |args| && !g[j] && !g[j + 1]
    ensures Consumed(args, g[j := true][j + 1 := true], {}, n + 2)
  {
    CountSet(g, j);
    CountSet(g[j := true], j + 1);
  }

  /** One value option among the trailing arguments, its value behind it. */
  lemma ValueOutcome(args: seq<DataString>, i: nat, j: nat)
    requires Lone(args, i, j) && j + 1 < |args| && !IsOptionWord(args[j + 1])
    ensures var r, x := ParseAll(SetDefs(), args), ReadValue(i, args[j + 1]);
            var m := Present(ConditionOutput(args[2..])) + Present(GetOutput(args[2..]));
            && r.code == (if x.None? then TypeMismatch else if |args| == 4 + m then Success else TooManyArgs)
            && r.outputs == KeyValueOutputs(args[0], args[1]) +
                 [ConditionOutput(args[2..]), GetOutput(args[2..]), Output(ValueDef(i).name, if x.Some? then Number(x.value) else Absent)]
  {
    var m := Present(ConditionOutput(args[2..])) + Present(GetOutput(args[2..]));
    var f, g := BeforeExpiration(args, i, j, args[j + 1]);
    assert !g[j + 1];
    ValueTaken(args, g, i, j);
    SkipTo(args, g, 0, i);
    ConsumedTwoMore(args, g, {Word(i), args[j + 1]}, m, j);
    AllConsumed(args, g[j := true][j + 1 := true], m + 2);
    hide ParseDefs, SetDefs, Consumed, ConditionOutput, GetOutput, HasToken, Word, OnlyAt, Lone, ReadValue;
  }

  /** An option word with nothing behind it. */
  lemma NothingBehind(args: seq<DataString>, i: nat)
    requires |args| >= 3 && Lone(args, i, |args| - 1)
    ensures ParseAll(SetDefs(), args).code.TooFewArgs?
  {
    var j := |args| - 1;
    var f, g := BeforeExpiration(args, i, j, []);
    NoValueLeft(args, g, i, j);
    SkipTo(args, g, 0, i);
    hide ParseDefs, SetDefs, Consumed, ConditionOutput, GetOutput, HasToken, Word, OnlyAt, Lone;
  }

  // ------------------------------------------------------- in a client's words

  /** The text of an integer. */
  function Text(n: Int64): DataString {
    Numbers.PrintLength(n);
    Numbers.Print(n)
  }

  /** The absolute deadline, in milliseconds, that "EX" n, "PX" n, "EXAT" n or "PXAT" n asks for. */
  predicate Asks(opt: DataString, n: int, now: int, at: int) {
    || (EqCi(opt, [69, 88]) && at == now + 1000 * n)
    || (EqCi(opt, [80, 88]) && at == now + n)
    || (EqCi(opt, [69, 88, 65, 84]) && at == 1000 * n)
    || (EqCi(opt, [80, 88, 65, 84]) && at == n)
  }

  lemma AsksDeadline(opt: DataString, n: int, now: int, at: int) returns (i: nat)
    requires Asks(opt, n, now, at)
    ensures i < 4 && EqCi(opt, Word(i)) && at == Deadline(ValueDef(i).name, n, now)
  {
    if EqCi(opt, EX) && at == now + 1000 * n { i := 0; }
    else if EqCi(opt, PX) && at == now + n { i := 1; }
    else if EqCi(opt, EXAT) && at == 1000 * n { i := 2; }
    else { i := 3; }
  }

  lemma LoneInTrail(k: DataString, v: DataString, pre: seq<DataString>, opt: DataString, x: DataString, post: seq<DataString>, i: nat)
    requires i < 4 && EqCi(opt, Word(i)) && !IsOptionWord(x) && NoValueOptions(pre + post)
    ensures var args := [k, v] + Trail(pre, opt, x, post);
            && Lone(args, i, 2 + |pre|) && args[3 + |pre|] == x && args[2..] == Trail(pre, opt, x, post)
  {
    var trail := Trail(pre, opt, x, post);
    var args, j := [k, v] + trail, 2 + |pre|;
    WordsApart(i);
    assert args[2..] == trail;
    forall y | 0 <= y < i ensures !HasToken(trail, Word(y)) {
      ApartTokens(opt, Word(i), Word(y));
      TokenInTrail(pre, opt, x, post, Word(y));
    }
    forall y | 2 <= y < |args| && y != j ensures !EqCi(args[y], Word(i)) {
      if y != j + 1 {
        assert args[y] == (pre + post)[if y < j then y - 2 else y - 4];
      }
    }
  }

  /** Apart from the option and its value, the trail has the words of the rest. */
  lemma OtherOptions(pre: seq<DataString>, opt: DataString, x: DataString, post: seq<DataString>, i: nat)
    requires i < 4 && EqCi(opt, Word(i)) && !IsOptionWord(x)
    ensures ConditionOutput(Trail(pre, opt, x, post)) == ConditionOutput(pre + post)
    ensures GetOutput(Trail(pre, opt, x, post)) == GetOutput(pre + post)
  {
    WordsApart(i);
    TokenInTrail(pre, opt, x, post, NX);
    TokenInTrail(pre, opt, x, post, XX);
    TokenInTrail(pre, opt, x, post, GET);
  }

  /**
   SET with one option that takes a value, wherever it stands among the others, the value being
   any text that is no option word: refused as no integer exactly if the option is EX or PX and
   the text is not an int64; otherwise accepted exactly if "NX" or "XX" and "GET" are all else
   there is, and then with the number read.
   */
  lemma ValueOption(k: DataString, v: DataString, pre: seq<DataString>, opt: DataString, x: DataString, post: seq<DataString>, i: nat)
    requires i < 4 && EqCi(opt, Word(i)) && !IsOptionWord(x) && NoValueOptions(pre + post)
    ensures var r, o, n := ParseAll(SetDefs(), [k, v] + Trail(pre, opt, x, post)), pre + post, ReadValue(i, x);
            && r.code == (if n.None? then TypeMismatch else if |o| == ConditionWords(o) + GetWords(o) then Success else TooManyArgs)
            && r.outputs == KeyValueOutputs(k, v) +
                 [ConditionOutput(o), GetOutput(o), Output(ValueDef(i).name, if n.Some? then Number(n.value) else Absent)]
  {
    var args := [k, v] + Trail(pre, opt, x, post);
    LoneInTrail(k, v, pre, opt, x, post, i);
    OtherOptions(pre, opt, x, post, i);
    hide ParseAll, SetDefs, HasToken, ExpirationDef, ReadValue, Lone, NoValueOptions, IsOptionWord;
    ValueOutcome(args, i, 2 + |pre|);
  }

  /**
   SET key value ... EX, PX, EXAT or PXAT n ..., in any letter case and any order of the options:
   accepted exactly if "NX" or "XX" and "GET" are all else there is, and then the tank is asked
   for exactly that key, value, condition and deadline.
   */
  lemma ExpiryOption(k: DataString, v: DataString, pre: seq<DataString>, opt: DataString, n: Int64, post: seq<DataString>, now: Int64, at: Int64)
    requires Asks(opt, n, now, at) && NoValueOptions(pre + post)
    ensures var r, o := ParseAll(SetDefs(), [k, v] + Trail(pre, opt, Text(n), post)), pre + post;
            && r.code == (if |o| == ConditionWords(o) + GetWords(o) then Success else TooManyArgs)
            && Buildable(r.outputs, now)
            && BuildSet(r.outputs, now) ==
               Tank.Set(k, v, HasToken(o, [78, 88]), !HasToken(o, [78, 88]) && HasToken(o, [88, 88]), HasToken(o, [71, 69, 84]), Tank.UnixTs(at))
  {
    var i := AsksDeadline(opt, n, now, at);
    NumbersAreNotWords(n);
    PrintedValue(i, n);
    hide ParseAll, SetDefs, HasToken, ReadValue, NoValueOptions, IsOptionWord, Asks, EqCi, Trail, Numbers.Print;
    ValueOption(k, v, pre, opt, Text(n), post, i);
  }

  /** EX and PX refuse a value exactly if it is not an integer. */
  lemma RelativeWantsInteger(k: DataString, v: DataString, pre: seq<DataString>, opt: DataString, x: DataString, post: seq<DataString>)
    requires (EqCi(opt, [69, 88]) || EqCi(opt, [80, 88])) && !IsOptionWord(x) && NoValueOptions(pre + post)
    ensures ParseAll(SetDefs(), [k, v] + Trail(pre, opt, x, post)).code.TypeMismatch? <==> Numbers.ParseInt64(x).None?
  {
    hide ParseAll, SetDefs, HasToken, NoValueOptions, IsOptionWord, Trail, ConditionOutput, GetOutput, Numbers.ParseInt64;
    ValueOption(k, v, pre, opt, x, post, if EqCi(opt, EX) then 0 else 1);
  }

  /** EXAT and PXAT take any text, for the number strtoll reads from its front. */
  lemma AbsoluteTakesAnyText(k: DataString, v: DataString, pre: seq<DataString>, opt: DataString, x: DataString, post: seq<DataString>)
    requires (EqCi(opt, [69, 88, 65, 84]) || EqCi(opt, [80, 88, 65, 84])) && !IsOptionWord(x) && NoValueOptions(pre + post)
    ensures var r := ParseAll(SetDefs(), [k, v] + Trail(pre, opt, x, post));
            !r.code.TypeMismatch? && |r.outputs| == 5 && r.outputs[4].value == Number(Numbers.Strtoll(Numbers.ScanNumber(x, 0)))
  {
    hide ParseAll, SetDefs, HasToken, NoValueOptions, IsOptionWord, Trail, ConditionOutput, GetOutput, Numbers.ScanNumber;
    ValueOption(k, v, pre, opt, x, post, if EqCi(opt, EXAT) then 2 else 3);
  }

  /** EX, PX, EXAT or PXAT at the very end has no value. */
  lemma MissingValue(k: DataString, v: DataString, pre: seq<DataString>, opt: DataString)
    requires EqCi(opt, [69, 88]) || EqCi(opt, [80, 88]) || EqCi(opt, [69, 88, 65, 84]) || EqCi(opt, [80, 88, 65, 84])
    requires NoValueOptions(pre)
    ensures ParseAll(SetDefs(), [k, v] + (pre + [opt])).code.TooFewArgs?
  {
    hide ParseAll, SetDefs;
    var i := if EqCi(opt, EX) then 0 else if EqCi(opt, PX) then 1 else if EqCi(opt, EXAT) then 2 else 3;
    var args := [k, v] + (pre + [opt]);
    assert args[2..] == pre + [opt];
    WordsApart(i);
    forall y | 0 <= y < i ensures !HasToken(args[2..], Word(y)) {
      ApartTokens(opt, Word(i), Word(y));
      assert forall x :: 0 <= x < |pre| ==> (pre + [opt])[x] == pre[x];
    }
    assert forall x :: 2 <= x < |args| - 1 ==> args[x] == pre[x - 2];
    NothingBehind(args, i);
  }

  /** "abc" is no integer to parse_int64 and 0 to strtoll: EX abc is refused, EXAT abc means the epoch. */
  lemma Abc()
    ensures var x: DataString := [97, 98, 99];
            !IsOptionWord(x) && Numbers.ParseInt64(x) == None && Numbers.Strtoll(Numbers.ScanNumber(x, 0)) == 0
  {
    var x: DataString := [97, 98, 99];
    assert Lower(x[0]) == 97 && Lower(GET[0]) == 103;
    assert Numbers.ScanNumber(x, 0).end == 0;
  }

  // ------------------------------------------------------------- end to end

  /**
   What a client of SET reads in the reply: without GET, "OK" exactly if the value was stored; with
   GET, the value the key had, whether or not the condition let the new one through.
   */
  lemma ReplyTells(s: Tank.Store, op: Tank.Op, c: Tank.Clock)
    requires op.Set?
    ensures var d, seen := Tank.Digest(s, op, c), Purge(s, c.now);
            var refused := (op.nx && op.key in seen) || (op.xx && op.key !in seen);
            && d.reply.Previous?
            && SetReply(op.get, Tank.Answer(d.reply, d.mutation)) ==
               if op.get then if op.key in seen then Resp.Bulk(seen[op.key].value) else Resp.Null
               else if refused then Resp.Null else Resp.Simple([79, 75])
  {
    Promises.SetPromise(s, op, c);
  }

  /** The operation is answered with "OK", and GET returns the value before the deadline and nothing from then on. */
  predicate StoredUntil(s: Tank.Store, op: Tank.Op, v: DataString, at: Int64, c: Tank.Clock, later: Tank.Clock)
    requires op.Set?
  {
    var d := Tank.Digest(s, op, c);
    && d.reply.Previous? && SetReply(op.get, Tank.Answer(d.reply, d.mutation)) == Resp.Simple([79, 75])
    && Tank.Digest(d.store, Tank.Get(op.key), later).reply == Tank.Value(if later.now < at then Some(v) else None)
  }

  lemma PlainSetStored(s: Tank.Store, k: DataString, v: DataString, at: Int64, c: Tank.Clock, later: Tank.Clock)
    requires at != -1
    ensures StoredUntil(s, Tank.Set(k, v, false, false, false, Tank.UnixTs(at)), v, at, c, later)
  {
  }

  lemma NoOptions()
    ensures NoValueOptions([]) && !HasToken([], [78, 88]) && !HasToken([], [88, 88]) && !HasToken([], [71, 69, 84])
  {
  }

  /**
   SET key value EX, PX, EXAT or PXAT n on any store answers "OK", and GET returns the value before
   the deadline and nothing from the deadline on: EX 10 at clock 1000 lives through 10999 and is
   gone at 11000.
   */
  lemma SetThenGet(s: Tank.Store, args: seq<DataString>, n: Int64, now: Int64, at: Int64, c: Tank.Clock, later: Tank.Clock)
    requires |args| == 4 && args[3] == Text(n) && Asks(args[2], n, now, at) && at != -1
    ensures var r := ParseAll(SetDefs(), args);
            && r.code.Success? && Buildable(r.outputs, now)
            && var op := BuildSet(r.outputs, now); op.Set? && op.key == args[0] && StoredUntil(s, op, args[1], at, c, later)
  {
    hide ParseAll, SetDefs, HasToken, NoValueOptions, Asks, Text, Buildable, BuildSet, StoredUntil;
    var none: seq<DataString> := [];
    NoOptions();
    assert none + none == none;
    assert args == [args[0], args[1]] + Trail(none, args[2], Text(n), none);
    ExpiryOption(args[0], args[1], none, args[2], n, none, now, at);
    PlainSetStored(s, args[0], args[1], at, c, later);
  }
}
