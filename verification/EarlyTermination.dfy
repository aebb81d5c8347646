// `terminateWhen`: a switch ends a reaction or leaves a loop as soon as a
// statement turns it on. The emitted code tests it only after statements that
// report writing it. Reports look at a statement's own target, not at the
// expressions nested in it: when that is right is stated exactly.
module EarlyTermination {
  import opened Wrappers

  type Store = map<string, int>

  function Get(st: Store, name: string): int {
    if name in st then st[name] else 0
  }

  // Expressions and statements alike. A site tells apart the places of a
  // statement whose result depends on what the program means there.
  datatype Expr =
    | Read(site: nat) // variables, literals, properties
    | Combine(site: nat, operands: seq<Expr>)
    | Assign(name: string, value: Expr)
    | Reset(condition: Expr, body: seq<Expr>)
    // A downsampled or upsampled block: how often its body runs depends on a
    // phase it keeps, if it keeps one.
    | RateBlock(site: nat, phase: Option<string>, body: seq<Expr>)
    | BufferPush(site: nat, buffer: string, hasTrigger: bool, value: Expr)
    | FrameCopy(site: nat, destination: string)
    // Property outputs: variables of the caller that the call writes through
    // the properties it is given.
    | Call(site: nat, outs: seq<string>, externals: seq<string>, propertyOuts: seq<string>, inputs: seq<Expr>)
    | Command(site: nat, outs: seq<string>, inputs: seq<Expr>)

  // What a site computes, from the values of its operands and the store: the
  // value written to a variable, or under the name "" its own value.
  type Meaning = (nat, seq<int>, Store, string) -> int

  datatype Stmt = Stmt(expr: Expr, meaning: Meaning)

  // ----------------------------------------------------------------- meaning

  function Elements(names: seq<string>): set<string> {
    set name | name in names
  }

  // What a push stores.
  function BufferNames(buffer: string, hasTrigger: bool): seq<string> {
    [buffer, buffer + "_ready", buffer + "_index", buffer + "_count", buffer + "_since"]
    + if hasTrigger then [buffer + "_flush"] else []
  }

  // Only the named variables take new values.
  function Update(m: Meaning, site: nat, args: seq<int>, st: Store, names: seq<string>): (after: Store)
    ensures after.Keys == st.Keys + Elements(names)
    ensures forall name :: name in after ==> after[name] == if name in names then m(site, args, st, name) else st[name]
  {
    if names == [] then st else Update(m, site, args, st, names[1..])[names[0] := m(site, args, st, names[0])]
  }

  // Statements that produce no value do not feed an assignment or a push.
  predicate HasValue(e: Expr) {
    match e
    case Assign(_, value) => HasValue(value)
    case BufferPush(_, _, _, value) => HasValue(value)
    case Reset(_, _) => false
    case RateBlock(_, _, _) => false
    case FrameCopy(_, _) => false
    case _ => true
  }

  datatype Result = Result(value: int, st: Store)

  function Exec(m: Meaning, e: Expr, st: Store): Result
    decreases e, 1, 0
  {
    match e
    case Read(site) => Result(m(site, [], st, ""), st)
    case Combine(site, operands) =>
      var (args, st') := ExecArgs(m, operands, st);
      Result(m(site, args, st', ""), st')
    case Assign(name, value) =>
      var r := Exec(m, value, st);
      if HasValue(value) then r.(st := r.st[name := r.value]) else r
    case Reset(condition, body) =>
      var r := Exec(m, condition, st);
      Result(0, if HasValue(condition) && r.value != 0 then ExecAll(m, body, r.st) else r.st)
    case RateBlock(site, phase, body) =>
      var p := if phase.Some? then Get(st, phase.value) else 0;
      var runs := m(site, [p], map[], "");
      var after := ExecTimes(m, body, if runs < 0 then 0 else runs, st);
      Result(0, if phase.Some? then after[phase.value := m(site, [p], map[], phase.value)] else after)
    case BufferPush(site, buffer, hasTrigger, value) =>
      var r := Exec(m, value, st);
      if HasValue(value) then r.(st := Update(m, site, [r.value], r.st, BufferNames(buffer, hasTrigger))) else r
    case FrameCopy(site, destination) => Result(0, Update(m, site, [], st, [destination]))
    case Call(site, outs, externals, propertyOuts, inputs) =>
      var (args, st') := ExecArgs(m, inputs, st);
      Result(m(site, args, st', ""), Update(m, site, args, st', outs + externals + propertyOuts))
    case Command(site, outs, inputs) =>
      var (args, st') := ExecArgs(m, inputs, st);
      Result(m(site, args, st', ""), Update(m, site, args, st', outs))
  }

  function ExecArgs(m: Meaning, es: seq<Expr>, st: Store): (seq<int>, Store)
    decreases es, 0, 0
  {
    if es == [] then ([], st)
    else
      var r := Exec(m, es[0], st);
      var (args, st') := ExecArgs(m, es[1..], r.st);
      ([r.value] + args, st')
  }

  function ExecAll(m: Meaning, es: seq<Expr>, st: Store): Store
    decreases es, 0, 0
  {
    if es == [] then st else ExecAll(m, es[1..], Exec(m, es[0], st).st)
  }

  function ExecTimes(m: Meaning, es: seq<Expr>, n: nat, st: Store): Store
    decreases es, 1, n
  {
    if n == 0 then st else ExecTimes(m, es, n - 1, ExecAll(m, es, st))
  }

  // Operands are evaluated in order, each where the ones before it left off.
  lemma {:induction false} ArgsInTurn(m: Meaning, es: seq<Expr>, st: Store, i: nat)
    requires i < |es|
    ensures |ExecArgs(m, es, st).0| == |es|
    ensures ExecArgs(m, es, st).0[i] == Exec(m, es[i], ExecArgs(m, es[..i], st).1).value
    decreases |es|
  {
    var r := Exec(m, es[0], st);
    if i > 0 {
      ArgsInTurn(m, es[1..], r.st, i - 1);
      assert es[..i][1..] == es[1..][..i - 1];
    } else if |es| > 1 {
      ArgsInTurn(m, es[1..], r.st, 0);
    }
  }

  // A body repeated is the body again and again.
  lemma {:induction false} TimesAdd(m: Meaning, es: seq<Expr>, a: nat, b: nat, st: Store)
    ensures ExecTimes(m, es, 1, st) == ExecAll(m, es, st)
    ensures ExecTimes(m, es, a + b, st) == ExecTimes(m, es, b, ExecTimes(m, es, a, st))
    decreases a
  {
    if a > 0 {
      TimesAdd(m, es, a - 1, b, ExecAll(m, es, st));
    }
    assert ExecTimes(m, es, 0, ExecAll(m, es, st)) == ExecAll(m, es, st);
  }

  // ------------------------------------------------- what statements report

  // The statement says it may write the variable.
  predicate WritesTo(e: Expr, name: string)
    decreases e, 1
  {
    match e
    case Read(_) => false
    case Combine(_, _) => false
    case Assign(n, _) => n == name
    case Reset(_, body) => AnyWritesTo(body, name)
    case RateBlock(_, _, body) => AnyWritesTo(body, name)
    case BufferPush(_, buffer, hasTrigger, _) =>
      || name == buffer || name == buffer + "_ready" || name == buffer + "_index" || name == buffer + "_count"
      || name == buffer + "_since" || (hasTrigger && name == buffer + "_flush")
    case FrameCopy(_, destination) => name == destination
    case Call(_, outs, externals, _, _) => name in outs || name in externals
    case Command(_, outs, _) => name in outs
  }

  predicate AnyWritesTo(es: seq<Expr>, name: string)
    decreases es, 0
  {
    es != [] && (WritesTo(es[0], name) || AnyWritesTo(es[1..], name))
  }

  // Everything it may write, nested expressions and phases included.
  function MayWrite(e: Expr): set<string>
    decreases e, 1
  {
    match e
    case Read(_) => {}
    case Combine(_, operands) => MayWriteAll(operands)
    case Assign(name, value) => MayWrite(value) + if HasValue(value) then {name} else {}
    case Reset(condition, body) => MayWrite(condition) + if HasValue(condition) then MayWriteAll(body) else {}
    case RateBlock(_, phase, body) => MayWriteAll(body) + if phase.Some? then {phase.value} else {}
    case BufferPush(_, buffer, hasTrigger, value) =>
      MayWrite(value) + if HasValue(value) then Elements(BufferNames(buffer, hasTrigger)) else {}
    case FrameCopy(_, destination) => {destination}
    case Call(_, outs, externals, propertyOuts, inputs) =>
      MayWriteAll(inputs) + Elements(outs + externals + propertyOuts)
    case Command(_, outs, inputs) => MayWriteAll(inputs) + Elements(outs)
  }

  function MayWriteAll(es: seq<Expr>): set<string>
    decreases es, 0
  {
    if es == [] then {} else MayWrite(es[0]) + MayWriteAll(es[1..])
  }

  // A write of the variable that the statement does not report.
  predicate Hides(e: Expr, name: string) {
    name in MayWrite(e) && !WritesTo(e, name)
  }

  predicate SameAt(a: Store, b: Store, name: string) {
    if name in a then name in b && b[name] == a[name] else name !in b
  }

  // Whatever a statement means, it changes nothing outside what it may write.
  lemma {:induction false} OutsideIsUnchanged(m: Meaning, e: Expr, name: string, st: Store)
    requires name !in MayWrite(e)
    ensures SameAt(st, Exec(m, e, st).st, name)
    decreases e, 1, 0
  {
    match e
    case Read(_) =>
    case Combine(_, operands) => OutsideArgs(m, operands, name, st);
    case Assign(_, value) => OutsideIsUnchanged(m, value, name, st);
    case Reset(condition, body) =>
      OutsideIsUnchanged(m, condition, name, st);
      var r := Exec(m, condition, st);
      if HasValue(condition) && r.value != 0 {
        OutsideAll(m, body, name, r.st);
      }
    case RateBlock(site, phase, body) =>
      var runs := m(site, [if phase.Some? then Get(st, phase.value) else 0], map[], "");
      OutsideTimes(m, body, if runs < 0 then 0 else runs, name, st);
    case BufferPush(_, _, _, value) => OutsideIsUnchanged(m, value, name, st);
    case FrameCopy(_, _) =>
    case Call(_, _, _, _, inputs) => OutsideArgs(m, inputs, name, st);
    case Command(_, _, inputs) => OutsideArgs(m, inputs, name, st);
  }

  lemma {:induction false} OutsideArgs(m: Meaning, es: seq<Expr>, name: string, st: Store)
    requires name !in MayWriteAll(es)
    ensures SameAt(st, ExecArgs(m, es, st).1, name)
    decreases es, 0, 0
  {
    if es != [] {
      OutsideIsUnchanged(m, es[0], name, st);
      OutsideArgs(m, es[1..], name, Exec(m, es[0], st).st);
    }
  }

  lemma {:induction false} OutsideAll(m: Meaning, es: seq<Expr>, name: string, st: Store)
    requires name !in MayWriteAll(es)
    ensures SameAt(st, ExecAll(m, es, st), name)
    decreases es, 0, 0
  {
    if es != [] {
      OutsideIsUnchanged(m, es[0], name, st);
      OutsideAll(m, es[1..], name, Exec(m, es[0], st).st);
    }
  }

  lemma {:induction false} OutsideTimes(m: Meaning, es: seq<Expr>, n: nat, name: string, st: Store)
    requires name !in MayWriteAll(es)
    ensures SameAt(st, ExecTimes(m, es, n, st), name)
    decreases es, 1, n
  {
    if n > 0 {
      OutsideAll(m, es, name, st);
      OutsideTimes(m, es, n - 1, name, ExecAll(m, es, st));
    }
  }

  // In particular a statement that neither reports nor hides a write of the
  // variable leaves it as it is.
  lemma UnreportedIsUnchanged(m: Meaning, e: Expr, name: string, st: Store)
    requires !WritesTo(e, name) && !Hides(e, name)
    ensures Get(Exec(m, e, st).st, name) == Get(st, name)
  {
    OutsideIsUnchanged(m, e, name, st);
  }

  // --------------------------------------------------------------- emission

  datatype Op = Run(s: Stmt) | Test // Test: leave if the switch is on

  // A test follows each statement that reports the switch; in a loop the test
  // at the end of the iteration serves the last statement.
  function BodyCode(body: seq<Stmt>, switch: string, isLoop: bool): seq<Op> {
    if body == [] then []
    else
      [Run(body[0])]
      + (if WritesTo(body[0].expr, switch) && !(isLoop && |body| == 1) then [Test] else [])
      + BodyCode(body[1..], switch, isLoop)
  }

  method EmitBody(body: seq<Stmt>, switch: string, isLoop: bool) returns (code: seq<Op>)
    ensures code == BodyCode(body, switch, isLoop)
  {
    hide WritesTo, BodyCode;
    code := [];
    for index := 0 to |body|
      invariant code + BodyCode(body[index..], switch, isLoop) == BodyCode(body, switch, isLoop)
    {
      CodeFrom(body, index, switch, isLoop);
      code := code + [Run(body[index])];
      var isLastLoopStatement := isLoop && index + 1 == |body|;
      if !isLastLoopStatement && WritesTo(body[index].expr, switch) {
        code := code + [Test];
      }
    }
    NoCode(body[|body|..], switch, isLoop);
  }

  lemma NoCode(body: seq<Stmt>, switch: string, isLoop: bool)
    requires body == []
    ensures BodyCode(body, switch, isLoop) == []
  {
  }

  lemma CodeFrom(body: seq<Stmt>, index: nat, switch: string, isLoop: bool)
    requires index < |body|
    ensures BodyCode(body[index..], switch, isLoop)
         == [Run(body[index])]
            + (if WritesTo(body[index].expr, switch) && !(isLoop && index + 1 == |body|) then [Test] else [])
            + BodyCode(body[index + 1..], switch, isLoop)
  {
    assert body[index..][1..] == body[index + 1..];
  }

  // Statement i stands at a place of its own, a test behind it exactly if it
  // reports the switch and is not the last of a loop, and nothing else.
  ghost predicate PlacedAt(code: seq<Op>, at: nat, next: int, s: Stmt, tested: bool) {
    && at + (if tested then 1 else 0) < |code| && next == at + (if tested then 2 else 1)
    && code[at] == Run(s) && (tested ==> code[at + 1] == Test)
  }

  lemma {:induction false} TestsFollowReports(body: seq<Stmt>, switch: string, isLoop: bool) returns (at: seq<nat>)
    ensures |at| == |body| + 1 && at[0] == 0 && at[|body|] == |BodyCode(body, switch, isLoop)|
    ensures forall i :: 0 <= i < |body| ==>
              PlacedAt(BodyCode(body, switch, isLoop), at[i], at[i + 1], body[i],
                       WritesTo(body[i].expr, switch) && !(isLoop && i == |body| - 1))
  {
    hide WritesTo, PlacedAt, BodyCode;
    if body == [] {
      at := [0];
      NoCode(body, switch, isLoop);
    } else {
      var rest := BodyCode(body[1..], switch, isLoop);
      var tested := WritesTo(body[0].expr, switch) && !(isLoop && |body| == 1);
      var first := [Run(body[0])] + if tested then [Test] else [];
      var later := TestsFollowReports(body[1..], switch, isLoop);
      at := [0] + seq(|later|, k requires 0 <= k < |later| => later[k] + |first|);
      FirstPlaced(body, switch, isLoop);
      forall i | 0 < i < |body|
        ensures PlacedAt(BodyCode(body, switch, isLoop), at[i], at[i + 1], body[i],
                         WritesTo(body[i].expr, switch) && !(isLoop && i == |body| - 1))
      {
        assert body[1..][i - 1] == body[i];
        assert at[i] == later[i - 1] + |first| && at[i + 1] == later[i] + |first|;
        PlacedLater(first, rest, later[i - 1], later[i], body[i],
                    WritesTo(body[i].expr, switch) && !(isLoop && i == |body| - 1));
      }
    }
  }

  lemma FirstPlaced(body: seq<Stmt>, switch: string, isLoop: bool)
    requires body != []
    ensures var tested := WritesTo(body[0].expr, switch) && !(isLoop && |body| == 1);
            var first := [Run(body[0])] + if tested then [Test] else [];
            && BodyCode(body, switch, isLoop) == first + BodyCode(body[1..], switch, isLoop)
            && PlacedAt(BodyCode(body, switch, isLoop), 0, |first|, body[0], tested)
  {
    hide WritesTo;
  }

  lemma PlacedLater(first: seq<Op>, rest: seq<Op>, at: nat, next: nat, s: Stmt, tested: bool)
    requires PlacedAt(rest, at, next, s, tested)
    ensures PlacedAt(first + rest, at + |first|, next + |first|, s, tested)
  {
  }

  predicate On(st: Store, switch: string) {
    Get(st, switch) != 0
  }

  datatype Outcome = Outcome(st: Store, left: bool)

  function After(s: Stmt, st: Store): Store {
    Exec(s.meaning, s.expr, st).st
  }

  function RunCode(code: seq<Op>, switch: string, st: Store): Outcome {
    if code == [] then Outcome(st, false)
    else
      match code[0]
      case Run(s) => RunCode(code[1..], switch, After(s, st))
      case Test => if On(st, switch) then Outcome(st, true) else RunCode(code[1..], switch, st)
  }

  // The intended meaning: the switch is looked at after every statement.
  function RunTested(body: seq<Stmt>, switch: string, st: Store): Outcome {
    if body == [] then Outcome(st, false)
    else
      var after := After(body[0], st);
      if On(after, switch) then Outcome(after, true) else RunTested(body[1..], switch, after)
  }

  // One iteration of the emitted loop: its code, then the test that decides
  // about the back edge.
  function Iterate(body: seq<Stmt>, switch: string, st: Store): Outcome {
    var o := RunCode(BodyCode(body, switch, true), switch, st);
    Outcome(o.st, o.left || On(o.st, switch))
  }

  predicate Tested(body: seq<Stmt>, switch: string, isLoop: bool)
    requires body != []
  {
    WritesTo(body[0].expr, switch) && !(isLoop && |body| == 1)
  }

  lemma StepCode(body: seq<Stmt>, switch: string, isLoop: bool, st: Store)
    requires body != []
    ensures RunCode(BodyCode(body, switch, isLoop), switch, st)
         == if Tested(body, switch, isLoop) && On(After(body[0], st), switch) then Outcome(After(body[0], st), true)
            else RunCode(BodyCode(body[1..], switch, isLoop), switch, After(body[0], st))
  {
    var code := BodyCode(body, switch, isLoop);
    var rest := BodyCode(body[1..], switch, isLoop);
    if Tested(body, switch, isLoop) {
      assert code[1..] == [Test] + rest && ([Test] + rest)[1..] == rest;
    } else {
      assert code[1..] == rest;
    }
  }

  // ------------------------------------------------------ when that is right

  function Exprs(body: seq<Stmt>): (es: seq<Expr>)
    ensures |es| == |body| && forall i :: 0 <= i < |body| ==> es[i] == body[i].expr
  {
    seq(|body|, i requires 0 <= i < |body| => body[i].expr)
  }

  // Nothing is written before the body ends or the switch is tested.
  predicate Idle(es: seq<Expr>, switch: string) {
    es == [] || (MayWrite(es[0]) == {} && (WritesTo(es[0], switch) || Idle(es[1..], switch)))
  }

  // After a hidden write of the switch nothing is written any more.
  predicate Harmless(es: seq<Expr>, switch: string) {
    es == [] || (Harmless(es[1..], switch) && (Hides(es[0], switch) ==> Idle(es[1..], switch)))
  }

  lemma SilentIsSkip(s: Stmt, st: Store)
    requires MayWrite(s.expr) == {}
    ensures After(s, st) == st
  {
    forall name
      ensures SameAt(st, After(s, st), name)
    {
      OutsideIsUnchanged(s.meaning, s.expr, name, st);
    }
    SameEverywhere(st, After(s, st));
  }

  lemma SameEverywhere(a: Store, b: Store)
    requires forall name :: SameAt(a, b, name)
    ensures a == b
  {
    assert forall name :: name in a ==> SameAt(a, b, name);
    assert forall name :: name in b ==> SameAt(a, b, name);
  }

  lemma {:induction false} IdleCode(body: seq<Stmt>, switch: string, isLoop: bool, st: Store)
    requires Idle(Exprs(body), switch) && On(st, switch)
    ensures RunCode(BodyCode(body, switch, isLoop), switch, st).st == st
  {
    if body != [] {
      StepCode(body, switch, isLoop, st);
      SilentIsSkip(body[0], st);
      assert Exprs(body)[1..] == Exprs(body[1..]);
      if !Tested(body, switch, isLoop) {
        if WritesTo(body[0].expr, switch) {
          assert body[1..] == [];
        }
        IdleCode(body[1..], switch, isLoop, st);
      }
    }
  }

  // A body whose hidden writes are harmless, run with the switch off, ends
  // with the store a test after every statement would leave.
  lemma {:induction false} ReactionTerminates(body: seq<Stmt>, switch: string, st: Store)
    requires Harmless(Exprs(body), switch) && !On(st, switch)
    ensures RunCode(BodyCode(body, switch, false), switch, st).st == RunTested(body, switch, st).st
  {
    hide Exec, WritesTo, MayWrite;
    if body != [] {
      StepCode(body, switch, false, st);
      NextStatement(body, switch, st);
      if !On(After(body[0], st), switch) {
        ReactionTerminates(body[1..], switch, After(body[0], st));
      } else if !WritesTo(body[0].expr, switch) {
        IdleCode(body[1..], switch, false, After(body[0], st));
      }
    }
  }

  // The first statement turns the switch on only if it reports that, or if
  // nothing after it has an effect.
  lemma NextStatement(body: seq<Stmt>, switch: string, st: Store)
    requires body != [] && Harmless(Exprs(body), switch) && !On(st, switch)
    ensures Harmless(Exprs(body[1..]), switch)
    ensures On(After(body[0], st), switch) && !WritesTo(body[0].expr, switch) ==> Idle(Exprs(body[1..]), switch)
  {
    assert Exprs(body)[1..] == Exprs(body[1..]) && Exprs(body)[0] == body[0].expr;
    if !WritesTo(body[0].expr, switch) && !Hides(body[0].expr, switch) {
      UnreportedIsUnchanged(body[0].meaning, body[0].expr, switch, st);
    }
  }

  // ------------------------------------------------------------------ loops

  // An iteration leaves where, and with the store, a test after every
  // statement would leave.
  lemma {:induction false} IterationTerminates(body: seq<Stmt>, switch: string, st: Store)
    requires Harmless(Exprs(body), switch) && !On(st, switch)
    ensures Iterate(body, switch, st) == RunTested(body, switch, st)
    ensures !Iterate(body, switch, st).left ==> !On(Iterate(body, switch, st).st, switch)
  {
    hide Exec, WritesTo, MayWrite;
    if body != [] {
      StepCode(body, switch, true, st);
      NextStatement(body, switch, st);
      if !On(After(body[0], st), switch) {
        IterationTerminates(body[1..], switch, After(body[0], st));
      } else if !WritesTo(body[0].expr, switch) {
        IdleCode(body[1..], switch, true, After(body[0], st));
      }
    }
  }

  // The store after the loop, if it is left within `fuel` iterations.
  function RunLoop(body: seq<Stmt>, switch: string, st: Store, fuel: nat): Option<Store>
    decreases fuel
  {
    if fuel == 0 then None
    else
      var o := Iterate(body, switch, st);
      if o.left then Some(o.st) else RunLoop(body, switch, o.st, fuel - 1)
  }

  function RunLoopTested(body: seq<Stmt>, switch: string, st: Store, fuel: nat): Option<Store>
    decreases fuel
  {
    if fuel == 0 then None
    else
      var o := RunTested(body, switch, st);
      if o.left then Some(o.st) else RunLoopTested(body, switch, o.st, fuel - 1)
  }

  // The whole loop: same number of iterations, same final store, and it runs
  // for ever exactly when the tested loop does.
  lemma {:induction false} LoopTerminates(body: seq<Stmt>, switch: string, st: Store, fuel: nat)
    requires Harmless(Exprs(body), switch) && !On(st, switch)
    ensures RunLoop(body, switch, st, fuel) == RunLoopTested(body, switch, st, fuel)
    decreases fuel
  {
    if fuel > 0 {
      IterationTerminates(body, switch, st);
      var o := Iterate(body, switch, st);
      if !o.left {
        LoopTerminates(body, switch, o.st, fuel - 1);
      }
    }
  }

  // ------------------------------------------ statements that hide nothing

  // Nothing is written anywhere in the expression.
  predicate Silent(e: Expr)
    decreases e, 1
  {
    match e
    case Read(_) => true
    case Combine(_, operands) => AllSilent(operands)
    case Call(_, outs, externals, propertyOuts, inputs) =>
      outs == [] && externals == [] && propertyOuts == [] && AllSilent(inputs)
    case Command(_, outs, inputs) => outs == [] && AllSilent(inputs)
    case _ => false
  }

  predicate AllSilent(es: seq<Expr>)
    decreases es, 0
  {
    es == [] || (Silent(es[0]) && AllSilent(es[1..]))
  }

  // The statement writes at its own target only: its operands write nothing, it
  // has no property outputs, and no phase is kept in the switch.
  predicate Direct(e: Expr, switch: string)
    decreases e, 1
  {
    match e
    case Read(_) => true
    case Combine(_, operands) => AllSilent(operands)
    case Assign(_, value) => Silent(value)
    case Reset(condition, body) => Silent(condition) && AllDirect(body, switch)
    case RateBlock(_, phase, body) => phase != Some(switch) && AllDirect(body, switch)
    case BufferPush(_, _, _, value) => Silent(value)
    case FrameCopy(_, _) => true
    case Call(_, _, _, propertyOuts, inputs) => propertyOuts == [] && AllSilent(inputs)
    case Command(_, _, inputs) => AllSilent(inputs)
  }

  predicate AllDirect(es: seq<Expr>, switch: string)
    decreases es, 0
  {
    es == [] || (Direct(es[0], switch) && AllDirect(es[1..], switch))
  }

  // What programs are mostly made of: values read, combined, assigned, pushed,
  // copied and passed to calls, in blocks under a condition or at a rate.
  lemma PlainStatementsAreDirect(
      switch: string, name: string, trigger: bool, value: Expr, body: seq<Expr>, outs: seq<string>,
      phase: Option<string>)
    requires Silent(value) && AllDirect(body, switch) && phase != Some(switch)
    ensures Silent(Combine(0, [Read(1), value])) && Silent(Call(0, [], [], [], [value]))
            && Silent(Command(0, [], [value]))
    ensures Direct(Assign(name, value), switch) && Direct(BufferPush(0, name, trigger, value), switch)
            && Direct(FrameCopy(0, name), switch) && Direct(Call(0, outs, outs, [], [value]), switch)
            && Direct(Command(0, outs, [value]), switch) && Direct(Read(0), switch)
            && Direct(Combine(0, [value]), switch)
    ensures Direct(Reset(value, body), switch) && Direct(RateBlock(0, phase, body), switch)
  {
    assert [value][1..] == [] && [Read(1), value][1..] == [value];
    assert AllSilent([value]) && AllSilent([Read(1), value]);
  }

  lemma {:induction false} SilentWritesNothing(e: Expr)
    requires Silent(e)
    ensures MayWrite(e) == {}
    decreases e, 1
  {
    match e
    case Combine(_, operands) => AllWriteNothing(operands);
    case Call(_, outs, externals, propertyOuts, inputs) => AllWriteNothing(inputs);
    case Command(_, _, inputs) => AllWriteNothing(inputs);
    case _ =>
  }

  lemma {:induction false} AllWriteNothing(es: seq<Expr>)
    requires AllSilent(es)
    ensures MayWriteAll(es) == {}
    decreases es, 0
  {
    if es != [] {
      SilentWritesNothing(es[0]);
      AllWriteNothing(es[1..]);
    }
  }

  // Every write of the switch by such a statement is reported.
  lemma {:induction false} DirectReports(e: Expr, switch: string)
    requires Direct(e, switch)
    ensures switch in MayWrite(e) ==> WritesTo(e, switch)
    decreases e, 1
  {
    match e
    case Combine(_, operands) => AllWriteNothing(operands);
    case Assign(_, value) => SilentWritesNothing(value);
    case Reset(condition, body) =>
      SilentWritesNothing(condition);
      AllDirectReport(body, switch);
    case RateBlock(_, _, body) => AllDirectReport(body, switch);
    case BufferPush(_, _, _, value) => SilentWritesNothing(value);
    case Call(_, _, _, _, inputs) => AllWriteNothing(inputs);
    case Command(_, _, inputs) => AllWriteNothing(inputs);
    case _ =>
  }

  lemma {:induction false} AllDirectReport(es: seq<Expr>, switch: string)
    requires AllDirect(es, switch)
    ensures switch in MayWriteAll(es) ==> AnyWritesTo(es, switch)
    decreases es, 0
  {
    if es != [] {
      DirectReports(es[0], switch);
      AllDirectReport(es[1..], switch);
    }
  }

  lemma {:induction false} DirectIsHarmless(es: seq<Expr>, switch: string)
    requires AllDirect(es, switch)
    ensures Harmless(es, switch)
  {
    if es != [] {
      DirectReports(es[0], switch);
      DirectIsHarmless(es[1..], switch);
    }
  }

  // Bodies of such statements leave where a test after every statement would,
  // whatever the statements mean: reactions, iterations and whole loops.
  lemma DirectBodiesTerminate(body: seq<Stmt>, switch: string, st: Store, fuel: nat)
    requires AllDirect(Exprs(body), switch) && !On(st, switch)
    ensures RunCode(BodyCode(body, switch, false), switch, st).st == RunTested(body, switch, st).st
    ensures Iterate(body, switch, st) == RunTested(body, switch, st)
    ensures RunLoop(body, switch, st, fuel) == RunLoopTested(body, switch, st, fuel)
  {
    DirectIsHarmless(Exprs(body), switch);
    ReactionTerminates(body, switch, st);
    IterationTerminates(body, switch, st);
    LoopTerminates(body, switch, st, fuel);
  }

  // What is assigned, pushed or tested has a value.
  predicate Valued(e: Expr)
    decreases e, 1
  {
    match e
    case Assign(_, value) => HasValue(value) && Valued(value)
    case Reset(condition, body) => HasValue(condition) && AllValued(body)
    case RateBlock(_, _, body) => AllValued(body)
    case BufferPush(_, _, _, value) => HasValue(value) && Valued(value)
    case _ => true
  }

  predicate AllValued(es: seq<Expr>)
    decreases es, 0
  {
    es == [] || (Valued(es[0]) && AllValued(es[1..]))
  }

  // Nothing is reported that is never written: no test is idle.
  lemma {:induction false} ReportsOnlyWrites(e: Expr, name: string)
    requires WritesTo(e, name) && Valued(e)
    ensures name in MayWrite(e)
    decreases e, 1
  {
    match e
    case Reset(_, body) => AllReportOnlyWrites(body, name);
    case RateBlock(_, _, body) => AllReportOnlyWrites(body, name);
    case _ =>
  }

  lemma {:induction false} AllReportOnlyWrites(es: seq<Expr>, name: string)
    requires AnyWritesTo(es, name) && AllValued(es)
    ensures name in MayWriteAll(es)
    decreases es, 0
  {
    if WritesTo(es[0], name) {
      ReportsOnlyWrites(es[0], name);
    } else {
      AllReportOnlyWrites(es[1..], name);
    }
  }

  // Done = on; Out = 3: the test after the first statement leaves, so Out keeps
  // its value.
  lemma AssignIsTested(st: Store)
    requires !On(st, "Done")
    ensures var done := Stmt(Assign("Done", Read(0)), (site, args, st, name) => 1);
            var next := Stmt(Assign("Out", Read(1)), (site, args, st, name) => 3);
            && BodyCode([done, next], "Done", false) == [Run(done), Test, Run(next)]
            && RunCode(BodyCode([done, next], "Done", false), "Done", st) == Outcome(st["Done" := 1], true)
  {
    var done := Stmt(Assign("Done", Read(0)), (site, args, st, name) => 1);
    var next := Stmt(Assign("Out", Read(1)), (site, args, st, name) => 3);
    var body := [done, next];
    assert body[1..] == [next] && [next][1..] == [];
    assert WritesTo(done.expr, "Done") && !WritesTo(next.expr, "Done");
    assert BodyCode([next], "Done", false) == [Run(next)];
    assert BodyCode(body, "Done", false) == [Run(done)] + [Test] + [Run(next)];
    assert After(done, st) == st["Done" := 1];
    StepCode(body, "Done", false, st);
  }

  // ------------------------------------------------- the condition is exact

  // A meaning that gives every variable the same value.
  function Constantly(c: int): Meaning {
    (site, args, st, name) => c
  }

  ghost function Stamp(names: set<string>, c: int): (st: Store)
    ensures st.Keys == names && forall name :: name in names ==> st[name] == c
  {
    if names == {} then map[]
    else
      var name :| name in names;
      Stamp(names - {name}, c)[name := c]
  }

  lemma StampMore(st: Store, a: set<string>, b: set<string>, c: int)
    ensures st + Stamp(a, c) + Stamp(b, c) == st + Stamp(a + b, c)
  {
  }

  lemma StampOne(st: Store, name: string, c: int)
    ensures st[name := c] == st + Stamp({name}, c)
  {
  }

  lemma StampNone(st: Store, c: int)
    ensures st + Stamp({}, c) == st
  {
  }

  lemma UpdateStamps(c: int, site: nat, args: seq<int>, st: Store, names: seq<string>)
    ensures Update(Constantly(c), site, args, st, names) == st + Stamp(Elements(names), c)
  {
  }

  // With a positive constant everything runs, and everything that may be
  // written is.
  lemma {:induction false} WritesAll(e: Expr, c: int, st: Store)
    requires c > 0
    ensures Exec(Constantly(c), e, st).st == st + Stamp(MayWrite(e), c)
    ensures HasValue(e) ==> Exec(Constantly(c), e, st).value == c
    decreases e, 1, 0
  {
    hide Stamp, Update;
    match e
    case Read(_) => StampNone(st, c);
    case Combine(_, operands) => WritesAllArgs(operands, c, st);
    case Assign(name, value) =>
      WritesAll(value, c, st);
      assert MayWrite(value) + {} == MayWrite(value);
      StampOne(st + Stamp(MayWrite(value), c), name, c);
      StampMore(st, MayWrite(value), {name}, c);
    case Reset(condition, body) =>
      WritesAll(condition, c, st);
      assert MayWrite(condition) + {} == MayWrite(condition);
      if HasValue(condition) {
        WritesAllOf(body, c, st + Stamp(MayWrite(condition), c));
        StampMore(st, MayWrite(condition), MayWriteAll(body), c);
      }
    case RateBlock(site, phase, body) => WritesAllRate(site, phase, body, c, st);
    case BufferPush(site, buffer, hasTrigger, value) =>
      WritesAll(value, c, st);
      assert MayWrite(value) + {} == MayWrite(value);
      UpdateStamps(c, site, [c], st + Stamp(MayWrite(value), c), BufferNames(buffer, hasTrigger));
      StampMore(st, MayWrite(value), Elements(BufferNames(buffer, hasTrigger)), c);
    case FrameCopy(site, destination) =>
      UpdateStamps(c, site, [], st, [destination]);
      assert Elements([destination]) == {destination};
    case Call(site, outs, externals, propertyOuts, inputs) =>
      WritesAllCall(site, inputs, outs + externals + propertyOuts, c, st);
    case Command(site, outs, inputs) => WritesAllCall(site, inputs, outs, c, st);
  }

  lemma {:induction false} WritesAllRate(site: nat, phase: Option<string>, body: seq<Expr>, c: int, st: Store)
    requires c > 0
    ensures Exec(Constantly(c), RateBlock(site, phase, body), st).st
         == st + Stamp(MayWrite(RateBlock(site, phase, body)), c)
    decreases body, 2, 0
  {
    hide Stamp;
    WritesAllTimes(body, c, c, st);
    assert MayWriteAll(body) + {} == MayWriteAll(body);
    if phase.Some? {
      StampOne(st + Stamp(MayWriteAll(body), c), phase.value, c);
      StampMore(st, MayWriteAll(body), {phase.value}, c);
    }
  }

  lemma {:induction false} WritesAllCall(site: nat, inputs: seq<Expr>, names: seq<string>, c: int, st: Store)
    requires c > 0
    ensures var (args, st') := ExecArgs(Constantly(c), inputs, st);
            Update(Constantly(c), site, args, st', names) == st + Stamp(MayWriteAll(inputs) + Elements(names), c)
    decreases inputs, 1, 0
  {
    hide Stamp, Update;
    var (args, st') := ExecArgs(Constantly(c), inputs, st);
    WritesAllArgs(inputs, c, st);
    UpdateStamps(c, site, args, st', names);
    StampMore(st, MayWriteAll(inputs), Elements(names), c);
  }

  lemma {:induction false} WritesAllArgs(es: seq<Expr>, c: int, st: Store)
    requires c > 0
    ensures ExecArgs(Constantly(c), es, st).1 == st + Stamp(MayWriteAll(es), c)
    decreases es, 0, 0
  {
    hide Exec, MayWrite, Stamp;
    if es == [] {
      StampNone(st, c);
    } else {
      StampMore(st, MayWrite(es[0]), MayWriteAll(es[1..]), c);
      WritesAll(es[0], c, st);
      WritesAllArgs(es[1..], c, st + Stamp(MayWrite(es[0]), c));
    }
  }

  lemma {:induction false} WritesAllOf(es: seq<Expr>, c: int, st: Store)
    requires c > 0
    ensures ExecAll(Constantly(c), es, st) == st + Stamp(MayWriteAll(es), c)
    decreases es, 0, 0
  {
    hide Exec, MayWrite, Stamp;
    if es == [] {
      StampNone(st, c);
    } else {
      StampMore(st, MayWrite(es[0]), MayWriteAll(es[1..]), c);
      WritesAll(es[0], c, st);
      WritesAllOf(es[1..], c, st + Stamp(MayWrite(es[0]), c));
    }
  }

  lemma {:induction false} WritesAllTimes(es: seq<Expr>, c: int, n: nat, st: Store)
    requires c > 0 && n > 0
    ensures ExecTimes(Constantly(c), es, n, st) == st + Stamp(MayWriteAll(es), c)
    decreases es, 1, n
  {
    WritesAllOf(es, c, st);
    if n > 1 {
      WritesAllTimes(es, c, n - 1, st + Stamp(MayWriteAll(es), c));
    }
  }

  ghost predicate AllZero(st: Store) {
    forall name :: Get(st, name) == 0
  }

  lemma ZeroMore(st: Store, name: string)
    requires AllZero(st)
    ensures AllZero(st[name := 0])
  {
    var st' := st[name := 0];
    forall other
      ensures Get(st', other) == 0
    {
      assert Get(st, other) == 0;
    }
  }

  lemma ZeroUpdate(st: Store, site: nat, args: seq<int>, names: seq<string>)
    requires AllZero(st)
    ensures AllZero(Update(Constantly(0), site, args, st, names))
  {
    var st' := Update(Constantly(0), site, args, st, names);
    forall name
      ensures Get(st', name) == 0
    {
      assert Get(st, name) == 0;
    }
  }

  // With the constant 0 no variable is ever turned on.
  lemma {:induction false} StaysZero(e: Expr, st: Store)
    requires AllZero(st)
    ensures AllZero(Exec(Constantly(0), e, st).st)
    ensures HasValue(e) ==> Exec(Constantly(0), e, st).value == 0
    decreases e, 1
  {
    match e
    case Read(_) =>
    case Combine(_, operands) => ArgsStayZero(operands, st);
    case Assign(name, value) =>
      StaysZero(value, st);
      ZeroMore(Exec(Constantly(0), value, st).st, name);
    case Reset(condition, body) => StaysZero(condition, st);
    case RateBlock(_, phase, _) =>
      if phase.Some? {
        ZeroMore(st, phase.value);
      }
    case BufferPush(site, buffer, hasTrigger, value) =>
      StaysZero(value, st);
      ZeroUpdate(Exec(Constantly(0), value, st).st, site, [0], BufferNames(buffer, hasTrigger));
    case FrameCopy(site, destination) => ZeroUpdate(st, site, [], [destination]);
    case Call(site, outs, externals, propertyOuts, inputs) =>
      ArgsStayZero(inputs, st);
      var (args, st') := ExecArgs(Constantly(0), inputs, st);
      ZeroUpdate(st', site, args, outs + externals + propertyOuts);
    case Command(site, outs, inputs) =>
      ArgsStayZero(inputs, st);
      var (args, st') := ExecArgs(Constantly(0), inputs, st);
      ZeroUpdate(st', site, args, outs);
  }

  lemma {:induction false} ArgsStayZero(es: seq<Expr>, st: Store)
    requires AllZero(st)
    ensures AllZero(ExecArgs(Constantly(0), es, st).1)
    decreases es, 0
  {
    if es != [] {
      StaysZero(es[0], st);
      ArgsStayZero(es[1..], Exec(Constantly(0), es[0], st).st);
    }
  }

  function Meaning2(es: seq<Expr>): (body: seq<Stmt>)
    ensures Exprs(body) == es
  {
    seq(|es|, i requires 0 <= i < |es| => Stmt(es[i], Constantly(2)))
  }

  lemma {:induction false} TwoStays(es: seq<Expr>, switch: string, isLoop: bool, st: Store, name: string)
    requires Get(st, name) == 2
    ensures Get(RunCode(BodyCode(Meaning2(es), switch, isLoop), switch, st).st, name) == 2
    decreases |es|
  {
    if es != [] {
      var body := Meaning2(es);
      assert body[1..] == Meaning2(es[1..]);
      StepCode(body, switch, isLoop, st);
      WritesAll(es[0], 2, st);
      TwoStays(es[1..], switch, isLoop, After(body[0], st), name);
    }
  }

  // Statements that are not idle leave a trace before anything is tested.
  lemma {:induction false} TwoShows(es: seq<Expr>, switch: string, isLoop: bool, st: Store)
    requires !Idle(es, switch) && forall name :: Get(st, name) != 2
    ensures RunCode(BodyCode(Meaning2(es), switch, isLoop), switch, st).st != st
    decreases |es|
  {
    var body := Meaning2(es);
    assert body[1..] == Meaning2(es[1..]);
    StepCode(body, switch, isLoop, st);
    if MayWrite(es[0]) == {} {
      SilentIsSkip(body[0], st);
      TwoShows(es[1..], switch, isLoop, st);
    } else {
      var name :| name in MayWrite(es[0]);
      WritesAll(es[0], 2, st);
      assert Get(After(body[0], st), name) == 2;
      TwoStays(es[1..], switch, isLoop, After(body[0], st), name);
    }
  }

  // Meanings under which a harmful body goes wrong, from any store that is
  // still all zero.
  lemma {:induction false} HarmShows(es: seq<Expr>, switch: string, st: Store) returns (body: seq<Stmt>)
    requires !Harmless(es, switch) && AllZero(st)
    ensures Exprs(body) == es
    ensures forall isLoop ::
              RunCode(BodyCode(body, switch, isLoop), switch, st).st != RunTested(body, switch, st).st
  {
    if Hides(es[0], switch) && !Idle(es[1..], switch) {
      body := [Stmt(es[0], Constantly(1))] + Meaning2(es[1..]);
      assert body[1..] == Meaning2(es[1..]);
      WritesAll(es[0], 1, st);
      var after := After(body[0], st);
      forall name
        ensures Get(after, name) != 2
      {
        assert Get(st, name) == 0;
      }
      forall isLoop
        ensures RunCode(BodyCode(body, switch, isLoop), switch, st).st != RunTested(body, switch, st).st
      {
        StepCode(body, switch, isLoop, st);
        TwoShows(es[1..], switch, isLoop, after);
      }
    } else {
      var first := Stmt(es[0], Constantly(0));
      StaysZero(es[0], st);
      var rest := HarmShows(es[1..], switch, After(first, st));
      body := [first] + rest;
      assert body[1..] == rest;
      forall isLoop
        ensures RunCode(BodyCode(body, switch, isLoop), switch, st).st != RunTested(body, switch, st).st
      {
        StepCode(body, switch, isLoop, st);
      }
    }
  }

  predicate ReactionAgrees(body: seq<Stmt>, switch: string, st: Store) {
    RunCode(BodyCode(body, switch, false), switch, st).st == RunTested(body, switch, st).st
  }

  predicate IterationAgrees(body: seq<Stmt>, switch: string, st: Store) {
    Iterate(body, switch, st) == RunTested(body, switch, st)
  }

  // Testing after reported writes is right for every meaning of a body's
  // statements exactly when its hidden writes are harmless.
  lemma RightExactlyWhenHarmless(es: seq<Expr>, switch: string)
    ensures (forall body, st :: Exprs(body) == es && !On(st, switch) ==> ReactionAgrees(body, switch, st))
            <==> Harmless(es, switch)
    ensures (forall body, st :: Exprs(body) == es && !On(st, switch) ==> IterationAgrees(body, switch, st))
            <==> Harmless(es, switch)
  {
    if Harmless(es, switch) {
      forall body, st | Exprs(body) == es && !On(st, switch)
        ensures ReactionAgrees(body, switch, st) && IterationAgrees(body, switch, st)
      {
        ReactionTerminates(body, switch, st);
        IterationTerminates(body, switch, st);
      }
    } else {
      var body := HarmShows(es, switch, map[]);
      assert !On(map[], switch) && !ReactionAgrees(body, switch, map[]);
      assert !IterationAgrees(body, switch, map[]);
    }
  }

  // Two statements that each add one to a variable.
  function Counting(name: string): seq<Stmt> {
    var one := Stmt(Assign(name, Read(0)), (site, args, st, written) => Get(st, name) + 1);
    [one, one]
  }

  lemma CountingIsHarmless(name: string, switch: string)
    requires name != switch
    ensures Harmless(Exprs(Counting(name)), switch)
  {
    var e := Assign(name, Read(0));
    assert Exprs(Counting(name)) == [e, e] && [e, e][1..] == [e] && [e][1..] == [];
    assert MayWrite(Read(0)) == {} && HasValue(Read(0));
    assert MayWrite(e) == {name};
    assert Harmless([], switch) && Harmless([e], switch);
  }

  lemma CountsTwice(name: string, switch: string, st: Store)
    requires name != switch && On(st, switch)
    ensures var body := Counting(name);
            && Get(RunTested(body, switch, st).st, name) == Get(st, name) + 1
            && Get(RunCode(BodyCode(body, switch, false), switch, st).st, name) == Get(st, name) + 2
  {
    var body := Counting(name);
    var one := body[0];
    assert body == [one, one] && body[1..] == [one] && [one][1..] == [];
    var st1 := st[name := Get(st, name) + 1];
    assert Exec(one.meaning, Read(0), st).value == Get(st, name) + 1;
    assert After(one, st) == st1;
    assert Exec(one.meaning, Read(0), st1).value == Get(st, name) + 2;
    assert After(one, st1) == st1[name := Get(st, name) + 2];
    StepCode(body, switch, false, st);
    StepCode([one], switch, false, st1);
  }

  // A switch already on at entry is seen only by the first reporting
  // statement: harmless bodies are right exactly when it is off.
  lemma RightExactlyWhenOff(switch: string, st: Store)
    ensures (forall body :: Harmless(Exprs(body), switch) ==> ReactionAgrees(body, switch, st))
            <==> !On(st, switch)
  {
    if On(st, switch) {
      var other := switch + "_";
      assert switch != other by {
        assert |switch| != |other|;
      }
      var late := Counting(other);
      CountingIsHarmless(other, switch);
      CountsTwice(other, switch, st);
      assert !ReactionAgrees(late, switch, st);
    } else {
      forall body | Harmless(Exprs(body), switch)
        ensures ReactionAgrees(body, switch, st)
      {
        ReactionTerminates(body, switch, st);
      }
    }
  }

  // on >> Done >> Out; 3 >> Out: the write of Done is nested in that of Out,
  // so Out becomes 3 although Done was on before.
  lemma ChainHidesWrite()
    ensures var chain := Stmt(Assign("Out", Assign("Done", Read(0))), (site, args, st, name) => 1);
            var next := Stmt(Assign("Out", Read(0)), (site, args, st, name) => 3);
            && Hides(chain.expr, "Done") && !Harmless(Exprs([chain, next]), "Done")
            && Get(RunTested([chain, next], "Done", map[]).st, "Out") == 1
            && Get(RunCode(BodyCode([chain, next], "Done", false), "Done", map[]).st, "Out") == 3
  {
    var chain := Stmt(Assign("Out", Assign("Done", Read(0))), (site, args, st, name) => 1);
    var next := Stmt(Assign("Out", Read(0)), (site, args, st, name) => 3);
    var body := [chain, next];
    assert body[1..] == [next] && [next][1..] == [] && Exprs(body)[1..] == [next.expr];
    assert MayWrite(chain.expr) == {"Out", "Done"} && "Out" in MayWrite(next.expr);
    StepCode(body, "Done", false, map[]);
    StepCode([next], "Done", false, After(chain, map[]));
  }

  // Check(found: Done); 3 >> Out: the call turns Done on through a property
  // and reports nothing, so Out becomes 3 although Done was on before.
  lemma PropertyHidesWrite()
    ensures var check := Stmt(Call(0, [], [], ["Done"], []), (site, args, st, name) => 1);
            var next := Stmt(Assign("Out", Read(1)), (site, args, st, name) => 3);
            && Hides(check.expr, "Done") && !Harmless(Exprs([check, next]), "Done")
            && Get(RunTested([check, next], "Done", map[]).st, "Out") == 0
            && Get(RunCode(BodyCode([check, next], "Done", false), "Done", map[]).st, "Out") == 3
  {
    var check := Stmt(Call(0, [], [], ["Done"], []), (site, args, st, name) => 1);
    var next := Stmt(Assign("Out", Read(1)), (site, args, st, name) => 3);
    var body := [check, next];
    assert body[1..] == [next] && [next][1..] == [] && Exprs(body)[1..] == [next.expr];
    assert "Done" in MayWrite(check.expr) && "Out" in MayWrite(next.expr);
    StepCode(body, "Done", false, map[]);
    StepCode([next], "Done", false, After(check, map[]));
  }
}
