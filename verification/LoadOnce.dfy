// <Domain>_load runs a program's onLoad streams once, for any number of
// threads: an atomic guard with the values 0 (not loaded), 1 (loading) and
// 2 (loaded), a compare-exchange to become the loader, and a spin to wait.
// Every <Domain>_init calls it first.
module LoadOnce {

  // Where a thread is. An atomic access of the guard is one step.
  datatype Pc =
    | Outside    // not in an init
    | AtExchange // about to compare-exchange the guard from 0 to 1
    | InBody     // running the onLoad streams
    | AtPublish  // about to store 2
    | AtWait     // about to load the guard
    | InInit     // load returned: running the rest of init

  datatype Event = BodyStarts(thread: nat) | BodyEnds(thread: nat) | InitRuns(thread: nat)

  datatype State = State(guard: int, pcs: seq<Pc>, log: seq<Event>)

  // A scheduler picks a thread: it takes its next step, or, inside the body,
  // keeps computing (`Linger`).
  datatype Action = Advance(thread: nat) | Linger(thread: nat)

  function Start(threads: nat): State {
    State(0, seq(threads, _ => Outside), [])
  }

  function Step(s: State, a: Action): State {
    var t := a.thread;
    if t >= |s.pcs| || a.Linger? then s
    else
      match s.pcs[t]
      case Outside => Moved(s, t, AtExchange)
      case AtExchange =>
        if s.guard == 0 then Moved(s.(guard := 1, log := s.log + [BodyStarts(t)]), t, InBody)
        else Moved(s, t, AtWait)
      case InBody => Moved(s.(log := s.log + [BodyEnds(t)]), t, AtPublish)
      case AtPublish => Moved(s.(guard := 2, log := s.log + [InitRuns(t)]), t, InInit)
      case AtWait => if s.guard == 2 then Moved(s.(log := s.log + [InitRuns(t)]), t, InInit) else s
      case InInit => Moved(s, t, Outside)
  }

  function Moved(s: State, t: nat, pc: Pc): State
    requires t < |s.pcs|
  {
    s.(pcs := s.pcs[t := pc])
  }

  function Run(s: State, schedule: seq<Action>): State {
    if schedule == [] then s
    else Step(Run(s, schedule[..|schedule| - 1]), schedule[|schedule| - 1])
  }

  // ------------------------------------------------------------- invariant

  ghost predicate Loading(pc: Pc) {
    pc == InBody || pc == AtPublish
  }

  ghost predicate Inv(s: State) {
    Seats(s) && LogMatches(s)
  }

  // One loader, while the guard says so; nobody past the load before 2.
  ghost predicate Seats(s: State) {
    && s.guard in {0, 1, 2}
    && (forall t, u :: 0 <= t < |s.pcs| && 0 <= u < |s.pcs| && Loading(s.pcs[t]) && Loading(s.pcs[u]) ==> t == u)
    && (s.guard == 1 <==> exists t :: 0 <= t < |s.pcs| && Loading(s.pcs[t]))
    && (s.guard == 0 ==> forall t :: 0 <= t < |s.pcs| ==> s.pcs[t] != AtWait)
    && (forall t :: 0 <= t < |s.pcs| && s.pcs[t] == InInit ==> s.guard == 2)
  }

  ghost predicate LogMatches(s: State) {
    && (s.guard == 0 ==> s.log == [])
    && (s.guard == 2 ==> Ended(s.log))
    && (forall t :: 0 <= t < |s.pcs| ==> Recorded(s.log, t, s.pcs[t]))
    && OneStart(s.log)
    && InitsAfterBody(s.log)
  }

  // What the log says of a thread that has come so far.
  ghost predicate Recorded(log: seq<Event>, t: nat, pc: Pc) {
    match pc
    case InBody => BodyStarts(t) in log
    case AtPublish => Ended(log)
    case InInit => InitRuns(t) in log
    case _ => true
  }

  // A thread ran the body, from its start to its end.
  ghost predicate Ended(log: seq<Event>) {
    exists t, i, j :: RanBetween(log, t, i, j)
  }

  ghost predicate RanBetween(log: seq<Event>, t: nat, i: int, j: int) {
    0 <= i < j < |log| && log[i] == BodyStarts(t) && log[j] == BodyEnds(t)
  }

  ghost predicate OneStart(log: seq<Event>) {
    forall i, j :: 0 <= i < j < |log| && log[i].BodyStarts? ==> !log[j].BodyStarts?
  }

  ghost predicate InitsAfterBody(log: seq<Event>) {
    forall j :: 0 <= j < |log| && log[j].InitRuns? ==> Ended(log[..j])
  }

  lemma LogGrows(log: seq<Event>, e: Event)
    requires InitsAfterBody(log) && (e.InitRuns? ==> Ended(log))
    ensures InitsAfterBody(log + [e])
    ensures Ended(log) || (e.BodyEnds? && BodyStarts(e.thread) in log) ==> Ended(log + [e])
  {
    var longer := log + [e];
    forall j | 0 <= j < |longer| && longer[j].InitRuns?
      ensures Ended(longer[..j])
    {
      assert longer[..j] == log[..j];
      if j == |log| {
        assert log[..j] == log;
      }
    }
    if Ended(log) {
      var t, i, j :| RanBetween(log, t, i, j);
      assert RanBetween(longer, t, i, j);
    } else if e.BodyEnds? && BodyStarts(e.thread) in log {
      var i :| 0 <= i < |log| && log[i] == BodyStarts(e.thread);
      assert RanBetween(longer, e.thread, i, |log|);
    }
  }

  lemma StepKeepsInv(s: State, a: Action)
    requires Inv(s)
    ensures Inv(Step(s, a))
    ensures |Step(s, a).pcs| == |s.pcs|
    ensures Step(s, a).guard == s.guard || Step(s, a).guard == s.guard + 1
  {
    StepKeepsSeats(s, a);
    StepKeepsLog(s, a);
    hide Seats, LogMatches;
  }

  lemma StepKeepsSeats(s: State, a: Action)
    requires Seats(s)
    ensures Seats(Step(s, a))
    ensures |Step(s, a).pcs| == |s.pcs|
    ensures Step(s, a).guard == s.guard || Step(s, a).guard == s.guard + 1
  {
    var t, s' := a.thread, Step(s, a);
    if s' != s {
      assert s'.pcs[t] == s'.pcs[t];
      assert forall u :: 0 <= u < |s.pcs| && u != t ==> s'.pcs[u] == s.pcs[u];
    }
  }

  lemma StepKeepsLog(s: State, a: Action)
    requires Inv(s)
    ensures LogMatches(Step(s, a))
  {
    hide Ended, InitsAfterBody;
    var s' := Step(s, a);
    if s'.log != s.log {
      LogGrows(s.log, s'.log[|s.log|]);
    }
  }

  lemma {:induction false} RunKeepsInv(s: State, schedule: seq<Action>)
    requires Inv(s)
    ensures Inv(Run(s, schedule)) && |Run(s, schedule).pcs| == |s.pcs|
  {
    if schedule != [] {
      RunKeepsInv(s, schedule[..|schedule| - 1]);
      StepKeepsInv(Run(s, schedule[..|schedule| - 1]), schedule[|schedule| - 1]);
    }
  }

  // --------------------------------------------------------------- results

  // For any number of threads and any interleaving, the body is started at
  // most once, and every init body runs after one thread started and finished
  // it. A thread in an init body has that on record.
  lemma LoadsOnceBeforeAnyInit(threads: nat, schedule: seq<Action>)
    ensures var s := Run(Start(threads), schedule);
            && s.guard in {0, 1, 2} && OneStart(s.log) && InitsAfterBody(s.log)
            && (forall t :: 0 <= t < |s.pcs| && s.pcs[t] == InInit ==>
                  s.guard == 2 && Ended(s.log) && InitRuns(t) in s.log)
            && (forall t :: 0 <= t < |s.pcs| && s.pcs[t] == InBody ==> s.guard == 1 && BodyStarts(t) in s.log)
  {
    RunKeepsInv(Start(threads), schedule);
  }

  // The guard only moves 0 to 1 to 2, whatever happens later in the run.
  lemma {:induction false} GuardOnlyRises(s: State, more: seq<Action>)
    requires Inv(s)
    ensures s.guard <= Run(s, more).guard <= 2
    ensures s.guard == 2 ==> Run(s, more).guard == 2
  {
    if more != [] {
      var before := more[..|more| - 1];
      GuardOnlyRises(s, before);
      RunKeepsInv(s, before);
      StepKeepsInv(Run(s, before), more[|more| - 1]);
    }
  }

  // Once the guard is 2 a waiter returns at its next load, whatever ran in
  // between.
  lemma WaiterReturns(s: State, t: nat, more: seq<Action>)
    requires Inv(s) && t < |s.pcs| && s.guard == 2 && s.pcs[t] == AtWait
    requires forall a :: a in more ==> a.thread != t
    ensures var s' := Run(s, more + [Advance(t)]); |s'.pcs| == |s.pcs| && s'.pcs[t] == InInit
  {
    GuardOnlyRises(s, more);
    Undisturbed(s, t, more);
    assert (more + [Advance(t)])[..|more|] == more;
  }

  lemma {:induction false} Undisturbed(s: State, t: nat, more: seq<Action>)
    requires t < |s.pcs| && forall a :: a in more ==> a.thread != t
    ensures |Run(s, more).pcs| == |s.pcs| && Run(s, more).pcs[t] == s.pcs[t]
  {
    if more != [] {
      Undisturbed(s, t, more[..|more| - 1]);
    }
  }

  // No deadlock: from every reachable state every thread can still call init
  // and see it return, for some continuation of the run.
  lemma CallersCanReturn(s: State, t: nat) returns (more: seq<Action>)
    requires Inv(s) && t < |s.pcs|
    ensures var s' := Run(s, more); |s'.pcs| == |s.pcs| && s'.pcs[t] == InInit
  {
    if s.pcs[t] == Outside {
      StepKeepsInv(s, Advance(t));
      var rest := CallUnderWayCanReturn(Step(s, Advance(t)), t);
      more := [Advance(t)] + rest;
      RunAfter(s, [Advance(t)], rest);
      Unroll1(s, [], Advance(t));
      assert [] + [Advance(t)] == [Advance(t)];
    } else {
      more := CallUnderWayCanReturn(s, t);
    }
  }

  // And from an init body it goes back to where it called from.
  lemma InitBodyEnds(s: State, t: nat)
    requires t < |s.pcs| && s.pcs[t] == InInit
    ensures Step(s, Advance(t)) == s.(pcs := s.pcs[t := Outside])
  {
  }

  lemma {:induction false} RunAfter(s: State, first: seq<Action>, more: seq<Action>)
    ensures Run(s, first + more) == Run(Run(s, first), more)
  {
    if more == [] {
      assert first + more == first;
    } else {
      var n := |more| - 1;
      assert first + more == (first + more[..n]) + [more[n]];
      Unroll1(s, first + more[..n], more[n]);
      RunAfter(s, first, more[..n]);
    }
  }

  lemma CallUnderWayCanReturn(s: State, t: nat) returns (more: seq<Action>)
    requires Inv(s) && t < |s.pcs| && s.pcs[t] != Outside
    ensures var s' := Run(s, more); |s'.pcs| == |s.pcs| && s'.pcs[t] == InInit
  {
    var first := FinishLoading(s);
    var s1 := Run(s, first);
    RunKeepsInv(s, first);
    more := first;
    if s1.pcs[t] == AtExchange && s1.guard == 0 {
      more := more + [Advance(t), Advance(t), Advance(t)];
      Unroll3(s, first, Advance(t), Advance(t), Advance(t));
    } else if s1.pcs[t] == AtExchange {
      more := more + [Advance(t), Advance(t)];
      Unroll2(s, first, Advance(t), Advance(t));
    } else if s1.pcs[t] == AtWait {
      more := more + [Advance(t)];
      Unroll1(s, first, Advance(t));
    }
  }

  // Some schedule empties the loader's seat without sending anyone away.
  lemma FinishLoading(s: State) returns (more: seq<Action>)
    requires Inv(s)
    ensures Run(s, more).guard != 1
    ensures |Run(s, more).pcs| == |s.pcs|
    ensures forall t :: 0 <= t < |s.pcs| ==> Run(s, more).pcs[t] == if Loading(s.pcs[t]) then InInit else s.pcs[t]
  {
    hide LogMatches;
    more := [];
    if s.guard == 1 {
      var t :| 0 <= t < |s.pcs| && Loading(s.pcs[t]);
      more := Publishing(s, t);
      hide Run;
    }
  }

  lemma Publishing(s: State, t: nat) returns (more: seq<Action>)
    requires t < |s.pcs| && Loading(s.pcs[t])
    ensures Run(s, more).guard == 2
    ensures Run(s, more).pcs == s.pcs[t := InInit]
  {
    if s.pcs[t] == InBody {
      more := [Advance(t), Advance(t)];
      Unroll2(s, [], Advance(t), Advance(t));
    } else {
      more := [Advance(t)];
      Unroll1(s, [], Advance(t));
    }
    assert [] + more == more;
  }

  lemma Unroll1(s: State, first: seq<Action>, a: Action)
    ensures Run(s, first + [a]) == Step(Run(s, first), a)
  {
    assert (first + [a])[..|first|] == first;
  }

  lemma Unroll2(s: State, first: seq<Action>, a: Action, b: Action)
    ensures Run(s, first + [a, b]) == Step(Step(Run(s, first), a), b)
  {
    assert first + [a, b] == first + [a] + [b];
    Unroll1(s, first + [a], b);
    Unroll1(s, first, a);
  }

  lemma Unroll3(s: State, first: seq<Action>, a: Action, b: Action, c: Action)
    ensures Run(s, first + [a, b, c]) == Step(Step(Step(Run(s, first), a), b), c)
  {
    assert first + [a, b, c] == first + [a, b] + [c];
    Unroll1(s, first + [a, b], c);
    Unroll2(s, first, a, b);
  }
}
