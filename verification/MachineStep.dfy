// One evaluation of a state machine, as a plain step: the reference the
// emitted block graph is proved against, and the invariants of its runs.
module MachineStep {
  import opened Arith
  import opened Machines
  import opened Wrappers

  datatype World = World(active: int, entered: bool, history: map<string, int>, vars: Vars)

  function RunAll(codes: seq<Code>, v: Vars): Vars {
    if codes == [] then v else RunAll(codes[1..], codes[0](v))
  }

  lemma {:induction false} RunAllAppend(a: seq<Code>, b: seq<Code>, v: Vars)
    ensures RunAll(a + b, v) == RunAll(b, RunAll(a, v))
  {
    if a == [] {
      assert a + b == b;
    } else {
      assert (a + b)[1..] == a[1..] + b;
      RunAllAppend(a[1..], b, a[0](v));
    }
  }

  function Reverse<T>(s: seq<T>): (r: seq<T>)
    ensures |r| == |s|
  {
    if s == [] then [] else Reverse(s[1..]) + [s[0]]
  }

  function Updates(chain: seq<FlatState>): seq<Code> {
    if chain == [] then [] else chain[0].decl.updateGuard + Updates(chain[1..])
  }

  function Entries(chain: seq<FlatState>): seq<Code> {
    if chain == [] then [] else chain[0].decl.onEntry + Entries(chain[1..])
  }

  function Exits(chain: seq<FlatState>): seq<Code> {
    if chain == [] then [] else chain[0].decl.onExit + Exits(chain[1..])
  }

  // Root first.
  function TopDown(m: Machine, id: int): seq<FlatState>
    requires IsFlat(m.states)
  {
    Reverse(Ancestry(m.states, id))
  }

  // ------------------------------------------------------------ transitions

  // A transition as seen from an active state, with the state that owns it.
  datatype Applicable = Applicable(transition: Transition, owner: FlatState)

  function Owned(s: FlatState, ts: seq<Transition>): seq<Applicable> {
    if ts == [] then [] else [Applicable(ts[0], s)] + Owned(s, ts[1..])
  }

  // Innermost owner first, each state's transitions in declaration order.
  function Candidates(chain: seq<FlatState>): seq<Applicable> {
    if chain == [] then [] else Owned(chain[0], chain[0].transitions) + Candidates(chain[1..])
  }

  // A generator's argument is one of the values of its range.
  predicate InRange(d: TransitionDecl, arg: int) {
    && d.rangeStart <= arg <= d.rangeEnd
    && (d.rangeStep > 1 || d.rangeStep < -1 ==> Wrap32(arg - d.rangeStart) % d.rangeStep == 0)
  }

  // Request and argument are the ones read before any transition is tested.
  predicate Enabled(t: Transition, v: Vars, request: int, arg: int) {
    && (if t.HasLatch() then t.id in v.latches
        else t.decl.triggerOnGuard || request == t.id)
    && (t.decl.isGenerator ==> InRange(t.decl, arg))
    && (|t.decl.guard| > 0 ==> t.decl.guard[|t.decl.guard| - 1](v))
  }

  // Position i holds the first enabled candidate.
  ghost predicate IsFirst(candidates: seq<Applicable>, v: Vars, request: int, arg: int, i: nat) {
    && i < |candidates| && Enabled(candidates[i].transition, v, request, arg)
    && forall j :: 0 <= j < i ==> !Enabled(candidates[j].transition, v, request, arg)
  }

  function FirstEnabled(candidates: seq<Applicable>, v: Vars, request: int, arg: int): (first: Option<Applicable>)
    ensures first.None? ==> forall i :: 0 <= i < |candidates| ==> !Enabled(candidates[i].transition, v, request, arg)
    ensures first.Some? ==> exists i: nat :: IsFirst(candidates, v, request, arg, i) && candidates[i] == first.value
  {
    if candidates == [] then None
    else if Enabled(candidates[0].transition, v, request, arg) then
      assert IsFirst(candidates, v, request, arg, 0);
      Some(candidates[0])
    else
      var rest := FirstEnabled(candidates[1..], v, request, arg);
      assert forall i: nat :: IsFirst(candidates[1..], v, request, arg, i) ==>
        IsFirst(candidates, v, request, arg, i + 1) && candidates[1..][i] == candidates[i + 1];
      rest
  }

  // The states left when `owner`'s transition fires: the active one, up to
  // and including the owner.
  function ExitedUpTo(chain: seq<FlatState>, owner: int): seq<FlatState> {
    if chain == [] then []
    else if chain[0].id == owner then [chain[0]]
    else [chain[0]] + ExitedUpTo(chain[1..], owner)
  }

  // ---------------------------------------------------------------- history

  function HistoryOf(history: map<string, int>, name: string): int {
    if name in history then history[name] else 0
  }

  // Exiting a state records the active state in the state's own history and
  // in its parent's, where they keep one.
  ghost predicate Touched(exited: seq<FlatState>, s: FlatState) {
    s.decl.resumeLastState && exists e :: e in exited && (e.id == s.id || e.parentId == s.id)
  }

  ghost function TouchedNames(states: seq<FlatState>, exited: seq<FlatState>): set<string> {
    set s | s in states && Touched(exited, s) :: s.decl.name
  }

  ghost function Recorded(names: set<string>, active: int): (recorded: map<string, int>)
    ensures recorded.Keys == names && forall name :: name in names ==> recorded[name] == active
  {
    if names == {} then map[]
    else
      var name :| name in names;
      Recorded(names - {name}, active)[name := active]
  }

  ghost function HistoryAfterExit(states: seq<FlatState>, exited: seq<FlatState>, active: int,
                                  history: map<string, int>): map<string, int>
  {
    history + Recorded(TouchedNames(states, exited), active)
  }

  // Where a transition to `target` leads: its history if it resumes and has
  // one, its default leaf otherwise.
  function Destination(m: Machine, target: int, history: map<string, int>): int
    requires IsFlat(m.states)
  {
    var leaf := ResolveLeaf(m.states, target, {});
    match StateOf(m.states, target)
    case None => leaf
    case Some(s) =>
      var recorded := HistoryOf(history, s.decl.name);
      if s.decl.resumeLastState && recorded != 0 then recorded else leaf
  }

  // ------------------------------------------------------------- the step

  function InitialEntry(m: Machine, w: World): World
    requires IsFlat(m.states)
  {
    if w.entered then w
    else w.(entered := true, vars := RunAll(Entries(TopDown(m, m.initialId)), w.vars))
  }

  // Entry code always follows the default leaf, even when history decides
  // where the machine resumes.
  ghost function Fire(m: Machine, s: FlatState, a: Applicable, w: World): World
    requires IsFlat(m.states)
  {
    var exited := ExitedUpTo(Ancestry(m.states, s.id), a.owner.id);
    var left := RunAll(Exits(exited) + a.transition.decl.onTransition, w.vars);
    var history := HistoryAfterExit(m.states, exited, s.id, w.history);
    var entered := TopDown(m, ResolveLeaf(m.states, a.transition.targetId, {}));
    World(
      Destination(m, a.transition.targetId, history),
      w.entered,
      history,
      RunAll(Updates(entered) + Entries(entered), left.(request := 0, requestArg := 0)))
  }

  function ProcessCode(m: Machine, s: FlatState): seq<Code> {
    s.decl.onProcess + if s.decl.isParallel then ChildProcess(m.states, s.id) else []
  }

  function ChildProcess(states: seq<FlatState>, parentId: int): seq<Code> {
    if states == [] then []
    else (if states[0].parentId == parentId then states[0].decl.onProcess else [])
         + ChildProcess(states[1..], parentId)
  }

  ghost function InState(m: Machine, s: FlatState, w: World): World
    requires IsFlat(m.states)
  {
    var v := RunAll(Updates(TopDown(m, s.id)), w.vars);
    match FirstEnabled(Candidates(Ancestry(m.states, s.id)), v, v.request, v.requestArg)
    case Some(a) => Fire(m, s, a, w.(vars := v))
    case None => w.(vars := RunAll(ProcessCode(m, s), v))
  }

  // The latches the machine consumes.
  ghost function Latches(states: seq<FlatState>): set<int> {
    set s, t | s in states && t in s.transitions && t.HasLatch() :: t.id
  }

  // An evaluation, up to the clearing of the latches.
  ghost function Acted(m: Machine, w: World): World
    requires IsFlat(m.states)
  {
    var w0 := InitialEntry(m, w);
    match StateOf(m.states, w0.active)
    case None => w0
    case Some(s) => InState(m, s, w0)
  }

  // An edge is good for one evaluation, whether its transition fired or not.
  ghost function Step(m: Machine, w: World): World
    requires IsFlat(m.states)
  {
    var w1 := Acted(m, w);
    w1.(vars := w1.vars.(latches := w1.vars.latches - Latches(m.states)))
  }

  // -------------------------------------------------------------- the runs

  // What happens to a machine: an evaluation each tick, any code of the domain
  // in between, and init.
  datatype Event = Evaluate | Outside(code: Code) | Init

  function InitWorld(m: Machine, w: World): World {
    w.(active := m.initialId, entered := false)
  }

  ghost function RunStep(m: Machine, w: World, e: Event): World
    requires IsFlat(m.states)
  {
    match e
    case Evaluate => Step(m, w)
    case Outside(code) => w.(vars := code(w.vars))
    case Init => InitWorld(m, w)
  }

  ghost function Run(m: Machine, w: World, events: seq<Event>): World
    requires IsFlat(m.states)
  {
    if events == [] then w
    else RunStep(m, Run(m, w, events[..|events| - 1]), events[|events| - 1])
  }

  ghost predicate Starts(m: Machine, w: World) {
    w.active == m.initialId && !w.entered && w.history == map[]
  }

  // The active id is a state; a history is unset or a state inside its owner.
  ghost predicate Inv(m: Machine, w: World)
    requires IsFlat(m.states)
  {
    && StateOf(m.states, w.active).Some?
    && forall s :: s in m.states ==>
         var h := HistoryOf(w.history, s.decl.name);
         h == 0 || (StateOf(m.states, h).Some? && Within(m.states, h, s.id))
  }

  ghost predicate WellNamed(m: Machine) {
    WellFormed(m) && UniqueNames(m.states) && InitialIsChild(m.states)
  }

  lemma {:induction false} AncestorIsWithin(states: seq<FlatState>, id: int, s: FlatState)
    requires IsFlat(states) && s in Ancestry(states, id)
    ensures Within(states, id, s.id)
    ensures StateOf(states, s.parentId).Some? ==> Within(states, id, s.parentId)
    decreases id
  {
    var first := StateOf(states, id).value;
    if s == first {
      if StateOf(states, s.parentId).Some? {
        assert StateOf(states, s.parentId).value in Ancestry(states, s.parentId);
      }
    } else {
      AncestorIsWithin(states, first.parentId, s);
      if StateOf(states, s.parentId).Some? {
        var p :| p in Ancestry(states, first.parentId) && p.id == s.parentId;
        assert p in Ancestry(states, id);
      }
    }
  }

  lemma {:induction false} ExitedAreAncestors(chain: seq<FlatState>, owner: int)
    ensures forall e :: e in ExitedUpTo(chain, owner) ==> e in chain
  {
    if chain != [] {
      ExitedAreAncestors(chain[1..], owner);
    }
  }

  lemma HistoryValue(
      states: seq<FlatState>, exited: seq<FlatState>, active: int, history: map<string, int>, o: FlatState)
    requires UniqueNames(states) && o in states
    ensures HistoryOf(HistoryAfterExit(states, exited, active, history), o.decl.name)
         == if Touched(exited, o) then active else HistoryOf(history, o.decl.name)
  {
    forall other | other in states && other.decl.name == o.decl.name
      ensures other == o
    {
      var i, j :| 0 <= i < |states| && 0 <= j < |states| && states[i] == o && states[j] == other;
      assert i == j;
    }
  }

  lemma HistoryStaysInside(m: Machine, s: FlatState, exited: seq<FlatState>, w: World)
    requires WellNamed(m) && Inv(m, w) && s in m.states
    requires forall e :: e in exited ==> e in Ancestry(m.states, s.id)
    ensures Inv(m, w.(history := HistoryAfterExit(m.states, exited, s.id, w.history)))
  {
    var history := HistoryAfterExit(m.states, exited, s.id, w.history);
    forall o | o in m.states
      ensures var h := HistoryOf(history, o.decl.name);
              h == 0 || (StateOf(m.states, h).Some? && Within(m.states, h, o.id))
    {
      HistoryValue(m.states, exited, s.id, w.history, o);
      if Touched(exited, o) {
        var e :| e in exited && (e.id == o.id || e.parentId == o.id);
        AncestorIsWithin(m.states, s.id, e);
      }
    }
  }

  // A fired transition leaves the machine inside its target, whichever leaf
  // or history it went to, and keeps the invariant.
  lemma FireKeepsInv(m: Machine, s: FlatState, a: Applicable, w: World)
    requires WellNamed(m) && Inv(m, w) && s in m.states
    requires a.transition.targetId in Ids(m.states)
    ensures Inv(m, Fire(m, s, a, w))
    ensures Within(m.states, Fire(m, s, a, w).active, a.transition.targetId)
  {
    var exited := ExitedUpTo(Ancestry(m.states, s.id), a.owner.id);
    ExitedAreAncestors(Ancestry(m.states, s.id), a.owner.id);
    HistoryStaysInside(m, s, exited, w);
    ResolvesToLeaf(m.states, a.transition.targetId, {});
    var target := StateOf(m.states, a.transition.targetId).value;
    assert target in m.states;
  }

  lemma {:induction false} CandidatesAreOwned(chain: seq<FlatState>, a: Applicable)
    requires a in Candidates(chain)
    ensures a.owner in chain && a.transition in a.owner.transitions
  {
    if a in Owned(chain[0], chain[0].transitions) {
      OwnedBy(chain[0], chain[0].transitions, a);
    } else {
      CandidatesAreOwned(chain[1..], a);
    }
  }

  lemma {:induction false} OwnedBy(s: FlatState, ts: seq<Transition>, a: Applicable)
    requires a in Owned(s, ts)
    ensures a.owner == s && a.transition in ts
  {
    if a != Applicable(ts[0], s) {
      OwnedBy(s, ts[1..], a);
    }
  }

  lemma StepKeepsInv(m: Machine, w: World)
    requires WellNamed(m) && Inv(m, w)
    ensures Inv(m, Step(m, w)) && Step(m, w).entered
    ensures w.entered ==> InitialEntry(m, w) == w
  {
    var w0 := InitialEntry(m, w);
    var s := StateOf(m.states, w0.active).value;
    var v := RunAll(Updates(TopDown(m, s.id)), w0.vars);
    var candidates := Candidates(Ancestry(m.states, s.id));
    var first := FirstEnabled(candidates, v, v.request, v.requestArg);
    if first.Some? {
      CandidatesAreOwned(Ancestry(m.states, s.id), first.value);
      FireKeepsInv(m, s, first.value, w0.(vars := v));
    }
  }

  // Over every run of a well-named machine.
  lemma {:induction false} RunKeepsInv(m: Machine, w: World, events: seq<Event>)
    requires WellNamed(m) && Starts(m, w)
    ensures Inv(m, Run(m, w, events))
  {
    if events != [] {
      RunKeepsInv(m, w, events[..|events| - 1]);
      if events[|events| - 1].Evaluate? {
        StepKeepsInv(m, Run(m, w, events[..|events| - 1]));
      }
    }
  }

  // The machine moves, forgets its request or records history only by firing
  // the first enabled candidate, and then it is inside that one's target.
  lemma MovesOnlyByFiring(m: Machine, w: World)
    requires WellNamed(m) && Inv(m, w) && w.entered
    ensures var s := StateOf(m.states, w.active).value;
            var v := RunAll(Updates(TopDown(m, s.id)), w.vars);
            match FirstEnabled(Candidates(Ancestry(m.states, s.id)), v, v.request, v.requestArg)
            case None =>
              && Step(m, w).active == w.active && Step(m, w).history == w.history
              && Step(m, w).vars.request == RunAll(ProcessCode(m, s), v).request
            case Some(a) =>
              Within(m.states, Step(m, w).active, a.transition.targetId)
  {
    var s := StateOf(m.states, w.active).value;
    var v := RunAll(Updates(TopDown(m, s.id)), w.vars);
    var first := FirstEnabled(Candidates(Ancestry(m.states, s.id)), v, v.request, v.requestArg);
    if first.Some? {
      CandidatesAreOwned(Ancestry(m.states, s.id), first.value);
      FireKeepsInv(m, s, first.value, w.(vars := v));
    }
  }

  // Once evaluated, a machine stays entered until the next init, so its
  // initial entry code runs at most once in between.
  lemma {:induction false} EnteredUntilInit(m: Machine, w: World, events: seq<Event>)
    requires IsFlat(m.states) && w.entered && forall e :: e in events ==> !e.Init?
    ensures Run(m, w, events).entered && InitialEntry(m, Run(m, w, events)) == Run(m, w, events)
  {
    if events != [] {
      EnteredUntilInit(m, w, events[..|events| - 1]);
      assert events[|events| - 1] in events;
    }
  }

  // ------------------------------------------------------- latched edges

  // The variables an evaluation tests its candidates against.
  function Tested(m: Machine, w: World): Vars
    requires IsFlat(m.states)
  {
    var w0 := InitialEntry(m, w);
    match StateOf(m.states, w0.active)
    case None => w0.vars
    case Some(s) => RunAll(Updates(TopDown(m, s.id)), w0.vars)
  }

  // The evaluation fires the latched transition with this id.
  ghost predicate Fires(m: Machine, w: World, id: int)
    requires IsFlat(m.states)
  {
    var w0, v := InitialEntry(m, w), Tested(m, w);
    match StateOf(m.states, w0.active)
    case None => false
    case Some(s) =>
      var first := FirstEnabled(Candidates(Ancestry(m.states, s.id)), v, v.request, v.requestArg);
      first.Some? && first.value.transition.id == id && first.value.transition.HasLatch()
  }

  // Event k of a run turned the latch on.
  ghost predicate TurnsOn(m: Machine, w: World, events: seq<Event>, k: nat, id: int)
    requires IsFlat(m.states)
  {
    && k < |events|
    && id !in Run(m, w, events[..k]).vars.latches && id in Run(m, w, events[..k + 1]).vars.latches
  }

  // A latched transition fires only with its latch on, and its latch is one
  // that evaluations clear.
  lemma FiresLatched(m: Machine, w: World, id: int)
    requires IsFlat(m.states) && Fires(m, w, id)
    ensures id in Tested(m, w).latches && id in Latches(m.states)
  {
    var w0, v := InitialEntry(m, w), Tested(m, w);
    var chain := Ancestry(m.states, StateOf(m.states, w0.active).value.id);
    var a := FirstEnabled(Candidates(chain), v, v.request, v.requestArg).value;
    CandidatesAreOwned(chain, a);
    assert a.owner in m.states && a.transition in a.owner.transitions;
  }

  // The latch is off after a run, or some event since `from` turned it on, code
  // outside the machine.
  lemma {:induction false} OffUntilTurnedOn(m: Machine, w: World, events: seq<Event>, from: nat, to: nat, id: int)
    requires IsFlat(m.states) && id in Latches(m.states) && from <= to <= |events|
    requires id !in Run(m, w, events[..from]).vars.latches && id in Run(m, w, events[..to]).vars.latches
    ensures exists k :: from <= k < to && TurnsOn(m, w, events, k, id) && events[k].Outside?
  {
    assert from < to;
    var k := to - 1;
    assert events[..to][..k] == events[..k] && events[..to][k] == events[k];
    if id in Run(m, w, events[..k]).vars.latches {
      OffUntilTurnedOn(m, w, events, from, k, id);
    } else {
      assert TurnsOn(m, w, events, k, id);
    }
  }

  // One edge fires a latched transition at most once, over every run: between
  // two firings code outside the machine turned the latch on anew, unless code
  // that the second evaluation runs before its tests did.
  lemma OneFiringPerEdge(m: Machine, w: World, events: seq<Event>, first: nat, second: nat, id: int)
    requires IsFlat(m.states) && first < second < |events|
    requires events[first].Evaluate? && Fires(m, Run(m, w, events[..first]), id)
    requires events[second].Evaluate? && Fires(m, Run(m, w, events[..second]), id)
    ensures id in Run(m, w, events[..second]).vars.latches
            ==> exists k :: first < k < second && TurnsOn(m, w, events, k, id) && events[k].Outside?
    ensures id in Tested(m, Run(m, w, events[..second])).latches
  {
    FiresLatched(m, Run(m, w, events[..first]), id);
    FiresLatched(m, Run(m, w, events[..second]), id);
    assert events[..first + 1][..first] == events[..first] && events[..first + 1][first] == events[first];
    hide Fires, Acted, InitialEntry, Tested, Latches;
    if id in Run(m, w, events[..second]).vars.latches {
      OffUntilTurnedOn(m, w, events, first + 1, second, id);
    }
  }
}
