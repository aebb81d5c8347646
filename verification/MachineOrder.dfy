// The order of things in an evaluation, stated over the tree of states: what
// is entered from the root down, what is left from the active state up, which
// transition is found first, and that every part runs once, in turn.
module MachineOrder {
  import opened Arith
  import opened Machines
  import opened MachineStep
  import opened MachineCode
  import opened MachineGraph
  import opened Wrappers

  // ------------------------------------------------------- along the tree

  // From a state up, each the parent of the one before.
  ghost predicate Climbs(states: seq<FlatState>, chain: seq<FlatState>, from: int) {
    && chain != [] && chain[0].id == from
    && (forall k :: 0 <= k < |chain| ==> chain[k] in states)
    && forall k :: 0 <= k < |chain| - 1 ==> chain[k + 1].id == chain[k].parentId
  }

  // From the root down to a state, each a child of the one before.
  ghost predicate Descends(states: seq<FlatState>, chain: seq<FlatState>, to: int) {
    && chain != [] && chain[0].parentId == ROOT_PARENT && chain[|chain| - 1].id == to
    && (forall k :: 0 <= k < |chain| ==> chain[k] in states)
    && forall k :: 0 <= k < |chain| - 1 ==> chain[k + 1].parentId == chain[k].id
  }

  lemma {:induction false} AncestryClimbs(states: seq<FlatState>, id: int)
    requires IsFlat(states) && StateOf(states, id).Some?
    ensures var chain := Ancestry(states, id);
            Climbs(states, chain, id) && chain[|chain| - 1].parentId == ROOT_PARENT
    decreases id
  {
    var s := StateOf(states, id).value;
    if s.parentId == ROOT_PARENT {
      assert Ancestry(states, s.parentId) == [];
    } else {
      AncestryClimbs(states, s.parentId);
    }
  }

  lemma {:induction false} ReverseAt<T>(s: seq<T>, k: nat)
    requires k < |s|
    ensures Reverse(s)[k] == s[|s| - 1 - k]
  {
    if k < |s| - 1 {
      ReverseAt(s[1..], k);
    }
  }

  // What is updated and entered runs from the root to the state.
  lemma TopDownDescends(m: Machine, id: int)
    requires IsFlat(m.states) && StateOf(m.states, id).Some?
    ensures Descends(m.states, TopDown(m, id), id)
  {
    var up, down := Ancestry(m.states, id), TopDown(m, id);
    AncestryClimbs(m.states, id);
    forall k | 0 <= k < |down|
      ensures down[k] == up[|up| - 1 - k]
    {
      ReverseAt(up, k);
    }
  }

  // What is left runs from the active state up to the owner, which is left
  // last.
  ghost predicate LeavesUpTo(states: seq<FlatState>, exited: seq<FlatState>, id: int, owner: int) {
    && Climbs(states, exited, id) && exited[|exited| - 1].id == owner
    && forall k :: 0 <= k < |exited| - 1 ==> exited[k].id != owner
  }

  lemma ExitedClimbs(states: seq<FlatState>, id: int, owner: int)
    requires IsFlat(states) && Within(states, id, owner)
    ensures LeavesUpTo(states, ExitedUpTo(Ancestry(states, id), owner), id, owner)
  {
    AncestryClimbs(states, id);
    ExitedIsPrefix(states, Ancestry(states, id), id, owner);
  }

  lemma {:induction false} ExitedIsPrefix(states: seq<FlatState>, chain: seq<FlatState>, id: int, owner: int)
    requires Climbs(states, chain, id) && chain != [] && exists s :: s in chain && s.id == owner
    ensures LeavesUpTo(states, ExitedUpTo(chain, owner), id, owner)
  {
    hide LeavesUpTo, Climbs;
    if chain[0].id == owner {
      LeavesOne(states, chain, id);
    } else {
      assert chain[1..] != [];
      ClimbsOn(states, chain, id);
      ExitedIsPrefix(states, chain[1..], chain[1].id, owner);
      LeavesMore(states, chain, ExitedUpTo(chain[1..], owner), id, owner);
    }
  }

  lemma LeavesOne(states: seq<FlatState>, chain: seq<FlatState>, id: int)
    requires Climbs(states, chain, id)
    ensures chain != [] && chain[0].id == id && LeavesUpTo(states, [chain[0]], id, id)
  {
  }

  lemma ClimbsOn(states: seq<FlatState>, chain: seq<FlatState>, id: int)
    requires Climbs(states, chain, id) && |chain| > 1
    ensures chain[0].id == id && Climbs(states, chain[1..], chain[1].id)
  {
  }

  lemma LeavesMore(
      states: seq<FlatState>, chain: seq<FlatState>, exited: seq<FlatState>, id: int, owner: int)
    requires Climbs(states, chain, id) && |chain| > 1 && id != owner
    requires LeavesUpTo(states, exited, chain[1].id, owner)
    ensures LeavesUpTo(states, [chain[0]] + exited, id, owner)
  {
    var all := [chain[0]] + exited;
    assert forall k :: 0 < k < |all| ==> all[k] == exited[k - 1];
  }

  // ------------------------------------------------------------- in turn

  // The pieces of code run one after the other.
  ghost predicate Runs(codes: seq<Code>, from: Vars, to: Vars) {
    exists vs :: Through(codes, vs) && vs[0] == from && vs[|codes|] == to
  }

  ghost predicate Through(codes: seq<Code>, vs: seq<Vars>) {
    |vs| == |codes| + 1 && forall k :: 0 <= k < |codes| ==> vs[k + 1] == codes[k](vs[k])
  }

  // Parts of several pieces each run one after the other.
  ghost predicate InTurn(parts: seq<seq<Code>>, from: Vars, to: Vars) {
    exists vs :: Passes(parts, vs) && vs[0] == from && vs[|parts|] == to
  }

  ghost predicate Passes(parts: seq<seq<Code>>, vs: seq<Vars>) {
    |vs| == |parts| + 1 && forall k :: 0 <= k < |parts| ==> Runs(parts[k], vs[k], vs[k + 1])
  }

  lemma {:induction false} RunAllRuns(codes: seq<Code>, v: Vars)
    ensures Runs(codes, v, RunAll(codes, v))
  {
    if codes == [] {
      assert Through(codes, [v]);
    } else {
      RunAllRuns(codes[1..], codes[0](v));
      var rest :| Through(codes[1..], rest) && rest[0] == codes[0](v) && rest[|codes[1..]|] == RunAll(codes, v);
      var vs := [v] + rest;
      forall k | 0 <= k < |codes|
        ensures vs[k + 1] == codes[k](vs[k])
      {
        if k > 0 {
          assert codes[k] == codes[1..][k - 1];
        }
      }
      assert Through(codes, vs);
    }
  }

  lemma PassOne(part: seq<Code>, parts: seq<seq<Code>>, from: Vars, to: Vars)
    requires InTurn(parts, RunAll(part, from), to)
    ensures InTurn([part] + parts, from, to)
  {
    hide Runs;
    var rest :| Passes(parts, rest) && rest[0] == RunAll(part, from) && rest[|parts|] == to;
    RunAllRuns(part, from);
    var vs, all := [from] + rest, [part] + parts;
    forall k | 0 <= k < |all|
      ensures Runs(all[k], vs[k], vs[k + 1])
    {
      if k > 0 {
        assert all[k] == parts[k - 1];
      }
    }
    assert Passes(all, vs);
  }

  lemma PassNone(v: Vars)
    ensures InTurn([], v, v)
  {
    assert Passes([], [v]);
  }

  datatype Part = Update | Entry | Exit | Process

  function CodeOf(s: FlatState, part: Part): seq<Code> {
    match part
    case Update => s.decl.updateGuard
    case Entry => s.decl.onEntry
    case Exit => s.decl.onExit
    case Process => s.decl.onProcess
  }

  function PartsOf(chain: seq<FlatState>, part: Part): (parts: seq<seq<Code>>)
    ensures |parts| == |chain| && forall k :: 0 <= k < |chain| ==> parts[k] == CodeOf(chain[k], part)
  {
    seq(|chain|, k requires 0 <= k < |chain| => CodeOf(chain[k], part))
  }

  lemma FirstPart(chain: seq<FlatState>, part: Part)
    requires chain != []
    ensures PartsOf(chain, part) == [CodeOf(chain[0], part)] + PartsOf(chain[1..], part)
  {
  }

  // The code of every state on the way runs once, in that order.
  lemma {:induction false} RunsInTurn(chain: seq<FlatState>, v: Vars)
    ensures InTurn(PartsOf(chain, Update), v, RunAll(Updates(chain), v))
    ensures InTurn(PartsOf(chain, Entry), v, RunAll(Entries(chain), v))
    ensures InTurn(PartsOf(chain, Exit), v, RunAll(Exits(chain), v))
  {
    hide InTurn;
    if chain == [] {
      PassNone(v);
      assert PartsOf(chain, Update) == [] == PartsOf(chain, Entry) == PartsOf(chain, Exit);
    } else {
      var d, rest := chain[0].decl, chain[1..];
      FirstPart(chain, Update);
      FirstPart(chain, Entry);
      FirstPart(chain, Exit);
      RunAllAppend(d.updateGuard, Updates(rest), v);
      RunAllAppend(d.onEntry, Entries(rest), v);
      RunAllAppend(d.onExit, Exits(rest), v);
      RunsInTurn(rest, RunAll(d.updateGuard, v));
      RunsInTurn(rest, RunAll(d.onEntry, v));
      RunsInTurn(rest, RunAll(d.onExit, v));
      PassOne(d.updateGuard, PartsOf(rest, Update), v, RunAll(Updates(chain), v));
      PassOne(d.onEntry, PartsOf(rest, Entry), v, RunAll(Entries(chain), v));
      PassOne(d.onExit, PartsOf(rest, Exit), v, RunAll(Exits(chain), v));
    }
  }

  // ------------------------------------------------------ initial entry

  // The first evaluation enters the machine from the root down.
  lemma InitialEntryDescends(m: Machine, w: World) returns (entered: seq<FlatState>)
    requires WellFormed(m) && !w.entered
    ensures Descends(m.states, entered, m.initialId)
    ensures InTurn(PartsOf(entered, Entry), w.vars, InitialEntry(m, w).vars)
    ensures InitialEntry(m, w) == w.(entered := true, vars := InitialEntry(m, w).vars)
  {
    entered := TopDown(m, m.initialId);
    TopDownDescends(m, m.initialId);
    RunsInTurn(entered, w.vars);
  }

  // ------------------------------------------------------------- firing

  // The stages of a firing: the states left and the ones entered, and the
  // variables after the exits, after the transition's own code, and after the
  // guards of what is entered are updated.
  datatype Firing = Firing(
    exited: seq<FlatState>, path: seq<int>, entered: seq<FlatState>, left: Vars, moved: Vars, updated: Vars)

  ghost predicate Fired(m: Machine, s: FlatState, a: Applicable, w: World, after: World, f: Firing) {
    // left from the active state up to the owner
    && LeavesUpTo(m.states, f.exited, s.id, a.owner.id)
    && InTurn(PartsOf(f.exited, Exit), w.vars, f.left)
    && Runs(a.transition.decl.onTransition, f.left, f.moved)
    // the target, and the initial states below it
    && InitialPath(m.states, f.path) && Stops(m.states, f.path) && f.path[0] == a.transition.targetId
    && Descends(m.states, f.entered, f.path[|f.path| - 1])
    // the request is used up before anything is entered
    && InTurn(PartsOf(f.entered, Update), f.moved.(request := 0, requestArg := 0), f.updated)
    && InTurn(PartsOf(f.entered, Entry), f.updated, after.vars)
    && after.entered == w.entered
    && Resumes(m, a.transition.targetId, f.path[|f.path| - 1], after)
    && (UniqueNames(m.states) ==> Remembers(m, s.id, f.exited, w, after))
  }

  // The target's history decides where the machine is, if it resumes and has
  // one, and its leaf otherwise.
  ghost predicate Resumes(m: Machine, target: int, leaf: int, after: World) {
    exists t :: t in m.states && t.id == target
                && var h := HistoryOf(after.history, t.decl.name);
                   after.active == if t.decl.resumeLastState && h != 0 then h else leaf
  }

  // A resuming state that is left, or a child of which is left, remembers the
  // active state; every other history stays.
  ghost predicate Remembers(m: Machine, active: int, exited: seq<FlatState>, w: World, after: World) {
    forall o :: o in m.states ==>
      HistoryOf(after.history, o.decl.name)
      == if o.decl.resumeLastState && (exists e :: e in exited && (e.id == o.id || e.parentId == o.id)) then active
         else HistoryOf(w.history, o.decl.name)
  }

  lemma FiresInOrder(m: Machine, s: FlatState, a: Applicable, w: World) returns (f: Firing)
    requires WellFormed(m) && s in m.states && a.owner in Ancestry(m.states, s.id)
    requires a.transition.targetId in Ids(m.states)
    ensures Fired(m, s, a, w, Fire(m, s, a, w), f)
  {
    var target := a.transition.targetId;
    var exited := ExitedUpTo(Ancestry(m.states, s.id), a.owner.id);
    var path := LeafPath(m.states, target);
    var leaf := path[|path| - 1];
    var entered := TopDown(m, leaf);
    var left := RunAll(Exits(exited), w.vars);
    var moved := RunAll(a.transition.decl.onTransition, left);
    var cleared := moved.(request := 0, requestArg := 0);
    var updated := RunAll(Updates(entered), cleared);
    f := Firing(exited, path, entered, left, moved, updated);
    ExitedClimbs(m.states, s.id, a.owner.id);
    TopDownDescends(m, leaf);
    RunsInTurn(exited, w.vars);
    RunAllRuns(a.transition.decl.onTransition, left);
    RunAllAppend(Exits(exited), a.transition.decl.onTransition, w.vars);
    RunAllAppend(Updates(entered), Entries(entered), cleared);
    RunsInTurn(entered, cleared);
    RunsInTurn(entered, updated);
    FiredHistory(m, s, a, w, exited, leaf);
  }

  lemma FiredHistory(m: Machine, s: FlatState, a: Applicable, w: World, exited: seq<FlatState>, leaf: int)
    requires WellFormed(m) && a.transition.targetId in Ids(m.states)
    requires exited == ExitedUpTo(Ancestry(m.states, s.id), a.owner.id)
    requires leaf == ResolveLeaf(m.states, a.transition.targetId, {})
    ensures Resumes(m, a.transition.targetId, leaf, Fire(m, s, a, w))
    ensures UniqueNames(m.states) ==> Remembers(m, s.id, exited, w, Fire(m, s, a, w))
  {
    hide RunAll, HistoryAfterExit, HistoryOf, Remembers, UniqueNames, ExitedUpTo, Ancestry, ResolveLeaf, TopDown;
    var target := StateOf(m.states, a.transition.targetId).value;
    assert target in m.states && target.id == a.transition.targetId;
    if UniqueNames(m.states) {
      LeftRemember(m, s.id, exited, w, Fire(m, s, a, w));
    }
  }

  lemma LeftRemember(m: Machine, active: int, exited: seq<FlatState>, w: World, after: World)
    requires UniqueNames(m.states) && after.history == HistoryAfterExit(m.states, exited, active, w.history)
    ensures Remembers(m, active, exited, w, after)
  {
    hide HistoryAfterExit, HistoryOf, UniqueNames;
    forall o | o in m.states
      ensures HistoryOf(after.history, o.decl.name)
           == if o.decl.resumeLastState && (exists e :: e in exited && (e.id == o.id || e.parentId == o.id)) then active
              else HistoryOf(w.history, o.decl.name)
    {
      HistoryValue(m.states, exited, active, w.history, o);
    }
  }

  lemma LeafPath(states: seq<FlatState>, id: int) returns (path: seq<int>)
    requires IsFlat(states) && id in Ids(states)
    ensures InitialPath(states, path) && Stops(states, path) && path[0] == id
    ensures path[|path| - 1] == ResolveLeaf(states, id, {}) && StateOf(states, path[|path| - 1]).Some?
  {
    var none: seq<int> := [];
    assert none + [id] == [id] && (set v | v in none) == {};
    path := ResolvesAlongNames(states, id, none);
  }

  // ----------------------------------------------------------- selection

  // The transition at place (k, j) of the chain is enabled, and none before it:
  // of a state nearer to the active one, or earlier in the same state.
  ghost predicate FirstAt(chain: seq<FlatState>, v: Vars, k: int, j: int) {
    && 0 <= k < |chain| && 0 <= j < |chain[k].transitions|
    && Enabled(chain[k].transitions[j], v, v.request, v.requestArg)
    && forall k', j' :: (0 <= k' < k && 0 <= j' < |chain[k'].transitions|) || (k' == k && 0 <= j' < j) ==>
         !Enabled(chain[k'].transitions[j'], v, v.request, v.requestArg)
  }

  ghost predicate NoneEnabled(ts: seq<Transition>, v: Vars) {
    forall j :: 0 <= j < |ts| ==> !Enabled(ts[j], v, v.request, v.requestArg)
  }

  ghost predicate Selects(chain: seq<FlatState>, v: Vars, first: Option<Applicable>) {
    match first
    case None => forall k :: 0 <= k < |chain| ==> NoneEnabled(chain[k].transitions, v)
    case Some(a) => exists k, j :: FirstAt(chain, v, k, j) && a == Applicable(chain[k].transitions[j], chain[k])
  }

  lemma {:induction false} FirstOfBoth(a: seq<Applicable>, b: seq<Applicable>, v: Vars)
    ensures FirstEnabled(a + b, v, v.request, v.requestArg)
         == var first := FirstEnabled(a, v, v.request, v.requestArg);
            if first.Some? then first else FirstEnabled(b, v, v.request, v.requestArg)
  {
    if a == [] {
      assert a + b == b;
    } else {
      assert (a + b)[1..] == a[1..] + b;
      FirstOfBoth(a[1..], b, v);
    }
  }

  // Within one state, declaration order decides.
  lemma {:induction false} FirstOwned(s: FlatState, ts: seq<Transition>, v: Vars)
    ensures match FirstEnabled(Owned(s, ts), v, v.request, v.requestArg)
            case None => NoneEnabled(ts, v)
            case Some(a) => exists j :: 0 <= j < |ts| && a == Applicable(ts[j], s) && NoneEnabled(ts[..j], v)
                                        && Enabled(ts[j], v, v.request, v.requestArg)
  {
    hide Enabled;
    if ts != [] {
      var owned := Owned(s, ts);
      assert owned[1..] == Owned(s, ts[1..]);
      if Enabled(ts[0], v, v.request, v.requestArg) {
        assert NoneEnabled(ts[..0], v);
      } else {
        FirstOwned(s, ts[1..], v);
        var first := FirstEnabled(Owned(s, ts[1..]), v, v.request, v.requestArg);
        if first.Some? {
          var j :| 0 <= j < |ts[1..]| && first.value == Applicable(ts[1..][j], s) && NoneEnabled(ts[1..][..j], v)
                   && Enabled(ts[1..][j], v, v.request, v.requestArg);
          NoneBefore(ts, j, v);
          assert first.value == Applicable(ts[j + 1], s) && NoneEnabled(ts[..j + 1], v);
        } else {
          assert forall j :: 0 < j < |ts| ==> ts[j] == ts[1..][j - 1];
        }
      }
    }
  }

  lemma NoneBefore(ts: seq<Transition>, j: nat, v: Vars)
    requires j < |ts| && !Enabled(ts[0], v, v.request, v.requestArg) && NoneEnabled(ts[1..][..j], v)
    ensures NoneEnabled(ts[..j + 1], v)
  {
    hide Enabled;
    assert ts[..j + 1] == [ts[0]] + ts[1..][..j];
  }

  // Between states, the one nearer to the active state.
  lemma {:induction false} SelectsFirst(chain: seq<FlatState>, v: Vars)
    ensures Selects(chain, v, FirstEnabled(Candidates(chain), v, v.request, v.requestArg))
  {
    hide Enabled, Owned, FirstEnabled;
    if chain == [] {
      NoCandidate(v);
    } else {
      var s, rest := chain[0], chain[1..];
      FirstOfBoth(Owned(s, s.transitions), Candidates(rest), v);
      FirstOwned(s, s.transitions, v);
      SelectsFirst(rest, v);
      var own := FirstEnabled(Owned(s, s.transitions), v, v.request, v.requestArg);
      if own.Some? {
        var j :| 0 <= j < |s.transitions| && own.value == Applicable(s.transitions[j], s)
                 && NoneEnabled(s.transitions[..j], v) && Enabled(s.transitions[j], v, v.request, v.requestArg);
        assert forall i :: 0 <= i < j ==> s.transitions[..j][i] == s.transitions[i];
        assert FirstAt(chain, v, 0, j);
      } else {
        SelectsAbove(chain, v, FirstEnabled(Candidates(rest), v, v.request, v.requestArg));
      }
    }
  }

  lemma NoCandidate(v: Vars)
    ensures FirstEnabled(Candidates([]), v, v.request, v.requestArg) == None
  {
  }

  lemma SelectsAbove(chain: seq<FlatState>, v: Vars, first: Option<Applicable>)
    requires chain != [] && NoneEnabled(chain[0].transitions, v) && Selects(chain[1..], v, first)
    ensures Selects(chain, v, first)
  {
    hide Enabled;
    var rest := chain[1..];
    if first.Some? {
      var k, j :| FirstAt(rest, v, k, j) && first.value == Applicable(rest[k].transitions[j], rest[k]);
      forall k', j' | (0 <= k' < k + 1 && 0 <= j' < |chain[k'].transitions|) || (k' == k + 1 && 0 <= j' < j)
        ensures !Enabled(chain[k'].transitions[j'], v, v.request, v.requestArg)
      {
        if k' > 0 {
          assert chain[k'] == rest[k' - 1];
        }
      }
      assert FirstAt(chain, v, k + 1, j);
    } else {
      assert forall k :: 0 < k < |chain| ==> chain[k] == rest[k - 1];
    }
  }

  // ----------------------------------------------------------- processing

  // All states under a state, by their ids.
  ghost predicate ChildrenInOrder(states: seq<FlatState>, parentId: int, children: seq<FlatState>) {
    (forall c :: c in children <==> c in states && c.parentId == parentId) && Sorted(children)
  }

  ghost predicate Sorted(states: seq<FlatState>) {
    forall i, j :: 0 <= i < j < |states| ==> states[i].id < states[j].id
  }

  lemma {:induction false} ChildrenInTurn(states: seq<FlatState>, parentId: int, v: Vars)
    returns (children: seq<FlatState>)
    requires Sorted(states)
    ensures ChildrenInOrder(states, parentId, children)
    ensures InTurn(PartsOf(children, Process), v, RunAll(ChildProcess(states, parentId), v))
  {
    hide InTurn, ChildrenInOrder, Sorted;
    if states == [] {
      children := NoChildren(states, parentId);
      PassNone(v);
    } else {
      var first, rest := states[0], states[1..];
      RestIsSorted(states);
      if first.parentId == parentId {
        var code := first.decl.onProcess;
        var others := ChildrenInTurn(rest, parentId, RunAll(code, v));
        children := [first] + others;
        MoreChildren(states, parentId, others);
        RunAllAppend(code, ChildProcess(rest, parentId), v);
        FirstPart(children, Process);
        assert children[1..] == others;
        PassOne(code, PartsOf(others, Process), v, RunAll(ChildProcess(states, parentId), v));
      } else {
        children := ChildrenInTurn(rest, parentId, v);
        MoreChildren(states, parentId, children);
        assert [] + children == children;
        assert [] + ChildProcess(rest, parentId) == ChildProcess(rest, parentId);
      }
    }
  }

  lemma NoChildren(states: seq<FlatState>, parentId: int) returns (children: seq<FlatState>)
    requires states == []
    ensures children == [] && ChildrenInOrder(states, parentId, children) && PartsOf(children, Process) == []
  {
    children := [];
  }

  lemma RestIsSorted(states: seq<FlatState>)
    requires Sorted(states) && states != []
    ensures Sorted(states[1..])
  {
  }

  lemma MoreChildren(states: seq<FlatState>, parentId: int, others: seq<FlatState>)
    requires states != [] && Sorted(states) && ChildrenInOrder(states[1..], parentId, others)
    ensures ChildrenInOrder(states, parentId, (if states[0].parentId == parentId then [states[0]] else []) + others)
  {
    hide Sorted;
    var first, rest := states[0], states[1..];
    assert [] + others == others;
    assert forall c :: c in states <==> c == first || c in rest by {
      assert states == [first] + rest;
    }
    if first.parentId == parentId {
      forall c | c in others
        ensures first.id < c.id
      {
        FirstIsLowest(states, c);
      }
      SortedMore(first, others);
    }
  }

  lemma SortedMore(first: FlatState, others: seq<FlatState>)
    requires Sorted(others) && forall c :: c in others ==> first.id < c.id
    ensures Sorted([first] + others)
  {
  }

  lemma FirstIsLowest(states: seq<FlatState>, c: FlatState)
    requires states != [] && Sorted(states) && c in states[1..]
    ensures states[0].id < c.id
  {
    var i :| 0 <= i < |states[1..]| && states[1..][i] == c;
    assert states[i + 1] == c;
  }

  lemma ProcessInTurn(m: Machine, s: FlatState, w: World, v: Vars) returns (children: seq<FlatState>)
    requires IsFlat(m.states)
    ensures Processes(m, s, children, w.(vars := v), w.(vars := RunAll(ProcessCode(m, s), v)))
  {
    hide InTurn;
    var own := s.decl.onProcess;
    children := ChildrenInTurn(m.states, s.id, RunAll(own, v));
    if s.decl.isParallel {
      RunAllAppend(own, ChildProcess(m.states, s.id), v);
      PassOne(own, PartsOf(children, Process), v, RunAll(ProcessCode(m, s), v));
    } else {
      assert own + [] == own;
      PassNone(RunAll(own, v));
      PassOne(own, [], v, RunAll(own, v));
    }
  }

  // ---------------------------------------------------- a whole evaluation

  // What happens on the way of an evaluation: the world after initial entry,
  // the variables the transitions are tested against, and the world before the
  // latches are cleared.
  datatype Evaluation = Evaluation(
    initial: seq<FlatState>, entry: World, refreshed: seq<FlatState>, tested: Vars, chain: seq<FlatState>,
    first: Option<Applicable>, firing: Option<Firing>, children: seq<FlatState>, acted: World)

  ghost predicate Evaluates(m: Machine, w: World, after: World, e: Evaluation) {
    && Enters(m, w, e.initial, e.entry)
    && Descends(m.states, e.refreshed, w.active)
    && InTurn(PartsOf(e.refreshed, Update), e.entry.vars, e.tested)
    && Climbs(m.states, e.chain, w.active) && e.chain[|e.chain| - 1].parentId == ROOT_PARENT
    && Selects(e.chain, e.tested, e.first)
    && (match e.first
        case Some(a) => e.firing.Some? && Fired(m, e.chain[0], a, e.entry.(vars := e.tested), e.acted, e.firing.value)
        case None => Processes(m, e.chain[0], e.children, e.entry.(vars := e.tested), e.acted))
    && after == e.acted.(vars := e.acted.vars.(latches := e.acted.vars.latches - Latches(m.states)))
  }

  // Only the first evaluation enters the machine.
  ghost predicate Enters(m: Machine, w: World, initial: seq<FlatState>, entry: World) {
    if w.entered then entry == w
    else
      && Descends(m.states, initial, m.initialId)
      && InTurn(PartsOf(initial, Entry), w.vars, entry.vars)
      && entry == w.(entered := true, vars := entry.vars)
  }

  // Without a transition to fire, the state's process code runs, and then, in
  // a parallel state, that of each of its children.
  ghost predicate Processes(m: Machine, s: FlatState, children: seq<FlatState>, w: World, after: World) {
    && ChildrenInOrder(m.states, s.id, children)
    && InTurn([s.decl.onProcess] + if s.decl.isParallel then PartsOf(children, Process) else [], w.vars, after.vars)
    && after == w.(vars := after.vars)
  }

  // The step does all that, in that order, for every machine.
  lemma StepInOrder(m: Machine, w: World) returns (e: Evaluation)
    requires WellFormed(m) && StateOf(m.states, w.active).Some?
    ensures Evaluates(m, w, Step(m, w), e) && e.tested == Tested(m, w)
  {
    hide Tested, Descends, Climbs, InTurn, Selects, Fired, Processes, Enters, Fire, ProcessCode, FirstEnabled, RunAll, Latches,
         Acted, InitialEntry, Candidates, Ancestry, TopDown, Reverse, ResolveLeaf, Updates;
    var s := StateOf(m.states, w.active).value;
    var initial := EntersInOrder(m, w);
    var w0 := InitialEntry(m, w);
    var refreshed, chain := TopDown(m, w.active), Ancestry(m.states, w.active);
    var v := RunAll(Updates(refreshed), w0.vars);
    TestedIs(m, w);
    TopDownDescends(m, w.active);
    RunsInTurn(refreshed, w0.vars);
    AncestryClimbs(m.states, w.active);
    SelectsFirst(chain, v);
    var first := FirstEnabled(Candidates(chain), v, v.request, v.requestArg);
    ActsOnFirst(m, w, v, first);
    var firing, children := None, [];
    if first.Some? {
      SelectedIsCandidate(m, chain, v);
      var f := FiresInOrder(m, s, first.value, w0.(vars := v));
      firing := Some(f);
    } else {
      children := ProcessInTurn(m, s, w0, v);
    }
    e := Evaluation(initial, w0, refreshed, v, chain, first, firing, children, Acted(m, w));
  }

  lemma TestedIs(m: Machine, w: World)
    requires WellFormed(m) && StateOf(m.states, w.active).Some?
    ensures Tested(m, w) == RunAll(Updates(TopDown(m, w.active)), InitialEntry(m, w).vars)
  {
    hide RunAll, TopDown;
  }

  lemma EntersInOrder(m: Machine, w: World) returns (initial: seq<FlatState>)
    requires WellFormed(m)
    ensures Enters(m, w, initial, InitialEntry(m, w))
  {
    initial := [];
    if !w.entered {
      initial := InitialEntryDescends(m, w);
    }
  }

  lemma SelectedIsCandidate(m: Machine, chain: seq<FlatState>, v: Vars)
    requires WellFormed(m) && forall s :: s in chain ==> s in m.states
    ensures var first := FirstEnabled(Candidates(chain), v, v.request, v.requestArg);
            first.Some? ==> first.value.owner in chain && first.value.transition.targetId in Ids(m.states)
  {
    var first := FirstEnabled(Candidates(chain), v, v.request, v.requestArg);
    if first.Some? {
      CandidatesAreOwned(chain, first.value);
    }
  }

  lemma ActsOnFirst(m: Machine, w: World, v: Vars, first: Option<Applicable>)
    requires WellFormed(m) && StateOf(m.states, w.active).Some?
    requires v == RunAll(Updates(TopDown(m, w.active)), InitialEntry(m, w).vars)
    requires first == FirstEnabled(Candidates(Ancestry(m.states, w.active)), v, v.request, v.requestArg)
    ensures var w0, s := InitialEntry(m, w), StateOf(m.states, w.active).value;
            && s in m.states && s.id == w.active && Ancestry(m.states, w.active) != []
            && Ancestry(m.states, w.active)[0] == s
            && Acted(m, w) == (if first.Some? then Fire(m, s, first.value, w0.(vars := v))
                               else w0.(vars := RunAll(ProcessCode(m, s), v)))
  {
    hide Fire, ProcessCode, FirstEnabled, RunAll;
  }

  // After an init the next evaluation starts over: it enters the machine from
  // the root and goes on from the initial state. Histories and variables stay.
  lemma InitStartsOver(m: Machine, w: World, events: seq<Event>) returns (e: Evaluation)
    requires WellFormed(m)
    ensures var before, after := Run(m, w, events), Run(m, w, events + [Init, Evaluate]);
            && Evaluates(m, before.(active := m.initialId, entered := false), after, e)
            && Descends(m.states, e.initial, m.initialId)
            && InTurn(PartsOf(e.initial, Entry), before.vars, e.entry.vars)
            && e.chain != [] && e.chain[0].id == m.initialId && e.entry.history == before.history
  {
    hide *;
    var restarted := Restarted(m, w, events);
    e := StepInOrder(m, restarted);
    EntersAnew(m, restarted, Step(m, restarted), e);
  }

  lemma Restarted(m: Machine, w: World, events: seq<Event>) returns (restarted: World)
    requires WellFormed(m)
    ensures IsFlat(m.states) && StateOf(m.states, restarted.active).Some?
    ensures restarted == Run(m, w, events).(active := m.initialId, entered := false)
    ensures Run(m, w, events + [Init, Evaluate]) == Step(m, restarted)
  {
    hide Step;
    assert (events + [Init])[..|events|] == events;
    assert (events + [Init, Evaluate])[..|events| + 1] == events + [Init];
    restarted := Run(m, w, events + [Init]);
  }

  lemma EntersAnew(m: Machine, w: World, after: World, e: Evaluation)
    requires Evaluates(m, w, after, e) && !w.entered
    ensures Descends(m.states, e.initial, m.initialId) && InTurn(PartsOf(e.initial, Entry), w.vars, e.entry.vars)
    ensures e.chain != [] && e.chain[0].id == w.active && e.entry.history == w.history
  {
    hide Descends, InTurn, Fired, Processes, Selects;
  }

  // And so does the emitted graph.
  lemma GraphInOrder(m: Machine, w: World, request: int, arg: int, extra: nat) returns (after: World, e: Evaluation)
    requires WellFormed(m) && StateOf(m.states, w.active).Some?
    ensures Exec(Program(m), ENTRY, Config(w, request, arg), |Program(m)| + extra) == Some(after)
    ensures Evaluates(m, w, after, e)
  {
    hide Exec, Program, Step, Evaluates;
    GraphIsStep(m, w, request, arg, extra);
    e := StepInOrder(m, w);
    after := Step(m, w);
  }

  // ----------------------------------------------------------- conditions

  // No request is 0 and ids start at 1, so without a request only latched
  // transitions and those that ask for none can fire.
  lemma NoRequestNoFiring(m: Machine, chain: seq<FlatState>, v: Vars)
    requires Numbered(m.states) && (forall s :: s in chain ==> s in m.states) && v.request == 0
    ensures var first := FirstEnabled(Candidates(chain), v, v.request, v.requestArg);
            first.Some? ==> first.value.transition.HasLatch() || first.value.transition.decl.triggerOnGuard
  {
    var first := FirstEnabled(Candidates(chain), v, v.request, v.requestArg);
    if first.Some? {
      CandidatesAreOwned(chain, first.value);
      PositiveId(m.states, first.value.owner, first.value.transition);
    }
  }

  lemma {:induction false} BeforeIsNatural(states: seq<FlatState>, i: int)
    requires 0 <= i <= |states|
    ensures TransitionsBefore(states, i) >= 0
  {
    if i > 0 {
      BeforeIsNatural(states, i - 1);
    }
  }

  lemma PositiveId(states: seq<FlatState>, s: FlatState, t: Transition)
    requires Numbered(states) && s in states && t in s.transitions
    ensures t.id >= 1
  {
    var i :| 0 <= i < |states| && states[i] == s;
    var k :| 0 <= k < |s.transitions| && s.transitions[k] == t;
    BeforeIsNatural(states, i);
  }

  const HALF := 0x8000_0000

  predicate Int32(x: int) {
    -HALF <= x < HALF
  }

  // The generator counts from its start in its steps.
  predicate OnStep(d: TransitionDecl, arg: int)
    requires d.rangeStep != 0
  {
    (arg - d.rangeStart) % d.rangeStep == 0
  }

  function StepSize(d: TransitionDecl): nat {
    if d.rangeStep < 0 then -d.rangeStep else d.rangeStep
  }

  // How far beyond 2^31 the first argument lies whose distance to the start
  // loses or gains divisibility when it is wrapped to 32 bits.
  function FirstLost(size: nat): int
    requires size > 0
  {
    var r := HALF % size;
    HALF + if r <= size - r then r else size - r
  }

  // The emitted test accepts exactly the arguments on a step if and only if the
  // step divides 2^32 or the range is too short for a wrong answer.
  lemma StepTestExactly(d: TransitionDecl)
    requires Int32(d.rangeStart) && Int32(d.rangeEnd) && StepSize(d) > 1
    ensures (forall arg :: d.rangeStart <= arg <= d.rangeEnd ==> (InRange(d, arg) <==> OnStep(d, arg)))
            <==> (2 * HALF) % StepSize(d) == 0 || d.rangeEnd - d.rangeStart < FirstLost(StepSize(d))
  {
    var size := StepSize(d);
    if (2 * HALF) % size == 0 || d.rangeEnd - d.rangeStart < FirstLost(size) {
      forall arg | d.rangeStart <= arg <= d.rangeEnd
        ensures InRange(d, arg) <==> OnStep(d, arg)
      {
        WrappedAgrees(size, arg - d.rangeStart);
        SameSize(d, arg - d.rangeStart);
        SameSize(d, Wrap32(arg - d.rangeStart));
      }
    } else {
      var arg := d.rangeStart + FirstLost(size);
      WrappedDiffers(size);
      SameSize(d, FirstLost(size));
      SameSize(d, Wrap32(FirstLost(size)));
      assert InRange(d, arg) != OnStep(d, arg);
    }
  }

  lemma SameSize(d: TransitionDecl, x: int)
    requires StepSize(d) > 1
    ensures x % d.rangeStep == x % StepSize(d)
  {
    var step, size := d.rangeStep, StepSize(d);
    if step < 0 {
      var q := x / step;
      assert x == q * step + x % step;
      assert q * step == (-q) * size;
      DivModUnique(x, size, -q, x % step);
    }
  }

  lemma Wrapped(x: int)
    requires 0 <= x < 2 * HALF
    ensures Wrap32(x) == if x < HALF then x else x - 2 * HALF
  {
  }

  lemma WrappedAgrees(size: nat, x: int)
    requires size > 1 && 0 <= x < 2 * HALF
    requires (2 * HALF) % size == 0 || x < FirstLost(size)
    ensures Wrap32(x) % size == 0 <==> x % size == 0
  {
    Wrapped(x);
    var q, r, t := HALF / size, HALF % size, x - HALF;
    if x >= HALF && (2 * HALF) % size == 0 {
      var p := 2 * HALF / size;
      assert x == (x / size) * size + x % size;
      assert x - 2 * HALF == (x / size - p) * size + x % size by {
        assert 2 * HALF == p * size;
      }
      DivModUnique(x - 2 * HALF, size, x / size - p, x % size);
    } else if x >= HALF {
      assert HALF == q * size + r;
      DivModUnique(x, size, q, r + t);
      assert x - 2 * HALF == -(q + 1) * size + (size - r + t);
      DivModUnique(x - 2 * HALF, size, -(q + 1), size - r + t);
    }
  }

  lemma WrappedDiffers(size: nat)
    requires size > 1 && (2 * HALF) % size != 0 && FirstLost(size) < 2 * HALF
    ensures Wrap32(FirstLost(size)) % size == 0 <==> FirstLost(size) % size != 0
  {
    var q, r := HALF / size, HALF % size;
    assert HALF == q * size + r;
    Wrapped(FirstLost(size));
    hide Wrap32;
    if 2 * r < size {
      GainedMultiple(size, q, r);
    } else {
      LostMultiple(size, q, r);
    }
  }

  lemma GainedMultiple(size: nat, q: int, r: int)
    requires size > 1 && HALF == q * size + r && 0 <= 2 * r < size && (2 * HALF) % size != 0
    ensures (HALF + r) % size != 0 && (r - HALF) % size == 0
  {
    DivModUnique(2 * HALF, size, 2 * q, 2 * r);
    DivModUnique(HALF + r, size, q, 2 * r);
    DivModUnique(r - HALF, size, -q, 0);
  }

  lemma LostMultiple(size: nat, q: int, r: int)
    requires size > 1 && HALF == q * size + r && size <= 2 * r < 2 * size && (2 * HALF) % size != 0
    ensures (HALF + size - r) % size == 0 && (size - r - HALF) % size != 0
  {
    DivModUnique(2 * HALF, size, 2 * q + 1, 2 * r - size);
    DivModUnique(HALF + size - r, size, q + 1, 0);
    DivModUnique(size - r - HALF, size, -q - 1, 2 * size - 2 * r);
  }
}
