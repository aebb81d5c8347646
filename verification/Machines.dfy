// State machines as declared, and as the flat list of states the compiler
// works on: flattening, loading transitions, resolving initial states.
module Machines {
  import opened Wrappers

  // The variables user code can reach: the request it raises, the latches its
  // assignments to trigger switches set, and everything else.
  datatype Vars = Vars(request: int, requestArg: int, latches: set<int>, data: map<string, int>)

  // One compiled expression of a state or transition.
  type Code = Vars -> Vars

  datatype TriggerProperty = NoTrigger | Switch(name: string) | UnusableTrigger

  datatype TransitionDecl = TransitionDecl(
    target: Option<string>,
    triggerOnGuard: bool,
    trigger: TriggerProperty,
    isGenerator: bool,
    rangeStart: int,
    rangeEnd: int,
    rangeStep: int,
    guard: seq<Vars -> bool>,
    onTransition: seq<Code>)

  datatype StateDecl = StateDecl(
    name: string,
    isParallel: bool,
    resumeLastState: bool,
    initialState: Option<string>,
    updateGuard: seq<Code>,
    onEntry: seq<Code>,
    onProcess: seq<Code>,
    onExit: seq<Code>,
    transitions: seq<TransitionDecl>,
    states: seq<StateDecl>)

  datatype Transition = Transition(id: int, targetId: int, decl: TransitionDecl) {
    predicate HasLatch() {
      decl.trigger.Switch?
    }
  }

  datatype FlatState = FlatState(id: int, parentId: int, decl: StateDecl, transitions: seq<Transition>)

  // ------------------------------------------------------------- flattening

  const ROOT_PARENT := -1
  const FIRST_ID := 1

  // A state, then its children's subtrees in declaration order.
  function FlatTree(node: StateDecl, id: int, parentId: int): (flat: seq<FlatState>)
    ensures |flat| > 0
    decreases node, 0
  {
    [FlatState(id, parentId, node, [])] + FlatForest(node.states, id + 1, id)
  }

  function FlatForest(nodes: seq<StateDecl>, id: int, parentId: int): seq<FlatState>
    decreases nodes
  {
    if nodes == [] then []
    else
      var first := FlatTree(nodes[0], id, parentId);
      first + FlatForest(nodes[1..], id + |first|, parentId)
  }

  class StateMachine {
    var idCounter: int
    var flattenedStates: seq<FlatState>

    constructor ()
      ensures idCounter == FIRST_ID && flattenedStates == []
    {
      idCounter, flattenedStates := FIRST_ID, [];
    }

    method Flatten(node: StateDecl, parentId: int)
      modifies this
      ensures flattenedStates == old(flattenedStates) + FlatTree(node, old(idCounter), parentId)
      ensures idCounter == old(idCounter) + |FlatTree(node, old(idCounter), parentId)|
      decreases node
    {
      var id := idCounter;
      idCounter := idCounter + 1;
      flattenedStates := flattenedStates + [FlatState(id, parentId, node, [])];
      ghost var before := flattenedStates;
      for i := 0 to |node.states|
        invariant id + 1 <= idCounter
        invariant flattenedStates + FlatForest(node.states[i..], idCounter, id)
               == before + FlatForest(node.states, id + 1, id)
        invariant idCounter - id - 1 == |flattenedStates| - |before|
      {
        assert node.states[i..][1..] == node.states[i + 1..];
        Flatten(node.states[i], id);
      }
      assert node.states[|node.states|..] == [];
      assert FlatForest(node.states[|node.states|..], idCounter, id) == [];
      assert flattenedStates == before + FlatForest(node.states, id + 1, id);
      assert flattenedStates == old(flattenedStates) + ([FlatState(id, parentId, node, [])]
                                                        + FlatForest(node.states, id + 1, id));
    }
  }

  // Ids follow the list, and a parent comes before its children.
  ghost predicate IsFlat(states: seq<FlatState>) {
    forall i :: 0 <= i < |states| ==>
      && states[i].id == i + FIRST_ID
      && if i == 0 then states[i].parentId == ROOT_PARENT else FIRST_ID <= states[i].parentId <= i
  }

  // Consecutive ids from `id` on, parents between `lowest` and the state.
  ghost predicate IdsFrom(flat: seq<FlatState>, id: int, lowest: int) {
    forall i :: 0 <= i < |flat| ==>
      flat[i].id == id + i && flat[i].transitions == [] && lowest <= flat[i].parentId < id + i
  }

  lemma IdsAppend(a: seq<FlatState>, b: seq<FlatState>, id: int, lowest: int)
    requires IdsFrom(a, id, lowest) && IdsFrom(b, id + |a|, lowest)
    ensures IdsFrom(a + b, id, lowest)
  {
  }

  lemma {:induction false} TreeIsFlat(node: StateDecl, id: int, parentId: int)
    requires id > parentId
    ensures IdsFrom(FlatTree(node, id, parentId), id, parentId)
    ensures FlatTree(node, id, parentId)[0].parentId == parentId
    ensures IdsFrom(FlatTree(node, id, parentId)[1..], id + 1, id)
    decreases node, 0
  {
    var forest := FlatForest(node.states, id + 1, id);
    ForestIsFlat(node.states, id + 1, id);
    assert FlatTree(node, id, parentId)[1..] == forest;
    IdsAppend([FlatState(id, parentId, node, [])], forest, id, parentId);
  }

  lemma {:induction false} ForestIsFlat(nodes: seq<StateDecl>, id: int, parentId: int)
    requires id > parentId
    ensures IdsFrom(FlatForest(nodes, id, parentId), id, parentId)
    decreases nodes
  {
    if nodes != [] {
      var first := FlatTree(nodes[0], id, parentId);
      TreeIsFlat(nodes[0], id, parentId);
      ForestIsFlat(nodes[1..], id + |first|, parentId);
      IdsAppend(first, FlatForest(nodes[1..], id + |first|, parentId), id, parentId);
    }
  }

  lemma FlattenedIsFlat(root: StateDecl)
    ensures IsFlat(FlatTree(root, FIRST_ID, ROOT_PARENT))
    ensures forall s :: s in FlatTree(root, FIRST_ID, ROOT_PARENT) ==> s.transitions == []
  {
    TreeIsFlat(root, FIRST_ID, ROOT_PARENT);
    var flat := FlatTree(root, FIRST_ID, ROOT_PARENT);
    forall i | 0 <= i < |flat|
      ensures flat[i].id == i + FIRST_ID && flat[i].transitions == []
      ensures if i == 0 then flat[i].parentId == ROOT_PARENT else FIRST_ID <= flat[i].parentId <= i
    {
      if i > 0 {
        assert flat[i] == flat[1..][i - 1];
      }
    }
  }

  // Every declared child of a flattened state is there, under that state.
  ghost predicate HasChildren(flat: seq<FlatState>) {
    forall s, c :: s in flat && c in s.decl.states ==> Under(flat, s.id, c)
  }

  ghost predicate Under(flat: seq<FlatState>, parentId: int, decl: StateDecl) {
    exists f :: f in flat && f.parentId == parentId && f.decl == decl
  }

  lemma {:induction false} TreeHasChildren(node: StateDecl, id: int, parentId: int)
    ensures HasChildren(FlatTree(node, id, parentId))
    decreases node, 0
  {
    var flat, forest := FlatTree(node, id, parentId), FlatForest(node.states, id + 1, id);
    ForestHasChildren(node.states, id + 1, id);
    forall s, c | s in flat && c in s.decl.states
      ensures Under(flat, s.id, c)
    {
      assert s in forest || s == flat[0];
      assert Under(forest, s.id, c);
      UnderMore([flat[0]], forest, [], s.id, c);
    }
  }

  lemma {:induction false} ForestHasChildren(nodes: seq<StateDecl>, id: int, parentId: int)
    ensures HasChildren(FlatForest(nodes, id, parentId))
    ensures forall c :: c in nodes ==> Under(FlatForest(nodes, id, parentId), parentId, c)
    decreases nodes
  {
    if nodes != [] {
      var first := FlatTree(nodes[0], id, parentId);
      var rest := FlatForest(nodes[1..], id + |first|, parentId);
      TreeHasChildren(nodes[0], id, parentId);
      ForestHasChildren(nodes[1..], id + |first|, parentId);
      assert Under(first, parentId, nodes[0]) by {
        assert first[0] in first;
      }
      assert FlatForest(nodes, id, parentId) == first + rest;
      hide FlatTree, FlatForest, HasChildren, Under;
      ChildrenOfBoth(first, rest);
      assert nodes == [nodes[0]] + nodes[1..];
    }
  }

  lemma ChildrenOfBoth(a: seq<FlatState>, b: seq<FlatState>)
    requires HasChildren(a) && HasChildren(b)
    ensures HasChildren(a + b)
    ensures forall p, c :: Under(a, p, c) || Under(b, p, c) ==> Under(a + b, p, c)
  {
    forall p, c | Under(a, p, c) || Under(b, p, c)
      ensures Under(a + b, p, c)
    {
      if Under(a, p, c) {
        UnderMore([], a, b, p, c);
      } else {
        UnderMore(a, b, [], p, c);
      }
    }
  }

  lemma UnderMore(
      a: seq<FlatState>, b: seq<FlatState>, c: seq<FlatState>, parentId: int, decl: StateDecl)
    requires Under(b, parentId, decl)
    ensures Under(a + b + c, parentId, decl)
    ensures Under(a + b, parentId, decl) && Under(b + c, parentId, decl)
  {
    var f :| f in b && f.parentId == parentId && f.decl == decl;
    assert f in a + b && f in b + c && f in a + b + c;
  }

  // ---------------------------------------------------------------- lookups

  // The first state with an id.
  method FindState(states: seq<FlatState>, id: int) returns (found: Option<FlatState>)
    requires IsFlat(states)
    ensures found == StateOf(states, id)
  {
    for i := 0 to |states|
      invariant forall k :: 0 <= k < i ==> states[k].id != id
    {
      if states[i].id == id {
        return Some(states[i]);
      }
    }
    return None;
  }

  function StateOf(states: seq<FlatState>, id: int): Option<FlatState> {
    if FIRST_ID <= id <= |states| then Some(states[id - FIRST_ID]) else None
  }

  // The id of the first state with a name.
  function IdOf(states: seq<FlatState>, name: string): (id: Option<int>)
    ensures id.Some? ==> exists i :: 0 <= i < |states| && states[i].id == id.value && states[i].decl.name == name
    ensures id.None? ==> forall i :: 0 <= i < |states| ==> states[i].decl.name != name
  {
    if states == [] then None
    else if states[0].decl.name == name then Some(states[0].id)
    else
      var rest := IdOf(states[1..], name);
      assert rest.Some? ==> forall i :: 0 <= i < |states[1..]| ==> states[1..][i] == states[i + 1];
      rest
  }

  // The id is that of the first state the name stands for.
  ghost predicate Names(states: seq<FlatState>, name: Option<string>, id: int) {
    name.Some? && exists i :: NamesAt(states, name.value, id, i)
  }

  ghost predicate NamesAt(states: seq<FlatState>, name: string, id: int, i: int) {
    && 0 <= i < |states| && states[i].id == id && states[i].decl.name == name
    && forall k :: 0 <= k < i ==> states[k].decl.name != name
  }

  ghost predicate NamesNone(states: seq<FlatState>, name: Option<string>) {
    name.Some? ==> forall i :: 0 <= i < |states| ==> states[i].decl.name != name.value
  }

  lemma {:induction false} IdOfNames(states: seq<FlatState>, name: string)
    ensures match IdOf(states, name)
            case Some(id) => Names(states, Some(name), id)
            case None => NamesNone(states, Some(name))
  {
    if states == [] {
    } else if states[0].decl.name == name {
      assert NamesAt(states, name, states[0].id, 0);
    } else {
      IdOfNames(states[1..], name);
      assert forall i :: 0 <= i < |states[1..]| ==> states[1..][i] == states[i + 1];
      if IdOf(states, name).Some? {
        var i :| NamesAt(states[1..], name, IdOf(states, name).value, i);
        assert NamesAt(states, name, IdOf(states, name).value, i + 1);
      }
    }
  }

  lemma NamesOnce(states: seq<FlatState>, name: Option<string>, a: int, b: int)
    requires Names(states, name, a) && Names(states, name, b)
    ensures a == b && !NamesNone(states, name)
  {
    var i :| NamesAt(states, name.value, a, i);
    var j :| NamesAt(states, name.value, b, j);
    assert !(i < j) && !(j < i);
  }

  ghost predicate UniqueNames(states: seq<FlatState>) {
    forall i, j :: 0 <= i < j < |states| ==> states[i].decl.name != states[j].decl.name
  }

  // A state and its ancestors, up to the root.
  function Ancestry(states: seq<FlatState>, id: int): (chain: seq<FlatState>)
    requires IsFlat(states)
    ensures forall s :: s in chain ==> s in states && s.id <= id
    decreases id
  {
    match StateOf(states, id)
    case None => []
    case Some(s) => [s] + Ancestry(states, s.parentId)
  }

  ghost predicate Within(states: seq<FlatState>, id: int, ancestor: int)
    requires IsFlat(states)
  {
    exists s :: s in Ancestry(states, id) && s.id == ancestor
  }

  lemma {:induction false} WithinTransitive(states: seq<FlatState>, a: int, b: int, c: int)
    requires IsFlat(states) && Within(states, a, b) && Within(states, b, c)
    ensures Within(states, a, c)
    decreases a
  {
    if a != b {
      var s := StateOf(states, a).value;
      WithinTransitive(states, s.parentId, b, c);
    }
  }

  // ---------------------------------------------------- initial state leaves

  ghost function Ids(states: seq<FlatState>): set<int> {
    set s | s in states :: s.id
  }

  // Follows initialState names down to a leaf, stopping at a repeated state.
  function ResolveLeaf(states: seq<FlatState>, id: int, visited: set<int>): (leaf: int)
    requires IsFlat(states)
    ensures StateOf(states, id).Some? ==> StateOf(states, leaf).Some?
    decreases Ids(states) - visited
  {
    if id in visited then id
    else
      match StateOf(states, id)
      case None => id
      case Some(s) =>
        match s.decl.initialState
        case None => id
        case Some(name) =>
          match IdOf(states, name)
          case None => id
          case Some(child) =>
            assert id in Ids(states) - visited;
            ResolveLeaf(states, child, visited + {id})
  }

  // The child a state's initialState leads to.
  ghost predicate LeadsTo(states: seq<FlatState>, id: int, child: int) {
    StateOf(states, id).Some? && Names(states, StateOf(states, id).value.decl.initialState, child)
  }

  // The states met when initial states are followed from the first one: no
  // state twice, but the last may be one that was met before.
  ghost predicate InitialPath(states: seq<FlatState>, path: seq<int>) {
    && path != []
    && (forall k :: 0 <= k < |path| - 1 ==> LeadsTo(states, path[k], path[k + 1]))
    && (forall j, k :: 0 <= j < k < |path| - 1 ==> path[j] != path[k])
  }

  // The path cannot go on.
  ghost predicate Stops(states: seq<FlatState>, path: seq<int>)
    requires path != []
  {
    var last := path[|path| - 1];
    last in path[..|path| - 1] || forall child :: !LeadsTo(states, last, child)
  }

  // Resolving follows the names to where they end, or to the first state met
  // again.
  lemma {:induction false} ResolvesAlongNames(states: seq<FlatState>, id: int, before: seq<int>) returns (path: seq<int>)
    requires IsFlat(states) && InitialPath(states, before + [id])
    ensures InitialPath(states, path) && Stops(states, path) && before + [id] <= path
    ensures path[|path| - 1] == ResolveLeaf(states, id, set v | v in before)
    decreases Ids(states) - set v | v in before
  {
    hide LeadsTo, IdOf;
    var met := before + [id];
    assert met[..|met| - 1] == before;
    path := met;
    if id !in before && StateOf(states, id).Some? {
      var name := StateOf(states, id).value.decl.initialState;
      LeadsToExactly(states, id);
      if name.Some? && IdOf(states, name.value).Some? {
        var child := IdOf(states, name.value).value;
        assert id in Ids(states);
        assert (set v | v in met) == (set v | v in before) + {id};
        LongerPath(states, met, child);
        path := ResolvesAlongNames(states, child, met);
      }
    } else {
      LeadsNowhere(states, id);
    }
  }

  lemma LeadsToExactly(states: seq<FlatState>, id: int)
    requires StateOf(states, id).Some?
    ensures var name := StateOf(states, id).value.decl.initialState;
            forall child :: LeadsTo(states, id, child) <==> name.Some? && IdOf(states, name.value) == Some(child)
  {
    var name := StateOf(states, id).value.decl.initialState;
    if name.Some? {
      IdOfNames(states, name.value);
      forall child | LeadsTo(states, id, child)
        ensures IdOf(states, name.value) == Some(child)
      {
        NamesOnce(states, name, child, child);
        if IdOf(states, name.value).Some? {
          NamesOnce(states, name, child, IdOf(states, name.value).value);
        }
      }
    }
  }

  lemma LeadsNowhere(states: seq<FlatState>, id: int)
    ensures StateOf(states, id).None? ==> forall child :: !LeadsTo(states, id, child)
  {
  }

  lemma LongerPath(states: seq<FlatState>, met: seq<int>, child: int)
    requires InitialPath(states, met) && LeadsTo(states, met[|met| - 1], child)
    requires met[|met| - 1] !in met[..|met| - 1]
    ensures InitialPath(states, met + [child])
  {
    var path := met + [child];
    forall k | 0 <= k < |path| - 1
      ensures LeadsTo(states, path[k], path[k + 1])
    {
      assert path[k] == met[k];
    }
    forall j, k | 0 <= j < k < |path| - 1
      ensures path[j] != path[k]
    {
      assert met[j] in met[..|met| - 1];
    }
  }

  // Every initialState names one of the state's own children.
  ghost predicate InitialIsChild(states: seq<FlatState>) {
    forall s :: s in states && s.decl.initialState.Some? ==>
      exists child :: child in states && child.parentId == s.id && child.decl.name == s.decl.initialState.value
  }

  // The same, for the declared tree.
  ghost predicate NamesOwnChild(node: StateDecl) {
    && (node.initialState.Some? ==> exists c :: c in node.states && c.name == node.initialState.value)
    && forall c :: c in node.states ==> NamesOwnChild(c)
  }

  lemma {:induction false} FlatNamesOwnChild(node: StateDecl, id: int, parentId: int)
    requires NamesOwnChild(node)
    ensures forall s :: s in FlatTree(node, id, parentId) ==> NamesOwnChild(s.decl)
    decreases node, 0
  {
    ForestNamesOwnChild(node.states, id + 1, id);
  }

  lemma {:induction false} ForestNamesOwnChild(nodes: seq<StateDecl>, id: int, parentId: int)
    requires forall c :: c in nodes ==> NamesOwnChild(c)
    ensures forall s :: s in FlatForest(nodes, id, parentId) ==> NamesOwnChild(s.decl)
    decreases nodes
  {
    if nodes != [] {
      FlatNamesOwnChild(nodes[0], id, parentId);
      ForestNamesOwnChild(nodes[1..], id + |FlatTree(nodes[0], id, parentId)|, parentId);
    }
  }

  // A tree whose initial states name own children flattens to such a list.
  lemma FlatInitialIsChild(root: StateDecl)
    requires NamesOwnChild(root)
    ensures InitialIsChild(FlatTree(root, FIRST_ID, ROOT_PARENT))
  {
    var flat := FlatTree(root, FIRST_ID, ROOT_PARENT);
    FlatNamesOwnChild(root, FIRST_ID, ROOT_PARENT);
    TreeHasChildren(root, FIRST_ID, ROOT_PARENT);
    forall s | s in flat && s.decl.initialState.Some?
      ensures exists child :: child in flat && child.parentId == s.id && child.decl.name == s.decl.initialState.value
    {
      var c :| c in s.decl.states && c.name == s.decl.initialState.value;
      assert Under(flat, s.id, c);
    }
  }

  lemma IdOfUnique(states: seq<FlatState>, s: FlatState)
    requires IsFlat(states) && UniqueNames(states) && s in states
    ensures IdOf(states, s.decl.name) == Some(s.id)
  {
  }

  // In a well-named machine the search ends inside the state it starts from,
  // at a state with no initial state of its own, and finds no cycle.
  lemma {:induction false} ResolvesToLeaf(states: seq<FlatState>, id: int, visited: set<int>)
    requires IsFlat(states) && UniqueNames(states) && InitialIsChild(states)
    requires StateOf(states, id).Some? && forall v :: v in visited ==> v < id
    ensures var leaf := ResolveLeaf(states, id, visited);
            && Within(states, leaf, id)
            && StateOf(states, leaf).Some? && StateOf(states, leaf).value.decl.initialState.None?
    decreases |states| - id
  {
    hide IdOf, UniqueNames, InitialIsChild, Ancestry, Within;
    var s := StateOf(states, id).value;
    if s.decl.initialState.None? {
      SelfWithin(states, id);
    } else {
      var child := InitialChild(states, s);
      assert ResolveLeaf(states, id, visited) == ResolveLeaf(states, child.id, visited + {id});
      ResolvesToLeaf(states, child.id, visited + {id});
      WithinTransitive(states, ResolveLeaf(states, child.id, visited + {id}), child.id, id);
    }
  }

  lemma SelfWithin(states: seq<FlatState>, id: int)
    requires IsFlat(states) && StateOf(states, id).Some?
    ensures Within(states, id, id)
  {
    assert StateOf(states, id).value in Ancestry(states, id);
  }

  // The first state with the name of a state's initial child is that child.
  lemma InitialChild(states: seq<FlatState>, s: FlatState) returns (child: FlatState)
    requires IsFlat(states) && UniqueNames(states) && InitialIsChild(states)
    requires s in states && s.decl.initialState.Some?
    ensures IdOf(states, s.decl.initialState.value) == Some(child.id)
    ensures StateOf(states, child.id) == Some(child) && child.id > s.id
    ensures Within(states, child.id, s.id)
  {
    child :| child in states && child.parentId == s.id && child.decl.name == s.decl.initialState.value;
    IdOfUnique(states, child);
    ChildIsWithin(states, child);
  }

  lemma ChildIsWithin(states: seq<FlatState>, child: FlatState)
    requires IsFlat(states) && child in states && StateOf(states, child.parentId).Some?
    ensures StateOf(states, child.id) == Some(child) && child.id > child.parentId
    ensures Within(states, child.id, child.parentId)
  {
    var parent := StateOf(states, child.parentId).value;
    assert parent in Ancestry(states, child.parentId);
    assert Ancestry(states, child.id) == [child] + Ancestry(states, child.parentId);
  }

  // ------------------------------------------------------------ transitions

  // The transitions of one state whose target exists, numbered from `nextId`.
  function Loaded(states: seq<FlatState>, decls: seq<TransitionDecl>, nextId: int): (ts: seq<Transition>)
    ensures forall i :: 0 <= i < |ts| ==> ts[i].id == nextId + i && ts[i].targetId in Ids(states)
  {
    if decls == [] then []
    else
      match decls[0].target
      case None => Loaded(states, decls[1..], nextId)
      case Some(name) =>
        match IdOf(states, name)
        case None => Loaded(states, decls[1..], nextId)
        case Some(target) =>
          [Transition(nextId, target, decls[0])] + Loaded(states, decls[1..], nextId + 1)
  }

  // The transitions are those of the first `upTo` declared ones whose target
  // exists, in order; the others of them name no state.
  ghost predicate Picks(
    states: seq<FlatState>, decls: seq<TransitionDecl>, ts: seq<Transition>, pick: seq<int>, upTo: int)
  {
    && |pick| == |ts|
    && (forall k, l :: 0 <= k < l < |pick| ==> pick[k] < pick[l] < upTo)
    && (forall k :: 0 <= k < |ts| ==> pick[k] < upTo && PickedAt(states, decls, ts[k], pick[k]))
    && forall j :: 0 <= j < upTo && j < |decls| && j !in pick ==> NamesNone(states, decls[j].target)
  }

  ghost predicate PickedAt(states: seq<FlatState>, decls: seq<TransitionDecl>, t: Transition, j: int) {
    0 <= j < |decls| && t.decl == decls[j] && Names(states, decls[j].target, t.targetId)
  }

  ghost predicate Declared(states: seq<FlatState>, decls: seq<TransitionDecl>, ts: seq<Transition>) {
    exists pick :: Picks(states, decls, ts, pick, |decls|)
  }

  lemma PickOne(
      states: seq<FlatState>, decls: seq<TransitionDecl>, ts: seq<Transition>, pick: seq<int>, i: int, t: Transition)
    requires Picks(states, decls, ts, pick, i) && PickedAt(states, decls, t, i)
    ensures Picks(states, decls, ts + [t], pick + [i], i + 1)
  {
    hide PickedAt, NamesNone;
    assert i in pick + [i];
    assert forall j :: j in pick ==> j in pick + [i];
  }

  lemma PickNone(
      states: seq<FlatState>, decls: seq<TransitionDecl>, ts: seq<Transition>, pick: seq<int>, i: int)
    requires Picks(states, decls, ts, pick, i) && 0 <= i < |decls| && NamesNone(states, decls[i].target)
    ensures Picks(states, decls, ts, pick, i + 1)
  {
  }

  method LoadTransitions(states: seq<FlatState>, decls: seq<TransitionDecl>, nextId: int)
    returns (ts: seq<Transition>, counter: int)
    ensures ts == Loaded(states, decls, nextId) && counter == nextId + |ts|
    ensures Declared(states, decls, ts)
  {
    hide Loaded, IdOf, Names, NamesNone, Picks;
    ts, counter := [], nextId;
    ghost var pick := NothingPicked(states, decls);
    for i := 0 to |decls|
      invariant counter == nextId + |ts|
      invariant ts + Loaded(states, decls[i..], counter) == Loaded(states, decls, nextId)
      invariant Picks(states, decls, ts, pick, i)
    {
      LoadedFrom(states, decls, i, counter);
      TargetNames(states, decls[i].target);
      var target := if decls[i].target.Some? then IdOf(states, decls[i].target.value) else None;
      match target {
        case None => PickNone(states, decls, ts, pick, i);
        case Some(id) =>
          PickOne(states, decls, ts, pick, i, Transition(counter, id, decls[i]));
          ts := ts + [Transition(counter, id, decls[i])];
          pick := pick + [i];
          counter := counter + 1;
      }
    }
    LoadedFrom(states, decls, |decls|, counter);
  }

  lemma NothingPicked(states: seq<FlatState>, decls: seq<TransitionDecl>) returns (pick: seq<int>)
    ensures Picks(states, decls, [], pick, 0)
  {
    pick := [];
  }

  lemma TargetNames(states: seq<FlatState>, target: Option<string>)
    ensures var id := if target.Some? then IdOf(states, target.value) else None;
            if id.Some? then Names(states, target, id.value) else NamesNone(states, target)
  {
    if target.Some? {
      IdOfNames(states, target.value);
    }
  }

  lemma LoadedFrom(states: seq<FlatState>, decls: seq<TransitionDecl>, i: nat, nextId: int)
    requires i <= |decls|
    ensures i == |decls| ==> Loaded(states, decls[i..], nextId) == []
    ensures i < |decls| ==>
              var target := if decls[i].target.Some? then IdOf(states, decls[i].target.value) else None;
              Loaded(states, decls[i..], nextId)
              == if target.Some? then
                   [Transition(nextId, target.value, decls[i])] + Loaded(states, decls[i + 1..], nextId + 1)
                 else Loaded(states, decls[i + 1..], nextId)
  {
    hide IdOf;
    if i < |decls| {
      assert decls[i..][1..] == decls[i + 1..];
    }
  }

  datatype Machine = Machine(states: seq<FlatState>, initialId: int)

  // What every machine the compiler builds satisfies.
  ghost predicate WellFormed(m: Machine) {
    && IsFlat(m.states)
    && |m.states| > 0
    && StateOf(m.states, m.initialId).Some?
    && (forall s, t :: s in m.states && t in s.transitions ==> t.targetId in Ids(m.states))
    && UniqueTransitions(m.states)
  }

  // Transition ids tell the transitions of the whole machine apart.
  ghost predicate UniqueTransitions(states: seq<FlatState>) {
    forall i, j, k, l ::
      (0 <= i < |states| && 0 <= j < |states|
       && 0 <= k < |states[i].transitions| && 0 <= l < |states[j].transitions|
       && states[i].transitions[k].id == states[j].transitions[l].id)
      ==> i == j && k == l
  }

  // Transition ids run from 1 through the states in order.
  ghost predicate Numbered(states: seq<FlatState>) {
    forall i, k :: 0 <= i < |states| && 0 <= k < |states[i].transitions| ==>
      states[i].transitions[k].id == 1 + TransitionsBefore(states, i) + k
  }

  function TransitionsBefore(states: seq<FlatState>, i: int): int
    requires 0 <= i <= |states|
  {
    if i == 0 then 0 else TransitionsBefore(states, i - 1) + |states[i - 1].transitions|
  }

  lemma {:induction false} SameBefore(states: seq<FlatState>, more: seq<FlatState>, i: int)
    requires 0 <= i <= |states|
    ensures TransitionsBefore(states + more, i) == TransitionsBefore(states, i)
  {
    if i > 0 {
      SameBefore(states, more, i - 1);
    }
  }

  // Each state has the transitions declared for it.
  ghost predicate HasDeclared(states: seq<FlatState>, flat: seq<FlatState>) {
    |states| == |flat| && forall i :: 0 <= i < |flat| ==>
      Declared(flat, flat[i].decl.transitions, states[i].transitions)
  }

  // Where the machine starts: at the state its initialState names first, or at
  // the root, and from there along the initial states of the states met.
  ghost predicate StartPath(root: StateDecl, states: seq<FlatState>, path: seq<int>) {
    && InitialPath(states, path) && Stops(states, path)
    && (Names(states, root.initialState, path[0])
        || (NamesNone(states, root.initialState) && path[0] == FIRST_ID))
  }

  ghost predicate StartsAlong(root: StateDecl, m: Machine, path: seq<int>) {
    StartPath(root, m.states, path) && path[|path| - 1] == m.initialId
  }

  // The states of a machine are the flattened tree, with transitions added.
  ghost predicate Carries(states: seq<FlatState>, flat: seq<FlatState>) {
    |states| == |flat| && forall i :: 0 <= i < |flat| ==> states[i].(transitions := []) == flat[i]
  }

  method Process(root: StateDecl) returns (m: Machine)
    ensures WellFormed(m) && Numbered(m.states)
    ensures Carries(m.states, FlatTree(root, FIRST_ID, ROOT_PARENT))
    ensures HasDeclared(m.states, FlatTree(root, FIRST_ID, ROOT_PARENT))
    ensures exists path :: StartsAlong(root, m, path)
    ensures UniqueNames(FlatTree(root, FIRST_ID, ROOT_PARENT)) && NamesOwnChild(root) ==>
              && UniqueNames(m.states) && InitialIsChild(m.states)
              && StateOf(m.states, m.initialId).value.decl.initialState.None?
              && exists path :: StartsAlong(root, m, path) && Within(m.states, m.initialId, path[0])
  {
    hide ResolveLeaf, FlatTree, UniqueNames, NamesOwnChild, InitialIsChild, UniqueTransitions, Carries, Numbered,
         HasDeclared, StartPath, Within, Names, NamesNone;
    var sm := new StateMachine();
    sm.Flatten(root, ROOT_PARENT);
    FlattenedIsFlat(root);
    assert sm.flattenedStates == FlatTree(root, FIRST_ID, ROOT_PARENT);
    var states := AddTransitions(sm.flattenedStates);
    var initialId := NamedInitial(root, states);
    m := Machine(states, ResolveLeaf(states, initialId, {}));
    ghost var path := StartOf(root, states, initialId);
    assert StartsAlong(root, m, path);
    InitialLeaf(root, states, initialId);
  }

  lemma StartOf(root: StateDecl, states: seq<FlatState>, id: int) returns (path: seq<int>)
    requires IsFlat(states)
    requires Names(states, root.initialState, id) || (NamesNone(states, root.initialState) && id == FIRST_ID)
    ensures StartPath(root, states, path) && path[0] == id && path[|path| - 1] == ResolveLeaf(states, id, {})
  {
    var none: seq<int> := [];
    assert none + [id] == [id] && (set v | v in none) == {};
    path := ResolvesAlongNames(states, id, none);
  }

  // The state the root's initialState names, or the root itself.
  method NamedInitial(root: StateDecl, states: seq<FlatState>) returns (id: int)
    requires IsFlat(states) && |states| > 0
    ensures StateOf(states, id).Some?
    ensures Names(states, root.initialState, id) || (NamesNone(states, root.initialState) && id == FIRST_ID)
  {
    id := FIRST_ID;
    if root.initialState.Some? {
      IdOfNames(states, root.initialState.value);
      var named := IdOf(states, root.initialState.value);
      if named.Some? {
        id := named.value;
      }
    }
  }

  lemma InitialLeaf(root: StateDecl, states: seq<FlatState>, id: int)
    requires IsFlat(states) && Carries(states, FlatTree(root, FIRST_ID, ROOT_PARENT))
    requires StateOf(states, id).Some?
    ensures |states| > 0 && StateOf(states, ResolveLeaf(states, id, {})).Some?
    ensures UniqueNames(FlatTree(root, FIRST_ID, ROOT_PARENT)) && NamesOwnChild(root) ==>
              && UniqueNames(states) && InitialIsChild(states)
              && StateOf(states, ResolveLeaf(states, id, {})).value.decl.initialState.None?
              && Within(states, ResolveLeaf(states, id, {}), id)
  {
    var flat := FlatTree(root, FIRST_ID, ROOT_PARENT);
    if UniqueNames(flat) && NamesOwnChild(root) {
      FlatInitialIsChild(root);
      SameInitials(flat, states);
      ResolvesToLeaf(states, id, {});
    }
  }

  method AddTransitions(flat: seq<FlatState>) returns (states: seq<FlatState>)
    requires IsFlat(flat) && forall s :: s in flat ==> s.transitions == []
    ensures IsFlat(states) && Carries(states, flat) && |states| == |flat|
    ensures HasDeclared(states, flat) && Numbered(states)
    ensures forall s, t :: s in states && t in s.transitions ==> t.targetId in Ids(states)
    ensures UniqueTransitions(states)
  {
    hide Declared, Numbered, TransitionsBefore, UniqueTransitions, NumberedBelow;
    states := [];
    var nextId := 1;
    NoneBefore(flat);
    for i := 0 to |flat|
      invariant |states| == i
      invariant forall k :: 0 <= k < i ==> states[k].(transitions := []) == flat[k]
      invariant forall k :: 0 <= k < i ==> Declared(flat, flat[k].decl.transitions, states[k].transitions)
      invariant nextId == 1 + TransitionsBefore(states, i) && Numbered(states)
      invariant NumberedBelow(states, nextId, Ids(flat))
      invariant UniqueTransitions(states)
    {
      var ts, counter := LoadTransitions(flat, flat[i].decl.transitions, nextId);
      MoreTransitions(states, flat[i].(transitions := ts), nextId, counter, Ids(flat));
      NumbersOn(states, flat[i].(transitions := ts), nextId);
      states := states + [flat[i].(transitions := ts)];
      nextId := counter;
    }
    SameIds(flat, states);
    TargetsBelow(states, nextId, Ids(flat));
  }

  lemma NoneBefore(flat: seq<FlatState>)
    ensures Numbered([]) && UniqueTransitions([]) && NumberedBelow([], 1, Ids(flat)) && TransitionsBefore([], 0) == 0
  {
  }

  lemma TargetsBelow(states: seq<FlatState>, nextId: int, ids: set<int>)
    requires NumberedBelow(states, nextId, ids)
    ensures forall s, t :: s in states && t in s.transitions ==> t.targetId in ids
  {
  }

  ghost predicate NumberedBelow(states: seq<FlatState>, nextId: int, ids: set<int>) {
    forall i, k :: 0 <= i < |states| && 0 <= k < |states[i].transitions| ==>
      states[i].transitions[k].id < nextId && states[i].transitions[k].targetId in ids
  }

  // A state whose transitions take the next numbers clashes with none before.
  lemma MoreTransitions(
      states: seq<FlatState>, s: FlatState, nextId: int, counter: int, ids: set<int>)
    requires NumberedBelow(states, nextId, ids) && UniqueTransitions(states)
    requires counter == nextId + |s.transitions|
    requires forall k :: 0 <= k < |s.transitions| ==>
               s.transitions[k].id == nextId + k && s.transitions[k].targetId in ids
    ensures NumberedBelow(states + [s], counter, ids) && UniqueTransitions(states + [s])
  {
  }

  lemma NumbersOn(states: seq<FlatState>, s: FlatState, nextId: int)
    requires nextId == 1 + TransitionsBefore(states, |states|) && Numbered(states)
    requires forall k :: 0 <= k < |s.transitions| ==> s.transitions[k].id == nextId + k
    ensures Numbered(states + [s])
    ensures nextId + |s.transitions| == 1 + TransitionsBefore(states + [s], |states| + 1)
  {
    hide TransitionsBefore;
    var more := states + [s];
    assert TransitionsBefore(more, |states| + 1) == TransitionsBefore(more, |states|) + |s.transitions| by {
      OneMoreBefore(more, |states|);
    }
    forall i | 0 <= i <= |states|
      ensures TransitionsBefore(more, i) == TransitionsBefore(states, i)
    {
      SameBefore(states, [s], i);
    }
  }

  lemma OneMoreBefore(states: seq<FlatState>, i: int)
    requires 0 <= i < |states|
    ensures TransitionsBefore(states, i + 1) == TransitionsBefore(states, i) + |states[i].transitions|
  {
  }

  lemma SameIds(flat: seq<FlatState>, states: seq<FlatState>)
    requires Carries(states, flat)
    ensures Ids(flat) == Ids(states)
  {
    forall id | id in Ids(flat)
      ensures id in Ids(states)
    {
      var i :| 0 <= i < |flat| && flat[i].id == id;
      assert states[i] in states;
    }
    forall id | id in Ids(states)
      ensures id in Ids(flat)
    {
      var i :| 0 <= i < |states| && states[i].id == id;
      assert flat[i] in flat;
    }
  }

  lemma SameInitials(flat: seq<FlatState>, states: seq<FlatState>)
    requires Carries(states, flat)
    requires InitialIsChild(flat) && UniqueNames(flat)
    ensures InitialIsChild(states) && UniqueNames(states)
  {
    forall s | s in states && s.decl.initialState.Some?
      ensures exists child :: child in states && child.parentId == s.id && child.decl.name == s.decl.initialState.value
    {
      var i :| 0 <= i < |states| && states[i] == s;
      assert flat[i] in flat;
      var j :| 0 <= j < |flat| && flat[j].parentId == s.id && flat[j].decl.name == s.decl.initialState.value;
      assert states[j] in states;
    }
  }
}
