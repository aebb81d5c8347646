// Streams that fill constants are run at compile time when everything they
// read is known by then; afterwards reads of the filled constants with a known
// index are folded to their values.
module ConstantFills {
  import opened Wrappers

  // A scalar is a block with one element.
  type Value = seq<int>

  datatype Kind =
    | Runtime                        // signal, switch, trigger, string, buffer
    | Constant(given: Option<Value>) // with a declared value, or to be filled
    | NotABlock                      // modules, reactions, loops, ...

  type Decls = map<string, Kind>

  // What a store holds: root blocks, and the state each call's instance keeps.
  datatype Key = Block(name: string) | Kept(instance: string)

  type Store = map<Key, Value>

  datatype Node =
    | Literal(value: int)
    | Name(name: string)
    | Indexed(name: string, index: Node)
    // A call writes the blocks bound to its property outputs, and its body
    // reads and writes root blocks and kept state that the call does not show.
    | Function(name: string, properties: seq<Node>, outs: seq<string>, captures: seq<Key>, changes: seq<Key>)
    | Operator(operands: seq<Node>)
    | List(members: seq<Node>)
    | Stream(left: Node, right: Node)

  // What a function or operator computes from its arguments and what its body
  // reads: its value, or what it leaves in a key. Host functions may differ
  // between the compiler and the program, pure ones do not.
  type Semantics = (string, seq<Value>, Option<Key>) -> Value

  // ----------------------------------------------------------------- meaning

  predicate IsBlock(decls: Decls, key: Key) {
    key.Kept? || (key.name in decls && !decls[key.name].NotABlock?)
  }

  function Read(decls: Decls, st: Store, key: Key): Value {
    if IsBlock(decls, key) && key in st then st[key] else []
  }

  function ReadEach(decls: Decls, st: Store, keys: seq<Key>): seq<Value> {
    if keys == [] then [] else [Read(decls, st, keys[0])] + ReadEach(decls, st, keys[1..])
  }

  // A negative or too large index reads 0 (off, for a switch).
  function Element(v: Value, index: Value): int {
    if |index| == 1 && 0 <= index[0] < |v| then v[index[0]] else 0
  }

  function CallWrites(outs: seq<string>, changes: seq<Key>): (keys: seq<Key>)
    ensures forall key: Key :: key in keys <==> key in changes || (key.Block? && key.name in outs)
  {
    if outs == [] then changes else [Block(outs[0])] + CallWrites(outs[1..], changes)
  }

  // What a call leaves in the keys it writes.
  function WriteEach(
      decls: Decls, sem: Semantics, name: string, all: seq<Value>, keys: seq<Key>, st: Store): (after: Store)
    ensures forall key :: Read(decls, after, key)
                       == if key in keys && IsBlock(decls, key) then sem(name, all, Some(key)) else Read(decls, st, key)
  {
    if keys == [] then st
    else
      var rest := WriteEach(decls, sem, name, all, keys[1..], st);
      if IsBlock(decls, keys[0]) then rest[keys[0] := sem(name, all, Some(keys[0]))] else rest
  }

  // A call, given the values of its arguments.
  function Call(decls: Decls, sem: Semantics, name: string, args: seq<Value>, written: seq<Key>, captures: seq<Key>,
                st: Store): (Value, Store)
  {
    var all := args + ReadEach(decls, st, captures);
    (sem(name, all, None), WriteEach(decls, sem, name, all, written, st))
  }

  function Eval(decls: Decls, sem: Semantics, n: Node, st: Store): (Value, Store)
    decreases n, 0
  {
    match n
    case Literal(value) => ([value], st)
    case Name(name) => (Read(decls, st, Block(name)), st)
    case Indexed(name, index) =>
      var (i, st') := Eval(decls, sem, index, st);
      ([Element(Read(decls, st', Block(name)), i)], st')
    case Function(name, properties, outs, captures, changes) =>
      var (args, st') := EvalAll(decls, sem, properties, st);
      Call(decls, sem, name, args, CallWrites(outs, changes), captures, st')
    case Operator(operands) =>
      var (args, st') := EvalAll(decls, sem, operands, st);
      (sem("", args, None), st')
    case List(members) =>
      var (values, st') := EvalAll(decls, sem, members, st);
      (Joined(values), st')
    case Stream(left, right) =>
      var (v, st') := Eval(decls, sem, left, st);
      Feed(decls, sem, right, v, st')
  }

  function EvalAll(decls: Decls, sem: Semantics, ns: seq<Node>, st: Store): (seq<Value>, Store)
    decreases ns
  {
    if ns == [] then ([], st)
    else
      var (first, st') := Eval(decls, sem, ns[0], st);
      var (rest, st'') := EvalAll(decls, sem, ns[1..], st');
      ([first] + rest, st'')
  }

  function Joined(vs: seq<Value>): Value {
    if vs == [] then [] else vs[0] + Joined(vs[1..])
  }

  // What a node does with the value that flows into it: blocks take it,
  // functions compute with it.
  function Feed(decls: Decls, sem: Semantics, n: Node, v: Value, st: Store): (Value, Store)
    decreases n, 1
  {
    match n
    case Name(name) => (v, if IsBlock(decls, Block(name)) then st[Block(name) := v] else st)
    case Indexed(name, index) =>
      var (i, st') := Eval(decls, sem, index, st);
      (v, WriteElement(decls, name, i, v, st'))
    case Function(name, properties, outs, captures, changes) =>
      var (args, st') := EvalAll(decls, sem, properties, st);
      Call(decls, sem, name, [v] + args, CallWrites(outs, changes), captures, st')
    case Stream(left, right) =>
      var (middle, st') := Feed(decls, sem, left, v, st);
      Feed(decls, sem, right, middle, st')
    case _ => (v, st)
  }

  function WriteElement(decls: Decls, name: string, i: Value, v: Value, st: Store): Store {
    var block := Read(decls, st, Block(name));
    if IsBlock(decls, Block(name)) && |i| == 1 && 0 <= i[0] < |block| && |v| == 1
    then st[Block(name) := block[i[0] := v[0]]] else st
  }

  // A scalar that flows into an indexed block becomes that element, if there is
  // one, and nothing else changes.
  lemma OneElementWritten(decls: Decls, sem: Semantics, name: string, index: Node, v: Value, st: Store, k: nat)
    requires IsBlock(decls, Block(name))
    ensures var (i, st') := Eval(decls, sem, index, st);
            var block := Read(decls, st', Block(name));
            var after := Feed(decls, sem, Indexed(name, index), v, st).1;
            && |Read(decls, after, Block(name))| == |block|
            && (k < |block| ==>
                  Read(decls, after, Block(name))[k] == if i == [k] && |v| == 1 then v[0] else block[k])
            && forall key :: key != Block(name) ==> Read(decls, after, key) == Read(decls, st', key)
  {
  }

  function RunStream(decls: Decls, sem: Semantics, n: Node, st: Store): Store {
    if n.Stream? then Eval(decls, sem, n, st).1 else st
  }

  // --------------------------------------------------------------- collecting

  function Destination(n: Node): Node {
    if n.Stream? then Destination(n.right) else n
  }

  predicate Unfilled(decls: Decls, name: string) {
    name in decls && decls[name] == Constant(None)
  }

  predicate ReadsAtRuntime(decls: Decls, name: string, filled: set<string>) {
    name in decls && (decls[name].Runtime? || (Unfilled(decls, name) && name !in filled))
  }

  // The first root block the node shows that has no value while compiling. The
  // block the stream writes last is not read: it ends the right spine. What
  // the body of a call reads is not looked at.
  function RuntimeRead(decls: Decls, n: Node, filled: set<string>, spine: bool): Option<string>
    decreases n, 0
  {
    match n
    case Literal(_) => None
    case Name(name) => if !spine && ReadsAtRuntime(decls, name, filled) then Some(name) else None
    case Indexed(name, index) =>
      if spine then None
      else if ReadsAtRuntime(decls, name, filled) then Some(name)
      else RuntimeRead(decls, index, filled, false)
    case Function(_, properties, outs, _, _) =>
      if spine then None
      else
        var first := FirstRead(decls, properties, filled);
        if first.Some? then first else FirstOut(decls, outs, filled)
    case Operator(operands) => if spine then None else FirstRead(decls, operands, filled)
    case List(members) => if spine then None else FirstRead(decls, members, filled)
    case Stream(left, right) =>
      var first := RuntimeRead(decls, left, filled, false);
      if first.Some? then first else RuntimeRead(decls, right, filled, spine)
  }

  function FirstRead(decls: Decls, ns: seq<Node>, filled: set<string>): Option<string>
    decreases ns
  {
    if ns == [] then None
    else
      var first := RuntimeRead(decls, ns[0], filled, false);
      if first.Some? then first else FirstRead(decls, ns[1..], filled)
  }

  function FirstOut(decls: Decls, outs: seq<string>, filled: set<string>): (first: Option<string>)
    ensures first.None? <==> forall name :: name in outs ==> !ReadsAtRuntime(decls, name, filled)
  {
    if outs == [] then None
    else if ReadsAtRuntime(decls, outs[0], filled) then Some(outs[0])
    else FirstOut(decls, outs[1..], filled)
  }

  // Every function called, through whatever it calls, is pure.
  predicate CallsOnlyPure(n: Node, pure: string -> bool)
    decreases n, 0
  {
    match n
    case Indexed(_, index) => CallsOnlyPure(index, pure)
    case Function(name, properties, _, _, _) => pure(name) && AllCallOnlyPure(properties, pure)
    case Operator(operands) => AllCallOnlyPure(operands, pure)
    case List(members) => AllCallOnlyPure(members, pure)
    case Stream(left, right) => CallsOnlyPure(left, pure) && CallsOnlyPure(right, pure)
    case _ => true
  }

  predicate AllCallOnlyPure(ns: seq<Node>, pure: string -> bool)
    decreases ns
  {
    ns == [] || (CallsOnlyPure(ns[0], pure) && AllCallOnlyPure(ns[1..], pure))
  }

  // The functions a node calls.
  function Called(n: Node): set<string>
    decreases n, 0
  {
    match n
    case Indexed(_, index) => Called(index)
    case Function(name, properties, _, _, _) => {name} + AllCalled(properties)
    case Operator(operands) => AllCalled(operands)
    case List(members) => AllCalled(members)
    case Stream(left, right) => Called(left) + Called(right)
    case _ => {}
  }

  function AllCalled(ns: seq<Node>): set<string>
    decreases ns
  {
    if ns == [] then {} else Called(ns[0]) + AllCalled(ns[1..])
  }

  lemma {:induction false} CallsOnlyPureExactly(n: Node, pure: string -> bool)
    ensures CallsOnlyPure(n, pure) <==> forall name :: name in Called(n) ==> pure(name)
    decreases n, 0
  {
    match n
    case Indexed(_, index) => CallsOnlyPureExactly(index, pure);
    case Function(_, properties, _, _, _) => AllCallOnlyPureExactly(properties, pure);
    case Operator(operands) => AllCallOnlyPureExactly(operands, pure);
    case List(members) => AllCallOnlyPureExactly(members, pure);
    case Stream(left, right) =>
      CallsOnlyPureExactly(left, pure);
      CallsOnlyPureExactly(right, pure);
    case _ =>
  }

  lemma {:induction false} AllCallOnlyPureExactly(ns: seq<Node>, pure: string -> bool)
    ensures AllCallOnlyPure(ns, pure) <==> forall name :: name in AllCalled(ns) ==> pure(name)
    decreases ns
  {
    if ns != [] {
      CallsOnlyPureExactly(ns[0], pure);
      AllCallOnlyPureExactly(ns[1..], pure);
    }
  }

  // The stream fills a constant and can do so at compile time.
  predicate Collectable(decls: Decls, pure: string -> bool, n: Node, filled: set<string>) {
    && n.Stream?
    && Destination(n).Name?
    && Unfilled(decls, Destination(n).name) && Destination(n).name !in filled
    && RuntimeRead(decls, n, filled, true).None?
    && CallsOnlyPure(n, pure)
  }

  function FilledBy(decls: Decls, pure: string -> bool, streams: seq<Node>): set<string> {
    if streams == [] then {}
    else
      var n := |streams| - 1;
      var before := FilledBy(decls, pure, streams[..n]);
      if Collectable(decls, pure, streams[n], before) then before + {Destination(streams[n]).name} else before
  }

  function Collected(decls: Decls, pure: string -> bool, streams: seq<Node>): seq<Node> {
    if streams == [] then []
    else
      var n := |streams| - 1;
      Collected(decls, pure, streams[..n])
      + if Collectable(decls, pure, streams[n], FilledBy(decls, pure, streams[..n])) then [streams[n]] else []
  }

  // Streams in order: top-level ones, then each domain's onLoad.
  method Collect(decls: Decls, pure: string -> bool, streams: seq<Node>)
    returns (fills: seq<Node>, filled: set<string>)
    ensures fills == Collected(decls, pure, streams)
    ensures filled == FilledBy(decls, pure, streams)
  {
    hide RuntimeRead, CallsOnlyPure;
    fills, filled := [], {};
    for i := 0 to |streams|
      invariant fills == Collected(decls, pure, streams[..i])
      invariant filled == FilledBy(decls, pure, streams[..i])
    {
      assert streams[..i + 1][..i] == streams[..i];
      var stream := streams[i];
      if stream.Stream? {
        var destination := Destination(stream);
        if destination.Name? && Unfilled(decls, destination.name) && destination.name !in filled {
          var read := RuntimeRead(decls, stream, filled, true);
          if read.None? && CallsOnlyPure(stream, pure) {
            fills := fills + [stream];
            filled := filled + {destination.name};
          }
        }
      }
    }
    assert streams[..|streams|] == streams;
  }

  // ------------------------------------------------------ what can be known

  ghost predicate Known(decls: Decls, key: Key, filled: set<string>) {
    key.Block? && IsBlock(decls, key) && !ReadsAtRuntime(decls, key.name, filled)
  }

  // Two stores hold the same value for each of the keys.
  ghost predicate Same(decls: Decls, keys: iset<Key>, a: Store, b: Store) {
    forall key :: key in keys ==> Read(decls, a, key) == Read(decls, b, key)
  }

  ghost function KnownKeys(decls: Decls, filled: set<string>): iset<Key> {
    iset key | !IsBlock(decls, key) || Known(decls, key, filled)
  }

  // Two stores hold the same given constants, and the same filled ones.
  ghost predicate Agree(decls: Decls, filled: set<string>, a: Store, b: Store) {
    Same(decls, KnownKeys(decls, filled), a, b)
  }

  ghost predicate SamePure(pure: string -> bool, a: Semantics, b: Semantics) {
    forall name, args, key :: pure(name) || name == "" ==> a(name, args, key) == b(name, args, key)
  }

  function Elements<T(==)>(s: seq<T>): set<T> {
    set x | x in s
  }

  // What a node shows of what it reads, and of the property outputs it binds:
  // all the collector looks at.
  function Shown(n: Node, spine: bool): set<string>
    decreases n, 0
  {
    match n
    case Literal(_) => {}
    case Name(name) => if spine then {} else {name}
    case Indexed(name, index) => if spine then {} else {name} + Shown(index, false)
    case Function(_, properties, outs, _, _) => if spine then {} else AllShown(properties) + Elements(outs)
    case Operator(operands) => if spine then {} else AllShown(operands)
    case List(members) => if spine then {} else AllShown(members)
    case Stream(left, right) => Shown(left, false) + Shown(right, spine)
  }

  function AllShown(ns: seq<Node>): set<string>
    decreases ns
  {
    if ns == [] then {} else Shown(ns[0], false) + AllShown(ns[1..])
  }

  // What the bodies of the calls in a node read.
  function Captured(n: Node): set<Key>
    decreases n, 0
  {
    match n
    case Indexed(_, index) => Captured(index)
    case Function(_, properties, _, captures, _) => AllCaptured(properties) + Elements(captures)
    case Operator(operands) => AllCaptured(operands)
    case List(members) => AllCaptured(members)
    case Stream(left, right) => Captured(left) + Captured(right)
    case _ => {}
  }

  function AllCaptured(ns: seq<Node>): set<Key>
    decreases ns
  {
    if ns == [] then {} else Captured(ns[0]) + AllCaptured(ns[1..])
  }

  // Everything a node may read.
  ghost function Uses(n: Node, spine: bool): iset<Key> {
    iset key: Key | (key.Block? && key.name in Shown(n, spine)) || key in Captured(n)
  }

  ghost predicate AllKnown(decls: Decls, names: set<string>, filled: set<string>) {
    forall name :: name in names && IsBlock(decls, Block(name)) ==> Known(decls, Block(name), filled)
  }

  lemma AllKnownUnion(decls: Decls, a: set<string>, b: set<string>, filled: set<string>)
    ensures AllKnown(decls, a + b, filled) <==> AllKnown(decls, a, filled) && AllKnown(decls, b, filled)
  {
  }

  // A stream has no runtime read exactly when all it shows are given constants
  // and constants filled before it, whatever its calls read inside.
  lemma {:induction false} ShowsOnlyKnown(decls: Decls, n: Node, filled: set<string>, spine: bool)
    ensures RuntimeRead(decls, n, filled, spine).None? <==> AllKnown(decls, Shown(n, spine), filled)
    decreases n, 0
  {
    match n
    case Literal(_) =>
    case Name(name) => OneKnown(decls, name, filled);
    case Indexed(name, index) =>
      OneKnown(decls, name, filled);
      AllKnownUnion(decls, {name}, Shown(index, false), filled);
      ShowsOnlyKnown(decls, index, filled, false);
    case Function(_, properties, outs, _, _) =>
      AllShowOnlyKnown(decls, properties, filled);
      OutsKnown(decls, outs, filled);
      AllKnownUnion(decls, AllShown(properties), Elements(outs), filled);
    case Operator(operands) => AllShowOnlyKnown(decls, operands, filled);
    case List(members) => AllShowOnlyKnown(decls, members, filled);
    case Stream(left, right) =>
      AllKnownUnion(decls, Shown(left, false), Shown(right, spine), filled);
      ShowsOnlyKnown(decls, left, filled, false);
      ShowsOnlyKnown(decls, right, filled, spine);
  }

  lemma OneKnown(decls: Decls, name: string, filled: set<string>)
    ensures AllKnown(decls, {name}, filled) <==> !ReadsAtRuntime(decls, name, filled)
  {
    assert name in {name};
  }

  lemma OutsKnown(decls: Decls, outs: seq<string>, filled: set<string>)
    ensures AllKnown(decls, Elements(outs), filled) <==> FirstOut(decls, outs, filled).None?
  {
    forall name | name in outs && ReadsAtRuntime(decls, name, filled)
      ensures !AllKnown(decls, Elements(outs), filled)
    {
      assert name in Elements(outs);
    }
  }

  lemma {:induction false} AllShowOnlyKnown(decls: Decls, ns: seq<Node>, filled: set<string>)
    ensures FirstRead(decls, ns, filled).None? <==> AllKnown(decls, AllShown(ns), filled)
    decreases ns
  {
    if ns != [] {
      AllKnownUnion(decls, Shown(ns[0], false), AllShown(ns[1..]), filled);
      ShowsOnlyKnown(decls, ns[0], filled, false);
      AllShowOnlyKnown(decls, ns[1..], filled);
    }
  }

  // ----------------------------------------------------- when stores agree

  ghost predicate Among(n: Node, spine: bool, keys: iset<Key>) {
    && (forall name :: name in Shown(n, spine) ==> Block(name) in keys)
    && forall key :: key in Captured(n) ==> key in keys
  }

  ghost predicate AllAmong(ns: seq<Node>, keys: iset<Key>) {
    && (forall name :: name in AllShown(ns) ==> Block(name) in keys)
    && forall key :: key in AllCaptured(ns) ==> key in keys
  }

  lemma {:induction false} ReadsEachSame(decls: Decls, captures: seq<Key>, keys: iset<Key>, a: Store, b: Store)
    requires Same(decls, keys, a, b) && forall key :: key in captures ==> key in keys
    ensures ReadEach(decls, a, captures) == ReadEach(decls, b, captures)
  {
    if captures != [] {
      ReadsEachSame(decls, captures[1..], keys, a, b);
    }
  }

  lemma CallAgrees(
      decls: Decls, semA: Semantics, semB: Semantics, name: string, args: seq<Value>, written: seq<Key>,
      captures: seq<Key>, keys: iset<Key>, a: Store, b: Store)
    requires forall all, key :: semA(name, all, key) == semB(name, all, key)
    requires Same(decls, keys, a, b) && forall key :: key in captures ==> key in keys
    ensures Call(decls, semA, name, args, written, captures, a).0 == Call(decls, semB, name, args, written, captures, b).0
    ensures Same(decls, keys, Call(decls, semA, name, args, written, captures, a).1,
                 Call(decls, semB, name, args, written, captures, b).1)
  {
    ReadsEachSame(decls, captures, keys, a, b);
  }

  ghost predicate SameCalls(pure: string -> bool, a: Semantics, b: Semantics, onlyPure: bool) {
    a == b || (SamePure(pure, a, b) && onlyPure)
  }

  // An expression means the same in two stores that hold the same for every
  // key it uses, in the compiler as in the program if it calls pure code.
  lemma {:induction false} EvalAgrees(
      decls: Decls, pure: string -> bool, semA: Semantics, semB: Semantics, n: Node, keys: iset<Key>,
      a: Store, b: Store)
    requires Same(decls, keys, a, b) && Among(n, false, keys)
    requires SameCalls(pure, semA, semB, CallsOnlyPure(n, pure))
    ensures Eval(decls, semA, n, a).0 == Eval(decls, semB, n, b).0
    ensures Same(decls, keys, Eval(decls, semA, n, a).1, Eval(decls, semB, n, b).1)
    decreases n, 0
  {
    match n
    case Literal(_) =>
    case Name(_) =>
    case Indexed(_, index) => EvalAgrees(decls, pure, semA, semB, index, keys, a, b);
    case Function(name, properties, outs, captures, changes) =>
      EvalAllAgrees(decls, pure, semA, semB, properties, keys, a, b);
      var (args, a') := EvalAll(decls, semA, properties, a);
      var b' := EvalAll(decls, semB, properties, b).1;
      CallAgrees(decls, semA, semB, name, args, CallWrites(outs, changes), captures, keys, a', b');
    case Operator(operands) => EvalAllAgrees(decls, pure, semA, semB, operands, keys, a, b);
    case List(members) => EvalAllAgrees(decls, pure, semA, semB, members, keys, a, b);
    case Stream(left, right) =>
      EvalAgrees(decls, pure, semA, semB, left, keys, a, b);
      var (v, a') := Eval(decls, semA, left, a);
      var b' := Eval(decls, semB, left, b).1;
      FeedAgrees(decls, pure, semA, semB, right, keys, false, v, a', b');
  }

  lemma {:induction false} EvalAllAgrees(
      decls: Decls, pure: string -> bool, semA: Semantics, semB: Semantics, ns: seq<Node>, keys: iset<Key>,
      a: Store, b: Store)
    requires Same(decls, keys, a, b) && AllAmong(ns, keys)
    requires SameCalls(pure, semA, semB, AllCallOnlyPure(ns, pure))
    ensures EvalAll(decls, semA, ns, a).0 == EvalAll(decls, semB, ns, b).0
    ensures Same(decls, keys, EvalAll(decls, semA, ns, a).1, EvalAll(decls, semB, ns, b).1)
    decreases ns
  {
    if ns != [] {
      EvalAgrees(decls, pure, semA, semB, ns[0], keys, a, b);
      EvalAllAgrees(decls, pure, semA, semB, ns[1..], keys,
                    Eval(decls, semA, ns[0], a).1, Eval(decls, semB, ns[0], b).1);
    }
  }

  // What flows through agrees, the keys stay the same, and a stream that ends
  // in a block makes that block the same too.
  lemma {:induction false} FeedAgrees(
      decls: Decls, pure: string -> bool, semA: Semantics, semB: Semantics, n: Node, keys: iset<Key>,
      spine: bool, v: Value, a: Store, b: Store)
    requires Same(decls, keys, a, b) && Among(n, spine, keys)
    requires SameCalls(pure, semA, semB, CallsOnlyPure(n, pure))
    requires spine ==> Destination(n).Name?
    ensures Feed(decls, semA, n, v, a).0 == Feed(decls, semB, n, v, b).0
    ensures var a', b' := Feed(decls, semA, n, v, a).1, Feed(decls, semB, n, v, b).1;
            && Same(decls, keys, a', b')
            && (spine ==> Read(decls, a', Block(Destination(n).name)) == Read(decls, b', Block(Destination(n).name)))
    decreases n, 1
  {
    match n
    case Indexed(name, index) => EvalAgrees(decls, pure, semA, semB, index, keys, a, b);
    case Function(name, properties, outs, captures, changes) =>
      EvalAllAgrees(decls, pure, semA, semB, properties, keys, a, b);
      var (args, a') := EvalAll(decls, semA, properties, a);
      var b' := EvalAll(decls, semB, properties, b).1;
      CallAgrees(decls, semA, semB, name, [v] + args, CallWrites(outs, changes), captures, keys, a', b');
    case Stream(left, right) =>
      FeedAgrees(decls, pure, semA, semB, left, keys, false, v, a, b);
      var (v', a') := Feed(decls, semA, left, v, a);
      var b' := Feed(decls, semB, left, v, b).1;
      FeedAgrees(decls, pure, semA, semB, right, keys, spine, v', a', b');
    case _ =>
  }

  // ---------------------------------------------------------- who writes what

  // What evaluating a node writes: property outputs and what bodies change.
  function Writes(n: Node): set<Key>
    decreases n, 0
  {
    match n
    case Indexed(_, index) => Writes(index)
    case Function(_, properties, outs, _, changes) => AllWrites(properties) + Elements(CallWrites(outs, changes))
    case Operator(operands) => AllWrites(operands)
    case List(members) => AllWrites(members)
    case Stream(left, right) => Writes(left) + FeedWrites(right)
    case _ => {}
  }

  function AllWrites(ns: seq<Node>): set<Key>
    decreases ns
  {
    if ns == [] then {} else Writes(ns[0]) + AllWrites(ns[1..])
  }

  // What a value flowing into a node writes.
  function FeedWrites(n: Node): set<Key>
    decreases n, 1
  {
    match n
    case Name(name) => {Block(name)}
    case Indexed(name, index) => {Block(name)} + Writes(index)
    case Function(_, _, _, _, _) => Writes(n)
    case Stream(left, right) => FeedWrites(left) + FeedWrites(right)
    case _ => {}
  }

  function WrittenBy(n: Node): set<Key> {
    if n.Stream? then Writes(n) else {}
  }

  lemma {:induction false} WritesOnly(decls: Decls, sem: Semantics, n: Node, st: Store, key: Key)
    requires key !in Writes(n)
    ensures Read(decls, Eval(decls, sem, n, st).1, key) == Read(decls, st, key)
    decreases n, 0
  {
    match n
    case Indexed(_, index) => WritesOnly(decls, sem, index, st, key);
    case Function(_, properties, _, _, _) => AllWriteOnly(decls, sem, properties, st, key);
    case Operator(operands) => AllWriteOnly(decls, sem, operands, st, key);
    case List(members) => AllWriteOnly(decls, sem, members, st, key);
    case Stream(left, right) =>
      WritesOnly(decls, sem, left, st, key);
      var (v, st') := Eval(decls, sem, left, st);
      FeedWritesOnly(decls, sem, right, v, st', key);
    case _ =>
  }

  lemma {:induction false} AllWriteOnly(decls: Decls, sem: Semantics, ns: seq<Node>, st: Store, key: Key)
    requires key !in AllWrites(ns)
    ensures Read(decls, EvalAll(decls, sem, ns, st).1, key) == Read(decls, st, key)
    decreases ns
  {
    if ns != [] {
      WritesOnly(decls, sem, ns[0], st, key);
      AllWriteOnly(decls, sem, ns[1..], Eval(decls, sem, ns[0], st).1, key);
    }
  }

  lemma {:induction false} FeedWritesOnly(decls: Decls, sem: Semantics, n: Node, v: Value, st: Store, key: Key)
    requires key !in FeedWrites(n)
    ensures Read(decls, Feed(decls, sem, n, v, st).1, key) == Read(decls, st, key)
    decreases n, 1
  {
    match n
    case Indexed(_, index) => WritesOnly(decls, sem, index, st, key);
    case Function(_, properties, _, _, _) => AllWriteOnly(decls, sem, properties, st, key);
    case Stream(left, right) =>
      FeedWritesOnly(decls, sem, left, v, st, key);
      var (v', st') := Feed(decls, sem, left, v, st);
      FeedWritesOnly(decls, sem, right, v', st', key);
    case _ =>
  }

  // A stream changes only what it writes.
  lemma StreamWritesOnly(decls: Decls, sem: Semantics, n: Node, st: Store, key: Key)
    requires key !in WrittenBy(n)
    ensures Read(decls, RunStream(decls, sem, n, st), key) == Read(decls, st, key)
  {
    if n.Stream? {
      WritesOnly(decls, sem, n, st, key);
    }
  }

  // No stream writes a given constant, and a constant filled at compile time
  // is written by no stream but the one that fills it.
  ghost predicate OneWriter(decls: Decls, pure: string -> bool, streams: seq<Node>) {
    && (forall i, name :: 0 <= i < |streams| && Block(name) in WrittenBy(streams[i]) && name in decls ==>
          !(decls[name].Constant? && decls[name].given.Some?))
    && (forall i, j, name ::
          (0 <= i < |streams| && 0 <= j < |streams| && i != j
           && Block(name) in WrittenBy(streams[i]) && Block(name) in WrittenBy(streams[j]))
          ==> !Unfilled(decls, name))
  }

  function RunAll(decls: Decls, sem: Semantics, streams: seq<Node>, st: Store): Store {
    if streams == [] then st
    else RunStream(decls, sem, streams[|streams| - 1], RunAll(decls, sem, streams[..|streams| - 1], st))
  }

  lemma {:induction false} DestinationIsWritten(n: Node)
    ensures Destination(n).Name? ==> Block(Destination(n).name) in FeedWrites(n)
    ensures n.Stream? && Destination(n).Name? ==> Block(Destination(n).name) in WrittenBy(n)
  {
    if n.Stream? {
      DestinationIsWritten(n.right);
    }
  }

  // The stream that fills a constant.
  lemma {:induction false} FilledAt(decls: Decls, pure: string -> bool, streams: seq<Node>, name: string)
    returns (i: nat)
    requires name in FilledBy(decls, pure, streams)
    ensures i < |streams| && Collectable(decls, pure, streams[i], FilledBy(decls, pure, streams[..i]))
    ensures Destination(streams[i]).name == name && Block(name) in WrittenBy(streams[i]) && Unfilled(decls, name)
  {
    var n := |streams| - 1;
    if name in FilledBy(decls, pure, streams[..n]) {
      i := FilledAt(decls, pure, streams[..n], name);
      assert streams[..n][..i] == streams[..i];
    } else {
      i := n;
      DestinationIsWritten(streams[n]);
    }
  }

  lemma {:induction false} FilledGrows(decls: Decls, pure: string -> bool, streams: seq<Node>, n: nat)
    requires n <= |streams|
    ensures FilledBy(decls, pure, streams[..n]) <= FilledBy(decls, pure, streams)
    decreases |streams|
  {
    if n < |streams| {
      var last := |streams| - 1;
      FilledGrows(decls, pure, streams[..last], n);
      assert streams[..last][..n] == streams[..n];
    } else {
      assert streams[..n] == streams;
    }
  }

  lemma WritersOfPrefix(decls: Decls, pure: string -> bool, streams: seq<Node>, n: nat)
    requires n <= |streams| && OneWriter(decls, pure, streams)
    ensures OneWriter(decls, pure, streams[..n])
  {
    assert forall i :: 0 <= i < n ==> streams[..n][i] == streams[i];
  }

  // Two stores differ in the excepted keys only.
  ghost predicate Differ(decls: Decls, except: iset<Key>, a: Store, c: Store) {
    forall key :: key !in except ==> Read(decls, c, key) == Read(decls, a, key)
  }

  // A stream does the same in two stores that differ in unused keys only.
  lemma SameEffect(
      decls: Decls, pure: string -> bool, sem: Semantics, n: Node, unused: iset<Key>, a: Store, c: Store)
    requires Uses(n, false) !! unused
    requires Differ(decls, unused, a, c)
    ensures Differ(decls, unused, RunStream(decls, sem, n, a), RunStream(decls, sem, n, c))
  {
    if n.Stream? {
      var keys := iset key | key !in unused;
      forall name | name in Shown(n, false)
        ensures Block(name) in keys
      {
        assert Block(name) in Uses(n, false);
      }
      forall key | key in Captured(n)
        ensures key in keys
      {
        assert key in Uses(n, false);
      }
      EvalAgrees(decls, pure, sem, sem, n, keys, c, a);
    }
  }

  // ----------------------------------------------------------------- folding

  // A read of a constant whose value is known, at a known index. An index past
  // the end is left to the program.
  function Resolved(v: Value, index: Node): Option<int> {
    if !index.Literal? then None
    else if index.value < 0 then Some(0)
    else if index.value < |v| then Some(v[index.value])
    else None
  }

  // A node standing where a value is read: a stream's source, a property, a
  // list's member, an index. Its own index is folded first.
  function FoldValue(values: map<string, Value>, n: Node): Node
    decreases n, 1
  {
    match n
    case Indexed(name, index) =>
      var i := FoldValue(values, index);
      if name in values then
        var value := Resolved(values[name], i);
        if value.Some? then Literal(value.value) else Indexed(name, i)
      else if i.Literal? && i.value < 0 then Literal(0)
      else Indexed(name, i)
    case _ => Fold(values, n)
  }

  // Everything below a node; the node itself keeps its place.
  function Fold(values: map<string, Value>, n: Node): Node
    decreases n, 0
  {
    match n
    case Literal(_) => n
    case Name(_) => n
    case Indexed(name, index) => Indexed(name, FoldValue(values, index))
    case Function(name, properties, outs, captures, changes) =>
      Function(name, FoldValues(values, properties), outs, captures, changes)
    case Operator(operands) => Operator(Folds(values, operands))
    case List(members) => List(FoldValues(values, members))
    case Stream(left, right) => Stream(FoldValue(values, left), Fold(values, right))
  }

  function FoldValues(values: map<string, Value>, ns: seq<Node>): seq<Node>
    decreases ns
  {
    if ns == [] then [] else [FoldValue(values, ns[0])] + FoldValues(values, ns[1..])
  }

  function Folds(values: map<string, Value>, ns: seq<Node>): seq<Node>
    decreases ns
  {
    if ns == [] then [] else [Fold(values, ns[0])] + Folds(values, ns[1..])
  }

  // ------------------------------------------------- everything is folded

  // A read whose value is known: of a folded constant at an index inside it, or
  // of any block at a negative one.
  predicate KnownRead(values: map<string, Value>, n: Node) {
    && n.Indexed? && n.index.Literal?
    && (n.index.value < 0 || (n.name in values && n.index.value < |values[n.name]|))
  }

  // No known read stands anywhere below the node where a value is read: as a
  // stream's source, a property, a list's member or an index.
  predicate NoneBelow(values: map<string, Value>, n: Node)
    decreases n, 0
  {
    match n
    case Indexed(_, index) => NoneAt(values, index)
    case Function(_, properties, _, _, _) => NoneAtAll(values, properties)
    case Operator(operands) => NoneBelowAll(values, operands)
    case List(members) => NoneAtAll(values, members)
    case Stream(left, right) => NoneAt(values, left) && NoneBelow(values, right)
    case _ => true
  }

  predicate NoneAt(values: map<string, Value>, n: Node)
    decreases n, 1
  {
    !KnownRead(values, n) && NoneBelow(values, n)
  }

  predicate NoneAtAll(values: map<string, Value>, ns: seq<Node>)
    decreases ns
  {
    ns == [] || (NoneAt(values, ns[0]) && NoneAtAll(values, ns[1..]))
  }

  predicate NoneBelowAll(values: map<string, Value>, ns: seq<Node>)
    decreases ns
  {
    ns == [] || (NoneBelow(values, ns[0]) && NoneBelowAll(values, ns[1..]))
  }

  // Folding leaves no known read behind, those that become known by folding
  // their index included.
  lemma {:induction false} FoldIsComplete(values: map<string, Value>, n: Node)
    ensures NoneBelow(values, Fold(values, n)) && NoneAt(values, FoldValue(values, n))
    decreases n
  {
    match n
    case Indexed(_, index) => FoldIsComplete(values, index);
    case Function(_, properties, _, _, _) => FoldsAreComplete(values, properties);
    case Operator(operands) => FoldsAreComplete(values, operands);
    case List(members) => FoldsAreComplete(values, members);
    case Stream(left, right) =>
      FoldIsComplete(values, left);
      FoldIsComplete(values, right);
    case _ =>
  }

  lemma {:induction false} FoldsAreComplete(values: map<string, Value>, ns: seq<Node>)
    ensures NoneAtAll(values, FoldValues(values, ns)) && NoneBelowAll(values, Folds(values, ns))
    decreases ns
  {
    if ns != [] {
      FoldIsComplete(values, ns[0]);
      FoldsAreComplete(values, ns[1..]);
    }
  }

  // What has no known read is left as it is.
  lemma {:induction false} FoldTouchesOnlyKnown(values: map<string, Value>, n: Node)
    ensures NoneBelow(values, n) ==> Fold(values, n) == n
    ensures NoneAt(values, n) ==> FoldValue(values, n) == n
    decreases n
  {
    match n
    case Indexed(_, index) => FoldTouchesOnlyKnown(values, index);
    case Function(_, properties, _, _, _) => FoldsTouchOnlyKnown(values, properties);
    case Operator(operands) => FoldsTouchOnlyKnown(values, operands);
    case List(members) => FoldsTouchOnlyKnown(values, members);
    case Stream(left, right) =>
      FoldTouchesOnlyKnown(values, left);
      FoldTouchesOnlyKnown(values, right);
    case _ =>
  }

  lemma {:induction false} FoldsTouchOnlyKnown(values: map<string, Value>, ns: seq<Node>)
    ensures NoneAtAll(values, ns) ==> FoldValues(values, ns) == ns
    ensures NoneBelowAll(values, ns) ==> Folds(values, ns) == ns
    decreases ns
  {
    if ns != [] {
      FoldTouchesOnlyKnown(values, ns[0]);
      FoldsTouchOnlyKnown(values, ns[1..]);
    }
  }

  // A read at an index that folds to a literal becomes the element's value,
  // and only the read: an unknown one keeps its place with the folded index.
  lemma ReadFolds(values: map<string, Value>, name: string, index: Node, at: int)
    requires FoldValue(values, index) == Literal(at)
    ensures FoldValue(values, Indexed(name, index))
         == if at < 0 then Literal(0)
            else if name in values && at < |values[name]| then Literal(Element(values[name], [at]))
            else Indexed(name, Literal(at))
  {
  }

  // Table[4] >> Out becomes 12 >> Out, and Empty[Squares[4]] >> Out becomes
  // 0 >> Out when Squares[4] is -1.
  lemma TableReadFolds(empty: Value)
    ensures Fold(map["Table" := [3, 5, 7, 9, 12]], Stream(Indexed("Table", Literal(4)), Name("Out")))
         == Stream(Literal(12), Name("Out"))
    ensures Fold(map["Empty" := empty, "Squares" := [4, 3, 2, 1, -1]],
                 Stream(Indexed("Empty", Indexed("Squares", Literal(4))), Name("Out")))
         == Stream(Literal(0), Name("Out"))
  {
    ReadFolds(map["Table" := [3, 5, 7, 9, 12]], "Table", Literal(4), 4);
    var values := map["Empty" := empty, "Squares" := [4, 3, 2, 1, -1]];
    ReadFolds(values, "Squares", Literal(4), 4);
    ReadFolds(values, "Empty", Indexed("Squares", Literal(4)), -1);
  }

  // The store holds the folded constants at their values.
  ghost predicate HoldsValues(decls: Decls, st: Store, values: map<string, Value>) {
    forall name :: name in values ==> IsBlock(decls, Block(name)) && Read(decls, st, Block(name)) == values[name]
  }

  // None of the keys is a folded constant.
  ghost predicate Leaves(values: map<string, Value>, keys: set<Key>) {
    forall name :: name in values ==> Block(name) !in keys
  }

  lemma StillHolds(decls: Decls, sem: Semantics, values: map<string, Value>, n: Node, st: Store)
    requires HoldsValues(decls, st, values) && Leaves(values, Writes(n))
    ensures HoldsValues(decls, Eval(decls, sem, n, st).1, values)
  {
    forall name | name in values
      ensures Read(decls, Eval(decls, sem, n, st).1, Block(name)) == values[name]
    {
      WritesOnly(decls, sem, n, st, Block(name));
    }
  }

  // Folding preserves what every expression evaluates to, and writes.
  lemma {:induction false} FoldKeepsValue(
      decls: Decls, sem: Semantics, values: map<string, Value>, n: Node, st: Store)
    requires HoldsValues(decls, st, values) && Leaves(values, Writes(n))
    ensures Eval(decls, sem, Fold(values, n), st) == Eval(decls, sem, n, st)
    ensures Eval(decls, sem, FoldValue(values, n), st) == Eval(decls, sem, n, st)
    decreases n, 2
  {
    match n
    case Literal(_) =>
    case Name(_) =>
    case Indexed(name, index) =>
      FoldKeepsValue(decls, sem, values, index, st);
      StillHolds(decls, sem, values, index, st);
    case Function(_, properties, _, _, _) => FoldsKeepValues(decls, sem, values, properties, st);
    case Operator(operands) => FoldsKeepValues(decls, sem, values, operands, st);
    case List(members) => FoldsKeepValues(decls, sem, values, members, st);
    case Stream(left, right) =>
      FoldKeepsValue(decls, sem, values, left, st);
      StillHolds(decls, sem, values, left, st);
      var (v, st') := Eval(decls, sem, left, st);
      FoldKeepsFeed(decls, sem, values, right, v, st');
  }

  lemma {:induction false} FoldsKeepValues(
      decls: Decls, sem: Semantics, values: map<string, Value>, ns: seq<Node>, st: Store)
    requires HoldsValues(decls, st, values) && Leaves(values, AllWrites(ns))
    ensures EvalAll(decls, sem, FoldValues(values, ns), st) == EvalAll(decls, sem, ns, st)
    ensures EvalAll(decls, sem, Folds(values, ns), st) == EvalAll(decls, sem, ns, st)
    decreases ns
  {
    if ns != [] {
      FoldKeepsValue(decls, sem, values, ns[0], st);
      StillHolds(decls, sem, values, ns[0], st);
      FoldsKeepValues(decls, sem, values, ns[1..], Eval(decls, sem, ns[0], st).1);
    }
  }

  // ... and what every node does with the value that flows into it.
  lemma {:induction false} FoldKeepsFeed(
      decls: Decls, sem: Semantics, values: map<string, Value>, n: Node, v: Value, st: Store)
    requires HoldsValues(decls, st, values) && Leaves(values, FeedWrites(n))
    ensures Feed(decls, sem, Fold(values, n), v, st) == Feed(decls, sem, n, v, st)
    decreases n, 3
  {
    match n
    case Indexed(name, index) => FoldKeepsValue(decls, sem, values, index, st);
    case Function(_, properties, _, _, _) =>
      assert AllWrites(properties) <= Writes(n) == FeedWrites(n);
      FoldsKeepValues(decls, sem, values, properties, st);
    case Stream(left, right) =>
      FoldKeepsFeed(decls, sem, values, left, v, st);
      var (v', st') := Feed(decls, sem, left, v, st);
      forall name | name in values
        ensures Read(decls, st', Block(name)) == values[name]
      {
        FeedWritesOnly(decls, sem, left, v, st, Block(name));
      }
      FoldKeepsFeed(decls, sem, values, right, v', st');
    case _ =>
  }

  // So a folded stream does what the stream did, in every store that holds
  // the filled values.
  lemma FoldKeepsStream(decls: Decls, sem: Semantics, values: map<string, Value>, n: Node, st: Store)
    requires HoldsValues(decls, st, values) && Leaves(values, WrittenBy(n))
    ensures RunStream(decls, sem, Fold(values, n), st) == RunStream(decls, sem, n, st)
  {
    if n.Stream? {
      FoldKeepsValue(decls, sem, values, n, st);
    }
  }

  // Folding adds no write.
  lemma {:induction false} FoldWritesNoMore(values: map<string, Value>, n: Node)
    ensures Writes(Fold(values, n)) <= Writes(n) && Writes(FoldValue(values, n)) <= Writes(n)
    ensures FeedWrites(Fold(values, n)) <= FeedWrites(n)
    decreases n, 0
  {
    match n
    case Indexed(_, index) => FoldWritesNoMore(values, index);
    case Function(_, properties, _, _, _) => FoldsWriteNoMore(values, properties);
    case Operator(operands) => FoldsWriteNoMore(values, operands);
    case List(members) => FoldsWriteNoMore(values, members);
    case Stream(left, right) =>
      FoldWritesNoMore(values, left);
      FoldWritesNoMore(values, right);
    case _ =>
  }

  lemma {:induction false} FoldsWriteNoMore(values: map<string, Value>, ns: seq<Node>)
    ensures AllWrites(FoldValues(values, ns)) <= AllWrites(ns) && AllWrites(Folds(values, ns)) <= AllWrites(ns)
    decreases ns
  {
    if ns != [] {
      FoldWritesNoMore(values, ns[0]);
      FoldsWriteNoMore(values, ns[1..]);
    }
  }

  // The block a stream writes is never replaced by a value: it stays the same
  // block, at most with a folded index.
  lemma {:induction false} DestinationIsKept(values: map<string, Value>, n: Node)
    requires n.Stream?
    ensures Destination(Fold(values, n)) == Fold(values, Destination(n))
    ensures Destination(n).Name? ==> Destination(Fold(values, n)) == Destination(n)
    ensures Destination(n).Indexed? ==>
              Destination(Fold(values, n)).Indexed? && Destination(Fold(values, n)).name == Destination(n).name
  {
    if n.right.Stream? {
      DestinationIsKept(values, n.right);
    }
  }

  // The walk meets a folded node again; that second visit changes nothing.
  lemma {:induction false} FoldIsIdempotent(values: map<string, Value>, n: Node)
    ensures Fold(values, Fold(values, n)) == Fold(values, n)
    ensures FoldValue(values, FoldValue(values, n)) == FoldValue(values, n)
    ensures Fold(values, FoldValue(values, n)) == FoldValue(values, n)
    decreases n, 0
  {
    match n
    case Indexed(_, index) => FoldIsIdempotent(values, index);
    case Function(_, properties, _, _, _) => FoldsAreIdempotent(values, properties);
    case Operator(operands) => FoldsAreIdempotent(values, operands);
    case List(members) => FoldsAreIdempotent(values, members);
    case Stream(left, right) =>
      FoldIsIdempotent(values, left);
      FoldIsIdempotent(values, right);
    case _ =>
  }

  lemma {:induction false} FoldsAreIdempotent(values: map<string, Value>, ns: seq<Node>)
    ensures FoldValues(values, FoldValues(values, ns)) == FoldValues(values, ns)
    ensures Folds(values, Folds(values, ns)) == Folds(values, ns)
    decreases ns
  {
    if ns != [] {
      FoldIsIdempotent(values, ns[0]);
      FoldsAreIdempotent(values, ns[1..]);
    }
  }
}
