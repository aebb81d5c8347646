// The conditions under which filling constants at compile time keeps a program
// are exact: where one is broken by a use that shows, there are functions and
// stores under which the two programs differ.
module FillExactness {
  import opened ConstantFills
  import opened FilledPrograms
  import opened Wrappers

  // ------------------------------------------------- functions that tell all

  // The value of a call adds up the sizes of everything it is given, so that
  // nothing is lost; what it leaves in a key is fixed.
  function Marking(mark: Value): Semantics {
    (name, args, key: Option<Key>) => if key.None? then [SizeAll(args)] else mark
  }

  function Size(v: Value): nat {
    if v == [] then 0 else (if v[0] < 0 then -v[0] else v[0]) + Size(v[1..])
  }

  function SizeAll(vs: seq<Value>): nat {
    if vs == [] then 0 else Size(vs[0]) + SizeAll(vs[1..])
  }

  lemma {:induction false} SizeOfElement(v: Value, i: nat)
    requires i < |v|
    ensures Size(v) >= if v[i] < 0 then -v[i] else v[i]
  {
    if i > 0 {
      SizeOfElement(v[1..], i - 1);
    }
  }

  lemma {:induction false} SizeOfJoined(v: Value, w: Value)
    ensures Size(v + w) == Size(v) + Size(w)
  {
    if v == [] {
      assert v + w == w;
    } else {
      assert (v + w)[1..] == v[1..] + w;
      SizeOfJoined(v[1..], w);
    }
  }

  lemma {:induction false} JoinedSize(vs: seq<Value>)
    ensures Size(Joined(vs)) == SizeAll(vs)
  {
    if vs != [] {
      SizeOfJoined(vs[0], Joined(vs[1..]));
      JoinedSize(vs[1..]);
    }
  }

  lemma {:induction false} SizeAllAppend(vs: seq<Value>, ws: seq<Value>)
    ensures SizeAll(vs + ws) == SizeAll(vs) + SizeAll(ws)
  {
    if vs == [] {
      assert vs + ws == ws;
    } else {
      assert (vs + ws)[1..] == vs[1..] + ws;
      SizeAllAppend(vs[1..], ws);
    }
  }

  lemma SizeOfOne(n: nat)
    ensures Size([n]) == n
  {
    assert [n][1..] == [];
  }

  // ------------------------------------------------ what reaches a value

  // The keys whose values reach the value of an expression: read whole, at a
  // written index that is not negative, or inside a call, and not overwritten
  // before.
  function Reaching(n: Node): set<Key>
    decreases n, 0
  {
    match n
    case Name(name) => {Block(name)}
    case Indexed(name, index) => if index.Literal? && index.value >= 0 then {Block(name)} else {}
    case Function(_, properties, _, captures, _) =>
      ReachingAll(properties) + (Elements(captures) - AllWrites(properties))
    case Operator(operands) => ReachingAll(operands)
    case List(members) => ReachingAll(members)
    case Stream(left, right) => Reaching(left) + (Carried(right) - Writes(left))
    case Literal(_) => {}
  }

  // What a node adds to the value that flows through it.
  function Carried(n: Node): set<Key>
    decreases n, 1
  {
    match n
    case Function(_, _, _, _, _) => Reaching(n)
    case Stream(left, right) => Carried(left) + (Carried(right) - FeedWrites(left))
    case _ => {}
  }

  function ReachingAll(ns: seq<Node>): set<Key>
    decreases ns
  {
    if ns == [] then {} else Reaching(ns[0]) + (ReachingAll(ns[1..]) - Writes(ns[0]))
  }

  // Beyond every written index.
  function Bound(n: Node): nat
    decreases n, 0
  {
    match n
    case Literal(value) => if value < 0 then 0 else value + 1
    case Name(_) => 0
    case Indexed(_, index) => Bound(index)
    case Function(_, properties, _, _, _) => BoundAll(properties)
    case Operator(operands) => BoundAll(operands)
    case List(members) => BoundAll(members)
    case Stream(left, right) => Bound(left) + Bound(right)
  }

  function BoundAll(ns: seq<Node>): nat
    decreases ns
  {
    if ns == [] then 0 else Bound(ns[0]) + BoundAll(ns[1..])
  }

  // A key full of large elements, at least one, and more than any index.
  ghost predicate Large(decls: Decls, st: Store, key: Key, m: nat, length: nat) {
    && |Read(decls, st, key)| > length
    && forall i :: 0 <= i < |Read(decls, st, key)| ==> Read(decls, st, key)[i] >= m
  }

  lemma LargeRead(decls: Decls, st: Store, key: Key, m: nat, length: nat)
    requires Large(decls, st, key, m, length)
    ensures Size(Read(decls, st, key)) >= m
  {
    SizeOfElement(Read(decls, st, key), 0);
  }

  lemma {:induction false} LargeCapture(decls: Decls, captures: seq<Key>, st: Store, key: Key, m: nat)
    requires key in captures && Size(Read(decls, st, key)) >= m
    ensures SizeAll(ReadEach(decls, st, captures)) >= m
  {
    var rest := ReadEach(decls, st, captures[1..]);
    assert ([Read(decls, st, captures[0])] + rest)[1..] == rest;
    if key != captures[0] {
      LargeCapture(decls, captures[1..], st, key, m);
    }
  }

  // A call whose arguments or captures are large is large.
  lemma LargeCall(
      decls: Decls, mark: Value, name: string, args: seq<Value>, written: seq<Key>, captures: seq<Key>, st: Store,
      m: nat)
    requires SizeAll(args) >= m || exists key :: key in captures && Size(Read(decls, st, key)) >= m
    ensures Size(Call(decls, Marking(mark), name, args, written, captures, st).0) >= m
  {
    var captured := ReadEach(decls, st, captures);
    SizeAllAppend(args, captured);
    if SizeAll(args) < m {
      var key :| key in captures && Size(Read(decls, st, key)) >= m;
      LargeCapture(decls, captures, st, key, m);
    }
    SizeOfOne(SizeAll(args + captured));
  }

  lemma {:induction false} ReachedIsLarge(
      decls: Decls, mark: Value, n: Node, st: Store, key: Key, m: nat, length: nat)
    requires Large(decls, st, key, m, length) && Bound(n) <= length && key in Reaching(n)
    ensures Size(Eval(decls, Marking(mark), n, st).0) >= m
    decreases n, 0
  {
    var sem := Marking(mark);
    match n
    case Name(_) => LargeRead(decls, st, key, m, length);
    case Indexed(_, index) => SizeOfElement([Element(Read(decls, st, key), [index.value])], 0);
    case Function(name, properties, outs, captures, changes) =>
      FunctionIsLarge(decls, mark, n, [], st, key, m, length);
      assert [] + EvalAll(decls, sem, properties, st).0 == EvalAll(decls, sem, properties, st).0;
    case Operator(operands) =>
      AllReachedAreLarge(decls, mark, operands, st, key, m, length);
      SizeOfOne(SizeAll(EvalAll(decls, sem, operands, st).0));
    case List(members) =>
      AllReachedAreLarge(decls, mark, members, st, key, m, length);
      JoinedSize(EvalAll(decls, sem, members, st).0);
    case Stream(left, right) =>
      var (v, st') := Eval(decls, sem, left, st);
      if key in Reaching(left) {
        ReachedIsLarge(decls, mark, left, st, key, m, length);
        LargeFlows(decls, mark, right, v, st', m);
      } else {
        WritesOnly(decls, sem, left, st, key);
        CarriedIsLarge(decls, mark, right, v, st', key, m, length);
      }
  }

  // The call of a function, with more arguments before its properties.
  lemma {:induction false} FunctionIsLarge(
      decls: Decls, mark: Value, n: Node, more: seq<Value>, st: Store, key: Key, m: nat, length: nat)
    requires n.Function? && Large(decls, st, key, m, length) && Bound(n) <= length && key in Reaching(n)
    ensures var (args, st') := EvalAll(decls, Marking(mark), n.properties, st);
            var written := CallWrites(n.outs, n.changes);
            Size(Call(decls, Marking(mark), n.name, more + args, written, n.captures, st').0) >= m
    decreases n.properties, 1
  {
    var (args, st') := EvalAll(decls, Marking(mark), n.properties, st);
    SizeAllAppend(more, args);
    if key in ReachingAll(n.properties) {
      AllReachedAreLarge(decls, mark, n.properties, st, key, m, length);
    } else {
      AllWriteOnly(decls, Marking(mark), n.properties, st, key);
      LargeRead(decls, st', key, m, length);
    }
    LargeCall(decls, mark, n.name, more + args, CallWrites(n.outs, n.changes), n.captures, st', m);
  }

  lemma {:induction false} AllReachedAreLarge(
      decls: Decls, mark: Value, ns: seq<Node>, st: Store, key: Key, m: nat, length: nat)
    requires Large(decls, st, key, m, length) && BoundAll(ns) <= length && key in ReachingAll(ns)
    ensures SizeAll(EvalAll(decls, Marking(mark), ns, st).0) >= m
    decreases ns, 0
  {
    var sem := Marking(mark);
    var (first, st') := Eval(decls, sem, ns[0], st);
    var rest := EvalAll(decls, sem, ns[1..], st').0;
    assert ([first] + rest)[1..] == rest;
    if key in Reaching(ns[0]) {
      ReachedIsLarge(decls, mark, ns[0], st, key, m, length);
    } else {
      WritesOnly(decls, sem, ns[0], st, key);
      AllReachedAreLarge(decls, mark, ns[1..], st', key, m, length);
    }
  }

  lemma {:induction false} CarriedIsLarge(
      decls: Decls, mark: Value, n: Node, v: Value, st: Store, key: Key, m: nat, length: nat)
    requires Large(decls, st, key, m, length) && Bound(n) <= length && key in Carried(n)
    ensures Size(Feed(decls, Marking(mark), n, v, st).0) >= m
    decreases n, 1
  {
    match n
    case Function(_, _, _, _, _) => FunctionIsLarge(decls, mark, n, [v], st, key, m, length);
    case Stream(left, right) =>
      var (v', st') := Feed(decls, Marking(mark), left, v, st);
      if key in Carried(left) {
        CarriedIsLarge(decls, mark, left, v, st, key, m, length);
        LargeFlows(decls, mark, right, v', st', m);
      } else {
        FeedWritesOnly(decls, Marking(mark), left, v, st, key);
        CarriedIsLarge(decls, mark, right, v', st', key, m, length);
      }
    case _ =>
  }

  lemma {:induction false} LargeFlows(decls: Decls, mark: Value, n: Node, v: Value, st: Store, m: nat)
    requires Size(v) >= m
    ensures Size(Feed(decls, Marking(mark), n, v, st).0) >= m
  {
    match n
    case Function(name, properties, outs, captures, changes) =>
      var (args, st') := EvalAll(decls, Marking(mark), properties, st);
      SizeAllAppend([v], args);
      assert [v][1..] == [];
      LargeCall(decls, mark, name, [v] + args, CallWrites(outs, changes), captures, st', m);
    case Stream(left, right) =>
      LargeFlows(decls, mark, left, v, st, m);
      var (v', st') := Feed(decls, Marking(mark), left, v, st);
      LargeFlows(decls, mark, right, v', st', m);
    case _ =>
  }

  lemma {:induction false} DestinationHolds(decls: Decls, sem: Semantics, n: Node, v: Value, st: Store)
    requires Destination(n).Name? && IsBlock(decls, Block(Destination(n).name))
    ensures Read(decls, Feed(decls, sem, n, v, st).1, Block(Destination(n).name)) == Feed(decls, sem, n, v, st).0
  {
    if n.Stream? {
      var (v', st') := Feed(decls, sem, n.left, v, st);
      DestinationHolds(decls, sem, n.right, v', st');
    }
  }

  // ---------------------------------------------------- what calls leave

  // Blocks that take a value flowing into them, calls left aside.
  function Flowed(n: Node): set<Key>
    decreases n, 0
  {
    match n
    case Indexed(_, index) => Flowed(index)
    case Function(_, properties, _, _, _) => AllFlowed(properties)
    case Operator(operands) => AllFlowed(operands)
    case List(members) => AllFlowed(members)
    case Stream(left, right) => Flowed(left) + FeedFlowed(right)
    case _ => {}
  }

  function AllFlowed(ns: seq<Node>): set<Key>
    decreases ns
  {
    if ns == [] then {} else Flowed(ns[0]) + AllFlowed(ns[1..])
  }

  function FeedFlowed(n: Node): set<Key>
    decreases n, 1
  {
    match n
    case Name(name) => {Block(name)}
    case Indexed(name, index) => {Block(name)} + Flowed(index)
    case Function(_, _, _, _, _) => Flowed(n)
    case Stream(left, right) => FeedFlowed(left) + FeedFlowed(right)
    case _ => {}
  }

  ghost predicate Marked(decls: Decls, mark: Value, written: set<Key>, before: Store, after: Store, key: Key) {
    Read(decls, after, key) == if key in written && IsBlock(decls, key) then mark else Read(decls, before, key)
  }

  // A key that only calls write holds the mark afterwards.
  lemma {:induction false} CallsMark(decls: Decls, mark: Value, n: Node, st: Store, key: Key)
    requires key !in Flowed(n)
    ensures Marked(decls, mark, Writes(n), st, Eval(decls, Marking(mark), n, st).1, key)
    decreases n, 0
  {
    match n
    case Indexed(_, index) => CallsMark(decls, mark, index, st, key);
    case Function(_, properties, _, _, _) => AllCallsMark(decls, mark, properties, st, key);
    case Operator(operands) => AllCallsMark(decls, mark, operands, st, key);
    case List(members) => AllCallsMark(decls, mark, members, st, key);
    case Stream(left, right) =>
      CallsMark(decls, mark, left, st, key);
      var (v, st') := Eval(decls, Marking(mark), left, st);
      FeedsMark(decls, mark, right, v, st', key);
    case _ =>
  }

  lemma {:induction false} AllCallsMark(decls: Decls, mark: Value, ns: seq<Node>, st: Store, key: Key)
    requires key !in AllFlowed(ns)
    ensures Marked(decls, mark, AllWrites(ns), st, EvalAll(decls, Marking(mark), ns, st).1, key)
    decreases ns
  {
    if ns != [] {
      CallsMark(decls, mark, ns[0], st, key);
      AllCallsMark(decls, mark, ns[1..], Eval(decls, Marking(mark), ns[0], st).1, key);
    }
  }

  lemma {:induction false} FeedsMark(decls: Decls, mark: Value, n: Node, v: Value, st: Store, key: Key)
    requires key !in FeedFlowed(n)
    ensures Marked(decls, mark, FeedWrites(n), st, Feed(decls, Marking(mark), n, v, st).1, key)
    decreases n, 1
  {
    match n
    case Indexed(_, index) => CallsMark(decls, mark, index, st, key);
    case Function(_, properties, _, _, _) => AllCallsMark(decls, mark, properties, st, key);
    case Stream(left, right) =>
      FeedsMark(decls, mark, left, v, st, key);
      var (v', st') := Feed(decls, Marking(mark), left, v, st);
      FeedsMark(decls, mark, right, v', st', key);
    case _ =>
  }

  lemma {:induction false} StateIsNotFlowed(n: Node)
    ensures forall key: Key :: key.Kept? ==> key !in Flowed(n) && key !in FeedFlowed(n)
    decreases n, 0
  {
    match n
    case Indexed(_, index) => StateIsNotFlowed(index);
    case Function(_, properties, _, _, _) => NoStateIsFlowed(properties);
    case Operator(operands) => NoStateIsFlowed(operands);
    case List(members) => NoStateIsFlowed(members);
    case Stream(left, right) =>
      StateIsNotFlowed(left);
      StateIsNotFlowed(right);
    case _ =>
  }

  lemma {:induction false} NoStateIsFlowed(ns: seq<Node>)
    ensures forall key: Key :: key.Kept? ==> key !in AllFlowed(ns)
    decreases ns
  {
    if ns != [] {
      StateIsNotFlowed(ns[0]);
      NoStateIsFlowed(ns[1..]);
    }
  }

  // ------------------------------------------------- what does not depend on it

  // What evaluating a node reads, and what a value flowing into it reads.
  function Reads(n: Node): set<Key>
    decreases n, 0
  {
    match n
    case Literal(_) => {}
    case Name(name) => {Block(name)}
    case Indexed(name, index) => {Block(name)} + Reads(index)
    case Function(_, properties, _, captures, _) => AllReads(properties) + Elements(captures)
    case Operator(operands) => AllReads(operands)
    case List(members) => AllReads(members)
    case Stream(left, right) => Reads(left) + FeedReads(right)
  }

  function AllReads(ns: seq<Node>): set<Key>
    decreases ns
  {
    if ns == [] then {} else Reads(ns[0]) + AllReads(ns[1..])
  }

  function FeedReads(n: Node): set<Key>
    decreases n, 1
  {
    match n
    case Indexed(name, index) => {Block(name)} + Reads(index)
    case Function(_, _, _, _, _) => Reads(n)
    case Stream(left, right) => FeedReads(left) + FeedReads(right)
    case _ => {}
  }

  // Nothing is read after it has been written in the same run of a stream.
  predicate Fresh(n: Node)
    decreases n, 0
  {
    match n
    case Indexed(name, index) => Fresh(index) && Block(name) !in Writes(index)
    case Function(_, properties, _, captures, _) =>
      AllFresh(properties) && Elements(captures) !! AllWrites(properties)
    case Operator(operands) => AllFresh(operands)
    case List(members) => AllFresh(members)
    case Stream(left, right) => Fresh(left) && FeedFresh(right) && FeedReads(right) !! Writes(left)
    case _ => true
  }

  predicate AllFresh(ns: seq<Node>)
    decreases ns
  {
    ns == [] || (Fresh(ns[0]) && AllFresh(ns[1..]) && AllReads(ns[1..]) !! Writes(ns[0]))
  }

  predicate FeedFresh(n: Node)
    decreases n, 1
  {
    match n
    case Indexed(name, index) => Fresh(index) && Block(name) !in Writes(index)
    case Function(_, _, _, _, _) => Fresh(n)
    case Stream(left, right) => FeedFresh(left) && FeedFresh(right) && FeedReads(right) !! FeedWrites(left)
    case _ => true
  }

  ghost predicate Within(some: set<Key>, keys: iset<Key>) {
    forall key :: key in some ==> key in keys
  }

  ghost function Less(keys: iset<Key>, gone: set<Key>): iset<Key> {
    iset key | key in keys && key !in gone
  }

  lemma SameCall(
      decls: Decls, x: Value, y: Value, name: string, args: seq<Value>, written: seq<Key>, captures: seq<Key>,
      keys: iset<Key>, a: Store, b: Store)
    requires Same(decls, keys, a, b) && Within(Elements(captures), keys)
    ensures var (v, a') := Call(decls, Marking(x), name, args, written, captures, a);
            var (w, b') := Call(decls, Marking(y), name, args, written, captures, b);
            v == w && Same(decls, Less(keys, Elements(written)), a', b')
  {
    assert forall key :: key in captures ==> key in Elements(captures);
    ReadsEachSame(decls, captures, keys, a, b);
  }

  // The mark changes nothing but the keys that are written.
  lemma {:induction false} SameValue(
      decls: Decls, x: Value, y: Value, n: Node, keys: iset<Key>, a: Store, b: Store)
    requires Fresh(n) && Within(Reads(n), keys) && Same(decls, keys, a, b)
    ensures Eval(decls, Marking(x), n, a).0 == Eval(decls, Marking(y), n, b).0
    ensures Same(decls, Less(keys, Writes(n)), Eval(decls, Marking(x), n, a).1, Eval(decls, Marking(y), n, b).1)
    decreases n, 0
  {
    match n
    case Indexed(_, index) => SameValue(decls, x, y, index, keys, a, b);
    case Function(name, properties, outs, captures, changes) =>
      SameFunction(decls, x, y, n, [], keys, a, b);
      assert [] + EvalAll(decls, Marking(x), properties, a).0 == EvalAll(decls, Marking(x), properties, a).0;
      assert [] + EvalAll(decls, Marking(y), properties, b).0 == EvalAll(decls, Marking(y), properties, b).0;
    case Operator(operands) => SameValues(decls, x, y, operands, keys, a, b);
    case List(members) => SameValues(decls, x, y, members, keys, a, b);
    case Stream(left, right) =>
      SameValue(decls, x, y, left, keys, a, b);
      var (v, a') := Eval(decls, Marking(x), left, a);
      var b' := Eval(decls, Marking(y), left, b).1;
      SameFlow(decls, x, y, right, v, Less(keys, Writes(left)), a', b');
    case _ =>
  }

  lemma {:induction false} SameFunction(
      decls: Decls, x: Value, y: Value, n: Node, more: seq<Value>, keys: iset<Key>, a: Store, b: Store)
    requires n.Function? && Fresh(n) && Within(Reads(n), keys) && Same(decls, keys, a, b)
    ensures var (args, a') := EvalAll(decls, Marking(x), n.properties, a);
            var (brgs, b') := EvalAll(decls, Marking(y), n.properties, b);
            var written := CallWrites(n.outs, n.changes);
            var (v, s) := Call(decls, Marking(x), n.name, more + args, written, n.captures, a');
            var (w, t) := Call(decls, Marking(y), n.name, more + brgs, written, n.captures, b');
            v == w && Same(decls, Less(keys, Writes(n)), s, t)
    decreases n.properties, 1
  {
    SameValues(decls, x, y, n.properties, keys, a, b);
    var (args, a') := EvalAll(decls, Marking(x), n.properties, a);
    var b' := EvalAll(decls, Marking(y), n.properties, b).1;
    var written, left := CallWrites(n.outs, n.changes), Less(keys, AllWrites(n.properties));
    SameCall(decls, x, y, n.name, more + args, written, n.captures, left, a', b');
  }

  lemma {:induction false} SameValues(
      decls: Decls, x: Value, y: Value, ns: seq<Node>, keys: iset<Key>, a: Store, b: Store)
    requires AllFresh(ns) && Within(AllReads(ns), keys) && Same(decls, keys, a, b)
    ensures EvalAll(decls, Marking(x), ns, a).0 == EvalAll(decls, Marking(y), ns, b).0
    ensures Same(decls, Less(keys, AllWrites(ns)), EvalAll(decls, Marking(x), ns, a).1,
                 EvalAll(decls, Marking(y), ns, b).1)
    decreases ns, 0
  {
    if ns != [] {
      SameValue(decls, x, y, ns[0], keys, a, b);
      SameValues(decls, x, y, ns[1..], Less(keys, Writes(ns[0])),
                 Eval(decls, Marking(x), ns[0], a).1, Eval(decls, Marking(y), ns[0], b).1);
    }
  }

  lemma {:induction false} SameFlow(
      decls: Decls, x: Value, y: Value, n: Node, v: Value, keys: iset<Key>, a: Store, b: Store)
    requires FeedFresh(n) && Within(FeedReads(n), keys) && Same(decls, keys, a, b)
    ensures Feed(decls, Marking(x), n, v, a).0 == Feed(decls, Marking(y), n, v, b).0
    ensures Same(decls, Less(keys, FeedWrites(n)), Feed(decls, Marking(x), n, v, a).1,
                 Feed(decls, Marking(y), n, v, b).1)
    decreases n, 1
  {
    match n
    case Indexed(name, index) =>
      SameValue(decls, x, y, index, keys, a, b);
      var (at, a') := Eval(decls, Marking(x), index, a);
      var b' := Eval(decls, Marking(y), index, b).1;
      SameElement(decls, name, at, v, Less(keys, Writes(index)), a', b');
    case Function(name, properties, outs, captures, changes) =>
      assert FeedReads(n) == Reads(n) && FeedFresh(n) == Fresh(n) && FeedWrites(n) == Writes(n);
      SameFunction(decls, x, y, n, [v], keys, a, b);
    case Stream(left, right) =>
      SameFlow(decls, x, y, left, v, keys, a, b);
      var (v', a') := Feed(decls, Marking(x), left, v, a);
      var b' := Feed(decls, Marking(y), left, v, b).1;
      SameFlow(decls, x, y, right, v', Less(keys, FeedWrites(left)), a', b');
    case _ =>
  }

  lemma SameElement(decls: Decls, name: string, at: Value, v: Value, keys: iset<Key>, a: Store, b: Store)
    requires Same(decls, keys, a, b) && Block(name) in keys
    ensures Same(decls, keys, WriteElement(decls, name, at, v, a), WriteElement(decls, name, at, v, b))
  {
  }

  lemma {:induction false} ReadsAreUsed(n: Node)
    ensures forall key :: key in Reads(n) ==> key in Uses(n, false)
    ensures forall key :: key in FeedReads(n) && Destination(n).Name? ==> key in Uses(n, true)
    ensures forall key :: key in FeedReads(n) ==> key in Uses(n, false)
    decreases n, 0
  {
    match n
    case Indexed(_, index) => ReadsAreUsed(index);
    case Function(_, properties, _, _, _) => AllReadsAreUsed(properties);
    case Operator(operands) => AllReadsAreUsed(operands);
    case List(members) => AllReadsAreUsed(members);
    case Stream(left, right) =>
      ReadsAreUsed(left);
      ReadsAreUsed(right);
    case _ =>
  }

  lemma {:induction false} AllReadsAreUsed(ns: seq<Node>)
    ensures forall key :: key in AllReads(ns) ==>
              (key.Block? && key.name in AllShown(ns)) || key in AllCaptured(ns)
    decreases ns
  {
    if ns != [] {
      ReadsAreUsed(ns[0]);
      AllReadsAreUsed(ns[1..]);
    }
  }

  // ------------------------------------------------------ uses that show

  // What key holds reaches the block that stream i writes last.
  predicate ReachesEnd(p: Program, i: nat, key: Key)
    requires i < |p.streams|
  {
    var n := p.streams[i];
    n.Stream? && Destination(n).Name? && IsBlock(p.decls, Block(Destination(n).name)) && key in Reaching(n)
  }

  // A constant used before it is filled, by a collected or a staying stream.
  ghost predicate ShowsEarly(p: Program, run: Schedule, k: nat, name: string)
    requires Fits(p, run) && k < |run|
  {
    name in Pending(p, run[..k]) && ReachesEnd(p, run[k], Block(name))
  }

  // A block that a collected stream reads inside a call and the compiler does
  // not know.
  ghost predicate ShowsAhead(p: Program, i: nat, key: Key)
    requires i < |p.streams|
  {
    && p.Collects(i) && key in Captured(p.streams[i]) && ReadsAhead(p, i, key) && ReachesEnd(p, i, key)
    && forall j: nat :: j < i && p.Collects(j) ==> key !in WrittenBy(p.streams[j])
  }

  // A block that a collected stream, and no other, writes inside a call.
  ghost predicate ShowsAside(p: Program, i: nat, key: Key)
    requires i < |p.streams|
  {
    && p.Collects(i) && key in WrittenBy(p.streams[i]) && WritesAside(p, i, key) && key !in Flowed(p.streams[i])
    && forall j: nat :: j < |p.streams| && j != i ==> key !in WrittenBy(p.streams[j])
  }

  // State that a collected stream finds changed when it runs again.
  ghost predicate ShowsAgain(p: Program, run: Schedule, k: nat, key: Key)
    requires Fits(p, run) && k < |run|
  {
    && AllContained(p) && (forall j: nat :: j < |p.streams| && p.Collects(j) ==> Fresh(p.streams[j]))
    && p.Collects(run[k]) && run[k] in run[..k] && ReachesEnd(p, run[k], key)
    && key.Kept? && key in Captured(p.streams[run[k]]) && key in WrittenBy(p.streams[run[k]])
  }

  // If anything is out of order, something that is shows.
  ghost predicate DisorderShows(p: Program, run: Schedule)
    requires Fits(p, run)
  {
    InOrder(p, run)
    || (exists i: nat, key :: i < |p.streams| && ShowsAhead(p, i, key))
    || (exists i: nat, key :: i < |p.streams| && ShowsAside(p, i, key))
    || (exists k: nat, name :: k < |run| && ShowsEarly(p, run, k, name))
    || (exists k: nat, key :: k < |run| && ShowsAgain(p, run, k, key))
  }

  ghost predicate Meets(
    p: Program, run: Schedule, load: Semantics, compile: Semantics, values: map<string, Value>,
    a: Store, b: Store, start: Store)
    requires Fits(p, run)
  {
    SamePure(p.pure, load, compile) && Starts(p, compile, a, b, start) && FoldsComputed(p, compile, b, values)
    ==> AgreesThroughout(p, load, values, run, a, start)
  }

  // Functions and stores under which the two programs differ.
  datatype Counterexample = Counterexample(sem: Semantics, a: Store, b: Store, start: Store)

  ghost predicate Refutes(p: Program, run: Schedule, x: Counterexample)
    requires Fits(p, run)
  {
    !Meets(p, run, x.sem, x.sem, map[], x.a, x.b, x.start)
  }

  lemma NothingFolded(p: Program, compile: Semantics, b: Store)
    ensures FoldsComputed(p, compile, b, map[])
  {
  }

  lemma DiffersAt(p: Program, run: Schedule, k: nat, x: Counterexample, key: Key)
    requires Fits(p, run) && k <= |run| && Starts(p, x.sem, x.a, x.b, x.start) && key !in Except(p, run[..k])
    requires Read(p.decls, Execute(p, x.sem, run[..k], x.a), key)
          != Read(p.decls, ExecuteRest(p, x.sem, map[], run[..k], x.start), key)
    ensures Refutes(p, run, x)
  {
    NothingFolded(p, x.sem, x.b);
    assert !Differ(p.decls, Except(p, run[..k]), Execute(p, x.sem, run[..k], x.a),
                   ExecuteRest(p, x.sem, map[], run[..k], x.start));
  }

  lemma EndIsSettled(p: Program, run: Schedule, i: nat)
    requires Fits(p, run) && i < |p.streams| && WellWritten(p)
    requires p.streams[i].Stream? && Destination(p.streams[i]).Name?
    ensures Fits(p, run + [i]) && Block(Destination(p.streams[i]).name) !in Except(p, run + [i])
  {
    FilledMore(p, run, i);
    var name := Destination(p.streams[i]).name;
    if name in p.Filled() && !(p.Collects(i) && Destination(p.streams[i]).name == name) {
      OthersLeaveFilled(p, i, name);
      DestinationIsWritten(p.streams[i]);
    }
  }

  lemma LargeShows(p: Program, i: nat, mark: Value, st: Store, key: Key, m: nat)
    requires i < |p.streams| && ReachesEnd(p, i, key)
    requires Read(p.decls, st, key) == seq(Bound(p.streams[i]) + 1, _ => m)
    ensures var dest := Block(Destination(p.streams[i]).name);
            Size(Read(p.decls, RunStream(p.decls, Marking(mark), p.streams[i], st), dest)) >= m
  {
    var n, sem := p.streams[i], Marking(mark);
    ReachedIsLarge(p.decls, mark, n, st, key, m, Bound(n));
    var (v, st') := Eval(p.decls, sem, n.left, st);
    DestinationHolds(p.decls, sem, n.right, v, st');
  }

  // The transformed program's start: the computed constants and nothing else.
  ghost function Fresh0(p: Program, sem: Semantics, b: Store): Store {
    Copied(p.decls, set name | name in p.Filled() :: Block(name), p.Computed(sem, b))
  }

  lemma Fresh0Starts(p: Program, sem: Semantics, a: Store, b: Store)
    requires Agree(p.decls, {}, a, b)
    requires forall key: Key :: key.Kept? ==> Read(p.decls, a, key) == [] == Read(p.decls, b, key)
    requires forall key: Key :: key.Block? && key.name !in p.Filled() ==> Read(p.decls, a, key) == []
    ensures Starts(p, sem, a, b, Fresh0(p, sem, b))
  {
    forall key
      ensures Read(p.decls, Fresh0(p, sem, b), key)
           == Read(p.decls, if key.Block? && key.name in p.Filled() then p.Computed(sem, b) else a, key)
    {
      if key.Block? {
        assert key == Block(key.name);
      }
    }
  }

  // ------------------------------------------------------------- early uses

  lemma {:induction false} PendingIsUnwritten(p: Program, sem: Semantics, run: Schedule, st: Store, name: string)
    requires Fits(p, run) && WellWritten(p) && name in Pending(p, run)
    ensures Read(p.decls, Execute(p, sem, run, st), Block(name)) == Read(p.decls, st, Block(name))
  {
    if run != [] {
      var n := |run| - 1;
      PendingIsUnwritten(p, sem, run[..n], st, name);
      OthersLeaveFilled(p, run[n], name);
      StreamWritesOnly(p.decls, sem, p.streams[run[n]], Execute(p, sem, run[..n], st), Block(name));
    }
  }

  // The constant holds more before it is filled than the block shows in the
  // transformed program.
  lemma EarlyUseShows(p: Program, run: Schedule, k: nat, name: string) returns (x: Counterexample)
    requires Fits(p, run) && WellWritten(p) && k < |run| && ShowsEarly(p, run, k, name)
    ensures Refutes(p, run, x)
  {
    hide Pending, FilledBy, Collectable, Reaching, RunStream, WellWritten, Execute, ExecuteRest, Program.Computed;
    var before, after := run[..k], run[..k + 1];
    var dest, sem := Block(Destination(p.streams[run[k]]).name), Marking([]);
    assert after == before + [run[k]] && after[..k] == before;
    var start := Fresh0(p, sem, map[]);
    var m := Size(Read(p.decls, ExecuteRest(p, sem, map[], after, start), dest)) + 1;
    var large := seq(Bound(p.streams[run[k]]) + 1, _ => m);
    x := Counterexample(sem, map[Block(name) := large], map[], start);
    EarlyStarts(p, sem, name, large, before);
    EarlyIsLarge(p, before, run[k], name, m);
    EndIsSettled(p, before, run[k]);
    DiffersAt(p, run, k + 1, x, dest);
  }

  lemma EarlyStarts(p: Program, sem: Semantics, name: string, large: Value, before: Schedule)
    requires Fits(p, before) && name in Pending(p, before)
    ensures Starts(p, sem, map[Block(name) := large], map[], Fresh0(p, sem, map[]))
  {
    FilledAreBlocks(p);
    hide FilledBy, Program.Computed;
    Fresh0Starts(p, sem, map[Block(name) := large], map[]);
  }

  lemma EarlyIsLarge(p: Program, before: Schedule, i: nat, name: string, m: nat)
    requires Fits(p, before) && i < |p.streams| && WellWritten(p)
    requires name in Pending(p, before) && ReachesEnd(p, i, Block(name))
    ensures Fits(p, before + [i])
    ensures var dest := Block(Destination(p.streams[i]).name);
            var a: Store := map[Block(name) := seq(Bound(p.streams[i]) + 1, _ => m)];
            Size(Read(p.decls, Execute(p, Marking([]), before + [i], a), dest)) >= m
  {
    var a: Store := map[Block(name) := seq(Bound(p.streams[i]) + 1, _ => m)];
    FilledAreBlocks(p);
    hide FilledBy, Reaching, RunStream, WellWritten, Collectable;
    PendingIsUnwritten(p, Marking([]), before, a, name);
    LargeShows(p, i, [], Execute(p, Marking([]), before, a), Block(name), m);
    assert (before + [i])[..|before|] == before;
  }

  lemma FilledAreBlocks(p: Program)
    ensures forall name :: name in p.Filled() ==> Unfilled(p.decls, name) && IsBlock(p.decls, Block(name))
  {
    forall name | name in p.Filled()
      ensures Unfilled(p.decls, name)
    {
      var i := FilledAt(p.decls, p.pure, p.streams, name);
    }
  }

  // ------------------------------------------------- reads inside a call

  lemma {:induction false} RestHolds(p: Program, sem: Semantics, run: Schedule, st: Store, key: Key)
    requires Fits(p, run)
    requires forall i: nat :: i < |p.streams| && !p.Collects(i) ==> key !in WrittenBy(p.streams[i])
    ensures Read(p.decls, ExecuteRest(p, sem, map[], run, st), key) == Read(p.decls, st, key)
  {
    if run != [] {
      var n := |run| - 1;
      RestHolds(p, sem, run[..n], st, key);
      if !p.Collects(run[n]) {
        FoldWritesNoMore(map[], p.streams[run[n]]);
        StreamWritesOnly(p.decls, sem, Fold(map[], p.streams[run[n]]), ExecuteRest(p, sem, map[], run[..n], st), key);
      }
    }
  }

  // The compiler finds more in the block than the program's constant shows.
  lemma AheadShows(p: Program, run: Schedule, i: nat, key: Key) returns (x: Counterexample)
    requires Fits(p, run) && WellWritten(p) && i < |p.streams| && i in run && ShowsAhead(p, i, key)
    ensures Refutes(p, run, x)
  {
    hide FilledBy, Reaching, RunStream, WellWritten, Execute, ExecuteRest, Collectable, Program.Computed, Pending;
    var dest, sem := Block(Destination(p.streams[i]).name), Marking([]);
    var m := Size(Read(p.decls, Execute(p, sem, run, map[]), dest)) + 1;
    var b: Store := map[key := seq(Bound(p.streams[i]) + 1, _ => m)];
    x := Counterexample(sem, map[], b, Fresh0(p, sem, b));
    AheadStarts(p, sem, i, key, b);
    AheadIsComputed(p, i, key, b, m);
    DestinationIsFilled(p, i);
    FilledIsHeld(p, sem, run, b, Destination(p.streams[i]).name);
    HasRun(p, run, i);
    assert run[..|run|] == run;
    DiffersAt(p, run, |run|, x, dest);
  }

  lemma AheadStarts(p: Program, sem: Semantics, i: nat, key: Key, b: Store)
    requires i < |p.streams| && p.Collects(i) && ReadsAhead(p, i, key) && b.Keys == {key}
    ensures Starts(p, sem, map[], b, Fresh0(p, sem, b))
  {
    Fresh0Starts(p, sem, map[], b);
  }

  lemma HasRun(p: Program, run: Schedule, i: nat)
    requires Fits(p, run) && i < |p.streams| && i in run && p.Collects(i)
    ensures Block(Destination(p.streams[i]).name) !in Except(p, run)
  {
    FilledInExactly(p, run, i);
  }

  lemma FilledIsHeld(p: Program, sem: Semantics, run: Schedule, b: Store, name: string)
    requires Fits(p, run) && WellWritten(p) && name in p.Filled()
    ensures Read(p.decls, ExecuteRest(p, sem, map[], run, Fresh0(p, sem, b)), Block(name))
         == Read(p.decls, p.Computed(sem, b), Block(name))
  {
    forall j: nat | j < |p.streams| && !p.Collects(j)
      ensures Block(name) !in WrittenBy(p.streams[j])
    {
      OthersLeaveFilled(p, j, name);
    }
    FilledAreBlocks(p);
    RestHolds(p, sem, run, Fresh0(p, sem, b), Block(name));
    assert Block(name) in set other | other in p.Filled() :: Block(other);
  }

  lemma AheadIsComputed(p: Program, i: nat, key: Key, b: Store, m: nat)
    requires WellWritten(p) && i < |p.streams| && ShowsAhead(p, i, key)
    requires b == map[key := seq(Bound(p.streams[i]) + 1, _ => m)]
    ensures Size(Read(p.decls, p.Computed(Marking([]), b), Block(Destination(p.streams[i]).name))) >= m
  {
    var sem, dest := Marking([]), Block(Destination(p.streams[i]).name);
    var before, upTo := p.(streams := p.streams[..i]), p.(streams := p.streams[..i + 1]);
    assert upTo.streams[..i] == before.streams && upTo.streams[i] == p.streams[i];
    AheadIsUntouched(p, i, key, sem, b);
    DestinationIsFilled(p, i);
    CollectLast(upTo, sem, b);
    hide Collectable, FilledBy, Reaching, RunStream, WellWritten;
    LargeShows(p, i, [], before.Computed(sem, b), key, m);
    DestinationStays(p, i, sem, b);
  }

  lemma AheadIsUntouched(p: Program, i: nat, key: Key, sem: Semantics, b: Store)
    requires i < |p.streams| && ShowsAhead(p, i, key)
    ensures Read(p.decls, p.(streams := p.streams[..i]).Computed(sem, b), key) == Read(p.decls, b, key)
  {
    var before := p.(streams := p.streams[..i]);
    forall j: nat | j < i && before.Collects(j)
      ensures key !in WrittenBy(before.streams[j])
    {
      assert before.streams[..j] == p.streams[..j] && p.Collects(j);
    }
    ComputedStays(before, sem, 0, b, key);
    assert before.streams[..0] == [];
  }

  lemma DestinationStays(p: Program, i: nat, sem: Semantics, b: Store)
    requires WellWritten(p) && i < |p.streams| && p.Collects(i)
    ensures var dest := Block(Destination(p.streams[i]).name);
            (Read(p.decls, p.Computed(sem, b), dest)
             == Read(p.decls, p.(streams := p.streams[..i + 1]).Computed(sem, b), dest))
  {
    var dest := Block(Destination(p.streams[i]).name);
    forall j: nat | i + 1 <= j < |p.streams| && p.Collects(j)
      ensures dest !in WrittenBy(p.streams[j])
    {
      DestinationIsFilled(p, i);
      LaterFillsOther(p, i, j);
      OthersLeaveFilled(p, j, Destination(p.streams[i]).name);
    }
    ComputedStays(p, sem, i + 1, b, dest);
  }

  // ------------------------------------------------- writes inside a call

  // After its stream has run, a key that only its calls write holds the mark.
  lemma {:induction false} StaysMarked(p: Program, mark: Value, run: Schedule, i: nat, st: Store, key: Key)
    requires Fits(p, run) && i < |p.streams| && i in run && p.streams[i].Stream?
    requires key in WrittenBy(p.streams[i]) && key !in Flowed(p.streams[i]) && IsBlock(p.decls, key)
    requires forall j: nat :: j < |p.streams| && j != i ==> key !in WrittenBy(p.streams[j])
    ensures Read(p.decls, Execute(p, Marking(mark), run, st), key) == mark
  {
    var n := |run| - 1;
    var before := Execute(p, Marking(mark), run[..n], st);
    if run[n] == i {
      CallsMark(p.decls, mark, p.streams[i], before, key);
    } else {
      assert run == run[..n] + [run[n]];
      StaysMarked(p, mark, run[..n], i, st, key);
      StreamWritesOnly(p.decls, Marking(mark), p.streams[run[n]], before, key);
    }
  }

  // The block is marked in the program and untouched without the stream.
  lemma AsideShows(p: Program, run: Schedule, i: nat, key: Key) returns (x: Counterexample)
    requires Fits(p, run) && WellWritten(p) && i < |p.streams| && i in run && ShowsAside(p, i, key)
    ensures Refutes(p, run, x)
  {
    var sem := Marking([1]);
    x := Counterexample(sem, map[], map[], Fresh0(p, sem, map[]));
    Fresh0Starts(p, sem, map[], map[]);
    StaysMarked(p, [1], run, i, map[], key);
    if key.name in p.Filled() {
      var j := FilledAt(p.decls, p.pure, p.streams, key.name);
    }
    assert key == Block(key.name) && key.name !in p.Filled();
    RestHolds(p, sem, run, x.start, key);
    assert key !in x.start;
    assert run[..|run|] == run;
    DiffersAt(p, run, |run|, x, key);
  }

  // ------------------------------------------------------- changed state

  // The compiler's constants do not depend on what calls leave in their state.
  lemma {:induction false} ComputedIgnoresMark(p: Program, x: Value, y: Value, n: nat, b: Store)
    requires n <= |p.streams| && WellWritten(p) && AllContained(p)
    requires forall j: nat :: j < |p.streams| && p.Collects(j) ==> Fresh(p.streams[j])
    ensures var upTo := p.(streams := p.streams[..n]);
            Same(p.decls, KnownKeys(p.decls, FilledBy(p.decls, p.pure, upTo.streams)),
                 upTo.Computed(Marking(x), b), upTo.Computed(Marking(y), b))
  {
    var upTo := p.(streams := p.streams[..n]);
    if n > 0 {
      var i := n - 1;
      var before := p.(streams := p.streams[..i]);
      assert upTo.streams[..i] == before.streams && upTo.streams[i] == p.streams[i];
      ComputedIgnoresMark(p, x, y, i, b);
      hide Contained, WellWritten, RunStream, Collectable;
      CollectLast(upTo, Marking(x), b);
      CollectLast(upTo, Marking(y), b);
      if p.Collects(i) {
        FillIgnoresMark(p, x, y, i, before.Computed(Marking(x), b), before.Computed(Marking(y), b), b);
      }
    }
  }

  lemma FillIgnoresMark(p: Program, x: Value, y: Value, i: nat, s: Store, t: Store, b: Store)
    requires i < |p.streams| && WellWritten(p) && p.Collects(i) && Contained(p, i) && Fresh(p.streams[i])
    requires var before := p.(streams := p.streams[..i]);
             s == before.Computed(Marking(x), b) && t == before.Computed(Marking(y), b)
    requires Same(p.decls, KnownKeys(p.decls, FilledBy(p.decls, p.pure, p.streams[..i])), s, t)
    ensures Same(p.decls, KnownKeys(p.decls, FilledBy(p.decls, p.pure, p.streams[..i + 1])),
                 RunStream(p.decls, Marking(x), p.streams[i], s), RunStream(p.decls, Marking(y), p.streams[i], t))
  {
    var stream, dest := p.streams[i], Block(Destination(p.streams[i]).name);
    var s', t' := RunStream(p.decls, Marking(x), stream, s), RunStream(p.decls, Marking(y), stream, t);
    var keys := iset key | key in Reads(stream);
    UsedIsSame(p, x, y, i, s, t, b);
    SameDestination(p, x, y, i, s, t);
    assert p.streams[..i + 1][..i] == p.streams[..i] && p.streams[..i + 1][i] == stream;
    forall key | key in KnownKeys(p.decls, FilledBy(p.decls, p.pure, p.streams[..i + 1])) && key != dest
      ensures Read(p.decls, s', key) == Read(p.decls, t', key)
    {
      if IsBlock(p.decls, key) {
        assert key == Block(key.name);
        assert key in WrittenBy(stream) ==> !WritesAside(p, i, key);
        StreamWritesOnly(p.decls, Marking(x), stream, s, key);
        StreamWritesOnly(p.decls, Marking(y), stream, t, key);
      }
    }
  }

  lemma UsedIsSame(p: Program, x: Value, y: Value, i: nat, s: Store, t: Store, b: Store)
    requires i < |p.streams| && WellWritten(p) && p.Collects(i) && Contained(p, i)
    requires var before := p.(streams := p.streams[..i]);
             s == before.Computed(Marking(x), b) && t == before.Computed(Marking(y), b)
    requires Same(p.decls, KnownKeys(p.decls, FilledBy(p.decls, p.pure, p.streams[..i])), s, t)
    ensures Same(p.decls, Used(p, i), s, t)
  {
    ShowsOnlyKnown(p.decls, p.streams[i], FilledBy(p.decls, p.pure, p.streams[..i]), true);
    forall key | key in Used(p, i)
      ensures Read(p.decls, s, key) == Read(p.decls, t, key)
    {
      if key.Kept? {
        assert Touches(p.streams[i], key);
        assert forall j: nat :: j < i ==> !Touches(p.streams[j], key);
        KeptUntouched(p, Marking(x), i, b, key);
        KeptUntouched(p, Marking(y), i, b, key);
      } else if key in Captured(p.streams[i]) {
        assert !ReadsAhead(p, i, key);
      } else {
        assert key.name in Shown(p.streams[i], true);
      }
    }
  }

  lemma SameDestination(p: Program, x: Value, y: Value, i: nat, s: Store, t: Store)
    requires i < |p.streams| && p.Collects(i) && Fresh(p.streams[i])
    requires Same(p.decls, Used(p, i), s, t)
    ensures var dest := Block(Destination(p.streams[i]).name);
            (Read(p.decls, RunStream(p.decls, Marking(x), p.streams[i], s), dest)
             == Read(p.decls, RunStream(p.decls, Marking(y), p.streams[i], t), dest))
  {
    var n, keys := p.streams[i], Used(p, i);
    ReadsAreUsed(n.left);
    ReadsAreUsed(n.right);
    AmongUsed(n, keys);
    assert Within(Reads(n), keys);
    SameValue(p.decls, x, y, n, keys, s, t);
    var (v, s') := Eval(p.decls, Marking(x), n.left, s);
    var (w, t') := Eval(p.decls, Marking(y), n.left, t);
    DestinationHolds(p.decls, Marking(x), n.right, v, s');
    DestinationHolds(p.decls, Marking(y), n.right, w, t');
  }

  // Run again, the stream finds a large state, which the compiler never sees.
  lemma AgainShows(p: Program, run: Schedule, k: nat, key: Key) returns (x: Counterexample)
    requires Fits(p, run) && WellWritten(p) && k < |run| && ShowsAgain(p, run, k, key)
    ensures Refutes(p, run, x)
  {
    hide FilledBy, Reaching, RunStream, WellWritten, Execute, ExecuteRest, Program.Computed, Pending, AllContained, Fresh;
    var i := run[k];
    var dest := Block(Destination(p.streams[i]).name);
    var m := Size(Read(p.decls, p.Computed(Marking([]), map[]), dest)) + 1;
    var mark := seq(Bound(p.streams[i]) + 1, _ => m);
    var before, after := run[..k], run[..k + 1];
    assert after == before + [i] && after[..k] == before;
    x := Counterexample(Marking(mark), map[], map[], Fresh0(p, Marking(mark), map[]));
    Fresh0Starts(p, x.sem, map[], map[]);
    DestinationIsFilled(p, i);
    FilledIsHeld(p, x.sem, after, map[], Destination(p.streams[i]).name);
    AgainIsComputed(p, i, mark);
    AgainIsLarge(p, before, i, mark, key, m);
    EndIsSettled(p, before, i);
    RunLast(p, x.sem, before, i, map[]);
    hide Collectable, Starts;
    DiffersAt(p, run, k + 1, x, dest);
  }

  lemma RunLast(p: Program, sem: Semantics, before: Schedule, i: nat, st: Store)
    requires Fits(p, before) && i < |p.streams|
    ensures Fits(p, before + [i])
    ensures Execute(p, sem, before + [i], st) == RunStream(p.decls, sem, p.streams[i], Execute(p, sem, before, st))
  {
    assert (before + [i])[..|before|] == before;
  }

  lemma AgainIsComputed(p: Program, i: nat, mark: Value)
    requires i < |p.streams| && p.Collects(i) && WellWritten(p) && AllContained(p)
    requires forall j: nat :: j < |p.streams| && p.Collects(j) ==> Fresh(p.streams[j])
    ensures var dest := Block(Destination(p.streams[i]).name);
            (Read(p.decls, p.Computed(Marking(mark), map[]), dest)
             == Read(p.decls, p.Computed(Marking([]), map[]), dest))
  {
    DestinationIsFilled(p, i);
    FilledAreBlocks(p);
    ComputedIgnoresMark(p, mark, [], |p.streams|, map[]);
    assert p.streams[..|p.streams|] == p.streams;
    assert Known(p.decls, Block(Destination(p.streams[i]).name), p.Filled());
  }

  lemma AgainIsLarge(p: Program, before: Schedule, i: nat, mark: Value, key: Key, m: nat)
    requires Fits(p, before) && i < |p.streams| && i in before && WellWritten(p) && ReachesEnd(p, i, key)
    requires key.Kept? && key in WrittenBy(p.streams[i]) && mark == seq(Bound(p.streams[i]) + 1, _ => m)
    ensures var a := Execute(p, Marking(mark), before, map[]);
            var dest := Block(Destination(p.streams[i]).name);
            Size(Read(p.decls, RunStream(p.decls, Marking(mark), p.streams[i], a), dest)) >= m
  {
    StateIsNotFlowed(p.streams[i]);
    OnlyItsStream(p, i, key);
    hide WellWritten, Reaching, Flowed, RunStream;
    StaysMarked(p, mark, before, i, map[], key);
    LargeShows(p, i, mark, Execute(p, Marking(mark), before, map[]), key, m);
  }

  lemma OnlyItsStream(p: Program, i: nat, key: Key)
    requires i < |p.streams| && WellWritten(p) && key.Kept? && Touches(p.streams[i], key)
    ensures forall j: nat :: j < |p.streams| && j != i ==> key !in WrittenBy(p.streams[j])
  {
    forall j: nat | j < |p.streams| && j != i
      ensures key !in WrittenBy(p.streams[j])
    {
      assert !Touches(p.streams[j], key);
    }
  }

  // ------------------------------------------------------------ the theorem

  // Over a run in which every stream runs, the compiler's work keeps what the
  // program computes, whatever the functions and the stores, if and only if
  // the run is in order.
  lemma AgreesExactlyInOrder(p: Program, run: Schedule)
    requires Fits(p, run) && WellWritten(p) && DisorderShows(p, run)
    requires forall i: nat :: i < |p.streams| ==> i in run
    ensures (forall load, compile, values, a, b, start :: Meets(p, run, load, compile, values, a, b, start))
            <==> InOrder(p, run)
  {
    hide Starts, FoldsComputed, AgreesThroughout, Pending, ReachesEnd, WellWritten, InOrder;
    if InOrder(p, run) {
      forall load, compile, values, a, b, start
        ensures Meets(p, run, load, compile, values, a, b, start)
      {
        if SamePure(p.pure, load, compile) && Starts(p, compile, a, b, start)
           && FoldsComputed(p, compile, b, values)
        {
          TransformedProgramAgrees(p, load, compile, values, run, a, b, start);
        }
      }
    } else {
      var x := SomethingShows(p, run);
      assert !Meets(p, run, x.sem, x.sem, map[], x.a, x.b, x.start);
    }
  }

  lemma SomethingShows(p: Program, run: Schedule) returns (x: Counterexample)
    requires Fits(p, run) && WellWritten(p) && DisorderShows(p, run) && !InOrder(p, run)
    requires forall i: nat :: i < |p.streams| ==> i in run
    ensures Refutes(p, run, x)
  {
    hide WellWritten, ShowsAhead, ShowsAside, ShowsEarly, ShowsAgain, InOrder;
    if i: nat, key :| i < |p.streams| && ShowsAhead(p, i, key) {
      x := AheadShows(p, run, i, key);
    } else if i: nat, key :| i < |p.streams| && ShowsAside(p, i, key) {
      x := AsideShows(p, run, i, key);
    } else if k: nat, name :| k < |run| && ShowsEarly(p, run, k, name) {
      x := EarlyUseShows(p, run, k, name);
    } else {
      var k: nat, key :| k < |run| && ShowsAgain(p, run, k, key);
      x := AgainShows(p, run, k, key);
    }
  }
}
