// Trigger switches: an assignment latches a rising edge of its switch for the
// transitions the switch triggers; an evaluation of their machine clears the
// latches. Calls and bodies compiled as functions of their own store to a
// switch without latching. The latches are proved against the history of what
// happened.
module TriggerLatches {

  datatype Event =
    | Assign(switch: string, value: bool) // an assignment in the domain's own code
    | Store(switch: string, value: bool)  // a write through a call, or inside another body
    | Clear(latch: string)                // end of an evaluation, or init

  // ------------------------------------------------- what the history says

  function ValueOf(log: seq<Event>, switch: string): bool {
    if log == [] then false
    else
      match log[|log| - 1]
      case Assign(s, value) => if s == switch then value else ValueOf(log[..|log| - 1], switch)
      case Store(s, value) => if s == switch then value else ValueOf(log[..|log| - 1], switch)
      case Clear(_) => ValueOf(log[..|log| - 1], switch)
  }

  // Event i turned the switch from off to on.
  ghost predicate Rise(log: seq<Event>, i: nat, switch: string) {
    && i < |log| && (log[i] == Assign(switch, true) || log[i] == Store(switch, true))
    && !ValueOf(log[..i], switch)
  }

  // ... by an assignment.
  ghost predicate Edge(log: seq<Event>, i: nat, switch: string) {
    Rise(log, i, switch) && log[i].Assign?
  }

  ghost predicate ClearedAfter(log: seq<Event>, i: nat, latch: string) {
    exists j :: i < j < |log| && log[j] == Clear(latch)
  }

  // An edge not yet consumed.
  ghost predicate Pending(log: seq<Event>, switch: string, latch: string) {
    exists i: nat :: Edge(log, i, switch) && !ClearedAfter(log, i, latch)
  }

  // The switch rose, by whatever write, and nothing consumed that yet.
  ghost predicate Risen(log: seq<Event>, switch: string, latch: string) {
    exists i: nat :: Rise(log, i, switch) && !ClearedAfter(log, i, latch)
  }

  // --------------------------------------------------------- emitted code

  class Domain {
    const latchesOf: map<string, seq<string>> // switch -> its latches
    var values: map<string, bool>
    var latched: set<string>
    ghost var log: seq<Event>

    ghost predicate Valid()
      reads this
    {
      && OneSwitchEach(latchesOf)
      && (forall s :: s in values ==> values[s] == ValueOf(log, s))
      && (forall s :: s !in values ==> !ValueOf(log, s))
      && forall s, l :: s in latchesOf && l in latchesOf[s] ==> (l in latched <==> Pending(log, s, l))
    }

    constructor (latchesOf: map<string, seq<string>>)
      requires OneSwitchEach(latchesOf)
      ensures Valid() && this.latchesOf == latchesOf && log == []
    {
      this.latchesOf := latchesOf;
      values, latched, log := map[], {}, [];
    }

    // `switch = value`: the old value is read before the store, the new one
    // after it, and every latch takes the edge in addition to what it holds.
    method Write(switch: string, value: bool)
      requires Valid()
      modifies this
      ensures Valid() && log == old(log) + [Assign(switch, value)]
    {
      var previous := switch in values && values[switch];
      values := values[switch := value];
      var rose := !previous && values[switch];
      if switch in latchesOf {
        var latches := latchesOf[switch];
        for i := 0 to |latches|
          invariant log == old(log) && values == old(values)[switch := value]
          invariant latched == old(latched) + if rose then set k | 0 <= k < i :: latches[k] else {}
        {
          if latches[i] in latched || rose {
            latched := latched + {latches[i]};
          }
        }
      }
      log := log + [Assign(switch, value)];
      forall s, l | s in latchesOf && l in latchesOf[s]
        ensures l in latched <==> Pending(log, s, l)
      {
        PendingAfterAssign(old(log), switch, value, s, l);
      }
      ValueAfter(old(log), Assign(switch, value));
    }

    // A call writes the switch through a pointer; a body compiled as its own
    // function finds no latch.
    method StoreOnly(switch: string, value: bool)
      requires Valid()
      modifies this
      ensures Valid() && log == old(log) + [Store(switch, value)] && latched == old(latched)
    {
      values := values[switch := value];
      log := log + [Store(switch, value)];
      forall s, l | s in latchesOf && l in latchesOf[s]
        ensures l in latched <==> Pending(log, s, l)
      {
        PendingAfterStore(old(log), switch, value, s, l);
      }
      ValueAfter(old(log), Store(switch, value));
    }

    // The end block of a machine's evaluation, for one of its latches.
    method ClearLatch(latch: string)
      requires Valid()
      modifies this
      ensures Valid() && log == old(log) + [Clear(latch)]
    {
      latched := latched - {latch};
      log := log + [Clear(latch)];
      forall s, l | s in latchesOf && l in latchesOf[s]
        ensures l in latched <==> Pending(log, s, l)
      {
        PendingAfterClear(old(log), latch, s, l);
      }
      ValueAfter(old(log), Clear(latch));
    }

    // What a transition's guard reads.
    method Test(switch: string, latch: string) returns (on: bool)
      requires Valid() && switch in latchesOf && latch in latchesOf[switch]
      ensures on <==> Pending(log, switch, latch)
    {
      on := latch in latched;
    }
  }

  // A latch belongs to one transition, so to one switch.
  ghost predicate OneSwitchEach(latchesOf: map<string, seq<string>>) {
    forall s, t, l :: s in latchesOf && t in latchesOf && l in latchesOf[s] && l in latchesOf[t] ==> s == t
  }

  lemma ValueAfter(log: seq<Event>, e: Event)
    ensures forall s :: ValueOf(log + [e], s) == if !e.Clear? && e.switch == s then e.value else ValueOf(log, s)
  {
    assert (log + [e])[..|log|] == log;
  }

  ghost predicate Rises(log: seq<Event>, e: Event, switch: string) {
    (e == Assign(switch, true) || e == Store(switch, true)) && !ValueOf(log, switch)
  }

  lemma EdgeAfter(log: seq<Event>, e: Event, i: nat, switch: string)
    ensures i < |log| ==> (Edge(log + [e], i, switch) <==> Edge(log, i, switch))
    ensures i < |log| ==> (Rise(log + [e], i, switch) <==> Rise(log, i, switch))
    ensures i == |log| ==> (Edge(log + [e], i, switch) <==> e == Assign(switch, true) && !ValueOf(log, switch))
    ensures i == |log| ==> (Rise(log + [e], i, switch) <==> Rises(log, e, switch))
  {
    if i <= |log| {
      assert (log + [e])[..i] == log[..i];
      assert log[..|log|] == log;
    }
  }

  lemma ClearedAfterMore(log: seq<Event>, e: Event, i: nat, latch: string)
    requires i <= |log|
    ensures ClearedAfter(log + [e], i, latch) <==> ClearedAfter(log, i, latch) || (i < |log| && e == Clear(latch))
  {
    if ClearedAfter(log, i, latch) {
      var j :| i < j < |log| && log[j] == Clear(latch);
      assert (log + [e])[j] == Clear(latch);
    }
    if i < |log| && e == Clear(latch) {
      assert (log + [e])[|log|] == Clear(latch);
    }
  }

  lemma PendingAfterAssign(log: seq<Event>, switch: string, value: bool, s: string, l: string)
    ensures Pending(log + [Assign(switch, value)], s, l)
       <==> Pending(log, s, l) || (s == switch && value && !ValueOf(log, s))
  {
    var e := Assign(switch, value);
    forall i: nat | i <= |log|
      ensures Edge(log + [e], i, s) <==>
              (if i < |log| then Edge(log, i, s) else s == switch && value && !ValueOf(log, s))
      ensures ClearedAfter(log + [e], i, l) <==> ClearedAfter(log, i, l)
    {
      EdgeAfter(log, e, i, s);
      ClearedAfterMore(log, e, i, l);
    }
    if s == switch && value && !ValueOf(log, s) {
      assert Edge(log + [e], |log|, s) && !ClearedAfter(log + [e], |log|, l);
    }
  }

  // A write that is no assignment turns no latch on, and none off.
  lemma PendingAfterStore(log: seq<Event>, switch: string, value: bool, s: string, l: string)
    ensures Pending(log + [Store(switch, value)], s, l) <==> Pending(log, s, l)
  {
    var e := Store(switch, value);
    forall i: nat | i <= |log|
      ensures Edge(log + [e], i, s) <==> i < |log| && Edge(log, i, s)
      ensures ClearedAfter(log + [e], i, l) <==> ClearedAfter(log, i, l)
    {
      EdgeAfter(log, e, i, s);
      ClearedAfterMore(log, e, i, l);
    }
  }

  lemma RisenAfter(log: seq<Event>, e: Event, s: string, l: string)
    ensures Risen(log + [e], s, l) <==> Rises(log, e, s) || (e != Clear(l) && Risen(log, s, l))
  {
    forall i: nat | i <= |log|
      ensures Rise(log + [e], i, s) <==> if i < |log| then Rise(log, i, s) else Rises(log, e, s)
      ensures ClearedAfter(log + [e], i, l) <==> ClearedAfter(log, i, l) || (i < |log| && e == Clear(l))
    {
      EdgeAfter(log, e, i, s);
      ClearedAfterMore(log, e, i, l);
    }
    if Rises(log, e, s) {
      assert Rise(log + [e], |log|, s) && !ClearedAfter(log + [e], |log|, l);
    }
  }

  lemma PendingAfterClear(log: seq<Event>, latch: string, s: string, l: string)
    ensures Pending(log + [Clear(latch)], s, l) <==> l != latch && Pending(log, s, l)
  {
    var e := Clear(latch);
    forall i: nat | i <= |log|
      ensures Edge(log + [e], i, s) <==> i < |log| && Edge(log, i, s)
      ensures ClearedAfter(log + [e], i, l) <==> ClearedAfter(log, i, l) || (i < |log| && l == latch)
    {
      EdgeAfter(log, e, i, s);
      ClearedAfterMore(log, e, i, l);
    }
  }

  // ------------------------------------------------------------- the runs

  // A tested latch is on exactly if an edge came after the last clear,
  // whatever the switch did after the edge.
  lemma OnSinceLastClear(log: seq<Event>, last: nat, switch: string, latch: string)
    requires last < |log| && log[last] == Clear(latch)
    requires forall j :: last < j < |log| ==> log[j] != Clear(latch)
    ensures Pending(log, switch, latch) <==> exists i: nat :: last < i < |log| && Edge(log, i, switch)
  {
    forall i: nat | Edge(log, i, switch)
      ensures ClearedAfter(log, i, latch) <==> i <= last
    {
      if i < last {
        assert log[last] == Clear(latch);
      }
    }
  }

  // A latch tells, at every moment, whether its switch rose since the latch was
  // last cleared, if and only if every rise that none unconsumed went before
  // was an assignment.
  lemma LatchTellsRiseExactly(log: seq<Event>, switch: string, latch: string)
    ensures (forall n: nat :: n <= |log| ==> (Pending(log[..n], switch, latch) <==> Risen(log[..n], switch, latch)))
       <==> (forall i: nat :: Rise(log, i, switch) && !Risen(log[..i], switch, latch) ==> log[i].Assign?)
  {
    if forall n: nat :: n <= |log| ==> (Pending(log[..n], switch, latch) <==> Risen(log[..n], switch, latch)) {
      forall i: nat | Rise(log, i, switch) && !Risen(log[..i], switch, latch)
        ensures log[i].Assign?
      {
        OneMoreEvent(log, i, switch, latch);
      }
    } else {
      if forall i: nat :: Rise(log, i, switch) && !Risen(log[..i], switch, latch) ==> log[i].Assign? {
        forall n: nat | n <= |log|
          ensures Pending(log[..n], switch, latch) <==> Risen(log[..n], switch, latch)
        {
          TellsRise(log, n, switch, latch);
        }
      }
    }
  }

  lemma {:induction false} TellsRise(log: seq<Event>, n: nat, switch: string, latch: string)
    requires n <= |log|
    requires forall i: nat :: Rise(log, i, switch) && !Risen(log[..i], switch, latch) ==> log[i].Assign?
    ensures Pending(log[..n], switch, latch) <==> Risen(log[..n], switch, latch)
  {
    if n > 0 {
      TellsRise(log, n - 1, switch, latch);
      OneMoreEvent(log, n - 1, switch, latch);
    }
  }

  lemma OneMoreEvent(log: seq<Event>, i: nat, switch: string, latch: string)
    requires i < |log|
    ensures Risen(log[..i + 1], switch, latch)
       <==> Rise(log, i, switch) || (log[i] != Clear(latch) && Risen(log[..i], switch, latch))
    ensures Pending(log[..i + 1], switch, latch)
       <==> (Rise(log, i, switch) && log[i].Assign?) || (log[i] != Clear(latch) && Pending(log[..i], switch, latch))
  {
    assert log[..i + 1] == log[..i] + [log[i]];
    RisenAfter(log[..i], log[i], switch, latch);
    match log[i]
    case Assign(s, value) => PendingAfterAssign(log[..i], s, value, switch, latch);
    case Store(s, value) => PendingAfterStore(log[..i], s, value, switch, latch);
    case Clear(l) => PendingAfterClear(log[..i], l, switch, latch);
  }

  // A call that turns the switch on goes unseen, and the assignment after it
  // finds the switch on already.
  lemma StoreHidesRise(log: seq<Event>, switch: string, latch: string)
    requires !ValueOf(log, switch)
    ensures var after := log + [Clear(latch)] + [Store(switch, true)] + [Assign(switch, true)];
            ValueOf(after, switch) && Risen(after, switch, latch) && !Pending(after, switch, latch)
  {
    var cleared := log + [Clear(latch)];
    var stored := cleared + [Store(switch, true)];
    ValueAfter(log, Clear(latch));
    ValueAfter(cleared, Store(switch, true));
    ValueAfter(stored, Assign(switch, true));
    PendingAfterClear(log, latch, switch, latch);
    PendingAfterStore(cleared, switch, true, switch, latch);
    PendingAfterAssign(stored, switch, true, switch, latch);
    RisenAfter(cleared, Store(switch, true), switch, latch);
    RisenAfter(stored, Assign(switch, true), switch, latch);
  }

  // One edge serves at most one evaluation: a guard that finds the latch on
  // after an evaluation ended owes it to an edge of its own, wherever in the
  // history either guard was tested.
  lemma OneEdgeOneEvaluation(
      log: seq<Event>, first: nat, clear: nat, second: nat, switch: string, latch: string)
    returns (i: nat, k: nat)
    requires first <= clear < second <= |log| && log[clear] == Clear(latch)
    requires Pending(log[..first], switch, latch) && Pending(log[..second], switch, latch)
    ensures i < first && Edge(log, i, switch)
    ensures clear < k < second && Edge(log, k, switch)
  {
    i :| Edge(log[..first], i, switch) && !ClearedAfter(log[..first], i, latch);
    k :| Edge(log[..second], k, switch) && !ClearedAfter(log[..second], k, latch);
    assert log[..first][..i] == log[..i] && log[..second][..k] == log[..k];
    assert log[..second][clear] == Clear(latch);
  }

  // Init clears the latches before it assigns the switches' defaults, so a
  // switch that was off and starts on leaves its latch set.
  lemma InitCanLatch(log: seq<Event>, switch: string, latch: string, default: bool)
    ensures Pending(log + [Clear(latch)] + [Assign(switch, default)], switch, latch)
       <==> default && !ValueOf(log, switch)
  {
    PendingAfterClear(log, latch, switch, latch);
    PendingAfterAssign(log + [Clear(latch)], switch, default, switch, latch);
    ValueAfter(log, Clear(latch));
  }
}
