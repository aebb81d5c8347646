// The thread-local buffers that concatenation and repetition write their
// results to: a moving offset that restarts at 0 when a result does not fit.
module StringArena {
  import opened Arith

  const SIZE := 65536
  const NUL := '\0'

  // Where a view's bytes are: nowhere, outside the arena, or in it.
  datatype View = Null | External(text: string) | Region(start: nat, length: nat)

  predicate InBounds(v: View) {
    v.Region? ==> v.start + v.length <= SIZE
  }

  // The view shares no byte with the stretch of the arena.
  predicate Apart(v: View, from: nat, to: nat) {
    v.Region? && v.length > 0 ==> v.start + v.length <= from || to <= v.start
  }

  function LengthOf(v: View): nat {
    match v
    case Null => 0
    case External(text) => |text|
    case Region(_, length) => length
  }

  function TextOf(v: View, store: seq<char>): (text: string)
    requires |store| == SIZE && InBounds(v)
    ensures |text| == LengthOf(v)
  {
    match v
    case Null => ""
    case External(text) => text
    case Region(start, length) => store[start..start + length]
  }

  function TotalLength(views: seq<View>): nat {
    if views == [] then 0 else TotalLength(views[..|views| - 1]) + LengthOf(views[|views| - 1])
  }

  function Concatenated(views: seq<View>, store: seq<char>): (text: string)
    requires |store| == SIZE && forall v :: v in views ==> InBounds(v)
    ensures |text| == TotalLength(views)
  {
    if views == [] then ""
    else Concatenated(views[..|views| - 1], store) + TextOf(views[|views| - 1], store)
  }

  function Repeated(text: string, count: nat): string {
    if count == 0 then "" else Repeated(text, count - 1) + text
  }

  // A result still readable: its bytes, and the terminator after them.
  datatype Result = Result(start: nat, text: string)

  // Results handed out since the last restart keep their bytes, lie below the
  // offset, and follow one another without overlapping.
  ghost predicate Live(store: seq<char>, live: seq<Result>, offset: int) {
    && |store| == SIZE && 0 <= offset <= SIZE
    && (forall r :: r in live ==> Holds(store, r) && r.start + |r.text| < offset)
    && forall i, j :: 0 <= i < j < |live| ==> live[i].start + |live[i].text| < live[j].start
  }

  ghost predicate Holds(store: seq<char>, r: Result) {
    && r.start + |r.text| < |store|
    && store[r.start..r.start + |r.text|] == r.text
    && store[r.start + |r.text|] == NUL
  }

  class Arena {
    const buffer: array<char>
    var offset: int
    ghost var live: seq<Result>

    ghost predicate Valid()
      reads this, buffer
    {
      buffer.Length == SIZE && Live(buffer[..], live, offset)
    }

    constructor ()
      ensures Valid() && fresh(buffer) && live == [] && offset == 0
    {
      buffer := new char[SIZE](_ => NUL);
      offset := 0;
      live := [];
    }

    // Where the next result of `total` bytes goes.
    function Destination(total: nat): int
      reads this
    {
      if offset + total + 1 > SIZE then 0 else offset
    }

    // `view` shares no byte with the next result.
    predicate Clear(view: View, total: nat)
      reads this
    {
      0 <= Destination(total) && Apart(view, Destination(total), Destination(total) + total)
    }

    ghost function Kept(total: nat): seq<Result>
      reads this
    {
      if offset + total + 1 > SIZE then [] else live
    }

    // memcpy of a view to a place it does not overlap.
    method CopyTo(at: nat, view: View, ghost dest: nat, ghost end: nat, ghost before: seq<char>)
      requires buffer.Length == SIZE == |before| && InBounds(view)
      requires dest <= at && at + LengthOf(view) <= end < SIZE
      requires Apart(view, dest, end)
      requires forall i :: 0 <= i < SIZE && !(dest <= i < end) ==> buffer[i] == before[i]
      modifies buffer
      ensures buffer[at..at + LengthOf(view)] == TextOf(view, before)
      ensures forall i :: 0 <= i < SIZE && !(at <= i < at + LengthOf(view)) ==> buffer[i] == old(buffer[i])
    {
      match view {
        case Null =>
        case External(text) =>
          forall k | 0 <= k < |text| {
            buffer[at + k] := text[k];
          }
        case Region(start, length) =>
          ghost var source := before[start..start + length];
          assert buffer[start..start + length] == source;
          forall k | 0 <= k < length {
            buffer[at + k] := buffer[start + k];
          }
          assert buffer[at..at + length] == source;
      }
    }

    // One more copy behind what has been written from dest on.
    method CopyNext(at: nat, view: View, ghost dest: nat, ghost end: nat, ghost before: seq<char>,
                    ghost written: string)
      requires buffer.Length == SIZE == |before| && InBounds(view)
      requires dest <= at && at + LengthOf(view) <= end < SIZE
      requires Apart(view, dest, end)
      requires buffer[dest..at] == written
      requires forall i :: 0 <= i < SIZE && !(dest <= i < at) ==> buffer[i] == before[i]
      modifies buffer
      ensures buffer[dest..at + LengthOf(view)] == written + TextOf(view, before)
      ensures forall i :: 0 <= i < SIZE && !(dest <= i < at + LengthOf(view)) ==> buffer[i] == before[i]
    {
      hide TextOf, Apart, InBounds;
      CopyTo(at, view, dest, end, before);
      assert buffer[dest..at] == written;
      Appended(buffer[..], dest, at - dest, LengthOf(view), written);
    }

    // Valid results stay readable, the new one is exactly the inputs in order,
    // and nothing else in the buffer changes.
    method Concat(views: seq<View>) returns (out: View)
      requires Valid()
      requires TotalLength(views) < SIZE
      requires forall v :: v in views ==> InBounds(v) && Clear(v, TotalLength(views))
      modifies this, buffer
      ensures Valid()
      ensures TotalLength(views) == 0 ==> out == External("") && offset == old(offset) && live == old(live)
      ensures TotalLength(views) > 0 ==>
                var dest, text := old(Destination(TotalLength(views))), old(Concatenated(views, buffer[..]));
                && out == Region(dest, |text|)
                && buffer[dest..dest + |text|] == text
                && offset == dest + |text| + 1
                && live == old(Kept(TotalLength(views))) + [Result(dest, text)]
                && forall i :: 0 <= i < SIZE && !(dest <= i <= dest + |text|) ==> buffer[i] == old(buffer[i])
    {
      assert 0 <= offset <= SIZE;
      hide Concatenated, TotalLength, TextOf, Live, Apart, InBounds;
      var total := Measure(views);
      if total == 0 {
        return External("");
      }
      var restarts := offset + total + 1 > SIZE;
      var dest := if restarts then 0 else offset;
      RestartKeeps(buffer[..], live, offset, restarts);
      Place(views, dest, total, if restarts then [] else live);
      out := Region(dest, total);
    }

    // The inputs in order, as the next result.
    method Place(views: seq<View>, dest: nat, total: nat, ghost kept: seq<Result>)
      requires buffer.Length == SIZE && total == TotalLength(views) && dest + total < SIZE
      requires forall v :: v in views ==> InBounds(v)
      requires forall v :: v in views ==> Apart(v, dest, dest + total)
      requires Live(buffer[..], kept, dest)
      modifies this, buffer
      ensures Valid() && offset == dest + total + 1
      ensures var text := old(Concatenated(views, buffer[..]));
              |text| == total && live == kept + [Result(dest, text)] && buffer[dest..dest + total] == text
      ensures forall i :: 0 <= i < SIZE && !(dest <= i <= dest + total) ==> buffer[i] == old(buffer[i])
    {
      hide Concatenated, TotalLength, Live, Apart, InBounds;
      ghost var before := buffer[..];
      WriteAll(views, dest, total);
      Publish(dest, total, total, before, kept, Concatenated(views, before));
    }

    static method Measure(views: seq<View>) returns (total: nat)
      ensures total == TotalLength(views)
    {
      total := 0;
      for i := 0 to |views|
        invariant total == TotalLength(views[..i])
      {
        assert views[..i + 1][..i] == views[..i];
        if LengthOf(views[i]) > 0 {
          total := total + LengthOf(views[i]);
        }
      }
      assert views[..|views|] == views;
    }

    // Terminates a result and reserves its space.
    method Publish(dest: nat, length: nat, reserved: nat, ghost before: seq<char>, ghost kept: seq<Result>,
                   ghost text: string)
      requires buffer.Length == SIZE && length <= reserved && dest + reserved < SIZE
      requires Live(before, kept, dest) && buffer[dest..dest + length] == text
      requires forall i :: 0 <= i < dest ==> buffer[i] == before[i]
      modifies this, buffer
      ensures Valid() && offset == dest + reserved + 1 && live == kept + [Result(dest, text)]
      ensures buffer[dest..dest + length] == text
      ensures forall i :: 0 <= i < SIZE && i != dest + length ==> buffer[i] == old(buffer[i])
    {
      ghost var written := buffer[dest..dest + length];
      buffer[dest + length] := NUL;
      assert buffer[dest..dest + length] == written;
      offset := dest + reserved + 1;
      NewResult(before, buffer[..], kept, Result(dest, text), offset);
      live := kept + [Result(dest, text)];
    }

    method WriteAll(views: seq<View>, dest: nat, total: nat)
      requires buffer.Length == SIZE && total == TotalLength(views) && dest + total < SIZE
      requires forall v :: v in views ==> InBounds(v)
      requires forall v :: v in views ==> Apart(v, dest, dest + total)
      modifies buffer
      ensures buffer[dest..dest + total] == old(Concatenated(views, buffer[..]))
      ensures forall i :: 0 <= i < SIZE && !(dest <= i < dest + total) ==> buffer[i] == old(buffer[i])
    {
      hide Concatenated, TotalLength, TextOf, Apart, InBounds;
      ghost var before := buffer[..];
      NoViews(before);
      var current := 0;
      assert views[..0] == [];
      for i := 0 to |views|
        invariant current == TotalLength(views[..i]) <= total
        invariant buffer[dest..dest + current] == Concatenated(views[..i], before)
        invariant forall k :: 0 <= k < SIZE && !(dest <= k < dest + current) ==> buffer[k] == before[k]
      {
        PrefixStep(views, i, before);
        CopyNext(dest + current, views[i], dest, dest + total, before, Concatenated(views[..i], before));
        current := current + LengthOf(views[i]);
      }
      assert views[..|views|] == views;
    }

    method WriteRepeated(view: View, copies: nat, dest: nat, end: nat) returns (p: nat)
      requires buffer.Length == SIZE && InBounds(view)
      requires dest + |Repeated(TextOf(view, buffer[..]), copies)| <= end < SIZE
      requires Apart(view, dest, end)
      modifies buffer
      ensures var text := Repeated(old(TextOf(view, buffer[..])), copies);
              p == dest + |text| && p <= end && buffer[dest..p] == text
      ensures forall i :: 0 <= i < SIZE && !(dest <= i < p) ==> buffer[i] == old(buffer[i])
    {
      ghost var before := buffer[..];
      ghost var unit := TextOf(view, before);
      hide TextOf, Repeated, Apart, InBounds;
      NoCopies(unit);
      p := dest;
      for i := 0 to copies
        invariant p == dest + |Repeated(unit, i)| && p <= end
        invariant buffer[dest..p] == Repeated(unit, i)
        invariant forall k :: 0 <= k < SIZE && !(dest <= k < p) ==> buffer[k] == before[k]
      {
        OneMoreCopy(unit, i, copies);
        CopyNext(p, view, dest, end, before, Repeated(unit, i));
        p := p + LengthOf(view);
      }
    }

    // Repetition, clamped to what the buffer can hold. The space reserved is
    // the clamped total even when the copies fill less of it.
    method Repeat(view: View, count: int) returns (out: View)
      requires Valid() && InBounds(view)
      requires LengthOf(view) > 0 && count > 0 ==> Clear(view, Reserved(LengthOf(view), count))
      modifies this, buffer
      ensures Valid()
      ensures LengthOf(view) == 0 || count <= 0 ==> out == External("") && offset == old(offset) && live == old(live)
      ensures LengthOf(view) > 0 && count > 0 ==>
                var reserved := Reserved(LengthOf(view), count);
                var dest, text := old(Destination(reserved)),
                                  Repeated(old(TextOf(view, buffer[..])), Copies(LengthOf(view), count));
                && out == Region(dest, |text|)
                && |text| <= reserved && offset == dest + reserved + 1
                && live == old(Kept(reserved)) + [Result(dest, text)]
                && forall i :: 0 <= i < SIZE && !(dest <= i <= dest + |text|) ==> buffer[i] == old(buffer[i])
      ensures LengthOf(view) > 0 && count > 0 ==>
                InBounds(out) && IsCopies(TextOf(out, buffer[..]), old(TextOf(view, buffer[..])), count)
    {
      assert 0 <= offset <= SIZE;
      hide Repeated, TextOf, Live, Apart, InBounds;
      var length := LengthOf(view);
      if length == 0 || count <= 0 {
        return External("");
      }
      var total, copies := Clamp(length, count);
      hide Reserved, Copies;
      var restarts := offset + total + 1 > SIZE;
      var dest := if restarts then 0 else offset;
      RestartKeeps(buffer[..], live, offset, restarts);
      RepeatedLength(TextOf(view, buffer[..]), copies);
      ghost var unit := TextOf(view, buffer[..]);
      AreCopies(unit, count, total, copies);
      var p := PlaceRepeated(view, copies, dest, total, if restarts then [] else live);
      out := Region(dest, p - dest);
      OutText(out, buffer[..]);
    }

    // The copies, as the next result, in the space reserved for it.
    method PlaceRepeated(view: View, copies: nat, dest: nat, reserved: nat, ghost kept: seq<Result>)
      returns (p: nat)
      requires buffer.Length == SIZE && dest + reserved < SIZE
      requires InBounds(view) && Apart(view, dest, dest + reserved)
      requires |Repeated(TextOf(view, buffer[..]), copies)| <= reserved
      requires Live(buffer[..], kept, dest)
      modifies this, buffer
      ensures Valid() && offset == dest + reserved + 1
      ensures var text := Repeated(old(TextOf(view, buffer[..])), copies);
              p == dest + |text| && |text| <= reserved && live == kept + [Result(dest, text)]
              && buffer[dest..p] == text
      ensures forall i :: 0 <= i < SIZE && !(dest <= i <= p) ==> buffer[i] == old(buffer[i])
    {
      hide Repeated, TextOf, Live, Apart, InBounds;
      ghost var before := buffer[..];
      p := WriteRepeated(view, copies, dest, dest + reserved);
      Publish(dest, p - dest, reserved, before, kept, Repeated(TextOf(view, before), copies));
    }
  }

  function Reserved(length: nat, count: nat): nat {
    if length * count > SIZE - 1 then SIZE - 1 else length * count
  }

  function Copies(length: nat, count: nat): nat
    requires length > 0
  {
    if length * count > SIZE - 1 then (SIZE - 1) / length else count
  }

  method Clamp(length: nat, count: nat) returns (total: nat, copies: nat)
    requires length > 0
    ensures total == Reserved(length, count) && copies == Copies(length, count)
    ensures Clamped(length, count, total, copies) && copies * length <= total < SIZE
  {
    total, copies := length * count, count;
    if total > SIZE - 1 {
      total := SIZE - 1;
      copies := total / length;
      assert total == total / length * length + total % length;
      assert (copies + 1) * length == copies * length + length;
    }
  }

  // All the copies asked for if they fit, as many as fit otherwise.
  ghost predicate Clamped(length: nat, count: nat, total: nat, copies: nat) {
    if length * count < SIZE then copies == count && total == length * count
    else total == SIZE - 1 && copies * length <= SIZE - 1 < (copies + 1) * length
  }

  // Whole copies of the unit, byte by byte: as many as asked for if they fit, as
  // many as fit otherwise.
  ghost predicate IsCopies(text: string, unit: string, count: nat) {
    && unit != "" && |text| % |unit| == 0
    && (forall k :: 0 <= k < |text| ==> text[k] == unit[k % |unit|])
    && if |unit| * count < SIZE then |text| == |unit| * count else |text| < SIZE <= |text| + |unit|
  }

  lemma AreCopies(unit: string, count: nat, total: nat, copies: nat)
    requires unit != "" && Clamped(|unit|, count, total, copies)
    ensures IsCopies(Repeated(unit, copies), unit, count)
  {
    hide Repeated;
    var all := Repeated(unit, copies);
    RepeatedLength(unit, copies);
    DivModUnique(|all|, |unit|, copies, 0);
    assert (copies + 1) * |unit| == copies * |unit| + |unit|;
    forall k | 0 <= k < |all|
      ensures all[k] == unit[k % |unit|]
    {
      RepeatedAt(unit, copies, k);
    }
  }

  lemma OutText(out: View, store: seq<char>)
    requires |store| == SIZE && out.Region? && out.start + out.length <= SIZE
    ensures InBounds(out) && TextOf(out, store) == store[out.start..out.start + out.length]
  {
  }

  lemma {:induction false} RepeatedAt(text: string, count: nat, k: nat)
    requires text != "" && k < |Repeated(text, count)|
    ensures Repeated(text, count)[k] == text[k % |text|]
  {
    var before := Repeated(text, count - 1);
    RepeatedLength(text, count - 1);
    if k < |before| {
      RepeatedAt(text, count - 1, k);
    } else {
      DivModUnique(k, |text|, count - 1, k - |before|);
    }
  }

  // The new result lies above the ones kept, so none of them changes.
  lemma NewResult(before: seq<char>, after: seq<char>, kept: seq<Result>, r: Result, offset: int)
    requires |before| == |after| == SIZE && 0 <= offset <= SIZE
    requires Live(before, kept, r.start) && Holds(after, r) && r.start + |r.text| < offset
    requires forall i :: 0 <= i < r.start ==> after[i] == before[i]
    ensures Live(after, kept + [r], offset)
  {
    forall k | k in kept
      ensures Holds(after, k)
    {
      assert after[k.start..k.start + |k.text|] == before[k.start..k.start + |k.text|];
    }
  }

  // What a restart keeps: nothing, and the rest of the buffer is free.
  lemma RestartKeeps(store: seq<char>, live: seq<Result>, offset: int, restarts: bool)
    requires Live(store, live, offset)
    ensures Live(store, if restarts then [] else live, if restarts then 0 else offset)
  {
  }

  lemma {:induction false} RepeatedLength(text: string, count: nat)
    ensures |Repeated(text, count)| == count * |text|
  {
    if count > 0 {
      RepeatedLength(text, count - 1);
      assert count * |text| == (count - 1) * |text| + |text|;
    }
  }

  lemma NoCopies(text: string)
    ensures Repeated(text, 0) == ""
  {
  }

  lemma {:induction false} OneMoreCopy(text: string, i: nat, copies: nat)
    requires i < copies
    ensures Repeated(text, i + 1) == Repeated(text, i) + text
    ensures |Repeated(text, i + 1)| <= |Repeated(text, copies)|
    decreases copies
  {
    if i + 1 < copies {
      OneMoreCopy(text, i, copies - 1);
    }
  }

  lemma NoViews(store: seq<char>)
    requires |store| == SIZE
    ensures TotalLength([]) == 0 && Concatenated([], store) == ""
  {
  }

  lemma PrefixStep(views: seq<View>, i: nat, store: seq<char>)
    requires i < |views| && |store| == SIZE && forall v :: v in views ==> InBounds(v)
    ensures TotalLength(views[..i + 1]) == TotalLength(views[..i]) + LengthOf(views[i]) <= TotalLength(views)
    ensures Concatenated(views[..i + 1], store) == Concatenated(views[..i], store) + TextOf(views[i], store)
  {
    assert views[..i + 1][..i] == views[..i];
    PrefixLength(views, i + 1);
  }

  // Two adjacent stretches of the buffer.
  lemma Appended(store: seq<char>, dest: nat, done: nat, more: nat, text: string)
    requires dest + done + more <= |store| && store[dest..dest + done] == text
    ensures store[dest..dest + done + more] == text + store[dest + done..dest + done + more]
  {
  }

  lemma {:induction false} PrefixLength(views: seq<View>, n: nat)
    requires n <= |views|
    ensures TotalLength(views[..n]) <= TotalLength(views)
    decreases |views| - n
  {
    if n < |views| {
      assert views[..n + 1][..n] == views[..n];
      PrefixLength(views, n + 1);
    } else {
      assert views[..n] == views;
    }
  }

  // Every write stays in the buffer, terminator included, if and only if the
  // total is below its size: restarting makes no more room than that.
  lemma FitsExactly(a: Arena, total: nat)
    requires a.Valid()
    ensures (0 <= a.Destination(total) && a.Destination(total) + total + 1 <= SIZE) <==> total < SIZE
  {
  }

  // An earlier result can be an input of the next one freely while the buffer
  // does not restart; after a restart, exactly when it lies behind the new one.
  lemma LiveInputsAreClear(a: Arena, r: Result, total: nat)
    requires a.Valid() && r in a.live && r.text != ""
    ensures var view := Region(r.start, |r.text|);
            && InBounds(view) && TextOf(view, a.buffer[..]) == r.text
            && (a.Clear(view, total) <==> a.offset + total + 1 <= SIZE || total <= r.start)
  {
  }
}
