// The format function: literal text with doubled braces, and {holes} filled
// from the arguments, written into a thread-local buffer and cut to its space.
module StringFormat {
  import opened StringArena

  // An argument's text for a hole's specification. How numbers are printed is
  // the C++ library's business.
  type Arg = string -> string

  const ROOM := 4096

  // The position of the first closing brace at or after `from`.
  function CloseBrace(fmt: string, from: nat): (at: nat)
    requires from <= |fmt|
    ensures from <= at <= |fmt| && (at < |fmt| ==> fmt[at] == '}')
    ensures forall k :: from <= k < at ==> fmt[k] != '}'
    decreases |fmt| - from
  {
    if from == |fmt| || fmt[from] == '}' then from else CloseBrace(fmt, from + 1)
  }

  // One step of the parser at position p: what it appends, where it goes on,
  // and how many arguments it uses.
  datatype Piece = Piece(text: string, next: nat, used: nat)

  function PieceAt(fmt: string, p: nat, args: seq<Arg>): (piece: Piece)
    requires p < |fmt|
    ensures p < piece.next <= |fmt| && piece.used <= 1 && piece.used <= |args|
  {
    if fmt[p] == '{' && p + 1 < |fmt| && fmt[p + 1] == '{' then Piece("{", p + 2, 0)
    else if fmt[p] == '{' && CloseBrace(fmt, p + 1) < |fmt| then
      var close := CloseBrace(fmt, p + 1);
      if args != [] then Piece(args[0](fmt[p + 1..close]), close + 1, 1)
      else Piece("", close + 1, 0)
    else if fmt[p] == '}' && p + 1 < |fmt| && fmt[p + 1] == '}' then Piece("}", p + 2, 0)
    else Piece([fmt[p]], p + 1, 0)
  }

  // Everything the format stands for, without the limits of the buffer.
  function Expand(fmt: string, p: nat, args: seq<Arg>): string
    requires p <= |fmt|
    decreases |fmt| - p
  {
    if p == |fmt| then ""
    else
      var piece := PieceAt(fmt, p, args);
      piece.text + Expand(fmt, piece.next, args[piece.used..])
  }

  class FormatArena {
    const buffer: array<char>
    var offset: nat

    ghost predicate Valid()
      reads this
    {
      buffer.Length == SIZE && offset <= SIZE
    }

    constructor ()
      ensures Valid() && offset == 0
    {
      buffer := new char[SIZE](_ => NUL);
      offset := 0;
    }

    function Destination(): nat
      reads this
    {
      if offset + ROOM > SIZE then 0 else offset
    }

    // Appends as much of the text as fits.
    method Append(dest: nat, written: nat, maxAvail: nat, text: string) returns (more: nat)
      requires buffer.Length == SIZE && dest + maxAvail < SIZE && written <= maxAvail
      modifies buffer
      ensures more == if written + |text| > maxAvail then maxAvail else written + |text|
      ensures written <= more && buffer[dest..dest + more] == old(buffer[dest..dest + written]) + text[..more - written]
      ensures forall i :: 0 <= i < SIZE && !(dest + written <= i < dest + more) ==> buffer[i] == old(buffer[i])
    {
      if |text| == 0 || written >= maxAvail {
        return written;
      }
      var toCopy := if written + |text| > maxAvail then maxAvail - written else |text|;
      ghost var before := buffer[dest..dest + written];
      forall k | 0 <= k < toCopy {
        buffer[dest + written + k] := text[k];
      }
      more := written + toCopy;
      assert buffer[dest..dest + written] == before;
      assert buffer[dest + written..dest + more] == text[..toCopy];
      assert buffer[dest..dest + more] == buffer[dest..dest + written] + buffer[dest + written..dest + more];
    }

    // The result is what the format stands for, cut to the room left; nothing
    // but the result and its terminator is written. The format may be an
    // earlier result, which lies below everything that is written.
    method Format(fmt: View, args: seq<Arg>) returns (out: View)
      requires Valid() && (fmt.Region? ==> fmt.start + fmt.length <= Destination())
      modifies this, buffer
      ensures Valid()
      ensures LengthOf(fmt) == 0 ==>
                out == External("") && offset == old(offset) && buffer[..] == old(buffer[..])
      ensures LengthOf(fmt) > 0 ==>
                var dest, text := old(Destination()), Expand(old(TextOf(fmt, buffer[..])), 0, args);
                var n := if |text| > SIZE - dest - 1 then SIZE - dest - 1 else |text|;
                && ROOM <= SIZE - dest
                && out == Region(dest, n)
                && buffer[dest..dest + n] == text[..n] && buffer[dest + n] == NUL
                && offset == dest + n + 1
                && forall i :: 0 <= i < SIZE && !(dest <= i <= dest + n) ==> buffer[i] == old(buffer[i])
    {
      hide Expand, TextOf;
      if LengthOf(fmt) == 0 {
        return External("");
      }
      var text := TextOf(fmt, buffer[..]);
      var dest := if offset + ROOM > SIZE then 0 else offset;
      var written := Write(text, args, dest, SIZE - dest - 1);
      buffer[dest + written] := NUL;
      offset := dest + written + 1;
      out := Region(dest, written);
    }

    method Write(fmt: string, args: seq<Arg>, dest: nat, maxAvail: nat) returns (written: nat)
      requires buffer.Length == SIZE && dest + maxAvail < SIZE
      modifies buffer
      ensures var text := Expand(fmt, 0, args);
              && written == (if |text| > maxAvail then maxAvail else |text|)
              && buffer[dest..dest + written] == text[..written]
      ensures forall i :: 0 <= i < SIZE && !(dest <= i < dest + written) ==> buffer[i] == old(buffer[i])
    {
      hide Expand, PieceAt;
      written := 0;
      var p, used := 0, 0;
      ghost var done := "";
      while p < |fmt|
        invariant 0 <= p <= |fmt| && 0 <= used <= |args|
        invariant Expand(fmt, 0, args) == done + Expand(fmt, p, args[used..])
        invariant written == (if |done| > maxAvail then maxAvail else |done|)
        invariant buffer[dest..dest + written] == done[..written]
        invariant forall i :: 0 <= i < SIZE && !(dest <= i < dest + written) ==> buffer[i] == old(buffer[i])
        decreases |fmt| - p
      {
        var piece := Parse(fmt, p, args[used..]);
        OnePiece(fmt, p, args, used, piece, done);
        written := Append(dest, written, maxAvail, piece.text);
        done := done + piece.text;
        p, used := piece.next, used + piece.used;
      }
      ExpandEnd(fmt, args[used..]);
    }

    // The tests the parser makes at position p, in its order.
    static method Parse(fmt: string, p: nat, args: seq<Arg>) returns (piece: Piece)
      requires p < |fmt|
      ensures piece == PieceAt(fmt, p, args)
    {
      if fmt[p] == '{' {
        if p + 1 < |fmt| && fmt[p + 1] == '{' {
          return Piece("{", p + 2, 0);
        }
        var close := p + 1;
        while close < |fmt| && fmt[close] != '}'
          invariant p + 1 <= close <= |fmt|
          invariant CloseBrace(fmt, p + 1) == CloseBrace(fmt, close)
        {
          close := close + 1;
        }
        if close < |fmt| && fmt[close] == '}' {
          if |args| > 0 {
            return Piece(args[0](fmt[p + 1..close]), close + 1, 1);
          }
          return Piece("", close + 1, 0);
        }
      } else if fmt[p] == '}' && p + 1 < |fmt| && fmt[p + 1] == '}' {
        return Piece("}", p + 2, 0);
      }
      piece := Piece([fmt[p]], p + 1, 0);
    }
  }

  lemma OnePiece(fmt: string, p: nat, args: seq<Arg>, used: nat, piece: Piece, done: string)
    requires p < |fmt| && used <= |args| && piece == PieceAt(fmt, p, args[used..])
    ensures p < piece.next <= |fmt| && used + piece.used <= |args|
    ensures done + Expand(fmt, p, args[used..])
         == (done + piece.text) + Expand(fmt, piece.next, args[used + piece.used..])
  {
    hide Expand, PieceAt;
    ExpandStep(fmt, p, args[used..]);
    assert args[used..][piece.used..] == args[used + piece.used..];
  }

  lemma ExpandStep(fmt: string, p: nat, args: seq<Arg>)
    requires p < |fmt|
    ensures var piece := PieceAt(fmt, p, args);
            Expand(fmt, p, args) == piece.text + Expand(fmt, piece.next, args[piece.used..])
  {
  }

  lemma ExpandEnd(fmt: string, args: seq<Arg>)
    ensures Expand(fmt, |fmt|, args) == ""
  {
  }

  // ------------------------------------------------------------- round trip

  // A format as its author thinks of it.
  datatype Part = Literal(text: string) | Hole(spec: string)

  predicate IsBrace(c: char) {
    c == '{' || c == '}'
  }

  function Escape(text: string): string {
    if text == "" then ""
    else EscapedOne(text[0]) + Escape(text[1..])
  }

  function PrintOne(part: Part): string {
    match part
    case Literal(text) => Escape(text)
    case Hole(spec) => "{" + spec + "}"
  }

  function Print(parts: seq<Part>): string {
    if parts == [] then "" else PrintOne(parts[0]) + Print(parts[1..])
  }

  // A hole's specification cannot close it early or look like a doubled brace.
  predicate WellFormedParts(parts: seq<Part>) {
    forall part :: part in parts && part.Hole? ==> IsSpec(part.spec)
  }

  // A template with its holes filled from the arguments, in order; a hole
  // with no argument left is empty.
  function Filled(parts: seq<Part>, args: seq<Arg>): string {
    if parts == [] then ""
    else TextOfPart(parts[0], args) + Filled(parts[1..], AfterPart(parts[0], args))
  }

  // The text at position p of the format.
  predicate IsAt(fmt: string, p: nat, text: string) {
    p + |text| <= |fmt| && fmt[p..p + |text|] == text
  }

  lemma IsAtSplits(fmt: string, p: nat, a: string, b: string)
    requires IsAt(fmt, p, a + b)
    ensures IsAt(fmt, p, a) && IsAt(fmt, p + |a|, b)
  {
    assert fmt[p..p + |a|] == (a + b)[..|a|] == a;
    assert fmt[p + |a|..p + |a| + |b|] == (a + b)[|a|..] == b;
  }

  function EscapedOne(c: char): string {
    if IsBrace(c) then [c, c] else [c]
  }

  lemma {:induction false} EscapedLiteral(fmt: string, p: nat, text: string, args: seq<Arg>)
    requires IsAt(fmt, p, Escape(text))
    ensures Expand(fmt, p, args) == text + Expand(fmt, p + |Escape(text)|, args)
    decreases text
  {
    hide Expand;
    if text != "" {
      var first, rest := EscapedOne(text[0]), text[1..];
      IsAtSplits(fmt, p, first, Escape(rest));
      EscapedChar(fmt, p, text[0], args);
      EscapedLiteral(fmt, p + |first|, rest, args);
      assert text == [text[0]] + rest;
      assert [text[0]] + (rest + Expand(fmt, p + |Escape(text)|, args))
          == text + Expand(fmt, p + |Escape(text)|, args);
    } else {
      assert "" + Expand(fmt, p, args) == Expand(fmt, p, args);
    }
  }

  lemma EscapedChar(fmt: string, p: nat, c: char, args: seq<Arg>)
    requires IsAt(fmt, p, EscapedOne(c))
    ensures Expand(fmt, p, args) == [c] + Expand(fmt, p + |EscapedOne(c)|, args)
  {
    var first := EscapedOne(c);
    assert fmt[p] == fmt[p..p + |first|][0] == c;
    if IsBrace(c) {
      assert fmt[p + 1] == fmt[p..p + |first|][1] == c;
    }
    ExpandStep(fmt, p, args);
    assert args[0..] == args;
  }

  predicate IsSpec(spec: string) {
    '}' !in spec && !("{" <= spec)
  }

  lemma FilledHole(fmt: string, p: nat, spec: string, args: seq<Arg>)
    requires IsSpec(spec) && IsAt(fmt, p, "{" + spec + "}")
    ensures args == [] ==> Expand(fmt, p, args) == Expand(fmt, p + |spec| + 2, args)
    ensures args != [] ==> Expand(fmt, p, args) == args[0](spec) + Expand(fmt, p + |spec| + 2, args[1..])
  {
    hide Expand;
    HolePiece(fmt, p, spec, args);
    ExpandStep(fmt, p, args);
    if args == [] {
      assert "" + Expand(fmt, p + |spec| + 2, []) == Expand(fmt, p + |spec| + 2, []);
    }
  }

  lemma HolePiece(fmt: string, p: nat, spec: string, args: seq<Arg>)
    requires IsSpec(spec) && IsAt(fmt, p, "{" + spec + "}")
    ensures PieceAt(fmt, p, args)
         == if args == [] then Piece("", p + |spec| + 2, 0) else Piece(args[0](spec), p + |spec| + 2, 1)
  {
    var hole, close := "{" + spec + "}", p + 1 + |spec|;
    var window := fmt[p..p + |hole|];
    assert forall k :: 0 <= k < |hole| ==> window[k] == fmt[p + k];
    assert fmt[p] == hole[0] && fmt[close] == hole[|spec| + 1] == '}';
    assert forall k :: p + 1 <= k < close ==> fmt[k] == spec[k - p - 1];
    assert fmt[p + 1..close] == spec;
    assert CloseBrace(fmt, p + 1) == close;
    assert fmt[p + 1] != '{';
  }

  // Formatting a printed template fills its holes in order and leaves its
  // literals, braces included, as they were.
  lemma {:induction false} FormatFillsTemplate(fmt: string, p: nat, parts: seq<Part>, args: seq<Arg>)
    requires WellFormedParts(parts) && p <= |fmt| && fmt[p..] == Print(parts)
    ensures Expand(fmt, p, args) == Filled(parts, args)
    decreases parts
  {
    hide Expand, PrintOne;
    if parts != [] {
      var part, next := parts[0], p + |PrintOne(parts[0])|;
      SplitPrinted(fmt, p, PrintOne(part), Print(parts[1..]));
      FormatPart(fmt, p, part, args);
      FormatFillsTemplate(fmt, next, parts[1..], AfterPart(part, args));
      assert "" + Expand(fmt, next, args) == Expand(fmt, next, args);
    } else {
      ExpandEnd(fmt, args);
    }
  }

  lemma SplitPrinted(fmt: string, p: nat, first: string, rest: string)
    requires p <= |fmt| && fmt[p..] == first + rest
    ensures IsAt(fmt, p, first) && fmt[p + |first|..] == rest
  {
    assert fmt[p..p + |first|] == fmt[p..][..|first|];
    assert fmt[p + |first|..] == fmt[p..][|first|..];
  }

  function TextOfPart(part: Part, args: seq<Arg>): string {
    match part
    case Literal(text) => text
    case Hole(spec) => if args == [] then "" else args[0](spec)
  }

  function AfterPart(part: Part, args: seq<Arg>): seq<Arg> {
    if part.Hole? && args != [] then args[1..] else args
  }

  lemma FormatPart(fmt: string, p: nat, part: Part, args: seq<Arg>)
    requires (part.Hole? ==> IsSpec(part.spec)) && IsAt(fmt, p, PrintOne(part))
    ensures Expand(fmt, p, args) == TextOfPart(part, args) + Expand(fmt, p + |PrintOne(part)|, AfterPart(part, args))
  {
    hide Expand, Escape, IsSpec;
    match part
    case Literal(text) => EscapedLiteral(fmt, p, text, args);
    case Hole(spec) =>
      FilledHole(fmt, p, spec, args);
      assert "" + Expand(fmt, p + |spec| + 2, args) == Expand(fmt, p + |spec| + 2, args);
  }

  // What is no hole and no doubled brace stands for itself: any other character,
  // a closing brace alone, and an opening brace that nothing closes.
  predicate StandsAlone(fmt: string, p: nat)
    requires p < |fmt|
  {
    var doubled := p + 1 < |fmt| && fmt[p + 1] == fmt[p];
    if fmt[p] == '{' then !doubled && '}' !in fmt[p + 1..]
    else fmt[p] == '}' ==> !doubled
  }

  lemma LoneCharacter(fmt: string, p: nat, args: seq<Arg>)
    requires p < |fmt| && StandsAlone(fmt, p)
    ensures Expand(fmt, p, args) == [fmt[p]] + Expand(fmt, p + 1, args)
  {
    hide Expand;
    ExpandStep(fmt, p, args);
    assert forall k :: p < k < |fmt| ==> fmt[k] == fmt[p + 1..][k - p - 1];
    assert args[0..] == args;
  }

  // In particular, doubling every brace of a text makes it format to itself,
  // and no argument is used.
  lemma EscapedTextIsItself(text: string, args: seq<Arg>)
    ensures Expand(Escape(text), 0, args) == text
  {
    hide Expand, Escape;
    EscapedLiteral(Escape(text), 0, text, args);
    ExpandEnd(Escape(text), args);
  }
}
