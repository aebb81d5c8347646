// Searching and tokenizing string views.
module StringTokens {

  // A view's data pointer may be null, whatever its length.
  datatype View = Null | Bytes(text: string)

  const DEFAULT_DELIMITER := " "

  predicate OccursAt(text: string, needle: string, i: int) {
    0 <= i && i + |needle| <= |text| && text[i..i + |needle|] == needle
  }

  // The first occurrence at or after `start`, or -1.
  function FirstFrom(text: string, needle: string, start: nat): (at: int)
    requires needle != ""
    ensures at >= 0 ==> start <= at && OccursAt(text, needle, at)
    ensures at >= 0 ==> forall k :: start <= k < at ==> !OccursAt(text, needle, k)
    ensures at < 0 ==> at == -1 && forall k :: start <= k ==> !OccursAt(text, needle, k)
    decreases |text| - start
  {
    if start + |needle| > |text| then -1
    else if OccursAt(text, needle, start) then start
    else FirstFrom(text, needle, start + 1)
  }

  method Find(haystack: View, needle: View, start: int) returns (at: int)
    ensures haystack.Null? || needle.Null? || needle.text == "" ==> at == -1
    ensures haystack.Bytes? && needle.Bytes? && needle.text != "" ==>
              at == FirstFrom(haystack.text, needle.text, if start < 0 then 0 else start)
  {
    if haystack.Null? || needle.Null? || |needle.text| == 0 {
      return -1;
    }
    var from := if start < 0 then 0 else start;
    if from + |needle.text| > |haystack.text| {
      return -1;
    }
    var i := from;
    while i <= |haystack.text| - |needle.text|
      invariant from <= i
      invariant FirstFrom(haystack.text, needle.text, i) == FirstFrom(haystack.text, needle.text, from)
    {
      if haystack.text[i..i + |needle.text|] == needle.text {
        return i;
      }
      i := i + 1;
    }
    return -1;
  }

  // ------------------------------------------------------------------ tokens

  // The pieces of the text from `start` on, between delimiters.
  function Tokens(text: string, delim: string, start: nat): (tokens: seq<string>)
    requires delim != "" && start <= |text|
    ensures |tokens| >= 1
    decreases |text| - start
  {
    var found := FirstFrom(text, delim, start);
    if found < 0 then [text[start..]]
    else [text[start..found]] + Tokens(text, delim, found + |delim|)
  }

  function Delimiter(delim: View): (d: string)
    ensures d != ""
  {
    if delim.Bytes? && |delim.text| > 0 then delim.text else DEFAULT_DELIMITER
  }

  // What the tokenizer gives: nothing for a null or an empty text.
  function Tokenized(src: View, delim: View): seq<string> {
    if src.Null? || src.text == "" then [] else Tokens(src.text, Delimiter(delim), 0)
  }

  method NextToken(text: string, d: string, start: nat) returns (found: int, token: string)
    requires d != "" && start <= |text|
    ensures found == FirstFrom(text, d, start)
    ensures found < 0 ==> Tokens(text, d, start) == [token]
    ensures found >= 0 ==> start <= found && found + |d| <= |text|
                           && Tokens(text, d, start) == [token] + Tokens(text, d, found + |d|)
  {
    TokensFrom(text, d, start);
    hide Tokens, OccursAt;
    found := -1;
    if start < |text| {
      found := Find(Bytes(text), Bytes(d), start);
    }
    hide FirstFrom;
    token := text[start..if found >= 0 then found else |text|];
    assert text[start..|text|] == text[start..];
  }

  lemma TokensFrom(text: string, d: string, start: nat)
    requires d != "" && start <= |text|
    ensures var found := FirstFrom(text, d, start);
            && (found >= 0 ==> start <= found && found + |d| <= |text|)
            && Tokens(text, d, start) == if found < 0 then [text[start..]]
                                         else [text[start..found]] + Tokens(text, d, found + |d|)
    ensures start == |text| ==> FirstFrom(text, d, start) == -1
  {
  }

  // Writes at most maxTokens tokens, if there is somewhere to write them, and
  // counts them all.
  method Tokenize(src: View, delim: View, outTokens: array?<string>, maxTokens: int)
    returns (count: int, overflow: bool)
    requires outTokens != null ==> maxTokens <= outTokens.Length
    modifies outTokens
    ensures var tokens := Tokenized(src, delim);
            && count == |tokens|
            && overflow == (tokens != [] && |tokens| > maxTokens)
            && (outTokens != null ==> forall i :: 0 <= i < |tokens| && i < maxTokens ==> outTokens[i] == tokens[i])
    ensures outTokens != null ==> forall i :: 0 <= i < outTokens.Length && i >= maxTokens ==>
                                    outTokens[i] == old(outTokens[i])
    ensures outTokens != null ==> forall i :: count <= i < outTokens.Length ==> outTokens[i] == old(outTokens[i])
  {
    hide Tokens, FirstFrom, Delimiter;
    overflow := false;
    if src.Null? || src.text == "" {
      return 0, false;
    }
    var text, d := src.text, Delimiter(delim);
    ghost var tokens := Tokens(text, d, 0);
    count := 0;
    var start := 0;
    while start <= |text|
      invariant 0 <= start <= |text| && 0 <= count < |tokens|
      invariant Tokens(text, d, start) == tokens[count..]
      invariant overflow == (count > 0 && count > maxTokens)
      invariant outTokens != null ==>
                  && (forall i :: 0 <= i < count && i < maxTokens ==> outTokens[i] == tokens[i])
                  && (forall i :: 0 <= i < outTokens.Length && (i >= count || i >= maxTokens) ==>
                        outTokens[i] == old(outTokens[i]))
      decreases |text| - start
    {
      var found, token := NextToken(text, d, start);
      assert token == tokens[count];
      if count < maxTokens {
        if outTokens != null {
          outTokens[count] := token;
        }
      } else {
        overflow := true;
      }
      count := count + 1;
      if found < 0 {
        assert |tokens[count - 1..]| == 1;
        break;
      }
      assert tokens[count - 1..][1..] == tokens[count..];
      start := found + |d|;
    }
  }

  method TokenAt(src: View, delim: View, index: int) returns (token: View)
    ensures var tokens := Tokenized(src, delim);
            token == if 0 <= index < |tokens| then Bytes(tokens[index]) else Null
  {
    hide Tokens, FirstFrom;
    if src.Null? || src.text == "" || index < 0 {
      return Null;
    }
    var text, d := src.text, Delimiter(delim);
    ghost var tokens := Tokens(text, d, 0);
    var current, start := 0, 0;
    while start <= |text|
      invariant 0 <= start <= |text| && 0 <= current < |tokens| && current <= index
      invariant Tokens(text, d, start) == tokens[current..]
      decreases |text| - start
    {
      var found, token := NextToken(text, d, start);
      assert token == tokens[current];
      if current == index {
        return Bytes(token);
      }
      current := current + 1;
      if found < 0 {
        break;
      }
      assert tokens[current - 1..][1..] == tokens[current..];
      start := found + |d|;
    }
    return Null;
  }

  method TokenCount(src: View, delim: View) returns (count: int)
    ensures src.Null? || src.text == "" ==> count == 0
    ensures src.Bytes? && src.text != "" ==> count == Counted(src.text, Delimiter(delim))
  {
    if src.Null? || src.text == "" {
      return 0;
    }
    count := CountTokens(src.text, Delimiter(delim));
  }

  // Stops as soon as a delimiter is found at position 0.
  method CountTokens(text: string, d: string) returns (count: int)
    requires d != ""
    ensures count == Counted(text, d)
  {
    hide Tokens, FirstFrom, OccursAt;
    PrefixIsFoundFirst(text, d);
    count := 0;
    var start := 0;
    while start <= |text|
      invariant 0 <= start <= |text|
      invariant if start == 0 then count == 0 else !(d <= text)
      invariant count + |Tokens(text, d, start)| == |Tokens(text, d, 0)|
      decreases |text| - start
    {
      var found, _ := NextToken(text, d, start);
      count := count + 1;
      if found == 0 || found < 0 {
        break;
      }
      start := found + |d|;
    }
  }

  lemma PrefixIsFoundFirst(text: string, delim: string)
    requires delim != ""
    ensures delim <= text <==> FirstFrom(text, delim, 0) == 0
  {
    if delim <= text {
      assert OccursAt(text, delim, 0);
    }
  }

  // What the counting returns, and what it should.
  function Counted(text: string, delim: string): int
    requires delim != ""
  {
    if delim <= text then 1 else |Tokens(text, delim, 0)|
  }

  // The count is the tokenizer's exactly when no delimiter starts the text.
  lemma CountAgreesExactly(text: string, delim: string)
    requires delim != ""
    ensures Counted(text, delim) == |Tokens(text, delim, 0)| <==> !(delim <= text)
  {
    PrefixIsFoundFirst(text, delim);
  }

  // ------------------------------------------------------------- properties

  ghost predicate Contains(text: string, needle: string) {
    exists i :: OccursAt(text, needle, i)
  }

  lemma {:induction false} NoTokenHasDelimiter(text: string, delim: string, start: nat)
    requires delim != "" && start <= |text|
    ensures forall token :: token in Tokens(text, delim, start) ==> !Contains(token, delim)
    decreases |text| - start
  {
    var found := FirstFrom(text, delim, start);
    var end := if found < 0 then |text| else found;
    forall i
      ensures !OccursAt(text[start..end], delim, i)
    {
      if OccursAt(text[start..end], delim, i) {
        OccursInside(text, start, end, delim, i);
      }
    }
    assert text[start..|text|] == text[start..];
    if found >= 0 {
      NoTokenHasDelimiter(text, delim, found + |delim|);
    }
  }

  lemma OccursInside(text: string, start: nat, end: nat, needle: string, i: int)
    requires start <= end <= |text| && OccursAt(text[start..end], needle, i)
    ensures OccursAt(text, needle, start + i) && start + i + |needle| <= end
  {
    var piece, n := text[start..end], |needle|;
    assert forall k :: i <= k < i + n ==> piece[k] == text[start + k];
    assert piece[i..i + n] == text[start + i..start + i + n];
  }

  function Join(tokens: seq<string>, delim: string): string
    requires |tokens| >= 1
  {
    if |tokens| == 1 then tokens[0] else tokens[0] + delim + Join(tokens[1..], delim)
  }

  // Joining the tokens gives the source back.
  lemma {:induction false} JoinOfTokens(text: string, delim: string, start: nat)
    requires delim != "" && start <= |text|
    ensures Join(Tokens(text, delim, start), delim) == text[start..]
    decreases |text| - start
  {
    var found := FirstFrom(text, delim, start);
    if found >= 0 {
      var next := found + |delim|;
      assert text[found..next] == delim;
      assert Tokens(text, delim, start) == [text[start..found]] + Tokens(text, delim, next);
      hide FirstFrom, OccursAt, Join, Tokens;
      JoinOfTokens(text, delim, next);
      JoinFirst(text[start..found], Tokens(text, delim, next), delim);
      ThreePieces(text, start, found, next);
    }
  }

  lemma ThreePieces(text: string, a: nat, b: nat, c: nat)
    requires a <= b <= c <= |text|
    ensures text[a..] == text[a..b] + text[b..c] + text[c..]
  {
  }

  lemma JoinFirst(first: string, rest: seq<string>, delim: string)
    requires |rest| >= 1
    ensures Join([first] + rest, delim) == first + delim + Join(rest, delim)
  {
    assert ([first] + rest)[1..] == rest;
  }

  // Each token ends at the first delimiter that follows its start.
  predicate Separable(tokens: seq<string>, d: string)
    requires |tokens| >= 1 && d != ""
  {
    if |tokens| == 1 then FirstFrom(tokens[0], d, 0) < 0
    else FirstFrom(tokens[0] + d, d, 0) == |tokens[0]| && Separable(tokens[1..], d)
  }

  // Tokenizing undoes joining exactly for such tokens, for every delimiter.
  lemma {:induction false} TokensOfJoinExactly(prefix: string, tokens: seq<string>, d: string)
    requires |tokens| >= 1 && d != ""
    ensures Tokens(prefix + Join(tokens, d), d, |prefix|) == tokens <==> Separable(tokens, d)
    decreases |tokens|
  {
    hide OccursAt, FirstFrom;
    var text, first := prefix + Join(tokens, d), tokens[0];
    if |tokens| == 1 {
      FoundInside(prefix, first, "", d);
      assert first + "" == first && prefix + first + "" == text && text[|prefix|..] == first;
    } else {
      var rest := tokens[1..];
      var prefix' := prefix + first + d;
      assert text == prefix' + Join(rest, d) == prefix + (first + d) + Join(rest, d);
      DelimiterIsFound(first, d);
      FoundInside(prefix, first + d, Join(rest, d), d);
      TokensOfJoinExactly(prefix', rest, d);
      var r := FirstFrom(first + d, d, 0);
      assert text[|prefix|..|prefix| + r] == first[..r];
      assert tokens == [first] + rest;
      if r == |first| {
        assert first[..r] == first;
      } else {
        assert |first[..r]| != |first|;
      }
    }
  }

  // Searching from the end of the prefix finds what searching the piece finds.
  lemma FoundInside(prefix: string, piece: string, tail: string, d: string)
    requires d != "" && (tail == "" || FirstFrom(piece, d, 0) >= 0)
    ensures var found := FirstFrom(piece, d, 0);
            FirstFrom(prefix + piece + tail, d, |prefix|) == if found < 0 then -1 else |prefix| + found
  {
    var text, found := prefix + piece + tail, FirstFrom(piece, d, 0);
    forall i | 0 <= i && i + |d| <= |piece|
      ensures OccursAt(text, d, |prefix| + i) <==> OccursAt(piece, d, i)
    {
      assert text[|prefix| + i..|prefix| + i + |d|] == piece[i..i + |d|];
    }
    if found >= 0 {
      forall k | |prefix| <= k < |prefix| + found
        ensures !OccursAt(text, d, k)
      {
        assert !OccursAt(piece, d, k - |prefix|);
      }
      FirstIs(text, d, |prefix|, |prefix| + found);
    } else {
      forall k | |prefix| <= k
        ensures !OccursAt(text, d, k)
      {
        assert !OccursAt(piece, d, k - |prefix|);
      }
      hide OccursAt;
      assert FirstFrom(text, d, |prefix|) < 0;
    }
  }

  lemma DelimiterIsFound(first: string, d: string)
    requires d != ""
    ensures 0 <= FirstFrom(first + d, d, 0) <= |first|
  {
    assert OccursAt(first + d, d, |first|);
  }

  lemma FirstIs(text: string, d: string, start: nat, found: nat)
    requires d != "" && start <= found && OccursAt(text, d, found)
    requires forall k :: start <= k < found ==> !OccursAt(text, d, k)
    ensures FirstFrom(text, d, start) == found
  {
    hide OccursAt, FirstFrom;
  }

  // For a one-byte delimiter: exactly for tokens without it.
  lemma {:induction false} OneByteSeparates(tokens: seq<string>, d: char)
    requires |tokens| >= 1
    ensures Separable(tokens, [d]) <==> forall token :: token in tokens ==> d !in token
  {
    ByteIsFound(tokens[0], d);
    if |tokens| > 1 {
      OneByteSeparates(tokens[1..], d);
      assert tokens == [tokens[0]] + tokens[1..];
    }
  }

  lemma {:induction false} ByteIsFound(token: string, d: char)
    ensures FirstFrom(token, [d], 0) < 0 <==> d !in token
    ensures FirstFrom(token + [d], [d], 0) == |token| <==> d !in token
  {
    var text := token + [d];
    forall i | 0 <= i < |token|
      ensures OccursAt(token, [d], i) <==> token[i] == d
      ensures OccursAt(text, [d], i) <==> token[i] == d
    {
      assert token[i..i + 1] == [token[i]] == text[i..i + 1];
    }
    DelimiterIsFound(token, [d]);
    if d !in token {
      FirstIs(text, [d], 0, |token|);
    }
  }

  // The tokenizer itself gives no token for an empty text, so the one empty
  // token is the one separable list it does not give back.
  lemma TokenizeUndoesJoinExactly(tokens: seq<string>, d: string)
    requires |tokens| >= 1 && d != ""
    ensures Tokenized(Bytes(Join(tokens, d)), Bytes(d)) == tokens <==> Separable(tokens, d) && tokens != [""]
  {
    var text := Join(tokens, d);
    TokensOfJoinExactly("", tokens, d);
    assert "" + text == text;
    if |tokens| > 1 {
      assert text == tokens[0] + d + Join(tokens[1..], d);
    } else {
      assert tokens == [tokens[0]];
    }
  }
}
