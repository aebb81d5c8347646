// Symbol names for generated code: codes for types, length-prefixed name
// components, and the registry that resolves a mangled name again.
module NameMangling {
  import opened Wrappers

  datatype LlvmType =
    | Missing   // a null type pointer
    | Void
    | Integer(width: nat)
    | Float
    | Double
    | Pointer
    | Array(count: nat, element: LlvmType)
    | NamedStruct(name: string)
    | LiteralStruct(elements: seq<LlvmType>)
    | Unsupported // vectors, half floats, ...: they share the code of Missing

  datatype Symbol = Symbol(name: string, scope: seq<string>, types: seq<LlvmType>)

  // ---------------------------------------------------------------- encoding

  function Digit(d: nat): char
    requires d < 10
  {
    "0123456789"[d]
  }

  predicate IsDigit(c: char) {
    '0' <= c <= '9'
  }

  function Decimal(n: nat): (s: string)
    ensures s != [] && forall c :: c in s ==> IsDigit(c)
  {
    if n < 10 then [Digit(n)] else Decimal(n / 10) + [Digit(n % 10)]
  }

  function LengthPrefixed(component: string): string {
    Decimal(|component|) + component
  }

  function Key(components: seq<string>): string {
    if components == [] then "" else LengthPrefixed(components[0]) + Key(components[1..])
  }

  // The scope and name only, so all type variants of a symbol share it.
  function OverloadKey(name: string, scope: seq<string>): string {
    Key(scope + [name])
  }

  function TypeCode(t: LlvmType): string
    decreases t, 0
  {
    match t
    case Missing => "u"
    case Void => "v"
    case Integer(width) =>
      if width == 1 then "b"
      else if width == 8 then "c"
      else if width == 16 then "s"
      else if width == 32 then "i"
      else if width == 64 then "l"
      else "I" + Decimal(width) + "_"
    case Float => "f"
    case Double => "d"
    case Pointer => "p"
    case Array(count, element) => "A" + Decimal(count) + "_" + TypeCode(element)
    case NamedStruct(name) => "S" + LengthPrefixed(name)
    case LiteralStruct(elements) => "S" + TypeCodes(elements) + "E"
    case Unsupported => "u"
  }

  function TypeCodes(ts: seq<LlvmType>): string
    decreases ts
  {
    if ts == [] then "" else TypeCode(ts[0]) + TypeCodes(ts[1..])
  }

  function Suffix(types: seq<LlvmType>): string {
    if types == [] then "" else "_T" + TypeCodes(types) + "E"
  }

  function Encode(s: Symbol): string {
    if s.scope == [] && s.types == [] then s.name
    else "_S" + OverloadKey(s.name, s.scope) + Suffix(s.types)
  }

  // ----------------------------------------------------------- well-formed

  predicate NoDigitFirst(s: string) {
    s == "" || !IsDigit(s[0])
  }

  predicate DigitFree(names: seq<string>) {
    forall name :: name in names ==> NoDigitFirst(name)
  }

  predicate WellFormedType(t: LlvmType)
    decreases t, 0
  {
    match t
    case NamedStruct(name) => NoDigitFirst(name)
    case Array(_, element) => WellFormedType(element)
    case LiteralStruct(elements) => WellFormedTypes(elements)
    case Unsupported => false
    case _ => true
  }

  predicate WellFormedTypes(ts: seq<LlvmType>)
    decreases ts
  {
    ts == [] || (WellFormedType(ts[0]) && WellFormedTypes(ts[1..]))
  }

  // A symbol with no scope and no types keeps its name.
  predicate IsPlain(s: Symbol) {
    s.scope == [] && s.types == []
  }

  predicate WellFormedMangled(s: Symbol) {
    !IsPlain(s) && DigitFree(s.scope + [s.name]) && WellFormedTypes(s.types)
  }

  // A plain name must not read as a mangled one; no other name need start in
  // any particular way.
  predicate WellFormed(s: Symbol) {
    if IsPlain(s) then Decode(s.name).None? else WellFormedMangled(s)
  }

  // ---------------------------------------------------------------- decoding

  datatype Parsed<+T> = Parsed(value: T, rest: string)

  function Value(s: string): int {
    if s == "" then 0 else 10 * Value(s[..|s| - 1]) + (s[|s| - 1] as int - '0' as int)
  }

  // The run of digits a text begins with.
  function Digits(t: string): (d: string)
    ensures d <= t && forall c :: c in d ==> IsDigit(c)
    ensures t != "" && IsDigit(t[0]) ==> d != ""
  {
    if t == "" || !IsDigit(t[0]) then "" else [t[0]] + Digits(t[1..])
  }

  // A length never starts with 0, unless it is 0.
  function LengthDigits(t: string): (d: string)
    requires t != "" && IsDigit(t[0])
    ensures d <= t && d != ""
  {
    if t[0] == '0' then "0" else Digits(t)
  }

  function ParseComponent(t: string): (r: Option<Parsed<string>>)
    requires t != "" && IsDigit(t[0])
    ensures r.Some? ==> |r.value.rest| < |t|
  {
    var d := LengthDigits(t);
    var n, rest := Value(d), t[|d|..];
    if 0 <= n <= |rest| then Some(Parsed(rest[..n], rest[n..])) else None
  }

  function ParseKey(t: string): Parsed<seq<string>>
    decreases |t|
  {
    if t == "" || !IsDigit(t[0]) then Parsed([], t)
    else
      match ParseComponent(t)
      case None => Parsed([], t)
      case Some(first) =>
        var more := ParseKey(first.rest);
        Parsed([first.value] + more.value, more.rest)
  }

  function Count(t: string): (r: Option<Parsed<nat>>)
    ensures r.Some? ==> |r.value.rest| < |t|
  {
    var d := Digits(t);
    if |d| < |t| && t[|d|] == '_' && Value(d) >= 0 then
      var n: nat := Value(d);
      Some(Parsed(n, t[|d| + 1..]))
    else None
  }

  function Simple(c: char): Option<LlvmType> {
    match c
    case 'u' => Some(Missing)
    case 'v' => Some(Void)
    case 'b' => Some(Integer(1))
    case 'c' => Some(Integer(8))
    case 's' => Some(Integer(16))
    case 'i' => Some(Integer(32))
    case 'l' => Some(Integer(64))
    case 'f' => Some(Float)
    case 'd' => Some(Double)
    case 'p' => Some(Pointer)
    case _ => None
  }

  function ParseType(t: string): (r: Option<Parsed<LlvmType>>)
    ensures r.Some? ==> |r.value.rest| < |t|
    decreases |t|, 0
  {
    if t == "" then None
    else if Simple(t[0]).Some? then Some(Parsed(Simple(t[0]).value, t[1..]))
    else if t[0] == 'I' then
      match Count(t[1..])
      case None => None
      case Some(width) => Some(Parsed(Integer(width.value), width.rest))
    else if t[0] == 'A' then
      match Count(t[1..]) {
        case None => None
        case Some(count) =>
          match ParseType(count.rest)
          case None => None
          case Some(element) => Some(Parsed(Array(count.value, element.value), element.rest))
      }
    else if t[0] == 'S' then ParseStruct(t[1..])
    else None
  }

  function ParseStruct(t: string): (r: Option<Parsed<LlvmType>>)
    ensures r.Some? ==> |r.value.rest| < |t|
    decreases |t|, 2
  {
    if t != "" && IsDigit(t[0]) then
      match ParseComponent(t)
      case None => None
      case Some(name) => Some(Parsed(NamedStruct(name.value), name.rest))
    else
      match ParseTypes(t)
      case None => None
      case Some(elements) => Some(Parsed(LiteralStruct(elements.value), elements.rest))
  }

  function ParseTypes(t: string): (r: Option<Parsed<seq<LlvmType>>>)
    ensures r.Some? ==> |r.value.rest| < |t|
    decreases |t|, 1
  {
    if t != "" && t[0] == 'E' then Some(Parsed([], t[1..]))
    else
      match ParseType(t)
      case None => None
      case Some(first) =>
        match ParseTypes(first.rest)
        case None => None
        case Some(more) => Some(Parsed([first.value] + more.value, more.rest))
  }

  function ParseSuffix(t: string): Option<seq<LlvmType>> {
    if t == "" then Some([])
    else if !("_T" <= t) then None
    else
      match ParseTypes(t[2..])
      case None => None
      case Some(types) => if types.rest == "" then Some(types.value) else None
  }

  // The mangled symbol a text stands for, if it is one.
  function Decode(mangled: string): (r: Option<Symbol>)
    ensures r.Some? ==> WellFormedMangled(r.value) && Encode(r.value) == mangled
  {
    if !("_S" <= mangled) then None
    else
      var key := ParseKey(mangled[2..]);
      var types := ParseSuffix(key.rest);
      if key.value == [] || types.None? then None
      else
        var n := |key.value| - 1;
        var s := Symbol(key.value[n], key.value[..n], types.value);
        if WellFormedMangled(s) && Encode(s) == mangled then Some(s) else None
  }

  // --------------------------------------------------- decoding undoes encoding

  lemma {:induction false} ValueOfDecimal(n: nat)
    ensures Value(Decimal(n)) == n
  {
    if n >= 10 {
      var s := Decimal(n);
      assert s[..|s| - 1] == Decimal(n / 10);
      ValueOfDecimal(n / 10);
    } else {
      assert Decimal(n)[..0] == "";
    }
  }

  lemma {:induction false} DigitsOf(d: string, x: string)
    requires (forall c :: c in d ==> IsDigit(c)) && NoDigitFirst(x)
    ensures Digits(d + x) == d && (d + x)[|d|..] == x
  {
    if d == "" {
      assert d + x == x;
    } else {
      assert (d + x)[1..] == d[1..] + x;
      DigitsOf(d[1..], x);
      assert d == [d[0]] + d[1..];
    }
  }

  lemma {:induction false} DecimalHead(n: nat)
    ensures Decimal(n)[0] == '0' <==> n == 0
  {
    if n >= 10 {
      DecimalHead(n / 10);
    }
  }

  lemma ParseComponentOf(a: string, x: string)
    requires NoDigitFirst(a)
    ensures var t := LengthPrefixed(a) + x;
            t != "" && IsDigit(t[0]) && ParseComponent(t) == Some(Parsed(a, x))
  {
    var d := Decimal(|a|);
    var t := LengthPrefixed(a) + x;
    assert t == d + (a + x) && t[0] == d[0];
    DecimalHead(|a|);
    ValueOfDecimal(|a|);
    if a == "" {
      assert Value("0"[..0]) == 0 && t[1..] == x;
    } else {
      DigitsOf(d, a + x);
    }
    assert t[|d|..] == a + x && (a + x)[..|a|] == a && (a + x)[|a|..] == x;
  }

  lemma {:induction false} ParseKeyOf(components: seq<string>, x: string)
    requires DigitFree(components) && NoDigitFirst(x)
    ensures ParseKey(Key(components) + x) == Parsed(components, x)
  {
    KeyStep(components, x);
    hide Key, LengthPrefixed, ParseComponent;
    if components != [] {
      ParseComponentOf(components[0], Key(components[1..]) + x);
      ParseKeyOf(components[1..], x);
      assert components == [components[0]] + components[1..];
    }
  }

  lemma KeyStep(components: seq<string>, x: string)
    ensures Key(components) + x
         == if components == [] then x else LengthPrefixed(components[0]) + (Key(components[1..]) + x)
  {
  }

  lemma CountOf(n: nat, x: string)
    ensures Count(Decimal(n) + ("_" + x)) == Some(Parsed(n, x))
  {
    DigitsOf(Decimal(n), "_" + x);
    ValueOfDecimal(n);
    var t := Decimal(n) + ("_" + x);
    assert t[|Decimal(n)| + 1..] == x;
  }

  lemma ParseSimple(t: LlvmType, x: string)
    requires |TypeCode(t)| == 1 && Simple(TypeCode(t)[0]) == Some(t)
    ensures ParseType(TypeCode(t) + x) == Some(Parsed(t, x))
  {
    hide Simple;
    var c, code := TypeCode(t)[0], TypeCode(t) + x;
    assert code[0] == c && code[1..] == x;
  }

  lemma ParseWide(width: nat, x: string)
    requires width !in {1, 8, 16, 32, 64}
    ensures ParseType(TypeCode(Integer(width)) + x) == Some(Parsed(Integer(width), x))
  {
    var t := Decimal(width) + ("_" + x);
    CountOf(width, x);
    hide Decimal, Count;
    assert TypeCode(Integer(width)) + x == "I" + t;
    assert ("I" + t)[0] == 'I' && ("I" + t)[1..] == t;
  }

  lemma ParseArray(count: nat, element: LlvmType, x: string)
    requires ParseType(TypeCode(element) + x) == Some(Parsed(element, x))
    ensures ParseType(TypeCode(Array(count, element)) + x) == Some(Parsed(Array(count, element), x))
  {
    var rest := TypeCode(element) + x;
    assert TypeCode(Array(count, element)) + x == "A" + (Decimal(count) + ("_" + rest));
    hide TypeCode, ParseType;
    ParseArrayText(count, element, rest, x);
  }

  lemma ParseArrayText(count: nat, element: LlvmType, rest: string, x: string)
    requires ParseType(rest) == Some(Parsed(element, x))
    ensures ParseType("A" + (Decimal(count) + ("_" + rest))) == Some(Parsed(Array(count, element), x))
  {
    CountOf(count, rest);
    hide Decimal, Count;
    var t := Decimal(count) + ("_" + rest);
    assert ("A" + t)[0] == 'A' && ("A" + t)[1..] == t;
  }

  lemma ParseNamed(name: string, x: string)
    requires NoDigitFirst(name)
    ensures ParseType(TypeCode(NamedStruct(name)) + x) == Some(Parsed(NamedStruct(name), x))
  {
    hide LengthPrefixed, ParseComponent, ParseStruct;
    var t := LengthPrefixed(name) + x;
    ParseComponentOf(name, x);
    StructOf(name, x);
    assert TypeCode(NamedStruct(name)) + x == "S" + t;
    assert ("S" + t)[0] == 'S' && ("S" + t)[1..] == t;
  }

  lemma StructOf(name: string, x: string)
    requires NoDigitFirst(name)
    ensures ParseStruct(LengthPrefixed(name) + x) == Some(Parsed(NamedStruct(name), x))
  {
    hide LengthPrefixed, ParseComponent;
    ParseComponentOf(name, x);
  }

  lemma ParseLiteral(elements: seq<LlvmType>, x: string)
    requires ParseTypes(TypeCodes(elements) + ("E" + x)) == Some(Parsed(elements, x))
    ensures ParseType(TypeCode(LiteralStruct(elements)) + x) == Some(Parsed(LiteralStruct(elements), x))
  {
    var t := TypeCodes(elements) + ("E" + x);
    CodesStart(elements, x);
    hide ParseTypes, TypeCodes;
    assert TypeCode(LiteralStruct(elements)) + x == "S" + t;
    assert ("S" + t)[0] == 'S' && ("S" + t)[1..] == t;
  }

  // Parsing a type's code gives the type back and stops behind it, whatever
  // follows.
  lemma {:induction false} ParseTypeOf(t: LlvmType, x: string)
    requires WellFormedType(t)
    ensures ParseType(TypeCode(t) + x) == Some(Parsed(t, x))
    decreases t, 0
  {
    hide ParseType, ParseTypes, Decimal, LengthPrefixed;
    match t
    case Array(count, element) =>
      ParseTypeOf(element, x);
      ParseArray(count, element, x);
    case NamedStruct(name) => ParseNamed(name, x);
    case LiteralStruct(elements) =>
      ParseTypesOf(elements, x);
      ParseLiteral(elements, x);
    case Integer(width) =>
      if width in {1, 8, 16, 32, 64} {
        ParseSimple(t, x);
      } else {
        ParseWide(width, x);
      }
    case Unsupported =>
    case _ => ParseSimple(t, x);
  }

  lemma {:induction false} ParseTypesOf(ts: seq<LlvmType>, x: string)
    requires WellFormedTypes(ts)
    ensures ParseTypes(TypeCodes(ts) + ("E" + x)) == Some(Parsed(ts, x))
    decreases ts
  {
    CodesStart(ts, x);
    var code := TypeCodes(ts) + ("E" + x);
    if ts == [] {
      assert code == "E" + x && code[1..] == x;
    } else {
      var rest := TypeCodes(ts[1..]) + ("E" + x);
      assert code == TypeCode(ts[0]) + rest;
      ParseTypeOf(ts[0], rest);
      ParseTypesOf(ts[1..], x);
      assert ts == [ts[0]] + ts[1..];
    }
  }

  lemma CodesStart(ts: seq<LlvmType>, x: string)
    ensures var code := TypeCodes(ts) + ("E" + x);
            code != "" && !IsDigit(code[0]) && (code[0] == 'E' <==> ts == [])
  {
    if ts != [] {
      CodeStarts(ts[0]);
      assert (TypeCodes(ts) + ("E" + x))[0] == TypeCode(ts[0])[0];
    }
  }

  lemma CodeStarts(t: LlvmType)
    ensures TypeCode(t) != "" && !IsDigit(TypeCode(t)[0]) && TypeCode(t)[0] != 'E'
  {
  }

  lemma ParseSuffixOf(types: seq<LlvmType>)
    requires WellFormedTypes(types)
    ensures NoDigitFirst(Suffix(types)) && ParseSuffix(Suffix(types)) == Some(types)
  {
    if types != [] {
      var rest := TypeCodes(types) + ("E" + "");
      assert Suffix(types) == "_T" + rest;
      assert Suffix(types)[2..] == rest && Suffix(types)[..2] == "_T";
      ParseTypesOf(types, "");
    }
  }

  // The round trip, for every well-formed mangled symbol.
  lemma DecodeOfEncode(s: Symbol)
    requires WellFormedMangled(s)
    ensures Decode(Encode(s)) == Some(s)
  {
    var components := s.scope + [s.name];
    var rest := Key(components) + Suffix(s.types);
    ParseSuffixOf(s.types);
    ParseKeyOf(components, Suffix(s.types));
    hide Key, Suffix, ParseKey, ParseSuffix, WellFormedTypes;
    assert Encode(s) == "_S" + rest;
    assert Encode(s)[2..] == rest && Encode(s)[..2] == "_S";
    assert components[|components| - 1] == s.name && components[..|components| - 1] == s.scope;
  }

  // Without types the mangled name of a symbol is its key, and the beginning of
  // the names of all its variants; those go on with their types.
  lemma VariantsExtend(name: string, scope: seq<string>, types: seq<LlvmType>)
    requires scope != [] && types != []
    ensures var key := Encode(Symbol(name, scope, []));
            Encode(Symbol(name, scope, types)) == key + "_T" + TypeCodes(types) + "E"
  {
    hide OverloadKey, TypeCodes;
    var key, codes := "_S" + OverloadKey(name, scope), TypeCodes(types);
    assert Encode(Symbol(name, scope, [])) == key + Suffix([]) == key;
    assert Suffix(types) == "_T" + codes + "E";
    assert Encode(Symbol(name, scope, types)) == key + Suffix(types);
    assert key + ("_T" + codes + "E") == key + "_T" + codes + "E";
  }

  // Abs on integers and on doubles.
  lemma AbsEncodes()
    ensures Encode(Symbol("Abs", [], [Integer(32), Integer(32)])) == "_S3Abs_TiiE"
    ensures Encode(Symbol("Abs", [], [Double, Double])) == "_S3Abs_TddE"
  {
    assert [] + ["Abs"] == ["Abs"] && LengthPrefixed("Abs") == "3Abs";
    KeyOfOne("Abs");
    TwoCodes(Integer(32));
    TwoCodes(Double);
    assert "i" + "i" == "ii" && "d" + "d" == "dd";
    assert TypeCode(Integer(32)) == "i" && TypeCode(Double) == "d";
    assert OverloadKey("Abs", []) == "3Abs";
    assert Suffix([Integer(32), Integer(32)]) == "_TiiE" && Suffix([Double, Double]) == "_TddE";
  }

  lemma TwoCodes(t: LlvmType)
    ensures TypeCodes([t, t]) == TypeCode(t) + TypeCode(t)
  {
    assert [t, t][1..] == [t] && [t][1..] == [];
    assert TypeCodes([t]) == TypeCode(t) + "" == TypeCode(t);
  }

  // Well-formed symbols with the same mangled name are the same symbol.
  lemma EncodeInjective(a: Symbol, b: Symbol)
    requires WellFormed(a) && WellFormed(b)
    requires Encode(a) == Encode(b)
    ensures a == b
  {
    if !IsPlain(a) {
      DecodeOfEncode(a);
    }
    if !IsPlain(b) {
      DecodeOfEncode(b);
    }
  }

  // A plain name equals some mangled one exactly when it decodes.
  lemma PlainCollidesExactly(name: string)
    ensures (exists s :: WellFormedMangled(s) && Encode(s) == Encode(Symbol(name, [], []))) <==> Decode(name).Some?
    ensures Decode(name).Some? ==> "_S" <= name
  {
    forall s | WellFormedMangled(s) && Encode(s) == name
      ensures Decode(name) == Some(s)
    {
      DecodeOfEncode(s);
    }
  }

  // A key and what follows it determine the components.
  lemma KeyUnique(a: seq<string>, b: seq<string>, x: string, y: string)
    requires DigitFree(a) && DigitFree(b) && NoDigitFirst(x) && NoDigitFirst(y)
    requires Key(a) + x == Key(b) + y
    ensures a == b && x == y
  {
    ParseKeyOf(a, x);
    ParseKeyOf(b, y);
  }

  // A code is never the beginning of another: what follows it is determined.
  lemma TypeCodeUnique(t: LlvmType, u: LlvmType, x: string, y: string)
    requires WellFormedType(t) && WellFormedType(u)
    requires TypeCode(t) + x == TypeCode(u) + y
    ensures t == u && x == y
  {
    ParseTypeOf(t, x);
    ParseTypeOf(u, y);
  }

  // ------------------------------------------------- the conditions are exact

  // A symbol shares its mangled name with no other exactly when the name does
  // not decode to another symbol.
  lemma SymbolUniqueExactly(s: Symbol)
    ensures (forall o :: WellFormedMangled(o) && Encode(o) == Encode(s) ==> o == s)
            <==> Decode(Encode(s)).None? || Decode(Encode(s)) == Some(s)
  {
    forall o | WellFormedMangled(o) && Encode(o) == Encode(s)
      ensures Decode(Encode(s)) == Some(o)
    {
      DecodeOfEncode(o);
    }
  }

  // The component is the outermost scope; all else is well-formed.
  predicate Inside(s: Symbol, component: string) {
    && s.scope != [] && s.scope[0] == component
    && DigitFree(s.scope[1..] + [s.name]) && WellFormedTypes(s.types)
  }

  // What lies inside a scope is told apart from everything else exactly if the
  // scope's name starts with no digit: otherwise its length and its leading
  // digits read as a longer length.
  lemma ComponentUniqueExactly(component: string)
    ensures (forall s, o :: Inside(s, component) && WellFormed(o) && Encode(s) == Encode(o) ==> s == o)
            <==> NoDigitFirst(component)
  {
    hide *;
    if NoDigitFirst(component) {
      forall s, o | Inside(s, component) && WellFormed(o) && Encode(s) == Encode(o)
        ensures s == o
      {
        InsideIsWellFormed(s, component);
        EncodeInjective(s, o);
      }
    } else {
      var s, o := DigitFirstCollides(component);
    }
  }

  lemma InsideIsWellFormed(s: Symbol, component: string)
    requires Inside(s, component) && NoDigitFirst(component)
    ensures WellFormed(s)
  {
    assert s.scope + [s.name] == [component] + (s.scope[1..] + [s.name]);
  }

  // The other reading: one name that takes what is left of the component and
  // the components after it.
  lemma DigitFirstCollides(component: string) returns (s: Symbol, o: Symbol)
    requires !NoDigitFirst(component)
    ensures Inside(s, component) && WellFormed(o) && s != o && Encode(s) == Encode(o)
  {
    hide *;
    var before, d, rest := Leading(component);
    LongerLength(component, d);
    var n := Value(Decimal(|component|) + d);
    var more := Filler(n - |rest|);
    KeyAppend(before, more);
    Rereads(Decimal(|component|) + d, rest, Key(more));
    s, o := Last(before + more), Symbol(rest + Key(more), [], [Void]);
    LastOf(before, more);
    SameKey(s, o);
  }

  lemma Rereads(digits: string, rest: string, x: string)
    requires Decimal(|rest + x|) == digits && rest != "" && NoDigitFirst(rest)
    ensures digits + rest + x == LengthPrefixed(rest + x)
    ensures WellFormed(Symbol(rest + x, [], [Void]))
  {
    var name := rest + x;
    assert digits + rest + x == digits + (rest + x);
    assert name[0] == rest[0] && [] + [name] == [name];
  }

  lemma LastOf(before: seq<string>, more: seq<string>)
    requires before != [] && more != [] && DigitFree(before[1..]) && DigitFree(more)
    ensures var s := Last(before + more);
            Inside(s, before[0]) && s.scope + [s.name] == before + more && s.types == [Void]
  {
    var s := Last(before + more);
    assert s.scope + [s.name] == before + more;
    assert s.scope[1..] + [s.name] == (before + more)[1..] == before[1..] + more;
  }

  function Last(components: seq<string>): Symbol
    requires |components| >= 2
  {
    Symbol(components[|components| - 1], components[..|components| - 1], [Void])
  }

  lemma SameKey(s: Symbol, o: Symbol)
    requires Key(s.scope + [s.name]) == LengthPrefixed(o.name) && o.scope == []
    requires s.types == o.types == [Void]
    ensures Encode(s) == Encode(o)
  {
    assert [] + [o.name] == [o.name] && [o.name][1..] == [];
    assert Key([o.name]) == LengthPrefixed(o.name) + Key([]) == LengthPrefixed(o.name);
  }

  // A length read on into the digits that follow it.
  lemma Leading(component: string) returns (before: seq<string>, d: string, rest: string)
    requires !NoDigitFirst(component)
    ensures before != [] && before[0] == component && DigitFree(before[1..])
    ensures Key(before) == Decimal(|component|) + d + rest
    ensures d != "" && forall c :: c in d ==> IsDigit(c)
    ensures rest != "" && NoDigitFirst(rest) && |rest| <= |component|
  {
    d := Digits(component);
    rest := component[|d|..];
    before := [component];
    DigitsEnd(component);
    assert component == d + rest;
    KeyAppend([component], []);
    KeyOfOne(component);
    if rest == "" {
      KeyAppend([component], ["x"]);
      KeyOfOne("x");
      before, d, rest := [component] + ["x"], d + "1", "x";
    }
  }

  lemma KeyOfOne(component: string)
    ensures Key([component]) == LengthPrefixed(component)
    ensures Key(["x"]) == "1x" && Key(["xx"]) == "2xx"
  {
    assert [component][1..] == [] && ["x"][1..] == [] && ["xx"][1..] == [];
    assert LengthPrefixed("x") == "1x" && LengthPrefixed("xx") == "2xx";
  }

  lemma {:induction false} KeyAppend(a: seq<string>, b: seq<string>)
    ensures Key(a + b) == Key(a) + Key(b)
  {
    if a == [] {
      assert a + b == b;
    } else {
      assert (a + b)[1..] == a[1..] + b;
      KeyAppend(a[1..], b);
    }
  }

  // Components that fill any text of at least two characters.
  function Filler(total: nat): (names: seq<string>)
    requires total >= 2
    ensures names != [] && DigitFree(names) && |Key(names)| == total
  {
    if total == 2 then KeyOfOne("x"); ["x"]
    else if total == 3 then KeyOfOne("x"); ["xx"]
    else
      KeyOfOne("x");
      KeyAppend(["x"], Filler(total - 2));
      ["x"] + Filler(total - 2)
  }

  lemma LongerLength(component: string, d: string)
    requires component != "" && d != "" && forall c :: c in d ==> IsDigit(c)
    ensures var length := Decimal(|component|);
            Value(length + d) >= 10 * |component| && Decimal(Value(length + d)) == length + d
  {
    var length := Decimal(|component|);
    DecimalHead(|component|);
    ValueOfDecimal(|component|);
    hide Decimal, Value;
    ValueGrows(length, d);
    DecimalOfValue(length + d);
  }

  // A scope "1a" before a name of 18 characters reads as one name of 21.
  lemma OneACollides(name: string)
    requires |name| == 18 && name[0] == 'n'
    ensures Encode(Symbol(name, ["1a"], [Void])) == Encode(Symbol("a18" + name, [], [Void]))
    ensures WellFormed(Symbol("a18" + name, [], [Void]))
  {
    var one := "a18" + name;
    assert Decimal(2) == "2" && Decimal(18) == "18" && Decimal(21) == "21";
    KeyAppend(["1a"], [name]);
    KeyOfOne("1a");
    KeyOfOne(name);
    assert Key(["1a"] + [name]) == "21a" + ("18" + name) == "21" + one == LengthPrefixed(one);
    SameKey(Symbol(name, ["1a"], [Void]), Symbol(one, [], [Void]));
    assert [] + [one] == [one];
  }

  lemma {:induction false} DigitsEnd(t: string)
    ensures NoDigitFirst(t[|Digits(t)|..])
  {
    if t != "" && IsDigit(t[0]) {
      DigitsEnd(t[1..]);
      assert t[1..][|Digits(t[1..])|..] == t[|Digits(t)|..];
    }
  }

  // Every digit appended multiplies the value by ten.
  lemma {:induction false} ValueGrows(a: string, d: string)
    requires (forall c :: c in d ==> IsDigit(c)) && Value(a) >= 0
    ensures Value(a + d) >= if d == "" then Value(a) else 10 * Value(a)
  {
    if d == "" {
      assert a + d == a;
    } else {
      var n := |d| - 1;
      ValueGrows(a, d[..n]);
      assert (a + d)[..|a + d| - 1] == a + d[..n];
      assert d[n] in d;
    }
  }

  lemma {:induction false} DecimalOfValue(d: string)
    requires d != "" && d[0] != '0' && forall c :: c in d ==> IsDigit(c)
    ensures Value(d) > 0 && Decimal(Value(d)) == d
  {
    var n := |d| - 1;
    assert d == d[..n] + [d[n]] && d[n] in d;
    DigitOfChar(d[n]);
    hide Digit;
    var q, r := Value(d[..n]), d[n] as int - '0' as int;
    assert Value(d) == 10 * q + r;
    if n == 0 {
      OneDigit(d[n]);
      assert d[..0] == "" && Value(d[..0]) == 0;
    } else {
      DecimalOfValue(d[..n]);
      hide Value, Decimal;
      AppendDigit(q, r);
    }
  }

  lemma OneDigit(c: char)
    requires IsDigit(c)
    ensures Decimal(c as int - '0' as int) == [c]
  {
  }

  lemma AppendDigit(q: nat, r: nat)
    requires q > 0 && r < 10
    ensures Decimal(10 * q + r) == Decimal(q) + [Digit(r)]
  {
    assert (10 * q + r) / 10 == q && (10 * q + r) % 10 == r;
  }

  lemma DigitOfChar(c: char)
    requires IsDigit(c)
    ensures Digit(c as int - '0' as int) == c
  {
  }

  // The type with every unsupported type replaced by the missing one.
  function Supported(t: LlvmType): LlvmType
    decreases t, 0
  {
    match t
    case Unsupported => Missing
    case Array(count, element) => Array(count, Supported(element))
    case LiteralStruct(elements) => LiteralStruct(AllSupported(elements))
    case _ => t
  }

  function AllSupported(ts: seq<LlvmType>): seq<LlvmType>
    decreases ts
  {
    if ts == [] then [] else [Supported(ts[0])] + AllSupported(ts[1..])
  }

  predicate NamesDigitFree(t: LlvmType)
    decreases t, 0
  {
    match t
    case NamedStruct(name) => NoDigitFirst(name)
    case Array(_, element) => NamesDigitFree(element)
    case LiteralStruct(elements) => AllNamesDigitFree(elements)
    case _ => true
  }

  predicate AllNamesDigitFree(ts: seq<LlvmType>)
    decreases ts
  {
    ts == [] || (NamesDigitFree(ts[0]) && AllNamesDigitFree(ts[1..]))
  }

  lemma {:induction false} SupportedSharesCode(t: LlvmType)
    requires NamesDigitFree(t)
    ensures TypeCode(Supported(t)) == TypeCode(t) && WellFormedType(Supported(t))
    ensures Supported(t) == t <==> WellFormedType(t)
    decreases t, 0
  {
    match t
    case Array(_, element) => SupportedSharesCode(element);
    case LiteralStruct(elements) => SupportedShareCodes(elements);
    case _ =>
  }

  lemma {:induction false} SupportedShareCodes(ts: seq<LlvmType>)
    requires AllNamesDigitFree(ts)
    ensures TypeCodes(AllSupported(ts)) == TypeCodes(ts) && WellFormedTypes(AllSupported(ts))
    ensures AllSupported(ts) == ts <==> WellFormedTypes(ts)
    decreases ts
  {
    if ts != [] {
      SupportedSharesCode(ts[0]);
      SupportedShareCodes(ts[1..]);
      assert ts == [ts[0]] + ts[1..];
    }
  }

  // A symbol's types are told apart from all others exactly when none of them
  // has the fallback code.
  lemma TypesUniqueExactly(s: Symbol)
    requires !IsPlain(s) && DigitFree(s.scope + [s.name]) && AllNamesDigitFree(s.types)
    ensures (forall other :: WellFormedMangled(other) && Encode(other) == Encode(s) ==> other == s)
            <==> WellFormedTypes(s.types)
  {
    var other := s.(types := AllSupported(s.types));
    SupportedShareCodes(s.types);
    assert Encode(other) == Encode(s) && WellFormedMangled(other);
    forall o | WellFormedMangled(o) && Encode(o) == Encode(s)
      ensures o == other
    {
      DecodeOfEncode(o);
      DecodeOfEncode(other);
    }
  }

  // ----------------------------------------------------------- the registry

  // The symbols sharing a key, in registration order.
  function WithKey(registered: seq<Symbol>, key: string): seq<Symbol> {
    if registered == [] then []
    else
      var n := |registered| - 1;
      WithKey(registered[..n], key)
      + if OverloadKey(registered[n].name, registered[n].scope) == key then [registered[n]] else []
  }

  function Named(registered: seq<Symbol>, name: string, scope: seq<string>): seq<Symbol> {
    if registered == [] then []
    else
      var n := |registered| - 1;
      Named(registered[..n], name, scope)
      + if registered[n].name == name && registered[n].scope == scope then [registered[n]] else []
  }

  function Names(symbols: seq<Symbol>): (names: seq<string>)
    ensures |names| == |symbols|
  {
    if symbols == [] then [] else Names(symbols[..|symbols| - 1]) + [Encode(symbols[|symbols| - 1])]
  }

  ghost predicate AllWellFormed(symbols: seq<Symbol>) {
    forall s :: s in symbols ==> WellFormed(s)
  }

  // The overload map lists, for each key, the mangled names registered for it.
  ghost predicate Indexed(overloads: map<string, seq<string>>, registered: seq<Symbol>) {
    forall key :: VariantsIn(overloads, key) == Names(WithKey(registered, key))
  }

  function VariantsIn(overloads: map<string, seq<string>>, key: string): seq<string> {
    if key in overloads then overloads[key] else []
  }

  class NameMangler {
    var symbols: map<string, Symbol>
    var overloads: map<string, seq<string>>
    ghost var registered: seq<Symbol> // each mangled name's first symbol, oldest first

    ghost predicate Valid()
      reads this
    {
      && (forall s :: s in registered ==> Encode(s) in symbols && symbols[Encode(s)] == s)
      && (forall n :: n in symbols ==> symbols[n] in registered && Encode(symbols[n]) == n)
      && (forall i, j :: 0 <= i < j < |registered| ==> registered[i] != registered[j])
      && Indexed(overloads, registered)
    }

    constructor ()
      ensures Valid() && registered == []
    {
      symbols, overloads, registered := map[], map[], [];
    }

    method Mangle(name: string, scope: seq<string>, types: seq<LlvmType>) returns (mangled: string)
      requires Valid()
      modifies this
      ensures Valid()
      ensures mangled == Encode(Symbol(name, scope, types)) && mangled in symbols
      ensures registered == if mangled in old(symbols) then old(registered)
                            else old(registered) + [Symbol(name, scope, types)]
      // Resolving the result gives the symbol back.
      ensures AllWellFormed(registered) && WellFormed(Symbol(name, scope, types)) ==>
                symbols[mangled] == Symbol(name, scope, types)
    {
      var symbol := Symbol(name, scope, types);
      mangled := Encode(symbol);
      if mangled !in symbols {
        symbols := symbols[mangled := symbol];
        var key := OverloadKey(name, scope);
        RegisterOne(overloads, registered, symbol);
        overloads := overloads[key := VariantsIn(overloads, key) + [mangled]];
        registered := registered + [symbol];
      } else if AllWellFormed(registered) && WellFormed(symbol) {
        EncodeInjective(symbols[mangled], symbol);
      }
    }

    method Lookup(name: string, scope: seq<string>, types: seq<LlvmType>) returns (mangled: Option<string>)
      requires Valid()
      ensures mangled.Some? <==> Encode(Symbol(name, scope, types)) in symbols
      ensures mangled.Some? ==> mangled.value == Encode(Symbol(name, scope, types))
      ensures AllWellFormed(registered) && WellFormed(Symbol(name, scope, types)) ==>
                (mangled.Some? <==> Symbol(name, scope, types) in registered)
    {
      var encoded := Encode(Symbol(name, scope, types));
      if AllWellFormed(registered) && WellFormed(Symbol(name, scope, types)) && encoded in symbols {
        EncodeInjective(symbols[encoded], Symbol(name, scope, types));
      }
      mangled := if encoded in symbols then Some(encoded) else None;
    }

    method Resolve(mangled: string) returns (symbol: Option<Symbol>)
      requires Valid()
      ensures symbol.Some? ==> symbol.value in registered && Encode(symbol.value) == mangled
      ensures symbol.None? ==> forall s :: s in registered ==> Encode(s) != mangled
    {
      symbol := if mangled in symbols then Some(symbols[mangled]) else None;
    }

    // All variants registered for a name in a scope, in registration order.
    method Overloads(name: string, scope: seq<string>) returns (variants: seq<Symbol>)
      requires Valid()
      ensures variants == WithKey(registered, OverloadKey(name, scope))
      ensures (forall s :: s in registered ==> DigitFree(s.scope + [s.name])) && DigitFree(scope + [name]) ==>
                variants == Named(registered, name, scope)
    {
      var names := VariantsIn(overloads, OverloadKey(name, scope));
      hide Encode, OverloadKey, Decode, WellFormedMangled, Named;
      ghost var expected := WithKey(registered, OverloadKey(name, scope));
      WithKeyIn(registered, OverloadKey(name, scope));
      NamesAt(expected);
      variants := [];
      for i := 0 to |names|
        invariant variants == expected[..i]
      {
        assert names[i] == Encode(expected[i]);
        variants := variants + [symbols[names[i]]];
      }
      if (forall s :: s in registered ==> DigitFree(s.scope + [s.name])) && DigitFree(scope + [name]) {
        KeyTellsNames(registered, name, scope);
      }
    }

    method ResolveUnique(name: string, scope: seq<string>) returns (mangled: Option<string>)
      requires Valid()
      ensures mangled.Some? <==> |WithKey(registered, OverloadKey(name, scope))| == 1
      ensures mangled.Some? ==> mangled.value == Encode(WithKey(registered, OverloadKey(name, scope))[0])
    {
      var variants := Overloads(name, scope);
      mangled := if |variants| == 1 then Some(Encode(variants[0])) else None;
    }

    method Clear()
      modifies this
      ensures Valid() && registered == []
    {
      symbols, overloads, registered := map[], map[], [];
    }
  }

  lemma RegisterOne(overloads: map<string, seq<string>>, registered: seq<Symbol>, symbol: Symbol)
    requires Indexed(overloads, registered)
    ensures var key := OverloadKey(symbol.name, symbol.scope);
            Indexed(overloads[key := VariantsIn(overloads, key) + [Encode(symbol)]], registered + [symbol])
  {
    hide OverloadKey, Encode;
    var own := OverloadKey(symbol.name, symbol.scope);
    var overloads' := overloads[own := VariantsIn(overloads, own) + [Encode(symbol)]];
    assert (registered + [symbol])[..|registered|] == registered;
    forall key
      ensures VariantsIn(overloads', key) == Names(WithKey(registered + [symbol], key))
    {
      var before := WithKey(registered, key);
      assert (before + [symbol])[..|before|] == before;
      assert before + [] == before;
    }
  }

  lemma {:induction false} WithKeyIn(registered: seq<Symbol>, key: string)
    ensures forall s :: s in WithKey(registered, key) ==> s in registered
  {
    if registered != [] {
      WithKeyIn(registered[..|registered| - 1], key);
    }
  }

  lemma {:induction false} NamesAt(symbols: seq<Symbol>)
    ensures forall i :: 0 <= i < |symbols| ==> Names(symbols)[i] == Encode(symbols[i])
  {
    if symbols != [] {
      NamesAt(symbols[..|symbols| - 1]);
    }
  }

  // Symbols whose components start with no digit share a key only if they
  // share name and scope.
  lemma {:induction false} KeyTellsNames(registered: seq<Symbol>, name: string, scope: seq<string>)
    requires (forall s :: s in registered ==> DigitFree(s.scope + [s.name])) && DigitFree(scope + [name])
    ensures WithKey(registered, OverloadKey(name, scope)) == Named(registered, name, scope)
  {
    if registered != [] {
      var s := registered[|registered| - 1];
      KeyTellsNames(registered[..|registered| - 1], name, scope);
      if OverloadKey(s.name, s.scope) == OverloadKey(name, scope) {
        var a, b := s.scope + [s.name], scope + [name];
        assert Key(a) + "" == Key(a) && Key(b) + "" == Key(b);
        KeyUnique(a, b, "", "");
        assert a[..|a| - 1] == s.scope && b[..|b| - 1] == scope;
      }
    }
  }
}
