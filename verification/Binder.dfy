// Compiling a statement into literal and slot parts, and rendering it for a dialect.

module Dialects {
  import opened Numerals

  // What the rest of the library uses of a dialect. `numbered` selects "$n"
  // placeholders, otherwise every placeholder is "?".
  datatype Dialect = Dialect(
    name: string,
    numbered: bool,
    quote: char,
    returning: bool,
    savepoints: bool,
    maxPlaceholders: int)

  // The placeholder of the n-th bind parameter, counting from 1.
  function Placeholder(d: Dialect, n: nat): string {
    if d.numbered then "$" + Decimal(n) else "?"
  }

  // A bound argument: NULL, a scalar (strings, byte slices and self-marshalling
  // types included), or a slice whose elements a query expands.
  datatype Value = Null | Scalar(id: int) | List(elems: seq<Value>)
}

module Binder {
  import opened Wrappers
  import opened Scanner
  import opened Dialects

  datatype BindError =
    | MixedNamedNumbered
    | MixedOrdinalNumbered
    | UnexpectedNames
    | MissingNames
    | UnexpectedPositions(given: nat)
    | WrongCount(slots: nat, given: nat)
    | UnknownName(name: string)

  datatype Style = NoParams | NamedStyle | OrdinalStyle | NumberedStyle

  datatype Part = Literal(text: string) | NamedSlot(name: string) | OrdinalSlot(pos: nat)

  datatype Plan = Plan(style: Style, parts: seq<Part>, names: seq<string>, nslots: nat, size: nat)

  // Named arguments, when the caller supplied any.
  type Source = Option<map<string, Value>>

  // ----- compiling

  predicate Has(toks: seq<Token>, kind: Kind) {
    exists t :: t in toks && t.kind == kind
  }

  function StyleOf(toks: seq<Token>): Result<Style, BindError> {
    if Has(toks, Named) && Has(toks, Numbered) then Err(MixedNamedNumbered)
    else if Has(toks, Ordinal) && Has(toks, Numbered) then Err(MixedOrdinalNumbered)
    else if Has(toks, Named) then Ok(NamedStyle)
    else if Has(toks, Ordinal) then Ok(OrdinalStyle)
    else if Has(toks, Numbered) then Ok(NumberedStyle)
    else Ok(NoParams)
  }

  predicate IsSlot(t: Token, style: Style) {
    t.kind.Named? || (t.kind.Ordinal? && !style.NamedStyle?)
  }

  // What a token that is not a slot contributes to the rendered text.
  function Verbatim(s: string, t: Token): string {
    if t.kind.EscapedQ? || t.kind.Ordinal? then "?"
    else if t.lo <= t.hi <= |s| then s[t.lo..t.hi]
    else ""
  }

  function SlotPart(t: Token, n: nat): Part {
    if t.kind.Named? then NamedSlot(t.name) else OrdinalSlot(n)
  }

  function FlushLiteral(lit: string): seq<Part> {
    if lit == "" then [] else [Literal(lit)]
  }

  // The parts of toks, when the literal lit is pending and n slots precede them.
  function PartsOf(s: string, toks: seq<Token>, style: Style, lit: string, n: nat): seq<Part> {
    if toks == [] then FlushLiteral(lit)
    else if IsSlot(toks[0], style) then
      FlushLiteral(lit) + [SlotPart(toks[0], n)] + PartsOf(s, toks[1..], style, "", n + 1)
    else PartsOf(s, toks[1..], style, lit + Verbatim(s, toks[0]), n)
  }

  function SlotsOf(toks: seq<Token>, style: Style): seq<Token> {
    if toks == [] then []
    else (if IsSlot(toks[0], style) then [toks[0]] else []) + SlotsOf(toks[1..], style)
  }

  // Distinct names, in order of first appearance, given the ones already listed.
  function NamesOf(toks: seq<Token>, names: seq<string>): seq<string> {
    if toks == [] then names
    else NamesOf(toks[1..], if toks[0].kind.Named? && toks[0].name !in names then names + [toks[0].name] else names)
  }

  function LiteralSize(parts: seq<Part>): nat {
    if parts == [] then 0
    else (if parts[0].Literal? then |parts[0].text| else 0) + LiteralSize(parts[1..])
  }

  function PlanOf(s: string): Result<Plan, BindError> {
    var toks := Tokens(s, 0);
    match StyleOf(toks)
    case Err(e) => Err(e)
    case Ok(style) =>
      var parts := PartsOf(s, toks, style, "", 0);
      Ok(Plan(style, parts, NamesOf(toks, []), |SlotsOf(toks, style)|, LiteralSize(parts)))
  }

  lemma LiteralSizeAppend(a: seq<Part>, b: seq<Part>)
    ensures LiteralSize(a + b) == LiteralSize(a) + LiteralSize(b)
  {
    if a == [] {
      assert a + b == b;
    } else {
      assert (a + b)[1..] == a[1..] + b;
      LiteralSizeAppend(a[1..], b);
    }
  }

  method FlushLit(parts0: seq<Part>, lit: string, size0: nat) returns (parts: seq<Part>, size: nat)
    requires size0 == LiteralSize(parts0)
    ensures parts == parts0 + FlushLiteral(lit)
    ensures size == LiteralSize(parts)
  {
    parts, size := parts0, size0;
    if |lit| > 0 {
      LiteralSizeAppend(parts, [Literal(lit)]);
      parts := parts + [Literal(lit)];
      size := size + |lit|;
    }
  }

  method InferStyle(toks: seq<Token>) returns (r: Result<Style, BindError>)
    ensures r == StyleOf(toks)
  {
    var hasNamed, hasOrdinal, hasNumbered := false, false, false;
    for k := 0 to |toks|
      invariant hasNamed == Has(toks[..k], Named)
      invariant hasOrdinal == Has(toks[..k], Ordinal)
      invariant hasNumbered == Has(toks[..k], Numbered)
    {
      assert toks[..k + 1] == toks[..k] + [toks[k]];
      match toks[k].kind {
        case Named => hasNamed := true;
        case Ordinal => hasOrdinal := true;
        case Numbered => hasNumbered := true;
        case _ =>
      }
    }
    assert toks[..|toks|] == toks;
    if hasNamed && hasNumbered { return Err(MixedNamedNumbered); }
    if hasOrdinal && hasNumbered { return Err(MixedOrdinalNumbered); }
    if hasNamed { return Ok(NamedStyle); }
    if hasOrdinal { return Ok(OrdinalStyle); }
    if hasNumbered { return Ok(NumberedStyle); }
    return Ok(NoParams);
  }

  // flushLit, then the slot itself.
  method AppendSlot(parts0: seq<Part>, lit: string, size0: nat, slot: Part) returns (parts: seq<Part>, size: nat)
    requires size0 == LiteralSize(parts0) && !slot.Literal?
    ensures parts == parts0 + FlushLiteral(lit) + [slot]
    ensures size == LiteralSize(parts)
  {
    parts, size := FlushLit(parts0, lit, size0);
    LiteralSizeAppend(parts, [slot]);
    parts := parts + [slot];
  }

  // What is still to be compiled, when the loop below has reached toks[k].
  ghost predicate Compiling(s: string, toks: seq<Token>, style: Style, k: nat,
                            parts: seq<Part>, lit: string, names: seq<string>, nslots: nat)
    requires k <= |toks|
  {
    && parts + PartsOf(s, toks[k..], style, lit, nslots) == PartsOf(s, toks, style, "", 0)
    && NamesOf(toks[k..], names) == NamesOf(toks, [])
    && nslots + |SlotsOf(toks[k..], style)| == |SlotsOf(toks, style)|
  }

  lemma CompilingSlot(s: string, toks: seq<Token>, style: Style, k: nat,
                      parts: seq<Part>, lit: string, names: seq<string>, nslots: nat)
    requires k < |toks| && IsSlot(toks[k], style)
    requires Compiling(s, toks, style, k, parts, lit, names, nslots)
    ensures var t := toks[k];
            Compiling(s, toks, style, k + 1, parts + FlushLiteral(lit) + [SlotPart(t, nslots)], "",
                      if t.kind.Named? && t.name !in names then names + [t.name] else names, nslots + 1)
  {
    assert toks[k..][1..] == toks[k + 1..];
  }

  lemma CompilingVerbatim(s: string, toks: seq<Token>, style: Style, k: nat,
                          parts: seq<Part>, lit: string, names: seq<string>, nslots: nat)
    requires k < |toks| && !IsSlot(toks[k], style)
    requires Compiling(s, toks, style, k, parts, lit, names, nslots)
    ensures Compiling(s, toks, style, k + 1, parts, lit + Verbatim(s, toks[k]), names, nslots)
  {
    assert toks[k..][1..] == toks[k + 1..];
  }

  lemma CompilingBegins(s: string, toks: seq<Token>, style: Style)
    ensures Compiling(s, toks, style, 0, [], "", [], 0)
  {
    assert toks[0..] == toks;
  }

  lemma CompilingEnds(s: string, toks: seq<Token>, style: Style,
                      parts: seq<Part>, lit: string, names: seq<string>, nslots: nat)
    requires Compiling(s, toks, style, |toks|, parts, lit, names, nslots)
    ensures parts + FlushLiteral(lit) == PartsOf(s, toks, style, "", 0)
    ensures names == NamesOf(toks, []) && nslots == |SlotsOf(toks, style)|
  {
    assert toks[|toks|..] == [];
  }

  method Compile(sql: string) returns (r: Result<Plan, BindError>)
    ensures r == PlanOf(sql)
  {
    hide Tokens, LexemeAt, PartsOf, NamesOf, SlotsOf, Compiling, StyleOf;
    var toks := Lex(sql);
    var inferred := InferStyle(toks);
    if inferred.Err? {
      return Err(inferred.error);
    }
    var style := inferred.value;
    var parts: seq<Part>, size: nat := [], 0;
    var names: seq<string>, nslots: nat, lit := [], 0, "";
    CompilingBegins(sql, toks, style);
    TokensTile(sql, 0);
    for k := 0 to |toks|
      invariant Compiling(sql, toks, style, k, parts, lit, names, nslots)
      invariant size == LiteralSize(parts)
    {
      var t := toks[k];
      TilesBound(toks, 0, |sql|, k);
      if IsSlot(t, style) {
        CompilingSlot(sql, toks, style, k, parts, lit, names, nslots);
      } else {
        CompilingVerbatim(sql, toks, style, k, parts, lit, names, nslots);
      }
      match t.kind {
        case Text =>
          lit := lit + sql[t.lo..t.hi];
        case EscapedQ =>
          lit := lit + "?";
        case Numbered =>
          lit := lit + sql[t.lo..t.hi];
        case Named =>
          parts, size := AppendSlot(parts, lit, size, NamedSlot(t.name));
          lit := "";
          if t.name !in names {
            names := names + [t.name];
          }
          nslots := nslots + 1;
        case Ordinal =>
          if style == NamedStyle {
            lit := lit + "?";
          } else {
            parts, size := AppendSlot(parts, lit, size, OrdinalSlot(nslots));
            lit := "";
            nslots := nslots + 1;
          }
      }
    }
    CompilingEnds(sql, toks, style, parts, lit, names, nslots);
    parts, size := FlushLit(parts, lit, size);
    return Ok(Plan(style, parts, names, nslots, size));
  }

  lemma {:induction false} TilesBound(toks: seq<Token>, i: nat, end: nat, k: nat)
    requires Tiles(toks, i, end) && k < |toks|
    ensures i <= toks[k].lo < toks[k].hi <= end
  {
    if k > 0 {
      TilesBound(toks[1..], toks[0].hi, end, k - 1);
    } else {
      TilesOrdered(toks[1..], toks[0].hi, end);
    }
  }

  lemma {:induction false} TilesOrdered(toks: seq<Token>, i: nat, end: nat)
    requires Tiles(toks, i, end)
    ensures i <= end
  {
    if toks != [] {
      TilesOrdered(toks[1..], toks[0].hi, end);
    }
  }

  // ----- rendering

  // What a bound value contributes to the argument list.
  function Expansion(v: Value): seq<Value> {
    if v.List? then v.elems else [v]
  }

  // The placeholders of count > 0 arguments, when n arguments precede them.
  function PlaceholderList(d: Dialect, n: nat, count: nat): string
    requires count > 0
  {
    if count == 1 then Placeholder(d, n + 1)
    else PlaceholderList(d, n, count - 1) + "," + Placeholder(d, n + count)
  }

  function SlotText(d: Dialect, v: Value, n: nat): string {
    if Expansion(v) == [] then "NULL" else PlaceholderList(d, n, |Expansion(v)|)
  }

  datatype Rendered = Rendered(text: string, args: seq<Value>)

  function SlotValue(p: Part, src: Source, pos: seq<Value>): Result<Value, BindError>
    requires !p.Literal?
  {
    if p.NamedSlot? then
      if src.Some? && p.name in src.value then Ok(src.value[p.name]) else Err(UnknownName(p.name))
    else if p.pos < |pos| then Ok(pos[p.pos])
    else Err(WrongCount(p.pos + 1, |pos|))
  }

  // A finished prefix, followed by what the remaining parts render to.
  function After(r: Result<Rendered, BindError>, text: string, args: seq<Value>): Result<Rendered, BindError> {
    match r
    case Err(e) => Err(e)
    case Ok(rest) => Ok(Rendered(text + rest.text, args + rest.args))
  }

  lemma AfterAfter(r: Result<Rendered, BindError>, text: string, args: seq<Value>, more: string, moreArgs: seq<Value>)
    ensures After(After(r, more, moreArgs), text, args) == After(r, text + more, args + moreArgs)
    ensures After(r, "", []) == r
  {
    if r.Ok? {
      assert text + (more + r.value.text) == text + more + r.value.text;
      assert args + (moreArgs + r.value.args) == args + moreArgs + r.value.args;
      assert "" + r.value.text == r.value.text;
      assert [] + r.value.args == r.value.args;
    }
  }

  function RenderParts(
    d: Dialect, parts: seq<Part>, src: Source, pos: seq<Value>, n: nat): Result<Rendered, BindError>
  {
    if parts == [] then Ok(Rendered("", []))
    else if parts[0].Literal? then After(RenderParts(d, parts[1..], src, pos, n), parts[0].text, [])
    else
      match SlotValue(parts[0], src, pos)
      case Err(e) => Err(e)
      case Ok(v) => After(RenderParts(d, parts[1..], src, pos, n + |Expansion(v)|), SlotText(d, v, n), Expansion(v))
  }

  // Whether the arguments have the shape the style asks for.
  function ShapeError(p: Plan, src: Source, pos: seq<Value>): Option<BindError> {
    match p.style
    case NoParams => if src.Some? then Some(UnexpectedNames) else None
    case NumberedStyle => if src.Some? then Some(UnexpectedNames) else None
    case NamedStyle =>
      if src.None? then Some(MissingNames)
      else if |pos| > 0 then Some(UnexpectedPositions(|pos|)) else None
    case OrdinalStyle =>
      if src.Some? then Some(UnexpectedNames)
      else if |pos| != p.nslots then Some(WrongCount(p.nslots, |pos|)) else None
  }

  function RenderPlan(p: Plan, d: Dialect, src: Source, pos: seq<Value>): Result<Rendered, BindError> {
    match ShapeError(p, src, pos)
    case Some(e) => Err(e)
    case None =>
      if p.style.NoParams? || p.style.NumberedStyle? then Ok(Rendered(LiteralText(p.parts), pos))
      else RenderParts(d, p.parts, src, pos, 0)
  }

  function LiteralText(parts: seq<Part>): string {
    if parts == [] then ""
    else (if parts[0].Literal? then parts[0].text else "") + LiteralText(parts[1..])
  }

  // What every compiled plan satisfies: its slots are all of its own style, and
  // its ordinal slots read arguments it has asked for.
  predicate SlotsFit(parts: seq<Part>, style: Style, n: nat) {
    forall k :: 0 <= k < |parts| && !parts[k].Literal? ==>
      if style.NamedStyle? then parts[k].NamedSlot? else parts[k].OrdinalSlot? && parts[k].pos < n
  }

  lemma {:induction false} PartsFit(s: string, toks: seq<Token>, style: Style, lit: string, n: nat)
    requires !style.NamedStyle? ==> !Has(toks, Named)
    ensures SlotsFit(PartsOf(s, toks, style, lit, n), style, n + |SlotsOf(toks, style)|)
    decreases |toks|
  {
    if toks != [] {
      assert forall t :: t in toks[1..] ==> t in toks;
      assert toks[0] in toks;
      if IsSlot(toks[0], style) {
        PartsFit(s, toks[1..], style, "", n + 1);
      } else {
        PartsFit(s, toks[1..], style, lit + Verbatim(s, toks[0]), n);
      }
    }
  }

  lemma PlansFit(s: string)
    requires PlanOf(s).Ok?
    ensures var p := PlanOf(s).value; SlotsFit(p.parts, p.style, p.nslots)
  {
    PartsFit(s, Tokens(s, 0), PlanOf(s).value.style, "", 0);
  }

  lemma ListFirst(d: Dialect, n: nat)
    ensures PlaceholderList(d, n, 1) == Placeholder(d, n + 1)
  {
    hide Placeholder;
  }

  lemma ListNext(d: Dialect, n: nat, count: nat)
    requires count > 0
    ensures PlaceholderList(d, n, count + 1) == PlaceholderList(d, n, count) + "," + Placeholder(d, n + count + 1)
  {
    hide Placeholder;
  }

  method ExpandSlot(d: Dialect, val: Value, buf0: string, out0: seq<Value>) returns (buf: string, out: seq<Value>)
    ensures buf == buf0 + SlotText(d, val, |out0|)
    ensures out == out0 + Expansion(val)
  {
    hide Placeholder, PlaceholderList;
    buf, out := buf0, out0;
    if !val.List? {
      ListFirst(d, |out|);
      out := out + [val];
      buf := buf + Placeholder(d, |out|);
      return;
    }
    var elems := val.elems;
    if |elems| == 0 {
      buf := buf + "NULL";
      return;
    }
    var text := "";
    for i := 0 to |elems|
      invariant out == out0 + elems[..i]
      invariant text == if i == 0 then "" else PlaceholderList(d, |out0|, i)
    {
      if i > 0 {
        text := text + ",";
      }
      assert elems[..i + 1] == elems[..i] + [elems[i]];
      if i == 0 {
        ListFirst(d, |out0|);
      } else {
        ListNext(d, |out0|, i);
      }
      out := out + [elems[i]];
      text := text + Placeholder(d, |out|);
    }
    assert elems[..|elems|] == elems;
    buf := buf + text;
  }

  method RenderSlots(p: Plan, d: Dialect, src: Source, pos: seq<Value>) returns (r: Result<Rendered, BindError>)
    requires p.style.NamedStyle? || p.style.OrdinalStyle?
    requires SlotsFit(p.parts, p.style, p.nslots)
    requires ShapeError(p, src, pos).None?
    ensures r == RenderParts(d, p.parts, src, pos, 0)
  {
    var buf, out: seq<Value> := "", [];
    assert p.parts[0..] == p.parts;
    AfterAfter(RenderParts(d, p.parts, src, pos, 0), "", [], "", []);
    hide PlaceholderList;
    for k := 0 to |p.parts|
      invariant RenderParts(d, p.parts, src, pos, 0) == After(RenderParts(d, p.parts[k..], src, pos, |out|), buf, out)
    {
      hide SlotText, Expansion;
      var pt := p.parts[k];
      ghost var rest := p.parts[k + 1..];
      assert p.parts[k..][1..] == rest;
      if pt.Literal? {
        AfterAfter(RenderParts(d, rest, src, pos, |out|), buf, out, pt.text, []);
        assert out + [] == out;
        buf := buf + pt.text;
        continue;
      }
      var val;
      if p.style == NamedStyle {
        if pt.name !in src.value {
          return Err(UnknownName(pt.name));
        }
        val := src.value[pt.name];
      } else {
        val := pos[pt.pos];
      }
      AfterAfter(RenderParts(d, rest, src, pos, |out| + |Expansion(val)|), buf, out, SlotText(d, val, |out|),
                 Expansion(val));
      buf, out := ExpandSlot(d, val, buf, out);
    }
    assert p.parts[|p.parts|..] == [];
    assert buf + "" == buf && out + [] == out;
    return Ok(Rendered(buf, out));
  }

  method JoinLiterals(parts: seq<Part>) returns (b: string)
    ensures b == LiteralText(parts)
  {
    b := "";
    assert parts[0..] == parts;
    for k := 0 to |parts|
      invariant b + LiteralText(parts[k..]) == LiteralText(parts)
    {
      ghost var rest := LiteralText(parts[k + 1..]);
      assert parts[k..][1..] == parts[k + 1..];
      if parts[k].Literal? {
        assert b + parts[k].text + rest == b + (parts[k].text + rest);
        b := b + parts[k].text;
      } else {
        assert "" + rest == rest;
      }
    }
  }

  method Render(p: Plan, d: Dialect, src: Source, pos: seq<Value>) returns (r: Result<Rendered, BindError>)
    requires SlotsFit(p.parts, p.style, p.nslots)
    ensures r == RenderPlan(p, d, src, pos)
  {
    match p.style {
      case NoParams => if src.Some? { return Err(UnexpectedNames); }
      case NumberedStyle => if src.Some? { return Err(UnexpectedNames); }
      case NamedStyle =>
        if src.None? { return Err(MissingNames); }
        if |pos| > 0 { return Err(UnexpectedPositions(|pos|)); }
      case OrdinalStyle =>
        if src.Some? { return Err(UnexpectedNames); }
        if |pos| != p.nslots { return Err(WrongCount(p.nslots, |pos|)); }
    }
    if p.style == NoParams || p.style == NumberedStyle {
      var b := JoinLiterals(p.parts);
      return Ok(Rendered(b, pos));
    }
    r := RenderSlots(p, d, src, pos);
  }

  // ----- rendering a compiled statement is substitution in its source

  // The statement with each slot replaced by the text of its value and each ??
  // by ?, when n arguments precede it.
  function Substituted(d: Dialect, s: string, toks: seq<Token>, style: Style, vals: seq<Value>, n: nat): string
    requires |vals| == |SlotsOf(toks, style)|
  {
    if toks == [] then ""
    else if IsSlot(toks[0], style) then
      SlotText(d, vals[0], n) + Substituted(d, s, toks[1..], style, vals[1..], n + |Expansion(vals[0])|)
    else Verbatim(s, toks[0]) + Substituted(d, s, toks[1..], style, vals, n)
  }

  function Arguments(vals: seq<Value>): seq<Value> {
    if vals == [] then [] else Expansion(vals[0]) + Arguments(vals[1..])
  }

  // vals are the values of the slots, in statement order, when k slots precede them.
  predicate Resolves(slots: seq<Token>, style: Style, src: Source, pos: seq<Value>, k: nat, vals: seq<Value>) {
    |vals| == |slots| && forall j :: 0 <= j < |slots| ==> ResolvesAt(slots, style, src, pos, k, vals, j)
  }

  predicate ResolvesAt(slots: seq<Token>, style: Style, src: Source, pos: seq<Value>, k: nat, vals: seq<Value>, j: nat)
    requires j < |slots| == |vals|
  {
    if style.NamedStyle? then src.Some? && slots[j].name in src.value && vals[j] == src.value[slots[j].name]
    else slots[j].kind.Ordinal? && k + j < |pos| && vals[j] == pos[k + j]
  }

  predicate NamesKnown(slots: seq<Token>, src: Source) {
    src.Some? && forall k :: 0 <= k < |slots| ==> slots[k].name in src.value
  }

  lemma RenderSlotStep(d: Dialect, lit: string, slot: Part, rest: seq<Part>, src: Source, pos: seq<Value>, n: nat)
    requires !slot.Literal?
    ensures RenderParts(d, FlushLiteral(lit) + [slot] + rest, src, pos, n) ==
            var value := SlotValue(slot, src, pos);
            if value.Err? then Err(value.error)
            else After(RenderParts(d, rest, src, pos, n + |Expansion(value.value)|),
                       lit + SlotText(d, value.value, n), Expansion(value.value))
  {
    hide SlotText;
    var tail := [slot] + rest;
    assert tail[1..] == rest;
    var parts := FlushLiteral(lit) + tail;
    assert FlushLiteral(lit) + [slot] + rest == parts;
    if lit != "" {
      assert parts[1..] == tail;
    } else {
      assert parts == tail;
    }
    var value := SlotValue(slot, src, pos);
    if value.Ok? {
      var v := value.value;
      AfterAfter(RenderParts(d, rest, src, pos, n + |Expansion(v)|), lit, [], SlotText(d, v, n), Expansion(v));
      assert [] + Expansion(v) == Expansion(v);
      AfterAfter(RenderParts(d, tail, src, pos, n), "", [], "", []);
    }
  }

  lemma RenderLiteral(d: Dialect, lit: string, src: Source, pos: seq<Value>, n: nat)
    ensures RenderParts(d, FlushLiteral(lit), src, pos, n) == After(Ok(Rendered("", [])), lit, [])
  {
    if lit != "" {
      var parts := FlushLiteral(lit);
      assert parts[1..] == [];
      assert RenderParts(d, parts[1..], src, pos, n) == Ok(Rendered("", []));
    } else {
      AfterAfter(Ok(Rendered("", [])), "", [], "", []);
    }
  }

  // The statement with its slots substituted, and the arguments that go with it.
  function Substitution(d: Dialect, s: string, toks: seq<Token>, style: Style, vals: seq<Value>, n: nat): Rendered
    requires |vals| == |SlotsOf(toks, style)|
  {
    Rendered(Substituted(d, s, toks, style, vals, n), Arguments(vals))
  }

  lemma SubstitutionStep(d: Dialect, s: string, toks: seq<Token>, style: Style, vals: seq<Value>, n: nat)
    requires |vals| == |SlotsOf(toks, style)| && toks != []
    ensures Ok(Substitution(d, s, toks, style, vals, n)) ==
            if IsSlot(toks[0], style) then
              After(Ok(Substitution(d, s, toks[1..], style, vals[1..], n + |Expansion(vals[0])|)),
                    SlotText(d, vals[0], n), Expansion(vals[0]))
            else After(Ok(Substitution(d, s, toks[1..], style, vals, n)), Verbatim(s, toks[0]), [])
  {
    if !IsSlot(toks[0], style) {
      assert [] + Arguments(vals) == Arguments(vals);
    }
  }

  lemma ResolvesTail(toks: seq<Token>, style: Style, src: Source, pos: seq<Value>, k: nat, vals: seq<Value>)
    requires toks != [] && IsSlot(toks[0], style)
    requires Resolves(SlotsOf(toks, style), style, src, pos, k, vals)
    ensures Resolves(SlotsOf(toks[1..], style), style, src, pos, k + 1, vals[1..])
    ensures SlotValue(SlotPart(toks[0], k), src, pos) == Ok(vals[0])
  {
    var slots, tail := SlotsOf(toks, style), SlotsOf(toks[1..], style);
    assert slots == [toks[0]] + tail;
    assert ResolvesAt(slots, style, src, pos, k, vals, 0);
    var k', vals' := k + 1, vals[1..];
    forall j | 0 <= j < |tail|
      ensures ResolvesAt(tail, style, src, pos, k', vals', j)
    {
      assert ResolvesAt(slots, style, src, pos, k, vals, j + 1);
    }
  }

  // A statement whose literal text is pending renders to that text first.
  lemma {:induction false} RenderPartsOf(
    d: Dialect, s: string, toks: seq<Token>, style: Style, lit: string, src: Source, pos: seq<Value>, k: nat, n: nat,
    vals: seq<Value>)
    requires Resolves(SlotsOf(toks, style), style, src, pos, k, vals)
    ensures RenderParts(d, PartsOf(s, toks, style, lit, k), src, pos, n) ==
            After(Ok(Substitution(d, s, toks, style, vals, n)), lit, [])
    decreases |toks|
  {
    hide RenderParts, After, Substituted, Substitution, SlotText;
    if toks == [] {
      assert Substitution(d, s, toks, style, vals, n) == Rendered("", []) by {
        EmptySubstitution(d, s, style, n);
      }
      RenderLiteral(d, lit, src, pos, n);
    } else {
      SubstitutionStep(d, s, toks, style, vals, n);
      if IsSlot(toks[0], style) {
        var v := vals[0];
        ResolvesTail(toks, style, src, pos, k, vals);
        RenderPartsOf(d, s, toks[1..], style, "", src, pos, k + 1, n + |Expansion(v)|, vals[1..]);
        RenderSlotStep(d, lit, SlotPart(toks[0], k), PartsOf(s, toks[1..], style, "", k + 1), src, pos, n);
        var rest := Ok(Substitution(d, s, toks[1..], style, vals[1..], n + |Expansion(v)|));
        AfterAfter(rest, lit, [], SlotText(d, v, n), Expansion(v));
        assert [] + Expansion(v) == Expansion(v);
      } else {
        assert SlotsOf(toks, style) == SlotsOf(toks[1..], style);
        RenderPartsOf(d, s, toks[1..], style, lit + Verbatim(s, toks[0]), src, pos, k, n, vals);
        var rest := Ok(Substitution(d, s, toks[1..], style, vals, n));
        AfterAfter(rest, lit, [], Verbatim(s, toks[0]), []);
        var none: seq<Value> := [];
        assert none + none == none;
      }
    }
  }

  lemma EmptySubstitution(d: Dialect, s: string, style: Style, n: nat)
    ensures Substitution(d, s, [], style, [], n) == Rendered("", [])
  {
  }

  // The first name the statement uses that is not supplied.
  predicate FirstUnknown(toks: seq<Token>, src: Source, name: string)
    requires src.Some?
  {
    exists i :: 0 <= i < |toks| && UnknownAt(toks, src, i) && toks[i].name == name
  }

  predicate UnknownAt(toks: seq<Token>, src: Source, i: nat)
    requires src.Some? && i < |toks|
  {
    && toks[i].kind.Named? && toks[i].name !in src.value
    && forall j :: 0 <= j < i && toks[j].kind.Named? ==> toks[j].name in src.value
  }

  lemma FirstUnknownStep(toks: seq<Token>, src: Source, name: string)
    requires src.Some? && toks != []
    ensures toks[0].kind.Named? && toks[0].name !in src.value ==> FirstUnknown(toks, src, toks[0].name)
    ensures (toks[0].kind.Named? ==> toks[0].name in src.value) && FirstUnknown(toks[1..], src, name) ==>
              FirstUnknown(toks, src, name)
  {
    if toks[0].kind.Named? && toks[0].name !in src.value {
      assert UnknownAt(toks, src, 0);
    } else if FirstUnknown(toks[1..], src, name) {
      var i :| 0 <= i < |toks[1..]| && UnknownAt(toks[1..], src, i) && toks[1..][i].name == name;
      assert forall j :: 1 <= j < i + 1 ==> toks[j] == toks[1..][j - 1];
      assert UnknownAt(toks, src, i + 1) && toks[i + 1].name == name;
    }
  }

  ghost predicate RefusedByName(r: Result<Rendered, BindError>, toks: seq<Token>, src: Source)
    requires src.Some?
  {
    r.Err? && r.error.UnknownName? && FirstUnknown(toks, src, r.error.name)
  }

  lemma {:induction false} UnknownNameFails(
    d: Dialect, s: string, toks: seq<Token>, lit: string, src: Source, pos: seq<Value>, k: nat, n: nat)
    requires src.Some? && !NamesKnown(SlotsOf(toks, NamedStyle), src)
    ensures RefusedByName(RenderParts(d, PartsOf(s, toks, NamedStyle, lit, k), src, pos, n), toks, src)
    decreases |toks|
  {
    hide RenderParts, FirstUnknown;
    var r := RenderParts(d, PartsOf(s, toks, NamedStyle, lit, k), src, pos, n);
    if IsSlot(toks[0], NamedStyle) {
      RenderSlotStep(d, lit, SlotPart(toks[0], k), PartsOf(s, toks[1..], NamedStyle, "", k + 1), src, pos, n);
      if toks[0].name in src.value {
        var slots := SlotsOf(toks, NamedStyle);
        assert slots[1..] == SlotsOf(toks[1..], NamedStyle);
        UnknownNameFails(d, s, toks[1..], "", src, pos, k + 1, n + |Expansion(src.value[toks[0].name])|);
      }
    } else {
      assert SlotsOf(toks, NamedStyle) == SlotsOf(toks[1..], NamedStyle);
      UnknownNameFails(d, s, toks[1..], lit + Verbatim(s, toks[0]), src, pos, k, n);
    }
    FirstUnknownStep(toks, src, r.error.name);
  }

  function NamedValues(slots: seq<Token>, src: Source): (vals: seq<Value>)
    requires NamesKnown(slots, src)
    ensures Resolves(slots, NamedStyle, src, [], 0, vals)
  {
    seq(|slots|, k requires 0 <= k < |slots| => src.value[slots[k].name])
  }

  lemma {:induction false} LiteralPartsOf(s: string, toks: seq<Token>, style: Style, lit: string, n: nat, d: Dialect,
                                          m: nat)
    requires SlotsOf(toks, style) == []
    ensures LiteralText(PartsOf(s, toks, style, lit, n)) == lit + Substituted(d, s, toks, style, [], m)
    decreases |toks|
  {
    if toks != [] {
      assert !IsSlot(toks[0], style);
      LiteralPartsOf(s, toks[1..], style, lit + Verbatim(s, toks[0]), n, d, m);
    }
  }

  lemma {:induction false} NoSlots(toks: seq<Token>, style: Style)
    requires !Has(toks, Named) && !Has(toks, Ordinal)
    ensures SlotsOf(toks, style) == []
  {
    if toks != [] {
      assert forall t :: t in toks[1..] ==> t in toks;
      NoSlots(toks[1..], style);
    }
  }

  // The slots of the statement, and the values the arguments give them.
  function StatementSlots(s: string, style: Style): seq<Token> {
    SlotsOf(Tokens(s, 0), style)
  }

  lemma {:induction false} SlotKinds(toks: seq<Token>, style: Style)
    requires !style.NamedStyle? ==> !Has(toks, Named)
    ensures !style.NamedStyle? ==> forall j :: 0 <= j < |SlotsOf(toks, style)| ==> SlotsOf(toks, style)[j].kind.Ordinal?
  {
    if toks != [] {
      assert forall t :: t in toks[1..] ==> t in toks;
      assert toks[0] in toks;
      SlotKinds(toks[1..], style);
    }
  }

  // Rendering a compiled statement succeeds exactly when the arguments fit its
  // slots. It then gives the statement with each slot substituted, and the
  // expansions of the slots' values in statement order, a name's value repeated
  // as often as the name occurs.
  lemma RenderNamed(s: string, d: Dialect, src: Source, pos: seq<Value>)
    requires PlanOf(s).Ok? && PlanOf(s).value.style.NamedStyle?
    ensures var slots := StatementSlots(s, NamedStyle);
            var r := RenderPlan(PlanOf(s).value, d, src, pos);
            && (r.Ok? <==> NamesKnown(slots, src) && pos == [])
            && (r.Ok? ==>
                  var vals := NamedValues(slots, src);
                  r.value == Substitution(d, s, Tokens(s, 0), NamedStyle, vals, 0))
  {
    var toks := Tokens(s, 0);
    var slots := StatementSlots(s, NamedStyle);
    if NamesKnown(slots, src) && pos == [] {
      RenderPartsOf(d, s, toks, NamedStyle, "", src, pos, 0, 0, NamedValues(slots, src));
      AfterAfter(Ok(Substitution(d, s, toks, NamedStyle, NamedValues(slots, src), 0)), "", [], "", []);
    } else if src.Some? && pos == [] {
      UnknownNameFails(d, s, toks, "", src, pos, 0, 0);
    }
  }

  lemma RenderOrdinal(s: string, d: Dialect, src: Source, pos: seq<Value>)
    requires PlanOf(s).Ok? && PlanOf(s).value.style.OrdinalStyle?
    ensures var slots := StatementSlots(s, OrdinalStyle);
            var r := RenderPlan(PlanOf(s).value, d, src, pos);
            && (r.Ok? <==> src.None? && |pos| == |slots|)
            && (r.Ok? ==> r.value == Substitution(d, s, Tokens(s, 0), OrdinalStyle, pos, 0))
  {
    var toks := Tokens(s, 0);
    SlotKinds(toks, OrdinalStyle);
    if src.None? && |pos| == |StatementSlots(s, OrdinalStyle)| {
      RenderPartsOf(d, s, toks, OrdinalStyle, "", src, pos, 0, 0, pos);
      AfterAfter(Ok(Substitution(d, s, toks, OrdinalStyle, pos, 0)), "", [], "", []);
    }
  }

  lemma RenderNative(s: string, d: Dialect, src: Source, pos: seq<Value>)
    requires PlanOf(s).Ok? && (PlanOf(s).value.style.NoParams? || PlanOf(s).value.style.NumberedStyle?)
    ensures var p := PlanOf(s).value;
            var r := RenderPlan(p, d, src, pos);
            && StatementSlots(s, p.style) == []
            && (r.Ok? <==> src.None?)
            && (r.Ok? ==> r.value == Rendered(Substituted(d, s, Tokens(s, 0), p.style, [], 0), pos))
  {
    hide Tokens, PartsOf, SlotsOf, NamesOf, LiteralSize, Substituted, LiteralText;
    var p := PlanOf(s).value;
    NoSlots(Tokens(s, 0), p.style);
    LiteralPartsOf(s, Tokens(s, 0), p.style, "", 0, d, 0);
  }

  // ----- what the text outside the slots is

  function Spelling(s: string, toks: seq<Token>): string {
    if toks == [] then ""
    else (if toks[0].lo <= toks[0].hi <= |s| then s[toks[0].lo..toks[0].hi] else "") + Spelling(s, toks[1..])
  }

  lemma {:induction false} TilesSpell(s: string, toks: seq<Token>, i: nat)
    requires Tiles(toks, i, |s|)
    ensures i <= |s| && Spelling(s, toks) == s[i..]
  {
    if toks != [] {
      TilesSpell(s, toks[1..], toks[0].hi);
      assert s[i..toks[0].hi] + s[toks[0].hi..] == s[i..];
    }
  }

  lemma {:induction false} SubstitutedWithoutParams(d: Dialect, s: string, toks: seq<Token>, style: Style, n: nat)
    requires !Has(toks, Named) && !Has(toks, Ordinal) && !Has(toks, EscapedQ)
    ensures SlotsOf(toks, style) == []
    ensures Substituted(d, s, toks, style, [], n) == Spelling(s, toks)
  {
    NoSlots(toks, style);
    if toks != [] {
      assert forall t :: t in toks[1..] ==> t in toks;
      assert toks[0] in toks;
      SubstitutedWithoutParams(d, s, toks[1..], style, n);
    }
  }

  // A statement with no parameters of row's own, and no ??, goes to the database
  // byte for byte, native $n placeholders included.
  lemma PassThrough(s: string, d: Dialect, pos: seq<Value>)
    requires !Has(Tokens(s, 0), Named) && !Has(Tokens(s, 0), Ordinal) && !Has(Tokens(s, 0), EscapedQ)
    ensures PlanOf(s).Ok?
    ensures RenderPlan(PlanOf(s).value, d, None, pos) == Ok(Rendered(s, pos))
  {
    RenderNative(s, d, None, pos);
    SubstitutedWithoutParams(d, s, Tokens(s, 0), PlanOf(s).value.style, 0);
    TokensTile(s, 0);
    TilesSpell(s, Tokens(s, 0), 0);
    assert s[0..] == s;
  }
}
