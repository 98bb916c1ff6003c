// What a rendered statement is made of, token by token: which stretch of the text
// sent comes from which token, what it says, and which arguments go with it.

module Layout {
  import opened Wrappers
  import opened Numerals
  import opened Scanner
  import opened Dialects
  import opened Binder
  import Relexing

  // ----- what a statement is, said of its tokens

  predicate AnyNamed(toks: seq<Token>) {
    exists t :: t in toks && t.kind.Named?
  }

  predicate AnyOrdinal(toks: seq<Token>) {
    exists t :: t in toks && t.kind.Ordinal?
  }

  predicate AnyNumbered(toks: seq<Token>) {
    exists t :: t in toks && t.kind.Numbered?
  }

  function OrdinalsIn(toks: seq<Token>): nat {
    if toks == [] then 0 else OrdinalsIn(toks[..|toks| - 1]) + (if toks[|toks| - 1].kind.Ordinal? then 1 else 0)
  }

  // A statement compiles unless it mixes $n with names or with question marks.
  lemma CompilesExactly(s: string)
    ensures var toks := Tokens(s, 0);
            && (PlanOf(s).Ok? <==> !AnyNumbered(toks) || (!AnyNamed(toks) && !AnyOrdinal(toks)))
            && (PlanOf(s) == Err(MixedNamedNumbered) <==> AnyNumbered(toks) && AnyNamed(toks))
            && (PlanOf(s) == Err(MixedOrdinalNumbered) <==> AnyNumbered(toks) && !AnyNamed(toks) && AnyOrdinal(toks))
  {
    hide Tokens, PartsOf, NamesOf, SlotsOf, LiteralSize;
    Kinds(Tokens(s, 0));
  }

  lemma Kinds(toks: seq<Token>)
    ensures AnyNamed(toks) == Has(toks, Named) && AnyOrdinal(toks) == Has(toks, Ordinal)
    ensures AnyNumbered(toks) == Has(toks, Numbered)
  {
  }

  // The names a plan lists are those of its tokens, each once, in order of first
  // appearance.
  lemma NamesListed(s: string)
    requires PlanOf(s).Ok?
    ensures var names := PlanOf(s).value.names;
            && (forall name :: name in names <==> Names(Tokens(s, 0), name))
            && forall i, j :: 0 <= i < j < |names| ==>
                 names[i] != names[j] && NamedBefore(Tokens(s, 0), names[i], names[j])
  {
    hide Tokens, PartsOf, SlotsOf, LiteralSize, StyleOf;
    NamesFrom(Tokens(s, 0), []);
    NamesInOrder(Tokens(s, 0), []);
  }

  // Some token has the name a, and none before it has the name b.
  predicate NamedBefore(toks: seq<Token>, a: string, b: string) {
    exists k :: 0 <= k < |toks| && BeforeAt(toks, a, b, k)
  }

  predicate BeforeAt(toks: seq<Token>, a: string, b: string, k: nat)
    requires k < |toks|
  {
    && toks[k].kind.Named? && toks[k].name == a
    && forall j :: 0 <= j < k && toks[j].kind.Named? ==> toks[j].name != b
  }

  lemma BeforeStep(toks: seq<Token>, a: string, b: string)
    requires toks != [] && NamedBefore(toks[1..], a, b) && (toks[0].kind.Named? ==> toks[0].name != b)
    ensures NamedBefore(toks, a, b)
  {
    var k :| 0 <= k < |toks[1..]| && BeforeAt(toks[1..], a, b, k);
    assert forall j :: 0 < j <= k + 1 ==> toks[j] == toks[1..][j - 1];
    assert BeforeAt(toks, a, b, k + 1);
  }

  // From the first of them on, the names added to a list appear in its order.
  ghost predicate Ordered(toks: seq<Token>, all: seq<string>, start: nat) {
    forall i, j :: start <= i < j < |all| ==> NamedBefore(toks, all[i], all[j])
  }

  lemma {:induction false} NamesInOrder(toks: seq<Token>, names: seq<string>)
    requires forall i, j :: 0 <= i < j < |names| ==> names[i] != names[j]
    ensures names <= NamesOf(toks, names) && Ordered(toks, NamesOf(toks, names), |names|)
    decreases |toks|
  {
    hide Ordered;
    if toks == [] {
      NothingOrdered(toks, names);
    } else {
      var more := toks[0].kind.Named? && toks[0].name !in names;
      var next := if more then names + [toks[0].name] else names;
      NamesInOrder(toks[1..], next);
      NamesFrom(toks, names);
      OrderedStep(toks, names, next, NamesOf(toks, names));
    }
  }

  lemma NothingOrdered(toks: seq<Token>, names: seq<string>)
    ensures Ordered(toks, names, |names|)
  {
  }

  lemma OrderedStep(toks: seq<Token>, names: seq<string>, next: seq<string>, all: seq<string>)
    requires toks != [] && next <= all && Ordered(toks[1..], all, |next|)
    requires forall i, j :: 0 <= i < j < |all| ==> all[i] != all[j]
    requires next == if toks[0].kind.Named? && toks[0].name !in names then names + [toks[0].name] else names
    ensures Ordered(toks, all, |names|)
  {
    hide NamedBefore;
    forall i, j | |names| <= i < j < |all|
      ensures NamedBefore(toks, all[i], all[j])
    {
      if i < |next| {
        FirstHere(toks, all[j]);
      } else {
        LaterDiffers(toks[0].name, next, all, j);
        BeforeStep(toks, all[i], all[j]);
      }
    }
  }

  lemma LaterDiffers(name: string, next: seq<string>, all: seq<string>, j: nat)
    requires next <= all && |next| <= j < |all| && forall i, j :: 0 <= i < j < |all| ==> all[i] != all[j]
    ensures name in next ==> all[j] != name
  {
    if name in next {
      var k :| 0 <= k < |next| && next[k] == name;
      assert all[k] == name;
    }
  }

  lemma FirstHere(toks: seq<Token>, b: string)
    requires toks != [] && toks[0].kind.Named?
    ensures NamedBefore(toks, toks[0].name, b)
  {
    assert BeforeAt(toks, toks[0].name, b, 0);
  }

  lemma {:induction false} NamesFrom(toks: seq<Token>, names: seq<string>)
    requires forall i, j :: 0 <= i < j < |names| ==> names[i] != names[j]
    ensures var all := NamesOf(toks, names);
            && (forall name :: name in all <==> name in names || Names(toks, name))
            && forall i, j :: 0 <= i < j < |all| ==> all[i] != all[j]
    decreases |toks|
  {
    if toks != [] {
      var next := if toks[0].kind.Named? && toks[0].name !in names then names + [toks[0].name] else names;
      NamesFrom(toks[1..], next);
      forall name
        ensures Names(toks, name) <==> (toks[0].kind.Named? && toks[0].name == name) || Names(toks[1..], name)
      {
        assert toks == [toks[0]] + toks[1..];
      }
    }
  }

  predicate Names(toks: seq<Token>, name: string) {
    exists t :: t in toks && t.kind.Named? && t.name == name
  }

  // ----- stretches

  function Mark(d: Dialect, n: nat): string {
    if d.numbered then "$" + Decimal(n) else "?"
  }

  // text is the placeholders n + 1 to n + count, separated by commas.
  predicate IsMarks(d: Dialect, text: string, n: nat, count: nat)
    decreases count
  {
    if count == 0 then false
    else if count == 1 then text == Mark(d, n + 1)
    else
      var head := Mark(d, n + 1) + ",";
      |head| <= |text| && text[..|head|] == head && IsMarks(d, text[|head|..], n + 1, count - 1)
  }

  // The value a slot takes: a name's, or the one at the slot's place among the
  // question marks.
  function ValueAt(toks: seq<Token>, i: nat, src: Source, pos: seq<Value>): Option<Value>
    requires i < |toks|
  {
    var t := toks[i];
    if t.kind.Named? && src.Some? && t.name in src.value then Some(src.value[t.name])
    else if t.kind.Ordinal? && OrdinalsIn(toks[..i]) < |pos| then Some(pos[OrdinalsIn(toks[..i])])
    else None
  }

  // What a value is written as, when n arguments stand before it, and what it binds.
  predicate Expands(d: Dialect, v: Value, n: nat, stretch: string, bound: seq<Value>) {
    if v.List? then
      bound == v.elems && (if v.elems == [] then stretch == "NULL" else IsMarks(d, stretch, n, |v.elems|))
    else bound == [v] && stretch == Mark(d, n + 1)
  }

  // What the i-th token becomes.
  predicate Becomes(d: Dialect, s: string, toks: seq<Token>, i: nat, src: Source, pos: seq<Value>, n: nat,
                    stretch: string, bound: seq<Value>)
    requires i < |toks|
  {
    var t := toks[i];
    match t.kind
    case Text => t.lo <= t.hi <= |s| && stretch == s[t.lo..t.hi] && bound == []
    case Numbered => t.lo <= t.hi <= |s| && stretch == s[t.lo..t.hi] && bound == []
    case EscapedQ => stretch == "?" && bound == []
    case Named => ValueAt(toks, i, src, pos).Some? && Expands(d, ValueAt(toks, i, src, pos).value, n, stretch, bound)
    case Ordinal =>
      if AnyNamed(toks) then stretch == "?" && bound == []
      else ValueAt(toks, i, src, pos).Some? && Expands(d, ValueAt(toks, i, src, pos).value, n, stretch, bound)
  }

  // The text a token became and the arguments bound with it.
  datatype Stretch = Stretch(text: string, bound: seq<Value>)

  function Texts(ss: seq<Stretch>): string {
    if ss == [] then "" else ss[0].text + Texts(ss[1..])
  }

  function Bounds(ss: seq<Stretch>): seq<Value> {
    if ss == [] then [] else ss[0].bound + Bounds(ss[1..])
  }

  // One stretch for each token from the first-th on, when n arguments stand before.
  ghost predicate LaidFrom(d: Dialect, s: string, toks: seq<Token>, first: nat, src: Source, pos: seq<Value>, n: nat,
                           ss: seq<Stretch>)
  {
    && first + |ss| == |toks|
    && forall i :: 0 <= i < |ss| ==>
         Becomes(d, s, toks, first + i, src, pos, n + |Bounds(ss[..i])|, ss[i].text, ss[i].bound)
  }

  // ----- rendering lays a statement out

  lemma {:induction false} MarksOf(d: Dialect, n: nat, count: nat)
    requires count > 0
    ensures IsMarks(d, PlaceholderList(d, n, count), n, count)
    decreases count
  {
    hide Decimal;
    if count > 1 {
      Relexing.PlaceholderListFront(d, n, count);
      MarksOf(d, n + 1, count - 1);
      var head := Mark(d, n + 1) + ",";
      var text := PlaceholderList(d, n, count);
      assert text == head + PlaceholderList(d, n + 1, count - 1);
      assert text[..|head|] == head && text[|head|..] == PlaceholderList(d, n + 1, count - 1);
    }
  }

  lemma SlotExpands(d: Dialect, v: Value, n: nat)
    ensures Expands(d, v, n, SlotText(d, v, n), Expansion(v))
  {
    hide Decimal;
    if Expansion(v) != [] {
      MarksOf(d, n, |Expansion(v)|);
    }
  }

  lemma OrdinalsNext(toks: seq<Token>, i: nat)
    requires i < |toks|
    ensures OrdinalsIn(toks[..i + 1]) == OrdinalsIn(toks[..i]) + (if toks[i].kind.Ordinal? then 1 else 0)
  {
    assert toks[..i + 1][..i] == toks[..i];
  }

  lemma BoundsStep(front: Stretch, rest: seq<Stretch>, i: nat)
    requires i <= |rest|
    ensures |Bounds(([front] + rest)[..i + 1])| == |front.bound| + |Bounds(rest[..i])|
  {
    assert ([front] + rest)[..i + 1] == [front] + rest[..i];
    assert ([front] + rest[..i])[1..] == rest[..i];
  }

  lemma Prepend(d: Dialect, s: string, toks: seq<Token>, first: nat, src: Source, pos: seq<Value>, n: nat,
                front: Stretch, rest: seq<Stretch>)
    requires first < |toks| && Becomes(d, s, toks, first, src, pos, n, front.text, front.bound)
    requires LaidFrom(d, s, toks, first + 1, src, pos, n + |front.bound|, rest)
    ensures LaidFrom(d, s, toks, first, src, pos, n, [front] + rest)
    ensures Texts([front] + rest) == front.text + Texts(rest) && Bounds([front] + rest) == front.bound + Bounds(rest)
  {
    hide Becomes;
    var ss := [front] + rest;
    assert ss[1..] == rest;
    assert ss[..0] == [];
    forall i | 0 <= i < |ss|
      ensures Becomes(d, s, toks, first + i, src, pos, n + |Bounds(ss[..i])|, ss[i].text, ss[i].bound)
    {
      if i > 0 {
        BoundsStep(front, rest, i - 1);
        assert Becomes(d, s, toks, first + 1 + (i - 1), src, pos, n + |front.bound| + |Bounds(rest[..i - 1])|,
                       rest[i - 1].text, rest[i - 1].bound);
      }
    }
  }

  lemma {:induction false} Lay(d: Dialect, s: string, toks: seq<Token>, first: nat, style: Style, src: Source,
                               pos: seq<Value>, vals: seq<Value>, n: nat) returns (ss: seq<Stretch>)
    requires first <= |toks| && Tiles(toks, 0, |s|)
    requires style.NamedStyle? <==> AnyNamed(toks)
    requires Resolves(SlotsOf(toks[first..], style), style, src, pos, OrdinalsIn(toks[..first]), vals)
    ensures LaidFrom(d, s, toks, first, src, pos, n, ss)
    ensures Texts(ss) == Substituted(d, s, toks[first..], style, vals, n) && Bounds(ss) == Arguments(vals)
    decreases |toks| - first
  {
    hide *;
    var here := toks[first..];
    ResolvesLength(SlotsOf(here, style), style, src, pos, OrdinalsIn(toks[..first]), vals);
    if first == |toks| {
      NothingToLay(d, s, toks, first, style, src, pos, vals, n);
      return [];
    }
    OrdinalsNext(toks, first);
    TilesBound(toks, 0, |s|, first);
    var front := FrontStretch(d, s, toks, first, style, src, pos, vals, n);
    var more := if IsSlot(toks[first], style) then vals[1..] else vals;
    ResolvesLength(SlotsOf(toks[first + 1..], style), style, src, pos, OrdinalsIn(toks[..first + 1]), more);
    FrontSubstituted(d, s, toks, first, style, vals, n, front);
    var tail := Lay(d, s, toks, first + 1, style, src, pos, more, n + |front.bound|);
    Prepend(d, s, toks, first, src, pos, n, front, tail);
    ss := [front] + tail;
  }

  lemma FrontSubstituted(d: Dialect, s: string, toks: seq<Token>, first: nat, style: Style, vals: seq<Value>, n: nat,
                         front: Stretch)
    requires first < |toks| && |vals| == |SlotsOf(toks[first..], style)|
    requires var slot := IsSlot(toks[first], style);
             && (slot ==> vals != [] && front == Stretch(SlotText(d, vals[0], n), Expansion(vals[0])))
             && (!slot ==> front == Stretch(Verbatim(s, toks[first]), []))
    ensures var more := if IsSlot(toks[first], style) then vals[1..] else vals;
            && |more| == |SlotsOf(toks[first + 1..], style)|
            && Substituted(d, s, toks[first..], style, vals, n)
               == front.text + Substituted(d, s, toks[first + 1..], style, more, n + |front.bound|)
            && Arguments(vals) == front.bound + Arguments(more)
  {
    hide SlotText, Expansion, Verbatim;
    var here := toks[first..];
    assert here[0] == toks[first] && here[1..] == toks[first + 1..];
    assert [] + Arguments(vals) == Arguments(vals);
  }

  lemma ResolvesLength(slots: seq<Token>, style: Style, src: Source, pos: seq<Value>, k: nat, vals: seq<Value>)
    requires Resolves(slots, style, src, pos, k, vals)
    ensures |vals| == |slots|
  {
  }

  lemma NothingToLay(d: Dialect, s: string, toks: seq<Token>, first: nat, style: Style, src: Source, pos: seq<Value>,
                     vals: seq<Value>, n: nat)
    requires first == |toks| && |vals| == |SlotsOf(toks[first..], style)|
    ensures LaidFrom(d, s, toks, first, src, pos, n, [])
    ensures Texts([]) == Substituted(d, s, toks[first..], style, vals, n) && Bounds([]) == Arguments(vals)
  {
    assert toks[first..] == [];
  }

  // The stretch of one token, and what is left to resolve after it.
  lemma FrontStretch(d: Dialect, s: string, toks: seq<Token>, first: nat, style: Style, src: Source, pos: seq<Value>,
                     vals: seq<Value>, n: nat) returns (front: Stretch)
    requires first < |toks| && toks[first].lo <= toks[first].hi <= |s|
    requires style.NamedStyle? <==> AnyNamed(toks)
    requires Resolves(SlotsOf(toks[first..], style), style, src, pos, OrdinalsIn(toks[..first]), vals)
    ensures Becomes(d, s, toks, first, src, pos, n, front.text, front.bound)
    ensures var slot := IsSlot(toks[first], style);
            && (slot ==> vals != [] && front == Stretch(SlotText(d, vals[0], n), Expansion(vals[0])))
            && (!slot ==> front == Stretch(Verbatim(s, toks[first]), []))
            && Resolves(SlotsOf(toks[first + 1..], style), style, src, pos,
                        OrdinalsIn(toks[..first]) + (if toks[first].kind.Ordinal? then 1 else 0),
                        if slot then vals[1..] else vals)
  {
    var t, k := toks[first], OrdinalsIn(toks[..first]);
    assert toks[first..][0] == t && toks[first..][1..] == toks[first + 1..];
    if IsSlot(t, style) {
      FrontResolves(toks, first, style, src, pos, vals);
      SlotExpands(d, vals[0], n);
      front := Stretch(SlotText(d, vals[0], n), Expansion(vals[0]));
    } else {
      assert t in toks;
      assert [] + SlotsOf(toks[first + 1..], style) == SlotsOf(toks[first + 1..], style);
      NotCounted(SlotsOf(toks[first + 1..], style), style, src, pos, k, vals);
      front := Stretch(Verbatim(s, t), []);
    }
  }

  // Positions do not matter to a named statement.
  lemma NotCounted(slots: seq<Token>, style: Style, src: Source, pos: seq<Value>, k: nat, vals: seq<Value>)
    requires Resolves(slots, style, src, pos, k, vals)
    ensures style.NamedStyle? ==> Resolves(slots, style, src, pos, k + 1, vals)
  {
    if style.NamedStyle? {
      var k' := k + 1;
      forall j | 0 <= j < |slots|
        ensures ResolvesAt(slots, style, src, pos, k', vals, j)
      {
        assert ResolvesAt(slots, style, src, pos, k, vals, j);
      }
    }
  }

  lemma FrontResolves(toks: seq<Token>, first: nat, style: Style, src: Source, pos: seq<Value>, vals: seq<Value>)
    requires first < |toks| && IsSlot(toks[first], style) && (style.NamedStyle? <==> AnyNamed(toks))
    requires Resolves(SlotsOf(toks[first..], style), style, src, pos, OrdinalsIn(toks[..first]), vals)
    ensures vals != [] && ValueAt(toks, first, src, pos) == Some(vals[0])
    ensures Resolves(SlotsOf(toks[first + 1..], style), style, src, pos,
                     OrdinalsIn(toks[..first]) + (if toks[first].kind.Ordinal? then 1 else 0), vals[1..])
  {
    var t, k := toks[first], OrdinalsIn(toks[..first]);
    var here := toks[first..];
    assert here[0] == t && here[1..] == toks[first + 1..];
    assert t in toks;
    assert SlotsOf(here, style)[0] == t;
    assert ResolvesAt(SlotsOf(here, style), style, src, pos, k, vals, 0);
    ResolvesTail(here, style, src, pos, k, vals);
    if style.NamedStyle? {
      NamedAnywhere(SlotsOf(toks[first + 1..], style), src, pos, k + 1, k, vals[1..]);
    }
  }

  lemma NamedAnywhere(slots: seq<Token>, src: Source, pos: seq<Value>, k: nat, k': nat, vals: seq<Value>)
    requires Resolves(slots, NamedStyle, src, pos, k, vals)
    ensures Resolves(slots, NamedStyle, src, pos, k', vals)
  {
    forall j | 0 <= j < |slots|
      ensures ResolvesAt(slots, NamedStyle, src, pos, k', vals, j)
    {
      assert ResolvesAt(slots, NamedStyle, src, pos, k, vals, j);
    }
  }

  // ----- the main results

  // What is sent, said of the tokens of the statement alone: every token becomes
  // one stretch of the text, in order and with nothing between. Text and $n are
  // the source's own bytes; ??, and a question mark beside names, is one question
  // mark; a slot is one placeholder for each element of its value, numbered on,
  // or NULL for an empty list. The arguments are what the slots bind, in order,
  // or all of pos for a statement without slots.
  lemma SentExactly(s: string, d: Dialect, src: Source, pos: seq<Value>)
    requires PlanOf(s).Ok? && RenderPlan(PlanOf(s).value, d, src, pos).Ok?
    ensures var toks := Tokens(s, 0);
            var sent := RenderPlan(PlanOf(s).value, d, src, pos).value;
            exists ss :: LaidFrom(d, s, toks, 0, src, pos, 0, ss) && Texts(ss) == sent.text
              && sent.args == if AnyNamed(toks) || AnyOrdinal(toks) then Bounds(ss) else pos
  {
    hide Tokens, PartsOf, NamesOf, LiteralSize, RenderPlan, Substituted, Arguments, SlotsOf, LaidFrom;
    var toks := Tokens(s, 0);
    var style := PlanOf(s).value.style;
    Kinds(toks);
    TokensTile(s, 0);
    assert toks[0..] == toks && toks[..0] == [];
    var vals := [];
    if style.NamedStyle? {
      RenderNamed(s, d, src, pos);
      vals := NamedValues(StatementSlots(s, style), src);
      NamedAnywhere(SlotsOf(toks, style), src, [], 0, 0, vals);
      assert pos == [];
    } else if style.OrdinalStyle? {
      RenderOrdinal(s, d, src, pos);
      vals := pos;
      OrdinalsResolve(toks, src, pos);
    } else {
      RenderNative(s, d, src, pos);
      NothingResolves(SlotsOf(toks, style), style, src, pos);
    }
    var ss := Lay(d, s, toks, 0, style, src, pos, vals, 0);
  }

  lemma NothingResolves(slots: seq<Token>, style: Style, src: Source, pos: seq<Value>)
    requires slots == []
    ensures Resolves(slots, style, src, pos, 0, [])
  {
  }

  lemma OrdinalsResolve(toks: seq<Token>, src: Source, pos: seq<Value>)
    requires !AnyNamed(toks) && |pos| == |SlotsOf(toks, OrdinalStyle)|
    ensures Resolves(SlotsOf(toks, OrdinalStyle), OrdinalStyle, src, pos, 0, pos)
  {
    Kinds(toks);
    SlotKinds(toks, OrdinalStyle);
  }

  // When a compiled statement renders: named ones with every name supplied and
  // nothing else, ordinal ones with one position for each question mark and no
  // names, others with no names.
  lemma RendersExactly(s: string, d: Dialect, src: Source, pos: seq<Value>)
    requires PlanOf(s).Ok?
    ensures var toks := Tokens(s, 0);
            RenderPlan(PlanOf(s).value, d, src, pos).Ok? <==>
            if AnyNamed(toks) then src.Some? && pos == [] && forall name :: Names(toks, name) ==> name in src.value
            else src.None? && (AnyOrdinal(toks) ==> |pos| == OrdinalsIn(toks))
  {
    hide Tokens, PartsOf, NamesOf, LiteralSize, RenderPlan, Substituted, Arguments;
    var toks := Tokens(s, 0);
    var style := PlanOf(s).value.style;
    Kinds(toks);
    if style.NamedStyle? {
      RenderNamed(s, d, src, pos);
      NamedSlots(toks);
      KnownByName(StatementSlots(s, NamedStyle), src);
    } else if style.OrdinalStyle? {
      RenderOrdinal(s, d, src, pos);
      CountSlots(toks);
    } else {
      RenderNative(s, d, src, pos);
    }
  }

  // Why a compiled statement does not render: what is asked of its arguments first,
  // and then the first name that is not supplied.
  lemma RefusesExactly(s: string, d: Dialect, src: Source, pos: seq<Value>)
    requires PlanOf(s).Ok?
    ensures var toks := Tokens(s, 0);
            var r := RenderPlan(PlanOf(s).value, d, src, pos);
            && (r == Err(MissingNames) <==> AnyNamed(toks) && src.None?)
            && (r == Err(UnexpectedPositions(|pos|)) <==> AnyNamed(toks) && src.Some? && pos != [])
            && (r == Err(UnexpectedNames) <==> !AnyNamed(toks) && src.Some?)
            && (r == Err(WrongCount(OrdinalsIn(toks), |pos|)) <==>
                  !AnyNamed(toks) && AnyOrdinal(toks) && src.None? && |pos| != OrdinalsIn(toks))
            && (AnyNamed(toks) && src.Some? && pos == [] && r.Err? ==> RefusedByName(r, toks, src))
  {
    hide Tokens, PartsOf, NamesOf, LiteralSize, RenderParts, Substituted, Arguments, LiteralText;
    var toks := Tokens(s, 0);
    var p := PlanOf(s).value;
    Kinds(toks);
    RendersExactly(s, d, src, pos);
    if p.style.NamedStyle? && src.Some? && pos == [] && RenderPlan(p, d, src, pos).Err? {
      RenderNamed(s, d, src, pos);
      UnknownNameFails(d, s, toks, "", src, pos, 0, 0);
    } else if p.style.OrdinalStyle? {
      CountSlots(toks);
    }
  }

  lemma KnownByName(slots: seq<Token>, src: Source)
    ensures NamesKnown(slots, src) <==> src.Some? && forall name :: SlotNamed(slots, name) ==> name in src.value
  {
    if src.Some? && forall name :: SlotNamed(slots, name) ==> name in src.value {
      forall k | 0 <= k < |slots|
        ensures slots[k].name in src.value
      {
        assert SlotNamed(slots, slots[k].name);
      }
    }
  }

  predicate SlotNamed(slots: seq<Token>, name: string) {
    exists t :: t in slots && t.name == name
  }

  lemma {:induction false} NamedSlots(toks: seq<Token>)
    ensures forall name :: Names(toks, name) <==> SlotNamed(SlotsOf(toks, NamedStyle), name)
  {
    if toks != [] {
      NamedSlots(toks[1..]);
      var rest, slots := SlotsOf(toks[1..], NamedStyle), SlotsOf(toks, NamedStyle);
      forall name
        ensures Names(toks, name) <==> (toks[0].kind.Named? && toks[0].name == name) || Names(toks[1..], name)
        ensures SlotNamed(slots, name) <==> (toks[0].kind.Named? && toks[0].name == name) || SlotNamed(rest, name)
      {
        assert toks == [toks[0]] + toks[1..];
        assert slots == (if toks[0].kind.Named? then [toks[0]] else []) + rest;
      }
    }
  }

  lemma {:induction false} CountSlots(toks: seq<Token>)
    requires !AnyNamed(toks)
    ensures |SlotsOf(toks, OrdinalStyle)| == OrdinalsIn(toks)
  {
    if toks != [] {
      assert toks[0] in toks;
      assert forall t :: t in toks[1..] ==> t in toks;
      CountSlots(toks[1..]);
      OrdinalsFront(toks);
    }
  }

  lemma {:induction false} OrdinalsFront(toks: seq<Token>)
    requires toks != []
    ensures OrdinalsIn(toks) == (if toks[0].kind.Ordinal? then 1 else 0) + OrdinalsIn(toks[1..])
  {
    var m := |toks| - 1;
    if m > 0 {
      OrdinalsFront(toks[..m]);
      assert toks[..m][1..] == toks[1..][..m - 1];
    } else {
      assert toks[..0] == [] && toks[1..] == [];
    }
  }
}
