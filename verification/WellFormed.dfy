/** What the parser guarantees about the syntax it builds: every tree is well
    formed and made of the source's own text, and string literals are exactly the
    spellings of valid units. */
module WellFormed {
  import opened Options
  import opened FluentSyntax
  import opened Chars
  import opened ParserSpec
  import Literal

  /** -?[0-9]+(.[0-9]+)? */
  ghost predicate IsNumber(s: string) {
    exists sign, whole, frac ::
      && s == sign + whole + frac
      && (sign == "" || sign == "-")
      && whole != "" && All(whole, IsDigit)
      && (frac == "" || (|frac| > 1 && frac[0] == '.' && All(frac[1..], IsDigit)))
  }

  lemma {:induction false} NumberParts(s: string, sign: string, whole: string, frac: string)
    requires s == sign + whole + frac && (sign == "" || sign == "-")
    requires whole != "" && All(whole, IsDigit)
    requires frac == "" || (|frac| > 1 && frac[0] == '.' && All(frac[1..], IsDigit))
    ensures IsNumber(s)
  {
  }

  // ----- string literals -----

  ghost predicate Spelled(raw: string) {
    exists us: seq<Literal.Unit> :: Literal.Units(us) && raw == Literal.Spell(us)
  }

  /** What the scanner accepts is a spelling of valid units. */
  lemma {:induction false} ScannedUnits(src: string, i: nat, end: nat)
    requires i <= |src| && StringEnd(src, i).Ok? && StringEnd(src, i).pos == end
    ensures i <= end <= |src| && Spelled(src[i..end])
    decreases |src| - i
  {
    if i == |src| || src[i] == '"' {
      var none: seq<Literal.Unit> := [];
      assert Literal.Units(none) && src[i..end] == Literal.Spell(none);
    } else {
      var u := UnitAt(src, i);
      var next := i + |u.Spelling()|;
      ScannedUnits(src, next, end);
      SpelledCons(u, src[next..end]);
      Join(src, i, next, end);
    }
  }

  lemma {:induction false} Join(src: string, i: nat, j: nat, k: nat)
    requires i <= j <= k <= |src|
    ensures src[i..k] == src[i..j] + src[j..k]
  {
  }

  lemma {:induction false} SpelledCons(u: Literal.Unit, raw: string)
    requires u.Valid() && Spelled(raw)
    ensures Spelled(u.Spelling() + raw)
  {
    var us :| Literal.Units(us) && raw == Literal.Spell(us);
    assert ([u] + us)[1..] == us;
    assert Literal.Units([u] + us) && u.Spelling() + raw == Literal.Spell([u] + us);
  }

  /** The unit the scanner steps over. */
  lemma {:induction false} UnitAt(src: string, i: nat) returns (u: Literal.Unit)
    requires i < |src| && src[i] != '"' && StringEnd(src, i).Ok?
    ensures u.Valid() && i + |u.Spelling()| <= |src| && src[i..i + |u.Spelling()|] == u.Spelling()
    ensures StringEnd(src, i) == StringEnd(src, i + |u.Spelling()|)
  {
    if src[i] != '\\' {
      u := Literal.Plain(src[i]);
    } else if src[i + 1] == 'u' {
      HexEscape(src, i, 4);
      u := Literal.Short(src[i + 2..i + 6]);
    } else if src[i + 1] == 'U' {
      HexEscape(src, i, 6);
      u := Literal.Long(src[i + 2..i + 8]);
    } else {
      u := PlainEscape(src, i);
    }
  }

  lemma {:induction false} PlainEscape(src: string, i: nat) returns (u: Literal.Unit)
    requires At(src, i, '\\') && !At(src, i + 1, 'u') && !At(src, i + 1, 'U') && StringEnd(src, i).Ok?
    ensures i + 2 <= |src| && u.Valid() && u.Spelling() == src[i..i + 2] && |u.Spelling()| == 2
    ensures StringEnd(src, i) == StringEnd(src, i + 2)
  {
    u := if src[i + 1] == '\\' then Literal.Backslash else if src[i + 1] == '{' then Literal.Brace else Literal.Quote;
    assert src[i..i + 2] == [src[i], src[i + 1]];
  }

  lemma {:induction false} HexEscape(src: string, i: nat, n: nat)
    requires At(src, i, '\\') && StringEnd(src, i).Ok? && (n == 4 || n == 6)
    requires At(src, i + 1, if n == 4 then 'u' else 'U')
    ensures i + 2 + n <= |src| && All(src[i + 2..i + 2 + n], IsHex)
    ensures src[i..i + 2 + n] == [src[i], src[i + 1]] + src[i + 2..i + 2 + n]
    ensures StringEnd(src, i) == StringEnd(src, i + 2 + n)
  {
    assert HexEnd(src, i + 2, n) == i + 2 + n;
  }

  /** Conversely the scanner accepts every spelling of valid units up to the
      closing quote. */
  lemma {:induction false} ScansUnits(src: string, i: nat, us: seq<Literal.Unit>, after: string)
    requires i <= |src| && Literal.Units(us) && src[i..] == Literal.Spell(us) + ("\"" + after)
    ensures StringEnd(src, i).Ok? && StringEnd(src, i).pos == i + |Literal.Spell(us)|
    decreases us
  {
    if us == [] {
      assert src[i] == src[i..][0] == '"';
    } else {
      var u, s, rest := us[0], us[0].Spelling(), Literal.Spell(us[1..]);
      assert u.Valid();
      Regroup(s, rest, "\"" + after);
      Literal.Suffix(src, i, s, rest + ("\"" + after));
      StepsOver(src, i, u);
      ScansUnits(src, i + |s|, us[1..], after);
    }
  }

  lemma {:induction false} Regroup(a: string, b: string, c: string)
    ensures (a + b) + c == a + (b + c)
  {
  }

  lemma {:induction false} StepsOver(src: string, i: nat, u: Literal.Unit)
    requires u.Valid() && i + |u.Spelling()| <= |src| && src[i..i + |u.Spelling()|] == u.Spelling()
    ensures StringEnd(src, i) == StringEnd(src, i + |u.Spelling()|)
  {
    var s := u.Spelling();
    assert forall k | i <= k < i + |s| :: src[k] == s[k - i];
    if u.Short? || u.Long? {
      HexRun(src, i + 2, |u.hex|);
    }
  }

  lemma {:induction false} HexRun(src: string, i: nat, n: nat)
    requires i + n <= |src| && forall k | i <= k < i + n :: IsHex(src[k])
    ensures HexEnd(src, i, n) == i + n
    decreases n
  {
    if n > 0 {
      HexRun(src, i + 1, n - 1);
    }
  }

  /** The scanner accepts exactly the spellings of valid units between quotes:
      it takes the longest such content, and any such content is taken. */
  lemma {:induction false} LiteralGrammar(src: string, i: nat, raw: string, after: string)
    requires i <= |src| && src[i..] == "\"" + (raw + ("\"" + after))
    ensures Spelled(raw) <==> StringLit(src, i) == Ok(StringLiteral(raw), i + |raw| + 2)
  {
    var close := i + 1 + |raw|;
    QuotesStand(src, i, raw, after);
    if Spelled(raw) {
      SpelledScans(src, i + 1, raw, after);
    } else if StringLit(src, i).Ok? && StringLit(src, i).pos == close + 1 {
      StringCloses(src, i);
      ScannedUnits(src, i + 1, close);
    }
  }

  lemma {:induction false} QuotesStand(src: string, i: nat, raw: string, after: string)
    requires i <= |src| && src[i..] == "\"" + (raw + ("\"" + after))
    ensures At(src, i, '"') && At(src, i + 1 + |raw|, '"') && src[i + 1..i + 1 + |raw|] == raw
    ensures src[i + 1..] == raw + ("\"" + after)
  {
    Literal.Suffix(src, i, "\"", raw + ("\"" + after));
    Literal.Suffix(src, i + 1, raw, "\"" + after);
    var close := i + 1 + |raw|;
    assert src[i] == src[i..][0] && src[close] == src[close..][0];
  }

  lemma {:induction false} SpelledScans(src: string, i: nat, raw: string, after: string)
    requires i <= |src| && src[i..] == raw + ("\"" + after) && Spelled(raw)
    ensures StringEnd(src, i).Ok? && StringEnd(src, i).pos == i + |raw|
  {
    var us: seq<Literal.Unit> :| Literal.Units(us) && raw == Literal.Spell(us);
    ScansUnits(src, i, us, after);
  }

  /** Any text survives being escaped, parsed and decoded. */
  lemma {:induction false} EscapedTextRoundTrip(text: string, before: string, after: string)
    ensures
      var src := before + ("\"" + (Literal.Escape(text) + ("\"" + after)));
      var r := StringLit(src, |before|);
      && r == Ok(StringLiteral(Literal.Escape(text)), |src| - |after|)
      && Literal.Unescape(r.value.raw) == text
  {
    var raw := Literal.Escape(text);
    var tail := "\"" + (raw + ("\"" + after));
    var src := before + tail;
    assert src[|before|..] == tail;
    assert src[|before|] == src[|before|..][0] == '"';
    assert Literal.Units(Literal.EscapeUnits(text)) && raw == Literal.Spell(Literal.EscapeUnits(text));
    LiteralGrammar(src, |before|, raw, after);
    Literal.UnescapeEscape(text);
  }

  // ----- well-formed syntax -----

  /** A stretch of the source. */
  ghost predicate PartOf(src: string, s: string) {
    exists i, j :: 0 <= i <= j <= |src| && s == src[i..j]
  }

  /** It stands between quotes. */
  ghost predicate Quoted(src: string, raw: string) { exists i: nat :: QuotedAt(src, raw, i) }

  ghost predicate QuotedAt(src: string, raw: string, i: nat) {
    && i + 1 + |raw| < |src| && src[i + 1..i + 1 + |raw|] == raw
    && src[i] == '"' && src[i + 1 + |raw|] == '"'
  }

  ghost predicate WfAttribute(src: string, a: Attribute) { IsIdentifier(a.id) && WfPattern(src, a.value) }

  /** A message has a value or attributes, a term has a value. */
  ghost predicate WfEntry(src: string, e: Entry) {
    && IsIdentifier(e.id)
    && (e.value.Some? ==> WfPattern(src, e.value.value))
    && (forall k | 0 <= k < |e.attrs| :: WfAttribute(src, e.attrs[k]))
    && (e.value.None? ==> !e.term && e.attrs != [])
  }

  /** A text is part of the source, has no brace, and a newline only at its end. */
  ghost predicate WfText(src: string, t: string) {
    && PartOf(src, t)
    && forall k | 0 <= k < |t| :: t[k] != '{' && t[k] != '}' && (t[k] == '\n' ==> k == |t| - 1)
  }

  ghost predicate WfElement(src: string, el: Element) {
    match el
    case Text(t) => WfText(src, t)
    case Placeable(e) => WfPlaceable(src, e)
  }

  ghost predicate WfPattern(src: string, p: Pattern) {
    p.elements != [] && forall k | 0 <= k < |p.elements| :: WfElement(src, p.elements[k])
  }

  /** A string, a number, a variable, a function or a term attribute. */
  predicate CanSelect(e: InlineExpr) {
    e.StringLiteral? || e.NumberLiteral? || e.VariableRef? || e.FunctionRef? || (e.TermRef? && e.attr != "")
  }

  /** No bare term attribute stands as a placeable. */
  ghost predicate WfPlaceable(src: string, e: Expression) {
    match e
    case Inline(x) => WfInline(src, x) && !(x.TermRef? && x.attr != "")
    case Select(s, vs) => WfInline(src, s) && CanSelect(s) && WfVariants(src, vs) && OneDefault(vs)
  }

  ghost predicate WfVariant(src: string, v: Variant) {
    && WfPattern(src, v.value)
    && if v.numberKey then IsNumber(v.key) else IsIdentifier(v.key)
  }

  ghost predicate NoDefault(vs: seq<Variant>) { forall k | 0 <= k < |vs| :: !vs[k].isDefault }

  ghost predicate OneDefault(vs: seq<Variant>) {
    forall j, k | 0 <= j < k < |vs| :: !(vs[j].isDefault && vs[k].isDefault)
  }

  ghost predicate WfVariants(src: string, vs: seq<Variant>) {
    forall k | 0 <= k < |vs| :: WfVariant(src, vs[k])
  }

  predicate AbsentOrIdentifier(attr: string) { attr == "" || IsIdentifier(attr) }

  ghost predicate WfInline(src: string, e: InlineExpr) {
    match e
    case StringLiteral(raw) => Quoted(src, raw) && Spelled(raw)
    case NumberLiteral(raw) => IsNumber(raw)
    case MessageRef(id, attr) => IsIdentifier(id) && AbsentOrIdentifier(attr)
    case TermRef(id, attr, c) => IsIdentifier(id) && AbsentOrIdentifier(attr) && (c.Some? ==> WfArgs(src, c.value))
    case VariableRef(id) => IsIdentifier(id)
    case FunctionRef(id, c) => IsIdentifier(id) && All(id, IsCalleeChar) && WfArgs(src, c)
    case NestedPlaceable(x) => WfPlaceable(src, x)
  }

  /** What a named argument's value may be: a literal, but also whatever starts
      with a letter. */
  predicate LiteralLike(e: InlineExpr) {
    e.StringLiteral? || e.NumberLiteral? || e.MessageRef? || e.FunctionRef?
  }

  ghost predicate UniqueNames(c: CallArgs) {
    forall j, k | 0 <= j < k < |c.named| :: c.named[j].name != c.named[k].name
  }

  ghost predicate WfNamed(src: string, n: NamedArg) {
    IsIdentifier(n.name) && WfInline(src, n.value) && LiteralLike(n.value)
  }

  ghost predicate WfArgs(src: string, c: CallArgs) {
    && (forall k | 0 <= k < |c.positional| :: WfInline(src, c.positional[k]))
    && (forall k | 0 <= k < |c.named| :: WfNamed(src, c.named[k]))
    && UniqueNames(c)
  }

  // ----- the parser builds well-formed syntax -----

  lemma {:induction false} NumberWf(src: string, i: nat)
    requires i <= |src|
    ensures Number(src, i).Ok? ==> IsNumber(Number(src, i).value)
  {
    var r := Number(src, i);
    if r.Ok? {
      var s := if At(src, i, '-') then i + 1 else i;
      var whole := Digits(src, s);
      var frac := src[whole.pos..r.pos];
      assert src[i..r.pos] == src[i..s] + src[s..whole.pos] + frac;
      assert frac != "" ==> frac[1..] == src[whole.pos + 1..r.pos];
      NumberParts(r.value, src[i..s], src[s..whole.pos], frac);
    }
  }

  lemma {:induction false} StringWf(src: string, i: nat)
    requires At(src, i, '"')
    ensures StringLit(src, i).Ok? ==> WfInline(src, StringLit(src, i).value)
  {
    if StringLit(src, i).Ok? {
      var end := StringEnd(src, i + 1).pos;
      StringCloses(src, i);
      ScannedUnits(src, i + 1, end);
      assert QuotedAt(src, src[i + 1..end], i);
    }
  }

  lemma {:induction false} StringCloses(src: string, i: nat)
    requires At(src, i, '"') && StringLit(src, i).Ok?
    ensures
      var end := StringEnd(src, i + 1);
      end.Ok? && At(src, end.pos, '"') && StringLit(src, i) == Ok(StringLiteral(src[i + 1..end.pos]), end.pos + 1)
  {
  }

  /** A placeholder of the scan: a slice in bounds that opens with its indent of
      blanks and holds no brace, and no newline but at its end. */
  ghost predicate ValidSlice(src: string, start: nat, end: nat, indent: nat) {
    && start + indent <= end <= |src| && start < end
    && (forall k | start <= k < start + indent :: src[k] == ' ')
    && (forall k | start <= k < end :: src[k] != '{' && src[k] != '}' && (src[k] == '\n' ==> k == end - 1))
  }

  ghost predicate ValidPlaceholder(src: string, el: Placeholder) {
    match el
    case Slice(start, end, indent, role) => ValidSlice(src, start, end, indent) && (role != LineStart ==> indent == 0)
    case Hole(_, _, e, _) => WfPlaceable(src, e)
  }

  ghost predicate ValidScan(src: string, scan: Scan) {
    scan.Valid() && forall k | 0 <= k < |scan.elements| :: ValidPlaceholder(src, scan.elements[k])
  }

  lemma {:induction false} AddSliceValid(src: string, scan: Scan, i: nat, j: nat)
    requires i <= j < |src| && ValidScan(src, scan) && TextAt(src, j).Ok?
    requires forall k | i <= k < j :: src[k] == ' '
    requires scan.role != LineStart ==> i == j
    ensures ValidScan(src, AddSlice(scan, i, j - i, TextAt(src, j).value))
  {
    SliceValid(src, scan, i, j);
  }

  lemma {:induction false} SliceValid(src: string, scan: Scan, i: nat, j: nat)
    requires i <= j < |src| && TextAt(src, j).Ok?
    requires forall k | i <= k < j :: src[k] == ' '
    requires scan.role != LineStart ==> i == j
    ensures j != TextAt(src, j).value.end ==>
              ValidPlaceholder(src, Slice(i, TextAt(src, j).value.end, j - i, scan.role))
  {
    var t, stop := TextAt(src, j).value, TextStop(src, j);
    if j != t.end {
      forall k | i <= k < t.end
        ensures src[k] != '{' && src[k] != '}' && (src[k] == '\n' ==> k == t.end - 1)
      {
        assert k < j ==> src[k] == ' ';
      }
    }
  }

  lemma {:induction false} TextStepWf(src: string, i: nat, scan: Scan)
    requires i < |src| && src[i] != '{' && ValidScan(src, scan)
    ensures
      var r := TextStep(src, i, scan);
      r.Ok? && r.value.Go? ==> ValidScan(src, r.value.scan)
  {
    var r := TextStep(src, i, scan);
    if r.Ok? && r.value.Go? {
      AddSliceValid(src, scan, i, if scan.role == LineStart then SkipBlankInline(src, i) else i);
    }
  }

  lemma {:induction false} PatternWf(src: string, i: nat)
    requires i <= |src|
    ensures
      var r := PatternAt(src, i);
      r.Ok? && r.value.Some? ==> WfPattern(src, r.value.value)
    decreases |src| - i, 6
  {
    var (j, role) := PatternStart(src, i);
    ScanWf(src, j, Scan([], -1, -1, role));
    var r := PatternScan(src, j, Scan([], -1, -1, role));
    if r.Ok? && r.value.lastNonBlank >= 0 {
      forall k | 0 <= k <= r.value.lastNonBlank
        ensures WfElement(src, FinishElement(src, r.value.elements[k], r.value.commonIndent, k == r.value.lastNonBlank))
      {
        FinishedWf(src, r.value.elements[k], r.value.commonIndent, k == r.value.lastNonBlank);
      }
    }
  }

  lemma {:induction false} FinishedWf(src: string, el: Placeholder, commonIndent: int, last: bool)
    requires ValidPlaceholder(src, el)
    ensures WfElement(src, FinishElement(src, el, commonIndent, last))
  {
    match el
    case Hole(_, _, e, _) => assert FinishElement(src, el, commonIndent, last) == Placeable(e);
    case Slice(_, _, _, _) => FinishedSlice(src, el, commonIndent, last);
  }

  lemma {:induction false} FinishedSlice(src: string, el: Placeholder, commonIndent: int, last: bool)
    requires el.Slice? && ValidPlaceholder(src, el)
    ensures FinishElement(src, el, commonIndent, last).Text?
    ensures PartOf(src, FinishElement(src, el, commonIndent, last).text)
  {
    TextPart(src, el.start + Cut(el, commonIndent), el.end, last);
  }

  lemma {:induction false} TextPart(src: string, i: nat, j: nat, last: bool)
    requires i <= j <= |src|
    ensures PartOf(src, if last then TrimEnd(Sub(src, i, j)) else Sub(src, i, j))
  {
    var t := if last then TrimEnd(src[i..j]) else src[i..j];
    assert t == src[i..i + |t|];
  }

  lemma {:induction false} ScanWf(src: string, i: nat, scan: Scan)
    requires i <= |src| && ValidScan(src, scan)
    ensures PatternScan(src, i, scan).Ok? ==> ValidScan(src, PatternScan(src, i, scan).value)
    decreases |src| - i, 5
  {
    if i < |src| {
      NextElementWf(src, i, scan);
      var step := NextElement(src, i, scan);
      if step.Ok? && step.value.Go? {
        ScanWf(src, step.pos, step.value.scan);
      }
    }
  }

  lemma {:induction false} NextElementWf(src: string, i: nat, scan: Scan)
    requires i < |src| && ValidScan(src, scan)
    ensures
      var r := NextElement(src, i, scan);
      r.Ok? && r.value.Go? ==> ValidScan(src, r.value.scan)
    decreases |src| - i, 4
  {
    if src[i] != '{' {
      TextStepWf(src, i, scan);
    } else {
      PlaceableWf(src, i + 1);
    }
  }

  lemma {:induction false} PlaceableWf(src: string, i: nat)
    requires i <= |src|
    ensures PlaceableAt(src, i).Ok? ==> WfPlaceable(src, PlaceableAt(src, i).value)
    decreases |src| - i, 3
  {
    ExpressionWf(src, SkipBlank(src, i));
  }

  lemma {:induction false} ExpressionWf(src: string, i: nat)
    requires i <= |src|
    ensures ExpressionAt(src, i).Ok? ==> WfPlaceable(src, ExpressionAt(src, i).value)
    decreases |src| - i, 2
  {
    InlineWf(src, i, false);
    var e := InlineAt(src, i, false);
    if e.Ok? {
      AfterInlineWf(src, SkipBlank(src, e.pos), e.value);
    }
  }

  lemma {:induction false} AfterInlineWf(src: string, i: nat, e: InlineExpr)
    requires i <= |src| && WfInline(src, e)
    ensures AfterInline(src, i, e).Ok? ==> WfPlaceable(src, AfterInline(src, i, e).value)
    decreases |src| - i, 4
  {
    if At(src, i, '-') && At(src, i + 1, '>') && SelectorError(e).None? {
      SelectWf(src, i + 2, e);
    }
  }

  lemma {:induction false} SelectWf(src: string, i: nat, selector: InlineExpr)
    requires i <= |src| && WfInline(src, selector) && SelectorError(selector).None?
    ensures SelectAt(src, i, selector).Ok? ==> WfPlaceable(src, SelectAt(src, i, selector).value)
    decreases |src| - i, 3
  {
    var k := SkipBlankInline(src, i);
    if SkipEol(src, k) != k {
      VariantsWf(src, SkipBlank(src, SkipEol(src, k)), [], false);
    }
  }

  lemma {:induction false} VariantsWf(src: string, i: nat, sofar: seq<Variant>, hasDefault: bool)
    requires i <= |src| && WfVariants(src, sofar) && OneDefault(sofar) && (!hasDefault ==> NoDefault(sofar))
    ensures
      var r := VariantsAt(src, i, sofar, hasDefault);
      r.Ok? ==> WfVariants(src, r.value) && OneDefault(r.value)
    decreases |src| - i, 9
  {
    var v := NextVariant(src, i, hasDefault);
    if v.Ok? && v.value.Some? {
      NextVariantWf(src, i, hasDefault, v.value.value, v.pos);
      VariantsWf(src, SkipBlank(src, v.pos), sofar + [v.value.value], hasDefault || v.value.value.isDefault);
    }
  }

  lemma {:induction false} NextVariantWf(src: string, i: nat, hasDefault: bool, v: Variant, end: nat)
    requires i <= |src| && NextVariant(src, i, hasDefault) == Ok(Some(v), end)
    ensures WfVariant(src, v) && !(hasDefault && v.isDefault)
    decreases |src| - i, 8
  {
    var star := At(src, i, '*');
    BracketedWf(src, if star then i + 1 else i, star, hasDefault, v, end);
  }

  lemma {:induction false} BracketedWf(src: string, i: nat, star: bool, hasDefault: bool, v: Variant, end: nat)
    requires i <= |src| && Bracketed(src, i, star, hasDefault) == Ok(Some(v), end)
    ensures WfVariant(src, v) && v.isDefault == star
    decreases |src| - i, 7
  {
    VariantWf(src, i + 1, star);
  }

  lemma {:induction false} VariantWf(src: string, i: nat, star: bool)
    requires i <= |src|
    ensures
      var r := VariantAt(src, i, star);
      r.Ok? ==> WfVariant(src, r.value) && r.value.isDefault == star
    decreases |src| - i, 7
  {
    VariantKeyWf(src, i);
    var key := VariantKeyAt(src, i);
    if key.Ok? {
      PatternWf(src, key.pos);
    }
  }

  lemma {:induction false} VariantKeyWf(src: string, i: nat)
    requires i <= |src|
    ensures
      var r := VariantKeyAt(src, i);
      r.Ok? ==> if r.value.1 then IsNumber(r.value.0) else IsIdentifier(r.value.0)
  {
    NumberWf(src, SkipBlank(src, i));
  }

  lemma {:induction false} InlineWf(src: string, i: nat, onlyLiteral: bool)
    requires i <= |src|
    ensures
      var r := InlineAt(src, i, onlyLiteral);
      r.Ok? ==> WfInline(src, r.value) && (onlyLiteral ==> LiteralLike(r.value))
    decreases |src| - i, 1
  {
    if i < |src| {
      if src[i] == '"' {
        StringWf(src, i);
      } else if IsDigit(src[i]) {
        NumberWf(src, i);
      } else if src[i] == '-' && !onlyLiteral {
        NumberWf(src, i);
        if i + 1 < |src| && IsAlpha(src[i + 1]) {
          var attr := AttributeAccessor(src, Identifier(src, i + 1).pos);
          CallWf(src, attr.pos);
        }
      } else if IsAlpha(src[i]) {
        CallWf(src, Identifier(src, i).pos);
      } else if src[i] == '{' && !onlyLiteral {
        PlaceableWf(src, i + 1);
      }
    }
  }

  lemma {:induction false} CallWf(src: string, i: nat)
    requires i <= |src|
    ensures
      var r := CallArgumentsAt(src, i);
      r.Ok? && r.value.Some? ==> WfArgs(src, r.value.value)
    decreases |src| - i, 0
  {
    var j := SkipBlank(src, i);
    if At(src, j, '(') {
      ArgumentsWf(src, SkipBlank(src, j + 1), CallArgs([], []));
    }
  }

  lemma {:induction false} ArgumentsWf(src: string, i: nat, sofar: CallArgs)
    requires i <= |src| && WfArgs(src, sofar)
    ensures ArgumentsAt(src, i, sofar).Ok? ==> WfArgs(src, ArgumentsAt(src, i, sofar).value)
    decreases |src| - i, 3
  {
    if i < |src| && src[i] != ')' {
      ArgumentWf(src, i, sofar);
      var one := ArgumentAt(src, i, sofar);
      if one.Ok? {
        ArgumentsWf(src, AfterArgument(src, one.pos), one.value);
      }
    }
  }

  lemma {:induction false} ArgumentWf(src: string, i: nat, sofar: CallArgs)
    requires i < |src| && WfArgs(src, sofar)
    ensures ArgumentAt(src, i, sofar).Ok? ==> WfArgs(src, ArgumentAt(src, i, sofar).value)
    decreases |src| - i, 2
  {
    InlineWf(src, i, false);
    var e := InlineAt(src, i, false);
    if e.Ok? {
      var bare := e.value.MessageRef? && e.value.attr == "";
      var j := SkipBlank(src, e.pos);
      if bare && At(src, j, ':') {
        NamedArgumentWf(src, j, e.value.id, sofar);
      } else {
        AddPositionalWf(src, sofar, e.value);
      }
    }
  }

  lemma {:induction false} NamedArgumentWf(src: string, i: nat, name: string, sofar: CallArgs)
    requires At(src, i, ':') && WfArgs(src, sofar) && IsIdentifier(name)
    ensures NamedArgumentAt(src, i, name, sofar).Ok? ==> WfArgs(src, NamedArgumentAt(src, i, name, sofar).value)
    decreases |src| - i, 2
  {
    InlineWf(src, SkipBlank(src, i + 1), true);
    var val := InlineAt(src, SkipBlank(src, i + 1), true);
    if val.Ok? && name !in Names(sofar.named) {
      AddNamedWf(src, sofar, NamedArg(name, val.value));
    }
  }

  lemma {:induction false} AddNamedWf(src: string, c: CallArgs, n: NamedArg)
    requires WfArgs(src, c) && WfNamed(src, n) && n.name !in Names(c.named)
    ensures WfArgs(src, c.(named := c.named + [n]))
  {
    forall k | 0 <= k < |c.named| ensures c.named[k].name != n.name {
      assert Names(c.named)[k] in Names(c.named);
    }
  }

  lemma {:induction false} AddPositionalWf(src: string, c: CallArgs, e: InlineExpr)
    requires WfArgs(src, c) && WfInline(src, e)
    ensures WfArgs(src, c.(positional := c.positional + [e]))
  {
  }

  lemma {:induction false} AttributeWf(src: string, i: nat)
    requires i <= |src|
    ensures AttributeAt(src, i).Ok? ==> WfAttribute(src, AttributeAt(src, i).value)
  {
    var id := Identifier(src, i);
    if id.Ok? {
      var eq := Expect(src, SkipBlankInline(src, id.pos), '=');
      if eq.Ok? {
        PatternWf(src, eq.pos);
      }
    }
  }

  lemma {:induction false} NextAttributeWf(src: string, i: nat, a: Attribute, end: nat)
    requires i <= |src| && NextAttribute(src, i) == (Some(a), end)
    ensures WfAttribute(src, a)
  {
    AttributeWf(src, SkipBlankInline(src, i) + 1);
  }

  lemma {:induction false} AttributesWf(src: string, i: nat, sofar: seq<Attribute>)
    requires i <= |src| && forall k | 0 <= k < |sofar| :: WfAttribute(src, sofar[k])
    ensures forall k | 0 <= k < |AttributesAt(src, i, sofar).0| :: WfAttribute(src, AttributesAt(src, i, sofar).0[k])
    decreases |src| - i
  {
    var (a, j) := NextAttribute(src, i);
    if a.Some? {
      NextAttributeWf(src, i, a.value, j);
      AttributesWf(src, j, sofar + [a.value]);
    }
  }

  lemma {:induction false} MessageWf(src: string, i: nat)
    requires i <= |src|
    ensures MessageAt(src, i).Ok? ==> !MessageAt(src, i).value.term && WfEntry(src, MessageAt(src, i).value)
  {
    if MessageAt(src, i).Ok? {
      var eq := Expect(src, SkipBlankInline(src, Identifier(src, i).pos), '=');
      var value := PatternAt(src, eq.pos);
      PatternWf(src, eq.pos);
      AttributesWf(src, SkipBlankBlock(src, value.pos), []);
    }
  }

  lemma {:induction false} TermWf(src: string, i: nat)
    requires i <= |src|
    ensures TermAt(src, i).Ok? ==> TermAt(src, i).value.term && WfEntry(src, TermAt(src, i).value)
  {
    if TermAt(src, i).Ok? {
      var id := Identifier(src, i + 1);
      TermBodyWf(src, i, id.value, id.pos);
    }
  }

  lemma {:induction false} TermBodyWf(src: string, start: nat, name: string, i: nat)
    requires i <= |src| && IsIdentifier(name)
    ensures
      var r := TermBody(src, start, name, i);
      r.Ok? ==> r.value.term && WfEntry(src, r.value)
  {
    var eq := Expect(src, SkipBlankInline(src, i), '=');
    if eq.Ok? {
      var value := PatternAt(src, SkipBlankInline(src, eq.pos));
      PatternWf(src, SkipBlankInline(src, eq.pos));
      AttributesWf(src, SkipBlankBlock(src, value.pos), []);
    }
  }

  lemma {:induction false} ItemsWf(src: string, i: nat)
    ensures forall e | e in EntriesOf(ItemsFrom(src, i)) :: WfEntry(src, e)
    decreases |src| - i
  {
    if i < |src| {
      TermWf(src, i);
      MessageWf(src, i);
      var item := ItemAt(src, i);
      ItemsWf(src, SkipBlankBlock(src, item.end));
      assert ItemsFrom(src, i)[1..] == ItemsFrom(src, SkipBlankBlock(src, item.end));
    }
  }

  /** Every entry the parser returns is well formed, whatever the source. */
  lemma {:induction false} ParseWf(src: string)
    ensures forall e | e in Parse(src).entries :: WfEntry(src, e)
  {
    ItemsWf(src, SkipBlankBlock(src, 0));
  }
}
