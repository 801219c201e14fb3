/** The Fluent runtime parser as functions from a source and a cursor to a result
    and the next cursor. An entry that cannot be read becomes junk up to the next
    line that can start an entry. */
module ParserSpec {
  import opened FluentSyntax
  import opened Options
  import opened Chars

  /** Either way the cursor has moved to pos; error.pos may lie before it. */
  datatype Res<+T> = Ok(value: T, pos: nat) | Err(error: ParseError, pos: nat)

  function Fail<T>(kind: ErrorKind, i: nat): (r: Res<T>)
    ensures r.Err? && r.pos == i
  {
    Err(ParseError(kind, i), i)
  }

  predicate At(src: string, i: nat, c: char) { i < |src| && src[i] == c }

  predicate CrLf(src: string, i: nat) { At(src, i, '\r') && At(src, i + 1, '\n') }

  // ----- blanks and line ends -----

  function SkipBlankInline(src: string, i: nat): (j: nat)
    ensures i <= j && (i <= |src| ==> j <= |src|) && !At(src, j, ' ')
    ensures forall k | i <= k < j :: k < |src| && src[k] == ' '
    decreases |src| - i
  {
    if At(src, i, ' ') then SkipBlankInline(src, i + 1) else i
  }

  /** The cursor after a line end at i, or i itself. */
  function SkipEol(src: string, i: nat): (j: nat)
    ensures j == i || j == i + 1 || j == i + 2
    ensures i <= |src| ==> j <= |src|
  {
    if At(src, i, '\n') then i + 1 else if CrLf(src, i) then i + 2 else i
  }

  predicate IsEol(src: string, i: nat) { i >= |src| || src[i] == '\n' || CrLf(src, i) }

  /** Skips whole blank lines. */
  function SkipBlankBlock(src: string, i: nat): (j: nat)
    ensures i <= j && (i <= |src| ==> j <= |src|)
    ensures forall k | i <= k < j :: k < |src| && src[k] in {' ', '\r', '\n'}
    decreases |src| - i
  {
    var j := SkipBlankInline(src, i);
    if SkipEol(src, j) == j then i else SkipBlankBlock(src, SkipEol(src, j))
  }

  function SkipBlank(src: string, i: nat): (j: nat)
    ensures i <= j && (i <= |src| ==> j <= |src|)
    decreases |src| - i
  {
    if At(src, i, ' ') || At(src, i, '\n') then SkipBlank(src, i + 1)
    else if CrLf(src, i) then SkipBlank(src, i + 2)
    else i
  }

  // ----- tokens -----

  function Expect(src: string, i: nat, c: char): (r: Res<()>)
    ensures r.Ok? ==> r.pos == i + 1 && At(src, i, c)
    ensures r.Err? ==> r.pos == i
  {
    if At(src, i, c) then Ok((), i + 1) else Fail(ExpectedToken(c), i)
  }

  function IdentEnd(src: string, i: nat): (j: nat)
    requires i <= |src|
    ensures i <= j <= |src| && forall k | i <= k < j :: IsIdentChar(src[k])
    ensures j < |src| ==> !IsIdentChar(src[j])
    decreases |src| - i
  {
    if i < |src| && IsIdentChar(src[i]) then IdentEnd(src, i + 1) else i
  }

  function Identifier(src: string, i: nat): (r: Res<string>)
    ensures r.Ok? ==> i < r.pos <= |src| && r.value == src[i..r.pos] && IsIdentifier(r.value)
    ensures r.Ok? <==> i < |src| && IsAlpha(src[i])
    ensures r.Err? ==> r.pos == i
  {
    if i < |src| && IsAlpha(src[i]) then
      var j := IdentEnd(src, i + 1);
      assert forall k | 0 <= k < j - i :: IsIdentChar(src[i..j][k]);
      Ok(src[i..j], j)
    else Fail(ExpectedLetter, i)
  }

  function AttributeAccessor(src: string, i: nat): (r: Res<string>)
    ensures i <= |src| ==> i <= r.pos <= |src|
    ensures r.Ok? ==> r.value == "" || IsIdentifier(r.value)
  {
    if At(src, i, '.') then Identifier(src, i + 1) else Ok("", i)
  }

  function DigitsEnd(src: string, i: nat): (j: nat)
    requires i <= |src|
    ensures i <= j <= |src| && forall k | i <= k < j :: IsDigit(src[k])
    ensures j < |src| ==> !IsDigit(src[j])
    decreases |src| - i
  {
    if i < |src| && IsDigit(src[i]) then DigitsEnd(src, i + 1) else i
  }

  function Digits(src: string, i: nat): (r: Res<()>)
    requires i <= |src|
    ensures i <= r.pos <= |src|
    ensures r.Ok? ==> i < r.pos && All(src[i..r.pos], IsDigit)
  {
    var j := DigitsEnd(src, i);
    if j == i then Fail(ExpectedDigit, i) else Ok((), j)
  }

  function Number(src: string, i: nat): (r: Res<string>)
    requires i <= |src|
    ensures i <= r.pos <= |src|
    ensures r.Ok? ==> i < r.pos && r.value == src[i..r.pos]
  {
    var s := if At(src, i, '-') then i + 1 else i;
    var whole := Digits(src, s);
    if whole.Err? then Err(whole.error, whole.pos)
    else if At(src, whole.pos, '.') then
      var frac := Digits(src, whole.pos + 1);
      if frac.Err? then Err(frac.error, frac.pos) else Ok(src[i..frac.pos], frac.pos)
    else Ok(src[i..whole.pos], whole.pos)
  }

  predicate IsNumberStart(src: string, i: nat) { i < |src| && (IsDigit(src[i]) || src[i] == '-') }

  // ----- string literals -----

  /** The end of at most n hexadecimal digits. */
  function HexEnd(src: string, i: nat, n: nat): (j: nat)
    requires i <= |src|
    ensures i <= j <= |src| && j <= i + n && forall k | i <= k < j :: IsHex(src[k])
    ensures j < i + n ==> j == |src| || !IsHex(src[j])
    decreases n
  {
    if n > 0 && i < |src| && IsHex(src[i]) then HexEnd(src, i + 1, n - 1) else i
  }

  /** The cursor at the closing quote, from position i of the content. */
  function StringEnd(src: string, i: nat): (r: Res<()>)
    requires i <= |src|
    ensures i <= r.pos <= |src|
    ensures r.Ok? ==> r.pos == |src| || src[r.pos] == '"'
    decreases |src| - i
  {
    if i == |src| || src[i] == '"' then Ok((), i)
    else if src[i] == '\n' then Fail(UnterminatedStringLiteral, i)
    else if src[i] != '\\' then StringEnd(src, i + 1)
    else if i + 1 < |src| && src[i + 1] in {'\\', '{', '"'} then StringEnd(src, i + 2)
    else if i + 1 < |src| && src[i + 1] in {'u', 'U'} then
      var n := if src[i + 1] == 'u' then 4 else 6;
      var j := HexEnd(src, i + 2, n);
      if j == i + 2 + n then StringEnd(src, j) else Fail(InvalidUnicodeEscape, j)
    else Fail(UnknownEscape, i)
  }

  /** A string literal whose opening quote is at i. */
  function StringLit(src: string, i: nat): (r: Res<InlineExpr>)
    requires At(src, i, '"')
    ensures i < r.pos <= |src|
    ensures r.Ok? ==> i + 2 <= r.pos && r.value == StringLiteral(src[i + 1..r.pos - 1])
  {
    var end := StringEnd(src, i + 1);
    if end.Err? then Err(end.error, end.pos)
    else
      var close := Expect(src, end.pos, '"');
      if close.Err? then Err(close.error, close.pos)
      else Ok(StringLiteral(src[i + 1..close.pos - 1]), close.pos)
  }

  // ----- patterns -----

  /** Where a text element sits, which drives the dedent. */
  datatype Role = InitialLineStart | LineStart | Continuation

  datatype Termination = ByLineFeed | ByCrLf | ByPlaceableStart | ByEof

  /** An element still expressed as source offsets, or a placeable parsed between its
      braces. */
  datatype Placeholder =
    | Slice(start: nat, end: nat, indent: nat, role: Role)
    | Hole(start: nat, end: nat, expr: Expression, role: Role)

  datatype TextSlice = TextSlice(end: nat, blank: bool, term: Termination)

  /** The first newline or brace at or after i. */
  function TextStop(src: string, i: nat): (j: nat)
    requires i <= |src|
    ensures i <= j <= |src|
    ensures forall k | i <= k < j :: src[k] != '\n' && src[k] != '{' && src[k] != '}'
    ensures j < |src| ==> src[j] == '\n' || src[j] == '{' || src[j] == '}'
    decreases |src| - i
  {
    if i == |src| || src[i] == '\n' || src[i] == '{' || src[i] == '}' then i else TextStop(src, i + 1)
  }

  predicate BlankText(s: string) { forall k | 0 <= k < |s| :: s[k] == ' ' }

  /** Text up to a newline, an opening brace, or the end; a closing brace is an
      error. A carriage return before the newline stops the text early and
      leaves the newline for the next line start. */
  function TextAt(src: string, i: nat): (r: Res<TextSlice>)
    requires i <= |src|
    ensures i <= r.pos <= |src|
    ensures r.Ok? ==> i <= r.value.end <= r.pos
    ensures r.Ok? && i < |src| && src[i] != '{' ==> i < r.pos
  {
    var stop := TextStop(src, i);
    if stop == |src| then Ok(TextSlice(stop, BlankText(src[i..stop]), ByEof), stop)
    else if src[stop] == '}' then Fail(UnbalancedClosingBrace, stop)
    else if src[stop] == '{' then Ok(TextSlice(stop, BlankText(src[i..stop]), ByPlaceableStart), stop)
    else if stop > i && src[stop - 1] == '\r' then
      Ok(TextSlice(stop - 1, BlankText(src[i..stop - 1]), ByCrLf), stop)
    else Ok(TextSlice(stop + 1, BlankText(src[i..stop]), ByLineFeed), stop + 1)
  }

  predicate IsPatternContinuation(c: char) { c != '.' && c != '}' && c != '[' && c != '*' }

  /** The loop variables of the pattern scan; -1 stands for none. */
  datatype Scan = Scan(elements: seq<Placeholder>, lastNonBlank: int, commonIndent: int, role: Role)
  {
    predicate Valid() { -1 <= lastNonBlank < |elements| }
  }

  /** What a text slice adds to the scan. */
  function AddSlice(scan: Scan, start: nat, indent: nat, t: TextSlice): Scan {
    var role := match t.term { case ByLineFeed => LineStart case ByCrLf => LineStart case _ => Continuation };
    if start + indent == t.end then scan.(role := role)
    else
      var common := if scan.role == LineStart && !t.blank && (scan.commonIndent < 0 || indent < scan.commonIndent)
                    then indent else scan.commonIndent;
      if scan.role != LineStart || !t.blank || t.term == ByLineFeed then
        Scan(scan.elements + [Slice(start, t.end, indent, scan.role)],
             if t.blank then scan.lastNonBlank else |scan.elements|, common, role)
      else scan.(commonIndent := common, role := role)
  }

  function AddHole(scan: Scan, start: nat, end: nat, e: Expression): Scan {
    Scan(scan.elements + [Hole(start, end, e, scan.role)], |scan.elements|,
         if scan.role == LineStart then 0 else scan.commonIndent, Continuation)
  }

  /** The role of the first element, and where scanning starts. */
  function PatternStart(src: string, i: nat): (r: (nat, Role))
    ensures i <= r.0 && (i <= |src| ==> r.0 <= |src|)
  {
    var j := SkipBlankInline(src, i);
    if SkipEol(src, j) == j then (j, InitialLineStart)
    else (SkipBlankBlock(src, SkipEol(src, j)), LineStart)
  }

  function PatternAt(src: string, i: nat): (r: Res<Option<Pattern>>)
    requires i <= |src|
    ensures i <= r.pos <= |src|
    ensures r.Ok? && r.value.Some? ==> i < r.pos
    decreases |src| - i, 6
  {
    var (j, role) := PatternStart(src, i);
    var r := PatternScan(src, j, Scan([], -1, -1, role));
    if r.Err? then Err(r.error, r.pos)
    else Ok(Finish(src, r.value), r.pos)
  }

  /** The element loop from cursor i on. */
  function PatternScan(src: string, i: nat, scan: Scan): (r: Res<Scan>)
    requires i <= |src| && scan.Valid()
    ensures i <= r.pos <= |src|
    ensures r.Ok? ==> r.value.Valid()
    ensures r.Ok? && r.pos == i ==> r.value.lastNonBlank == scan.lastNonBlank
    decreases |src| - i, 5
  {
    if i == |src| then Ok(scan, i)
    else
      var step := NextElement(src, i, scan);
      if step.Err? then Err(step.error, step.pos)
      else if step.value.Stop? then Ok(scan, step.pos)
      else PatternScan(src, step.pos, step.value.scan)
  }

  /** One round of the element loop. */
  function NextElement(src: string, i: nat, scan: Scan): (r: Res<Step>)
    requires i < |src| && scan.Valid()
    ensures i <= r.pos <= |src|
    ensures r.Ok? && r.value.Go? ==> i < r.pos && r.value.scan.Valid()
    decreases |src| - i, 4
  {
    if src[i] != '{' then TextStep(src, i, scan)
    else
      var e := PlaceableAt(src, i + 1);
      if e.Err? then Err(e.error, e.pos) else Ok(Go(AddHole(scan, i, e.pos, e.value)), e.pos)
  }

  datatype Step = Stop | Go(scan: Scan)

  /** One round of the element loop that does not meet a placeable: the pattern
      ends, or a text slice joins the scan. */
  function TextStep(src: string, i: nat, scan: Scan): (r: Res<Step>)
    requires i < |src| && src[i] != '{' && scan.Valid()
    ensures i <= r.pos <= |src|
    ensures r.Ok? && r.value.Go? ==> i < r.pos && r.value.scan.Valid()
  {
    var j := if scan.role == LineStart then SkipBlankInline(src, i) else i;
    if j == |src| then Ok(Stop, j)
    else if scan.role == LineStart && j == i && src[j] != '\r' && src[j] != '\n' then Ok(Stop, j)
    else if scan.role == LineStart && j > i && !IsPatternContinuation(src[j]) then Ok(Stop, i)
    else
      var t := TextAt(src, j);
      if t.Err? then Err(t.error, t.pos) else Ok(Go(AddSlice(scan, i, j - i, t.value)), t.pos)
  }

  /** Trailing blanks and line ends removed. */
  function TrimEnd(s: string): (t: string)
    ensures t <= s
    ensures t != "" ==> t[|t| - 1] !in {' ', '\r', '\n'}
    ensures forall k | |t| <= k < |s| :: s[k] in {' ', '\r', '\n'}
  {
    if s != "" && s[|s| - 1] in {' ', '\r', '\n'} then TrimEnd(s[..|s| - 1]) else s
  }

  /** How much of its indent a text element loses. */
  function Cut(el: Placeholder, commonIndent: int): nat
    requires el.Slice?
  {
    if el.role != LineStart then 0
    else if commonIndent < 0 || el.indent <= commonIndent then el.indent
    else commonIndent
  }

  function Sub(src: string, i: nat, j: nat): string { if i <= j <= |src| then src[i..j] else "" }

  function FinishElement(src: string, el: Placeholder, commonIndent: int, last: bool): Element
  {
    match el
    case Hole(_, _, e, _) => Placeable(e)
    case Slice(start, end, _, _) =>
      var value := Sub(src, start + Cut(el, commonIndent), end);
      FluentSyntax.Text(if last then TrimEnd(value) else value)
  }

  function FinishElements(src: string, scan: Scan): (es: seq<Element>)
    requires scan.Valid()
    ensures |es| == scan.lastNonBlank + 1
    ensures forall k | 0 <= k < |es| ::
              es[k] == FinishElement(src, scan.elements[k], scan.commonIndent, k == scan.lastNonBlank)
  {
    seq(scan.lastNonBlank + 1, k requires 0 <= k <= scan.lastNonBlank =>
      FinishElement(src, scan.elements[k], scan.commonIndent, k == scan.lastNonBlank))
  }

  /** The pattern up to its last non-blank element; None when there is none. */
  function Finish(src: string, scan: Scan): Option<Pattern>
    requires scan.Valid()
  {
    if scan.lastNonBlank < 0 then None else Some(Pattern(FinishElements(src, scan)))
  }

  // ----- expressions -----

  /** The placeable after its opening brace. */
  function PlaceableAt(src: string, i: nat): (r: Res<Expression>)
    requires i <= |src|
    ensures i <= r.pos <= |src|
    ensures r.Ok? ==> i < r.pos
    decreases |src| - i, 3
  {
    var e := ExpressionAt(src, SkipBlank(src, i));
    if e.Err? then Err(e.error, e.pos)
    else
      var close := Expect(src, SkipBlankInline(src, e.pos), '}');
      if close.Err? then Err(close.error, close.pos)
      else if IsTermAttribute(e.value) then Fail(TermAttributeAsPlaceable, close.pos)
      else Ok(e.value, close.pos)
  }

  predicate IsTermAttribute(e: Expression) { e.Inline? && e.e.TermRef? && e.e.attr != "" }

  /** Why an expression cannot be a selector, None when it can. */
  function SelectorError(e: InlineExpr): Option<ErrorKind> {
    match e
    case MessageRef(_, attr) => Some(if attr == "" then MessageReferenceAsSelector else MessageAttributeAsSelector)
    case TermRef(_, attr, _) => if attr == "" then Some(TermReferenceAsSelector) else None
    case NestedPlaceable(_) => Some(ExpectedSimpleExpression)
    case _ => None
  }

  function ExpressionAt(src: string, i: nat): (r: Res<Expression>)
    requires i <= |src|
    ensures i <= r.pos <= |src|
    ensures r.Ok? ==> i < r.pos
    decreases |src| - i, 2
  {
    var e := InlineAt(src, i, false);
    if e.Err? then Err(e.error, e.pos)
    else AfterInline(src, SkipBlank(src, e.pos), e.value)
  }

  /** An inline expression is a placeable of its own or, before an arrow, a selector. */
  function AfterInline(src: string, i: nat, e: InlineExpr): (r: Res<Expression>)
    requires i <= |src|
    ensures i <= r.pos <= |src|
    decreases |src| - i, 4
  {
    if !(At(src, i, '-') && At(src, i + 1, '>')) then
      if e.TermRef? && e.attr != "" then Fail(TermAttributeAsPlaceable, i)
      else Ok(Inline(e), i)
    else if SelectorError(e).Some? then Fail(SelectorError(e).value, i)
    else SelectAt(src, i + 2, e)
  }

  /** The rest of a select expression, after its arrow. */
  function SelectAt(src: string, i: nat, selector: InlineExpr): (r: Res<Expression>)
    requires i <= |src|
    ensures i <= r.pos <= |src|
    decreases |src| - i, 3
  {
    var k := SkipBlankInline(src, i);
    if SkipEol(src, k) == k then Fail(ExpectedLineEnd, k)
    else
      var vs := VariantsAt(src, SkipBlank(src, SkipEol(src, k)), [], false);
      if vs.Err? then Err(vs.error, vs.pos) else Ok(Select(selector, vs.value), vs.pos)
  }

  /** The variants from cursor i on. */
  function VariantsAt(src: string, i: nat, sofar: seq<Variant>, hasDefault: bool): (r: Res<seq<Variant>>)
    requires i <= |src|
    ensures i <= r.pos <= |src|
    decreases |src| - i, 9
  {
    var v := NextVariant(src, i, hasDefault);
    if v.Err? then Err(v.error, v.pos)
    else if v.value.None? then Ok(sofar, v.pos)
    else VariantsAt(src, SkipBlank(src, v.pos), sofar + [v.value.value], hasDefault || v.value.value.isDefault)
  }

  /** The next variant, or None at the end of the list. A star not followed by a
      bracket still counts as the default. */
  function NextVariant(src: string, i: nat, hasDefault: bool): (r: Res<Option<Variant>>)
    requires i <= |src|
    ensures i <= r.pos <= |src| && (r.Ok? && r.value.Some? ==> i < r.pos)
    decreases |src| - i, 8
  {
    var star := At(src, i, '*');
    var j := if star then i + 1 else i;
    if star && hasDefault then Fail(MultipleDefaultVariants, j) else Bracketed(src, j, star, hasDefault)
  }

  /** A variant from its bracket, or the end of the list. */
  function Bracketed(src: string, i: nat, star: bool, hasDefault: bool): (r: Res<Option<Variant>>)
    requires i <= |src|
    ensures i <= r.pos <= |src| && (r.Ok? && r.value.Some? ==> i < r.pos)
    decreases |src| - i, 7
  {
    if At(src, i, '[') then
      var v := VariantAt(src, i + 1, star);
      if v.Err? then Err(v.error, v.pos) else Ok(Some(v.value), v.pos)
    else if hasDefault || star then Ok(None, i)
    else Fail(MissingDefaultVariant, i)
  }

  /** One variant, after its opening bracket. */
  function VariantAt(src: string, i: nat, star: bool): (r: Res<Variant>)
    requires i <= |src|
    ensures i <= r.pos <= |src|
    decreases |src| - i, 7
  {
    var key := VariantKeyAt(src, i);
    if key.Err? then Err(key.error, key.pos)
    else
      var value := PatternAt(src, key.pos);
      if value.Err? then Err(value.error, value.pos)
      else if value.value.None? then Fail(MissingValue, value.pos)
      else Ok(Variant(key.value.0, key.value.1, value.value.value, star), value.pos)
  }

  function VariantKeyAt(src: string, i: nat): (r: Res<(string, bool)>)
    requires i <= |src|
    ensures i <= r.pos <= |src|
    ensures r.Ok? ==> i < r.pos
  {
    var j := SkipBlank(src, i);
    var numeric := IsNumberStart(src, j);
    var key := if numeric then Number(src, j) else Identifier(src, j);
    if key.Err? then Err(key.error, key.pos)
    else
      var close := Expect(src, SkipBlank(src, key.pos), ']');
      if close.Err? then Err(close.error, close.pos) else Ok((key.value, numeric), close.pos)
  }

  predicate IsCalleeChar(c: char) { 'A' <= c <= 'Z' || IsDigit(c) || c == '_' || c == '-' }

  function InlineAt(src: string, i: nat, onlyLiteral: bool): (r: Res<InlineExpr>)
    requires i <= |src|
    ensures i <= r.pos <= |src|
    ensures r.Ok? ==> i < r.pos
    decreases |src| - i, 1
  {
    if i == |src| then Fail(if onlyLiteral then ExpectedLiteral else ExpectedInlineExpression, i)
    else if src[i] == '"' then
      StringLit(src, i)
    else if IsDigit(src[i]) then
      var n := Number(src, i);
      if n.Err? then Err(n.error, n.pos) else Ok(NumberLiteral(n.value), n.pos)
    else if src[i] == '-' && !onlyLiteral then
      if i + 1 < |src| && IsAlpha(src[i + 1]) then
        var id := Identifier(src, i + 1);
        var attr := AttributeAccessor(src, id.pos);
        if attr.Err? then Err(attr.error, attr.pos)
        else
          var args := CallArgumentsAt(src, attr.pos);
          if args.Err? then Err(args.error, args.pos)
          else Ok(TermRef(id.value, attr.value, args.value), args.pos)
      else
        var n := Number(src, i);
        if n.Err? then Err(n.error, n.pos) else Ok(NumberLiteral(n.value), n.pos)
    else if src[i] == '$' && !onlyLiteral then
      var id := Identifier(src, i + 1);
      if id.Err? then Err(id.error, id.pos) else Ok(VariableRef(id.value), id.pos)
    else if IsAlpha(src[i]) then
      var id := Identifier(src, i);
      var args := CallArgumentsAt(src, id.pos);
      if args.Err? then Err(args.error, args.pos)
      else if args.value.Some? then
        if All(id.value, IsCalleeChar) then Ok(FunctionRef(id.value, args.value.value), args.pos)
        else Fail(ForbiddenCallee, args.pos)
      else
        var attr := AttributeAccessor(src, args.pos);
        if attr.Err? then Err(attr.error, attr.pos) else Ok(MessageRef(id.value, attr.value), attr.pos)
    else if src[i] == '{' && !onlyLiteral then
      var e := PlaceableAt(src, i + 1);
      if e.Err? then Err(e.error, e.pos) else Ok(NestedPlaceable(e.value), e.pos)
    else Fail(if onlyLiteral then ExpectedLiteral else ExpectedInlineExpression, i)
  }

  /** Call arguments when there is an opening parenthesis; blanks before it are
      skipped either way. */
  function CallArgumentsAt(src: string, i: nat): (r: Res<Option<CallArgs>>)
    requires i <= |src|
    ensures i <= r.pos <= |src|
    decreases |src| - i, 0
  {
    var j := SkipBlank(src, i);
    if !At(src, j, '(') then Ok(None, j)
    else
      var args := ArgumentsAt(src, SkipBlank(src, j + 1), CallArgs([], []));
      if args.Err? then Err(args.error, args.pos)
      else
        var close := Expect(src, args.pos, ')');
        if close.Err? then Err(close.error, close.pos) else Ok(Some(args.value), close.pos)
  }

  function Names(named: seq<NamedArg>): (names: seq<string>)
    ensures |names| == |named| && forall k | 0 <= k < |named| :: names[k] == named[k].name
  {
    seq(|named|, k requires 0 <= k < |named| => named[k].name)
  }

  /** The argument loop from cursor i on. */
  function ArgumentsAt(src: string, i: nat, sofar: CallArgs): (r: Res<CallArgs>)
    requires i <= |src|
    ensures i <= r.pos <= |src|
    decreases |src| - i, 3
  {
    if i == |src| || src[i] == ')' then Ok(sofar, i)
    else
      var one := ArgumentAt(src, i, sofar);
      if one.Err? then Err(one.error, one.pos)
      else ArgumentsAt(src, AfterArgument(src, one.pos), one.value)
  }

  /** Blanks, at most one comma, blanks. */
  function AfterArgument(src: string, i: nat): (j: nat)
    ensures i <= j && (i <= |src| ==> j <= |src|)
  {
    var k := SkipBlank(src, i);
    SkipBlank(src, if At(src, k, ',') then k + 1 else k)
  }

  /** One argument, added to those read so far. */
  function ArgumentAt(src: string, i: nat, sofar: CallArgs): (r: Res<CallArgs>)
    requires i < |src|
    ensures i <= r.pos <= |src|
    ensures r.Ok? ==> i < r.pos
    decreases |src| - i, 2
  {
    var e := InlineAt(src, i, false);
    if e.Err? then Err(e.error, e.pos)
    else
      var bare := e.value.MessageRef? && e.value.attr == "";
      var j := if bare then SkipBlank(src, e.pos) else e.pos;
      if bare && At(src, j, ':') then NamedArgumentAt(src, j, e.value.id, sofar)
      else if sofar.named != [] then Fail(PositionalAfterNamed, j)
      else Ok(sofar.(positional := sofar.positional + [e.value]), j)
  }

  /** The value of a named argument, from its colon. */
  function NamedArgumentAt(src: string, i: nat, name: string, sofar: CallArgs): (r: Res<CallArgs>)
    requires At(src, i, ':')
    ensures i <= r.pos <= |src|
    decreases |src| - i, 2
  {
    if name in Names(sofar.named) then Fail(DuplicatedNamedArgument(name), i)
    else
      var val := InlineAt(src, SkipBlank(src, i + 1), true);
      if val.Err? then Err(val.error, val.pos)
      else Ok(sofar.(named := sofar.named + [NamedArg(name, val.value)]), val.pos)
  }

  // ----- entries -----

  function AttributeAt(src: string, i: nat): (r: Res<Attribute>)
    requires i <= |src|
    ensures i <= r.pos <= |src|
    ensures r.Ok? ==> i < r.pos
  {
    var id := Identifier(src, i);
    if id.Err? then Err(id.error, id.pos)
    else
      var eq := Expect(src, SkipBlankInline(src, id.pos), '=');
      if eq.Err? then Err(eq.error, eq.pos)
      else
        var value := PatternAt(src, eq.pos);
        if value.Err? then Err(value.error, value.pos)
        else if value.value.None? then Fail(MissingValue, value.pos)
        else Ok(Attribute(id.value, value.value.value), value.pos)
  }

  /** The attributes from cursor i on; one that cannot be read ends them, with
      the cursor back at its line. */
  function AttributesAt(src: string, i: nat, sofar: seq<Attribute>): (r: (seq<Attribute>, nat))
    requires i <= |src|
    ensures i <= r.1 <= |src|
    decreases |src| - i
  {
    var (a, j) := NextAttribute(src, i);
    if a.None? then (sofar, j) else AttributesAt(src, j, sofar + [a.value])
  }

  function NextAttribute(src: string, i: nat): (r: (Option<Attribute>, nat))
    requires i <= |src|
    ensures i <= r.1 <= |src| && (r.0.Some? ==> i < r.1) && (r.0.None? ==> r.1 == i)
  {
    var j := SkipBlankInline(src, i);
    if !At(src, j, '.') then (None, i)
    else
      var a := AttributeAt(src, j + 1);
      if a.Err? then (None, i) else (Some(a.value), a.pos)
  }

  function MessageAt(src: string, i: nat): (r: Res<Entry>)
    requires i <= |src|
    ensures i <= r.pos <= |src|
    ensures r.Ok? ==> i < r.pos
    ensures r.Err? && r.pos == i ==> i == |src| || !IsAlpha(src[i])
  {
    var id := Identifier(src, i);
    if id.Err? then Err(id.error, id.pos) else MessageBody(src, i, id.value, id.pos)
  }

  /** A message from after its identifier; start is where the entry began. */
  function MessageBody(src: string, start: nat, name: string, i: nat): (r: Res<Entry>)
    requires i <= |src|
    ensures i <= r.pos <= |src|
  {
    var eq := Expect(src, SkipBlankInline(src, i), '=');
    if eq.Err? then Err(eq.error, eq.pos)
    else
      var value := PatternAt(src, eq.pos);
      if value.Err? then Err(value.error, value.pos)
      else
        var (attrs, end) := AttributesAt(src, SkipBlankBlock(src, value.pos), []);
        MessageOf(start, name, value.value, attrs, end)
  }

  /** A message needs a value or an attribute. */
  function MessageOf(start: nat, name: string, value: Option<Pattern>, attrs: seq<Attribute>, end: nat): Res<Entry> {
    if value.None? && |attrs| == 0 then Err(ParseError(ExpectedMessageField(name), start), end)
    else Ok(Entry(false, name, value, attrs), end)
  }

  function TermAt(src: string, i: nat): (r: Res<Entry>)
    requires i <= |src|
    ensures i <= r.pos <= |src|
    ensures r.Ok? ==> i < r.pos
    ensures r.Err? && r.pos == i ==> !At(src, i, '-')
  {
    var dash := Expect(src, i, '-');
    if dash.Err? then Err(dash.error, dash.pos)
    else
      var id := Identifier(src, dash.pos);
      if id.Err? then Err(id.error, id.pos) else TermBody(src, i, id.value, id.pos)
  }

  /** A term from after its identifier. */
  function TermBody(src: string, start: nat, name: string, i: nat): (r: Res<Entry>)
    requires i <= |src|
    ensures i <= r.pos <= |src|
  {
    var eq := Expect(src, SkipBlankInline(src, i), '=');
    if eq.Err? then Err(eq.error, eq.pos)
    else
      var value := PatternAt(src, SkipBlankInline(src, eq.pos));
      if value.Err? then Err(value.error, value.pos)
      else
        var (attrs, end) := AttributesAt(src, SkipBlankBlock(src, value.pos), []);
        TermOf(start, name, value.value, attrs, end)
  }

  /** A term needs a value. */
  function TermOf(start: nat, name: string, value: Option<Pattern>, attrs: seq<Attribute>, end: nat): Res<Entry> {
    if value.None? then Err(ParseError(ExpectedTermField(name), start), end)
    else Ok(Entry(true, name, value, attrs), end)
  }

  function LineEnd(src: string, i: nat): (j: nat)
    requires i <= |src|
    ensures i <= j <= |src| && IsEol(src, j)
    decreases |src| - i
  {
    if IsEol(src, i) then i else LineEnd(src, i + 1)
  }

  /** Past the comment lines from i on: one past the end when the last of them
      has no line end. */
  function SkipComment(src: string, i: nat): (j: nat)
    requires i <= |src|
    ensures i < j <= |src| + 1
    decreases |src| - i
  {
    var j := LineEnd(src, i) + 1;
    if At(src, j, '#') then SkipComment(src, j + 1) else j
  }

  /** A position where a new entry can start after junk. */
  predicate EntryStart(src: string, i: nat) {
    && i < |src|
    && (i == 0 || src[i - 1] == '\n')
    && (IsAlpha(src[i]) || src[i] == '-' || src[i] == '#')
  }

  function NextEntryStart(src: string, i: nat): (j: nat)
    requires i <= |src|
    ensures i <= j <= |src|
    ensures j == |src| || EntryStart(src, j)
    ensures forall k | i <= k < j :: !EntryStart(src, k)
    decreases |src| - i
  {
    if i == |src| || EntryStart(src, i) then i else NextEntryStart(src, i + 1)
  }

  /** One entry, or None for a comment. */
  function EntryAt(src: string, i: nat): (r: Res<Option<Entry>>)
    requires i < |src|
    ensures i <= r.pos <= |src| + 1
    ensures r.Ok? ==> i < r.pos && (r.value.Some? ==> r.pos <= |src|)
    ensures r.Ok? && r.value.None? ==> src[i] == '#'
    ensures r.Err? ==> r.pos <= |src| && (r.pos == i ==> !EntryStart(src, i))
  {
    if src[i] == '#' then Ok(None, SkipComment(src, i))
    else
      var e := if src[i] == '-' then TermAt(src, i) else MessageAt(src, i);
      if e.Err? then Err(e.error, e.pos) else Ok(Some(e.value), e.pos)
  }

  /** What one round of the top loop consumed: source offsets start..end. */
  datatype Item =
    | Parsed(entry: Entry, start: nat, end: nat)
    | Comment(start: nat, end: nat)
    | Junk(err: ParseError, failed: nat, start: nat, end: nat)

  function ItemAt(src: string, i: nat): (item: Item)
    requires i < |src|
    ensures item.start == i && i < item.end && (item.Junk? ==> item.end <= |src|)
  {
    var r := EntryAt(src, i);
    if r.Err? then Junk(r.error, r.pos, i, NextEntryStart(src, r.pos))
    else if r.value.Some? then Parsed(r.value.value, i, r.pos)
    else Comment(i, r.pos)
  }

  /** The rounds of the top loop from cursor i on. */
  function ItemsFrom(src: string, i: nat): seq<Item>
    decreases |src| - i
  {
    if i >= |src| then []
    else
      var item := ItemAt(src, i);
      [item] + ItemsFrom(src, SkipBlankBlock(src, item.end))
  }

  function Items(src: string): seq<Item> { ItemsFrom(src, SkipBlankBlock(src, 0)) }

  function EntriesOf(items: seq<Item>): seq<Entry> {
    if items == [] then []
    else (if items[0].Parsed? then [items[0].entry] else []) + EntriesOf(items[1..])
  }

  function JunkOf(src: string, items: seq<Item>): seq<JunkEntry> {
    if items == [] then []
    else
      (if items[0].Junk? then [JunkEntry(Sub(src, items[0].start, items[0].end), items[0].err)] else []) +
      JunkOf(src, items[1..])
  }

  /** Parsing never fails: what cannot be read is junk. */
  function Parse(src: string): Resource {
    Resource(EntriesOf(Items(src)), JunkOf(src, Items(src)))
  }
}
