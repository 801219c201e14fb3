/** The parser as the program runs it: one cursor that every method advances,
    and now and then rewinds. Each method leaves the cursor and the result that
    its specification function gives. */
module Parser {
  import opened FluentSyntax
  import opened Options
  import opened Chars
  import opened ParserSpec

  class Cursor {
    const src: string
    var ptr: nat

    constructor (src: string)
      ensures this.src == src && ptr == 0
    {
      this.src, ptr := src, 0;
    }

    method TakeIf(c: char) returns (taken: bool)
      modifies this
      ensures taken == At(src, old(ptr), c) && ptr == old(ptr) + if taken then 1 else 0
    {
      taken := At(src, ptr, c);
      if taken {
        ptr := ptr + 1;
      }
    }

    method Expect(c: char) returns (r: Res<()>)
      modifies this
      ensures r == ParserSpec.Expect(src, old(ptr), c) && ptr == r.pos
    {
      if !At(src, ptr, c) {
        return Fail(ExpectedToken(c), ptr);
      }
      ptr := ptr + 1;
      return Ok((), ptr);
    }

    // ----- blanks and line ends -----

    method SkipBlankInline() returns (n: nat)
      modifies this
      ensures ptr == ParserSpec.SkipBlankInline(src, old(ptr)) && n == ptr - old(ptr)
    {
      var start := ptr;
      while At(src, ptr, ' ')
        invariant start <= ptr && (start <= |src| ==> ptr <= |src|)
        invariant ParserSpec.SkipBlankInline(src, start) == ParserSpec.SkipBlankInline(src, ptr)
        decreases |src| - ptr
      {
        ptr := ptr + 1;
      }
      n := ptr - start;
    }

    method SkipEol() returns (skipped: bool)
      modifies this
      ensures ptr == ParserSpec.SkipEol(src, old(ptr)) && skipped == (ptr != old(ptr))
    {
      if At(src, ptr, '\n') {
        ptr := ptr + 1;
        return true;
      }
      if At(src, ptr, '\r') && At(src, ptr + 1, '\n') {
        ptr := ptr + 2;
        return true;
      }
      return false;
    }

    method SkipBlankBlock()
      modifies this
      ensures ptr == ParserSpec.SkipBlankBlock(src, old(ptr))
    {
      while true
        invariant ParserSpec.SkipBlankBlock(src, old(ptr)) == ParserSpec.SkipBlankBlock(src, ptr)
        decreases |src| - ptr
      {
        var start := ptr;
        var _ := SkipBlankInline();
        var skipped := SkipEol();
        if !skipped {
          ptr := start;
          return;
        }
      }
    }

    method SkipBlank()
      modifies this
      ensures ptr == ParserSpec.SkipBlank(src, old(ptr))
    {
      while true
        invariant ParserSpec.SkipBlank(src, old(ptr)) == ParserSpec.SkipBlank(src, ptr)
        decreases |src| - ptr
      {
        if At(src, ptr, ' ') || At(src, ptr, '\n') {
          ptr := ptr + 1;
        } else if At(src, ptr, '\r') && At(src, ptr + 1, '\n') {
          ptr := ptr + 2;
        } else {
          return;
        }
      }
    }

    // ----- tokens -----

    /** The rest of an identifier whose first letter has been consumed. */
    method IdentifierRest() returns (id: string)
      requires 1 <= ptr <= |src|
      modifies this
      ensures ptr == IdentEnd(src, old(ptr)) && id == src[old(ptr) - 1..ptr]
    {
      var start := ptr - 1;
      while ptr < |src| && IsIdentChar(src[ptr])
        invariant start < ptr <= |src|
        invariant IdentEnd(src, start + 1) == IdentEnd(src, ptr)
        decreases |src| - ptr
      {
        ptr := ptr + 1;
      }
      id := src[start..ptr];
    }

    method Identifier() returns (r: Res<string>)
      modifies this
      ensures r == ParserSpec.Identifier(src, old(ptr)) && ptr == r.pos
    {
      if !(ptr < |src| && IsAlpha(src[ptr])) {
        return Fail(ExpectedLetter, ptr);
      }
      ptr := ptr + 1;
      var id := IdentifierRest();
      return Ok(id, ptr);
    }

    method AttributeAccessor() returns (r: Res<string>)
      modifies this
      ensures r == ParserSpec.AttributeAccessor(src, old(ptr)) && ptr == r.pos
    {
      var dot := TakeIf('.');
      if !dot {
        return Ok("", ptr);
      }
      r := Identifier();
    }

    method SkipDigits() returns (r: Res<()>)
      requires ptr <= |src|
      modifies this
      ensures r == Digits(src, old(ptr)) && ptr == r.pos
    {
      var start := ptr;
      while ptr < |src| && IsDigit(src[ptr])
        invariant start <= ptr <= |src|
        invariant DigitsEnd(src, start) == DigitsEnd(src, ptr)
        decreases |src| - ptr
      {
        ptr := ptr + 1;
      }
      if start == ptr {
        return Fail(ExpectedDigit, ptr);
      }
      return Ok((), ptr);
    }

    method NumberLiteral() returns (r: Res<string>)
      requires ptr <= |src|
      modifies this
      ensures r == Number(src, old(ptr)) && ptr == r.pos
    {
      var start := ptr;
      var _ := TakeIf('-');
      var digits := SkipDigits();
      if digits.Err? {
        return Err(digits.error, ptr);
      }
      var dot := TakeIf('.');
      if dot {
        digits := SkipDigits();
        if digits.Err? {
          return Err(digits.error, ptr);
        }
      }
      return Ok(src[start..ptr], ptr);
    }

    method SkipUnicodeEscape(length: nat) returns (r: Res<()>)
      requires ptr <= |src|
      modifies this
      ensures ptr == HexEnd(src, old(ptr), length) && ptr == r.pos
      ensures r == if ptr == old(ptr) + length then Ok((), ptr) else Fail(InvalidUnicodeEscape, ptr)
    {
      var start := ptr;
      for k := 0 to length
        invariant ptr == start + k <= |src|
        invariant HexEnd(src, start, length) == HexEnd(src, ptr, length - k)
      {
        if !(ptr < |src| && IsHex(src[ptr])) {
          break;
        }
        ptr := ptr + 1;
      }
      if ptr - start != length {
        return Fail(InvalidUnicodeEscape, ptr);
      }
      return Ok((), ptr);
    }

    method StringLiteral() returns (r: Res<InlineExpr>)
      requires At(src, ptr, '"')
      modifies this
      ensures r == StringLit(src, old(ptr)) && ptr == r.pos
    {
      ptr := ptr + 1;
      var start := ptr;
      while ptr < |src|
        invariant start <= ptr <= |src|
        invariant StringEnd(src, start) == StringEnd(src, ptr)
        decreases |src| - ptr
      {
        var c := src[ptr];
        if c == '"' {
          break;
        }
        if c == '\n' {
          return Fail(UnterminatedStringLiteral, ptr);
        }
        if c != '\\' {
          ptr := ptr + 1;
          continue;
        }
        if ptr + 1 < |src| && src[ptr + 1] in {'\\', '{', '"'} {
          ptr := ptr + 2;
        } else if ptr + 1 < |src| && src[ptr + 1] in {'u', 'U'} {
          var length := if src[ptr + 1] == 'u' then 4 else 6;
          ptr := ptr + 2;
          var esc := SkipUnicodeEscape(length);
          if esc.Err? {
            return Err(esc.error, ptr);
          }
        } else {
          return Fail(UnknownEscape, ptr);
        }
      }
      var close := Expect('"');
      if close.Err? {
        return Err(close.error, ptr);
      }
      return Ok(FluentSyntax.StringLiteral(src[start..ptr - 1]), ptr);
    }

    // ----- patterns -----

    method TextSlice() returns (r: Res<TextSlice>)
      requires ptr <= |src|
      modifies this
      ensures r == TextAt(src, old(ptr)) && ptr == r.pos
    {
      var start := ptr;
      var stop := TextStop(src, ptr);
      if stop == |src| {
        ptr := stop;
        return Ok(ParserSpec.TextSlice(ptr, BlankText(src[start..ptr]), ByEof), ptr);
      }
      var text := src[start..stop];
      if src[stop] == '}' {
        ptr := ptr + |text|;
        return Fail(UnbalancedClosingBrace, ptr);
      }
      if src[stop] == '\n' {
        if |text| > 0 && text[|text| - 1] == '\r' {
          text := text[..|text| - 1];
          ptr := ptr + |text| + 1;
          assert text == src[start..ptr - 1];
          return Ok(ParserSpec.TextSlice(ptr - 1, BlankText(text), ByCrLf), ptr);
        }
        ptr := ptr + |text| + 1;
        return Ok(ParserSpec.TextSlice(ptr, BlankText(text), ByLineFeed), ptr);
      }
      ptr := ptr + |text|;
      return Ok(ParserSpec.TextSlice(ptr, BlankText(text), ByPlaceableStart), ptr);
    }

    method Pattern() returns (r: Res<Option<Pattern>>)
      requires ptr <= |src|
      modifies this
      ensures r == PatternAt(src, old(ptr)) && ptr == r.pos
      decreases |src| - ptr, 6
    {
      var _ := SkipBlankInline();
      var role := InitialLineStart;
      var eol := SkipEol();
      if eol {
        SkipBlankBlock();
        role := LineStart;
      }
      var scan := PatternLoop(role);
      if scan.Err? {
        return Err(scan.error, ptr);
      }
      if scan.value.lastNonBlank < 0 {
        return Ok(None, ptr);
      }
      var out := FinishLoop(scan.value);
      return Ok(Some(out), ptr);
    }

    /** The element loop of a pattern. */
    method PatternLoop(start: Role) returns (r: Res<Scan>)
      requires ptr <= |src|
      modifies this
      ensures r == PatternScan(src, old(ptr), Scan([], -1, -1, start)) && ptr == r.pos
      decreases |src| - ptr, 5
    {
      var scan := Scan([], -1, -1, start);
      while ptr < |src|
        invariant old(ptr) <= ptr <= |src| && scan.Valid()
        invariant PatternScan(src, ptr, scan) == PatternScan(src, old(ptr), Scan([], -1, -1, start))
        decreases |src| - ptr
      {
        var step := NextElement(scan);
        if step.Err? {
          return Err(step.error, ptr);
        }
        if step.value.Stop? {
          break;
        }
        scan := step.value.scan;
      }
      return Ok(scan, ptr);
    }

    /** One round of the element loop. */
    method NextElement(scan: Scan) returns (r: Res<Step>)
      requires ptr < |src| && scan.Valid()
      modifies this
      ensures r == ParserSpec.NextElement(src, old(ptr), scan) && ptr == r.pos
      decreases |src| - ptr, 4
    {
      var start := ptr;
      var hole := TakeIf('{');
      if !hole {
        r := TextElement(scan);
        return;
      }
      var e := Placeable();
      if e.Err? {
        return Err(e.error, ptr);
      }
      var commonIndent := if scan.role == LineStart then 0 else scan.commonIndent;
      var elements := scan.elements + [Hole(start, ptr, e.value, scan.role)];
      return Ok(Go(Scan(elements, |scan.elements|, commonIndent, Continuation)), ptr);
    }

    /** One round of the element loop at a text. */
    method TextElement(scan: Scan) returns (r: Res<Step>)
      requires ptr < |src| && src[ptr] != '{' && scan.Valid()
      modifies this
      ensures r == TextStep(src, old(ptr), scan) && ptr == r.pos
    {
      var elements, lastNonBlank, commonIndent := scan.elements, scan.lastNonBlank, scan.commonIndent;
      var sliceStart := ptr;
      var indent := 0;
      if scan.role == LineStart {
        indent := SkipBlankInline();
        if ptr == |src| {
          return Ok(Stop, ptr);
        }
        var c := src[ptr];
        if indent == 0 {
          if c != '\r' && c != '\n' {
            return Ok(Stop, ptr);
          }
        } else if !IsPatternContinuation(c) {
          ptr := sliceStart;
          return Ok(Stop, ptr);
        }
      }
      var t := TextSlice();
      if t.Err? {
        return Err(t.error, ptr);
      }
      if sliceStart + indent != t.value.end {
        if scan.role == LineStart && !t.value.blank {
          if commonIndent < 0 || indent < commonIndent {
            commonIndent := indent;
          }
        }
        if scan.role != LineStart || !t.value.blank || t.value.term == ByLineFeed {
          if !t.value.blank {
            lastNonBlank := |elements|;
          }
          elements := elements + [Slice(sliceStart, t.value.end, indent, scan.role)];
        }
      }
      var role := if t.value.term == ByLineFeed || t.value.term == ByCrLf then LineStart else Continuation;
      return Ok(Go(Scan(elements, lastNonBlank, commonIndent, role)), ptr);
    }

    /** The dedent: offsets become text. */
    method FinishLoop(scan: Scan) returns (out: Pattern)
      requires scan.Valid() && scan.lastNonBlank >= 0
      ensures Finish(src, scan) == Some(out)
    {
      var elements: seq<Element> := [];
      for i := 0 to scan.lastNonBlank + 1
        invariant |elements| == i
        invariant forall k | 0 <= k < i :: elements[k] == FinishElements(src, scan)[k]
      {
        var el := FinishOne(scan.elements[i], scan.commonIndent, i == scan.lastNonBlank);
        elements := elements + [el];
      }
      assert elements == FinishElements(src, scan);
      out := FluentSyntax.Pattern(elements);
    }

    method FinishOne(el: Placeholder, commonIndent: int, last: bool) returns (out: Element)
      ensures out == FinishElement(src, el, commonIndent, last)
    {
      if el.Hole? {
        return FluentSyntax.Placeable(el.expr);
      }
      var start := el.start;
      if el.role == LineStart {
        if commonIndent < 0 {
          start := start + el.indent;
        } else {
          start := start + if el.indent <= commonIndent then el.indent else commonIndent;
        }
      }
      assert start == el.start + Cut(el, commonIndent);
      var value := Sub(src, start, el.end);
      if last {
        value := TrimFluentWs(value);
      }
      return FluentSyntax.Text(value);
    }

    // ----- expressions -----

    method Placeable() returns (r: Res<Expression>)
      requires ptr <= |src|
      modifies this
      ensures r == PlaceableAt(src, old(ptr)) && ptr == r.pos
      decreases |src| - ptr, 3
    {
      SkipBlank();
      var e := Expression();
      if e.Err? {
        return Err(e.error, ptr);
      }
      var _ := SkipBlankInline();
      var close := Expect('}');
      if close.Err? {
        return Err(close.error, ptr);
      }
      if IsTermAttribute(e.value) {
        return Fail(TermAttributeAsPlaceable, ptr);
      }
      return Ok(e.value, ptr);
    }

    method Expression() returns (r: Res<Expression>)
      requires ptr <= |src|
      modifies this
      ensures r == ExpressionAt(src, old(ptr)) && ptr == r.pos
      decreases |src| - ptr, 2
    {
      var e := InlineExpression(false);
      if e.Err? {
        return Err(e.error, ptr);
      }
      SkipBlank();
      r := AfterInline(e.value);
    }

    /** A placeable of its own or, before an arrow, the selector of a select. */
    method AfterInline(e: InlineExpr) returns (r: Res<Expression>)
      requires ptr <= |src|
      modifies this
      ensures r == ParserSpec.AfterInline(src, old(ptr), e) && ptr == r.pos
      decreases |src| - ptr, 4
    {
      var arrow := At(src, ptr, '-') && At(src, ptr + 1, '>');
      if !arrow {
        if e.TermRef? && e.attr != "" {
          return Fail(TermAttributeAsPlaceable, ptr);
        }
        return Ok(Inline(e), ptr);
      }
      var problem := SelectorError(e);
      if problem.Some? {
        return Fail(problem.value, ptr);
      }
      ptr := ptr + 2;
      r := SelectRest(e);
    }

    /** The rest of a select expression, after its arrow. */
    method SelectRest(selector: InlineExpr) returns (r: Res<Expression>)
      requires ptr <= |src|
      modifies this
      ensures r == SelectAt(src, old(ptr), selector) && ptr == r.pos
      decreases |src| - ptr, 3
    {
      var _ := SkipBlankInline();
      var eol := SkipEol();
      if !eol {
        return Fail(ExpectedLineEnd, ptr);
      }
      SkipBlank();
      var vs := Variants();
      if vs.Err? {
        return Err(vs.error, ptr);
      }
      return Ok(Select(selector, vs.value), ptr);
    }

    method Variants() returns (r: Res<seq<Variant>>)
      requires ptr <= |src|
      modifies this
      ensures r == VariantsAt(src, old(ptr), [], false) && ptr == r.pos
      decreases |src| - ptr, 9
    {
      var variants: seq<Variant> := [];
      var hasDefault := false;
      while true
        invariant old(ptr) <= ptr <= |src|
        invariant VariantsAt(src, ptr, variants, hasDefault) == VariantsAt(src, old(ptr), [], false)
        decreases |src| - ptr
      {
        var v := NextVariant(hasDefault);
        if v.Err? {
          return Err(v.error, ptr);
        }
        if v.value.None? {
          return Ok(variants, ptr);
        }
        variants := variants + [v.value.value];
        hasDefault := hasDefault || v.value.value.isDefault;
        SkipBlank();
      }
    }

    /** The variant at the cursor, if there is one. */
    method NextVariant(hasDefault: bool) returns (r: Res<Option<Variant>>)
      requires ptr <= |src|
      modifies this
      ensures r == ParserSpec.NextVariant(src, old(ptr), hasDefault) && ptr == r.pos
      decreases |src| - ptr, 8
    {
      var def := TakeIf('*');
      if def {
        if hasDefault {
          return Fail(MultipleDefaultVariants, ptr);
        }
      }
      r := Bracketed(def, hasDefault);
    }

    /** A variant from its bracket, or the end of the list. */
    method Bracketed(def: bool, hasDefault: bool) returns (r: Res<Option<Variant>>)
      requires ptr <= |src|
      modifies this
      ensures r == ParserSpec.Bracketed(src, old(ptr), def, hasDefault) && ptr == r.pos
      decreases |src| - ptr, 7
    {
      var bracket := TakeIf('[');
      if !bracket {
        if !hasDefault && !def {
          return Fail(MissingDefaultVariant, ptr);
        }
        return Ok(None, ptr);
      }
      var v := Variant(def);
      if v.Err? {
        return Err(v.error, ptr);
      }
      return Ok(Some(v.value), ptr);
    }

    /** One variant, after its opening bracket. */
    method Variant(def: bool) returns (r: Res<Variant>)
      requires ptr <= |src|
      modifies this
      ensures r == VariantAt(src, old(ptr), def) && ptr == r.pos
      decreases |src| - ptr, 7
    {
      var key := VariantKey();
      if key.Err? {
        return Err(key.error, ptr);
      }
      var value := Pattern();
      if value.Err? {
        return Err(value.error, ptr);
      }
      if value.value.None? {
        return Fail(MissingValue, ptr);
      }
      return Ok(FluentSyntax.Variant(key.value.0, key.value.1, value.value.value, def), ptr);
    }

    method VariantKey() returns (r: Res<(string, bool)>)
      requires ptr <= |src|
      modifies this
      ensures r == VariantKeyAt(src, old(ptr)) && ptr == r.pos
    {
      SkipBlank();
      var numeric := IsNumberStart(src, ptr);
      var key;
      if numeric {
        key := NumberLiteral();
      } else {
        key := Identifier();
      }
      if key.Err? {
        return Err(key.error, ptr);
      }
      SkipBlank();
      var close := Expect(']');
      if close.Err? {
        return Err(close.error, ptr);
      }
      return Ok((key.value, numeric), ptr);
    }

    method InlineExpression(onlyLiteral: bool) returns (r: Res<InlineExpr>)
      requires ptr <= |src|
      modifies this
      ensures r == InlineAt(src, old(ptr), onlyLiteral) && ptr == r.pos
      decreases |src| - ptr, 1
    {
      if ptr == |src| {
        return Fail(if onlyLiteral then ExpectedLiteral else ExpectedInlineExpression, ptr);
      }
      var c := src[ptr];
      if c == '"' {
        r := StringLiteral();
      } else if IsDigit(c) {
        r := NumberInline(onlyLiteral);
      } else if c == '-' && !onlyLiteral {
        r := DashInline();
      } else if c == '$' && !onlyLiteral {
        r := VariableInline();
      } else if IsAlpha(c) {
        r := WordInline(onlyLiteral);
      } else if c == '{' && !onlyLiteral {
        r := NestedInline();
      } else {
        return Fail(if onlyLiteral then ExpectedLiteral else ExpectedInlineExpression, ptr);
      }
    }

    method NumberInline(onlyLiteral: bool) returns (r: Res<InlineExpr>)
      requires ptr < |src| && (IsDigit(src[ptr]) || (!onlyLiteral && src[ptr] == '-'))
      requires src[ptr] == '-' ==> !(ptr + 1 < |src| && IsAlpha(src[ptr + 1]))
      modifies this
      ensures r == InlineAt(src, old(ptr), onlyLiteral) && ptr == r.pos
    {
      var num := NumberLiteral();
      if num.Err? {
        return Err(num.error, ptr);
      }
      return Ok(FluentSyntax.NumberLiteral(num.value), ptr);
    }

    /** A term reference, or a negative number. */
    method DashInline() returns (r: Res<InlineExpr>)
      requires At(src, ptr, '-')
      modifies this
      ensures r == InlineAt(src, old(ptr), false) && ptr == r.pos
      decreases |src| - ptr, 0
    {
      ptr := ptr + 1;
      if !(ptr < |src| && IsAlpha(src[ptr])) {
        ptr := ptr - 1;
        r := NumberInline(false);
        return;
      }
      ptr := ptr + 1;
      var id := IdentifierRest();
      var attr := AttributeAccessor();
      if attr.Err? {
        return Err(attr.error, ptr);
      }
      var args := CallArguments();
      if args.Err? {
        return Err(args.error, ptr);
      }
      return Ok(TermRef(id, attr.value, args.value), ptr);
    }

    method VariableInline() returns (r: Res<InlineExpr>)
      requires At(src, ptr, '$')
      modifies this
      ensures r == InlineAt(src, old(ptr), false) && ptr == r.pos
    {
      ptr := ptr + 1;
      var id := Identifier();
      if id.Err? {
        return Err(id.error, ptr);
      }
      return Ok(VariableRef(id.value), ptr);
    }

    /** A function call, or a message reference. */
    method WordInline(onlyLiteral: bool) returns (r: Res<InlineExpr>)
      requires ptr < |src| && IsAlpha(src[ptr])
      modifies this
      ensures r == InlineAt(src, old(ptr), onlyLiteral) && ptr == r.pos
      decreases |src| - ptr, 0
    {
      ptr := ptr + 1;
      var id := IdentifierRest();
      var args := CallArguments();
      if args.Err? {
        return Err(args.error, ptr);
      }
      if args.value.Some? {
        if !All(id, IsCalleeChar) {
          return Fail(ForbiddenCallee, ptr);
        }
        return Ok(FunctionRef(id, args.value.value), ptr);
      }
      var attr := AttributeAccessor();
      if attr.Err? {
        return Err(attr.error, ptr);
      }
      return Ok(MessageRef(id, attr.value), ptr);
    }

    method NestedInline() returns (r: Res<InlineExpr>)
      requires At(src, ptr, '{')
      modifies this
      ensures r == InlineAt(src, old(ptr), false) && ptr == r.pos
      decreases |src| - ptr, 0
    {
      ptr := ptr + 1;
      var e := Placeable();
      if e.Err? {
        return Err(e.error, ptr);
      }
      return Ok(NestedPlaceable(e.value), ptr);
    }

    method CallArguments() returns (r: Res<Option<CallArgs>>)
      requires ptr <= |src|
      modifies this
      ensures r == CallArgumentsAt(src, old(ptr)) && ptr == r.pos
      decreases |src| - ptr, 0
    {
      SkipBlank();
      var open := TakeIf('(');
      if !open {
        return Ok(None, ptr);
      }
      SkipBlank();
      var args := Arguments();
      if args.Err? {
        return Err(args.error, ptr);
      }
      var close := Expect(')');
      if close.Err? {
        return Err(close.error, ptr);
      }
      return Ok(Some(args.value), ptr);
    }

    /** The argument loop. */
    method Arguments() returns (r: Res<CallArgs>)
      requires ptr <= |src|
      modifies this
      ensures r == ArgumentsAt(src, old(ptr), CallArgs([], [])) && ptr == r.pos
      decreases |src| - ptr, 3
    {
      var args := CallArgs([], []);
      while ptr < |src|
        invariant old(ptr) <= ptr <= |src|
        invariant ArgumentsAt(src, ptr, args) == ArgumentsAt(src, old(ptr), CallArgs([], []))
        decreases |src| - ptr
      {
        if At(src, ptr, ')') {
          break;
        }
        var one := Argument(args);
        if one.Err? {
          return Err(one.error, ptr);
        }
        args := one.value;
        SkipSeparator();
      }
      return Ok(args, ptr);
    }

    method SkipSeparator()
      modifies this
      ensures ptr == AfterArgument(src, old(ptr))
    {
      SkipBlank();
      var _ := TakeIf(',');
      SkipBlank();
    }

    /** The body of the argument loop, up to the separator. */
    method Argument(args: CallArgs) returns (r: Res<CallArgs>)
      requires ptr < |src|
      modifies this
      ensures r == ArgumentAt(src, old(ptr), args) && ptr == r.pos
      decreases |src| - ptr, 2
    {
      var names := Names(args.named);
      var e := InlineExpression(false);
      if e.Err? {
        return Err(e.error, ptr);
      }
      if e.value.MessageRef? && e.value.attr == "" {
        SkipBlank();
        if At(src, ptr, ':') {
          r := NamedArgument(e.value.id, names, args);
          return;
        }
      }
      if |names| > 0 {
        return Fail(PositionalAfterNamed, ptr);
      }
      return Ok(args.(positional := args.positional + [e.value]), ptr);
    }

    /** The value of a named argument, from its colon. */
    method NamedArgument(name: string, names: seq<string>, args: CallArgs) returns (r: Res<CallArgs>)
      requires At(src, ptr, ':') && names == Names(args.named)
      modifies this
      ensures r == NamedArgumentAt(src, old(ptr), name, args) && ptr == r.pos
      decreases |src| - ptr, 2
    {
      if name in names {
        return Fail(DuplicatedNamedArgument(name), ptr);
      }
      ptr := ptr + 1;
      SkipBlank();
      var val := InlineExpression(true);
      if val.Err? {
        return Err(val.error, ptr);
      }
      return Ok(args.(named := args.named + [NamedArg(name, val.value)]), ptr);
    }

    // ----- entries -----

    method Attribute() returns (r: Res<Attribute>)
      requires ptr <= |src|
      modifies this
      ensures r == AttributeAt(src, old(ptr)) && ptr == r.pos
    {
      var id := Identifier();
      if id.Err? {
        return Err(id.error, ptr);
      }
      var _ := SkipBlankInline();
      var eq := Expect('=');
      if eq.Err? {
        return Err(eq.error, ptr);
      }
      var value := Pattern();
      if value.Err? {
        return Err(value.error, ptr);
      }
      if value.value.None? {
        return Fail(MissingValue, ptr);
      }
      return Ok(FluentSyntax.Attribute(id.value, value.value.value), ptr);
    }

    method Attributes() returns (attrs: seq<Attribute>)
      requires ptr <= |src|
      modifies this
      ensures attrs == AttributesAt(src, old(ptr), []).0 && ptr == AttributesAt(src, old(ptr), []).1
    {
      attrs := [];
      while true
        invariant ptr <= |src|
        invariant AttributesAt(src, ptr, attrs) == AttributesAt(src, old(ptr), [])
        decreases |src| - ptr
      {
        var a := NextAttribute();
        if a.None? {
          return;
        }
        attrs := attrs + [a.value];
      }
    }

    /** The attribute on the line at the cursor; the cursor stays when there is
        none that can be read. */
    method NextAttribute() returns (a: Option<Attribute>)
      requires ptr <= |src|
      modifies this
      ensures a == ParserSpec.NextAttribute(src, old(ptr)).0 && ptr == ParserSpec.NextAttribute(src, old(ptr)).1
    {
      var lineStart := ptr;
      var _ := SkipBlankInline();
      var dot := TakeIf('.');
      if !dot {
        ptr := lineStart;
        return None;
      }
      a := AttributeOr(lineStart);
    }

    /** An attribute, or back to the start of its line. */
    method AttributeOr(lineStart: nat) returns (a: Option<Attribute>)
      requires ptr <= |src|
      modifies this
      ensures
        var r := AttributeAt(src, old(ptr));
        if r.Ok? then a == Some(r.value) && ptr == r.pos else a == None && ptr == lineStart
    {
      var r := Attribute();
      if r.Err? {
        ptr := lineStart;
        return None;
      }
      return Some(r.value);
    }

    method Message(start: nat) returns (r: Res<Entry>)
      requires ptr <= |src| && start == ptr
      modifies this
      ensures r == MessageAt(src, old(ptr)) && ptr == r.pos
    {
      var id := Identifier();
      if id.Err? {
        return Err(id.error, ptr);
      }
      var _ := SkipBlankInline();
      var eq := Expect('=');
      if eq.Err? {
        return Err(eq.error, ptr);
      }
      var value := Pattern();
      if value.Err? {
        return Err(value.error, ptr);
      }
      SkipBlankBlock();
      var attrs := Attributes();
      if value.value.None? && |attrs| == 0 {
        return Err(ParseError(ExpectedMessageField(id.value), start), ptr);
      }
      return Ok(Entry(false, id.value, value.value, attrs), ptr);
    }

    method Term(start: nat) returns (r: Res<Entry>)
      requires ptr <= |src| && start == ptr
      modifies this
      ensures r == TermAt(src, old(ptr)) && ptr == r.pos
    {
      var dash := Expect('-');
      if dash.Err? {
        return Err(dash.error, ptr);
      }
      var id := Identifier();
      if id.Err? {
        return Err(id.error, ptr);
      }
      var _ := SkipBlankInline();
      var eq := Expect('=');
      if eq.Err? {
        return Err(eq.error, ptr);
      }
      var _ := SkipBlankInline();
      var value := Pattern();
      if value.Err? {
        return Err(value.error, ptr);
      }
      SkipBlankBlock();
      var attrs := Attributes();
      if value.value.None? {
        return Err(ParseError(ExpectedTermField(id.value), start), ptr);
      }
      return Ok(Entry(true, id.value, value.value, attrs), ptr);
    }

    method SkipComment()
      requires ptr <= |src|
      modifies this
      ensures ptr == ParserSpec.SkipComment(src, old(ptr))
    {
      while true
        invariant ptr <= |src|
        invariant ParserSpec.SkipComment(src, ptr) == ParserSpec.SkipComment(src, old(ptr))
        decreases |src| - ptr
      {
        ghost var line := ptr;
        while ptr < |src| && !IsEol(src, ptr)
          invariant line <= ptr <= |src|
          invariant LineEnd(src, line) == LineEnd(src, ptr)
          decreases |src| - ptr
        {
          ptr := ptr + 1;
        }
        ptr := ptr + 1;
        if At(src, ptr, '#') {
          ptr := ptr + 1;
        } else {
          break;
        }
      }
    }

    method SkipToNextEntryStart()
      requires ptr <= |src|
      modifies this
      ensures ptr == NextEntryStart(src, old(ptr))
    {
      while ptr < |src|
        invariant ptr <= |src|
        invariant NextEntryStart(src, ptr) == NextEntryStart(src, old(ptr))
        decreases |src| - ptr
      {
        var b := src[ptr];
        var newLine := ptr == 0 || src[ptr - 1] == '\n';
        if newLine && (IsAlpha(b) || b == '-' || b == '#') {
          return;
        }
        ptr := ptr + 1;
      }
    }

    method EntryRuntime(start: nat) returns (r: Res<Option<Entry>>)
      requires ptr < |src| && start == ptr
      modifies this
      ensures r == EntryAt(src, old(ptr)) && ptr == r.pos
    {
      var c := src[ptr];
      if c == '#' {
        SkipComment();
        return Ok(None, ptr);
      }
      var e;
      if c == '-' {
        e := Term(start);
      } else {
        e := Message(start);
      }
      if e.Err? {
        return Err(e.error, ptr);
      }
      return Ok(Some(e.value), ptr);
    }

    /** One round of the top loop: an entry, a comment, or junk up to the next
        line that can start an entry. */
    method Round() returns (item: Item)
      requires ptr < |src|
      modifies this
      ensures item == ItemAt(src, old(ptr)) && ptr == item.end
    {
      var start := ptr;
      var e := EntryRuntime(start);
      if e.Err? {
        var failed := ptr;
        SkipToNextEntryStart();
        return Junk(e.error, failed, start, ptr);
      }
      if e.value.Some? {
        return Parsed(e.value.value, start, ptr);
      }
      return Comment(start, ptr);
    }
  }

  /** Trailing blanks and line ends removed. */
  method TrimFluentWs(s: string) returns (t: string)
    ensures t == TrimEnd(s)
  {
    var end := |s|;
    while end > 0 && s[end - 1] in {' ', '\r', '\n'}
      invariant 0 <= end <= |s|
      invariant TrimEnd(s[..end]) == TrimEnd(s)
    {
      end := end - 1;
      assert s[..end + 1][..end] == s[..end];
    }
    t := s[..end];
    assert s[..|s|] == s;
  }

  /** The entries of one round and of those after it, and likewise the junk. */
  lemma {:induction false} Unroll(src: string, i: nat)
    requires i < |src|
    ensures
      var item := ItemAt(src, i);
      EntriesOf(ItemsFrom(src, i)) ==
      EntriesOf([item]) + EntriesOf(ItemsFrom(src, ParserSpec.SkipBlankBlock(src, item.end)))
    ensures
      var item := ItemAt(src, i);
      JunkOf(src, ItemsFrom(src, i)) ==
      JunkOf(src, [item]) + JunkOf(src, ItemsFrom(src, ParserSpec.SkipBlankBlock(src, item.end)))
  {
    var item := ItemAt(src, i);
    var rest := ItemsFrom(src, ParserSpec.SkipBlankBlock(src, item.end));
    assert ItemsFrom(src, i) == [item] + rest;
    Head(src, item, rest);
  }

  lemma {:induction false} Head(src: string, item: Item, rest: seq<Item>)
    ensures EntriesOf([item] + rest) == EntriesOf([item]) + EntriesOf(rest)
    ensures JunkOf(src, [item] + rest) == JunkOf(src, [item]) + JunkOf(src, rest)
  {
    assert ([item] + rest)[1..] == rest && [item][1..] == [];
  }

  /** What has been collected and what is still to come make up the whole. */
  ghost predicate Collected(src: string, i: nat, entries: seq<Entry>, junk: seq<JunkEntry>) {
    && entries + EntriesOf(ItemsFrom(src, i)) == EntriesOf(Items(src))
    && junk + JunkOf(src, ItemsFrom(src, i)) == JunkOf(src, Items(src))
  }

  lemma {:induction false} CollectMore(src: string, i: nat, entries: seq<Entry>, junk: seq<JunkEntry>)
    requires i < |src| && Collected(src, i, entries, junk)
    ensures
      var item := ItemAt(src, i);
      Collected(src, ParserSpec.SkipBlankBlock(src, item.end), entries + EntryIn(item), junk + JunkIn(src, item))
  {
    var item := ItemAt(src, i);
    var next := ParserSpec.SkipBlankBlock(src, item.end);
    Unroll(src, i);
    OneItem(src, item);
    Shift(entries, EntryIn(item), EntriesOf(ItemsFrom(src, next)), EntriesOf(ItemsFrom(src, i)), EntriesOf(Items(src)));
    Shift(junk, JunkIn(src, item), JunkOf(src, ItemsFrom(src, next)), JunkOf(src, ItemsFrom(src, i)),
          JunkOf(src, Items(src)));
  }

  lemma {:induction false} Shift<T>(sofar: seq<T>, x: seq<T>, rest: seq<T>, from: seq<T>, all: seq<T>)
    requires sofar + from == all && from == x + rest
    ensures sofar + x + rest == all
  {
  }

  /** What one round adds. */
  ghost function EntryIn(item: Item): seq<Entry> { if item.Parsed? then [item.entry] else [] }

  ghost function JunkIn(src: string, item: Item): seq<JunkEntry> {
    if item.Junk? then [JunkEntry(Sub(src, item.start, item.end), item.err)] else []
  }

  lemma {:induction false} AllCollected(src: string, i: nat, entries: seq<Entry>, junk: seq<JunkEntry>)
    requires i >= |src| && Collected(src, i, entries, junk)
    ensures Resource(entries, junk) == Parse(src)
  {
    assert entries + [] == entries && junk + [] == junk;
  }

  lemma {:induction false} OneItem(src: string, item: Item)
    ensures EntriesOf([item]) == EntryIn(item) && JunkOf(src, [item]) == JunkIn(src, item)
  {
    assert [item][1..] == [];
  }

  /** A round's entry is kept, its junk is sliced out of the source. */
  method Record(src: string, item: Item, before: seq<Entry>, junkBefore: seq<JunkEntry>)
    returns (entries: seq<Entry>, junk: seq<JunkEntry>)
    ensures entries == before + EntryIn(item) && junk == junkBefore + JunkIn(src, item)
  {
    entries, junk := before, junkBefore;
    if item.Junk? {
      junk := junk + [JunkEntry(Sub(src, item.start, item.end), item.err)];
    } else if item.Parsed? {
      entries := entries + [item.entry];
    }
  }

  /** Parsing a source, round by round. */
  method ParseResource(src: string) returns (res: Resource)
    ensures res == Parse(src)
  {
    var p := new Cursor(src);
    var entries: seq<Entry>, junk: seq<JunkEntry> := [], [];
    p.SkipBlankBlock();
    while p.ptr < |src|
      invariant p.src == src
      invariant Collected(src, p.ptr, entries, junk)
      decreases |src| - p.ptr
    {
      CollectMore(src, p.ptr, entries, junk);
      var item := p.Round();
      entries, junk := Record(src, item, entries, junk);
      p.SkipBlankBlock();
    }
    AllCollected(src, p.ptr, entries, junk);
    res := Resource(entries, junk);
  }
}
