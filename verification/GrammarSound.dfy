/** Soundness of the parser: whatever it reads, the grammar says that the stretch of
    source it took spells. */
module GrammarSound {
  import opened FluentSyntax
  import opened Options
  import opened Chars
  import opened ParserSpec
  import opened WellFormed
  import Dedent
  import opened Grammar
  import opened GrammarTokens

  // ----- expressions -----

  lemma {:induction false} StringSound(src: string, i: nat, e: InlineExpr, j: nat, only: bool)
    requires At(src, i, '"') && StringLit(src, i) == Ok(e, j)
    ensures Inlines(src, i, j, e, only)
  {
    StringParts(src, i, e, j);
  }

  lemma {:induction false} StringParts(src: string, i: nat, e: InlineExpr, j: nat)
    requires At(src, i, '"') && StringLit(src, i) == Ok(e, j)
    ensures e.StringLiteral? && j == i + |e.raw| + 2 && QuotedAt(src, e.raw, i) && Spelled(e.raw)
  {
    StringCloses(src, i);
    ScannedUnits(src, i + 1, j - 1);
  }

  lemma {:induction false} InlineSound(src: string, i: nat, only: bool, e: InlineExpr, j: nat)
    requires i <= |src| && InlineAt(src, i, only) == Ok(e, j)
    ensures Inlines(src, i, j, e, only)
    decreases |src| - i, 1
  {
    if src[i] == '"' {
      StringSound(src, i, e, j, only);
    } else if IsDigit(src[i]) {
      NumberIs(src, i, j, e.raw);
    } else if src[i] == '-' && !only {
      if e.NumberLiteral? {
        NumberIs(src, i, j, e.raw);
      } else {
        TermSound(src, i, e, j);
      }
    } else if src[i] == '$' && !only {
      IdentifierIs(src, i + 1, j, e.id);
    } else if IsAlpha(src[i]) {
      NamedSound(src, i, only, e, j);
    } else {
      PlaceableSound(src, i + 1, e.expr, j);
    }
  }

  lemma {:induction false} TermSound(src: string, i: nat, e: InlineExpr, j: nat)
    requires At(src, i, '-') && i + 1 < |src| && IsAlpha(src[i + 1]) && InlineAt(src, i, false) == Ok(e, j)
    ensures Inlines(src, i, j, e, false)
    decreases |src| - i, 0
  {
    var m := Identifier(src, i + 1).pos;
    var n := AttributeAccessor(src, m).pos;
    var k := SkipBlank(src, n);
    IdentifierIs(src, i + 1, m, e.id);
    AccessorIs(src, m, n, e.attr);
    SkipBlankIs(src, n, k);
    assert TermHead(src, i, m, n, k, e.id, e.attr);
    CallSound(src, n, e.args, j);
  }

  lemma {:induction false} NamedSound(src: string, i: nat, only: bool, e: InlineExpr, j: nat)
    requires i < |src| && IsAlpha(src[i]) && InlineAt(src, i, only) == Ok(e, j)
    ensures Inlines(src, i, j, e, only)
    decreases |src| - i, 0
  {
    var id, m := Identifier(src, i).value, Identifier(src, i).pos;
    var args := CallArgumentsAt(src, m);
    var n := SkipBlank(src, m);
    IdentifierIs(src, i, m, id);
    SkipBlankIs(src, m, n);
    assert Named(src, i, m, n, id);
    CallSound(src, m, args.value, args.pos);
    if e.MessageRef? {
      AccessorIs(src, n, j, e.attr);
    }
  }

  lemma {:induction false} CallSound(src: string, i: nat, c: Option<CallArgs>, j: nat)
    requires i <= |src| && CallArgumentsAt(src, i) == Ok(c, j)
    ensures
      var k := SkipBlank(src, i);
      if c.None? then j == k && !Here(src, k, '(') else Call(src, k, j, c.value)
    decreases |src| - i, 0
  {
    var k := SkipBlank(src, i);
    if At(src, k, '(') {
      var a := SkipBlank(src, k + 1);
      SkipBlankIs(src, k + 1, a);
      ArgumentsSound(src, a, CallArgs([], []), c.value, j - 1);
    }
  }

  /** What was read so far is kept, and a positional argument never follows a named one. */
  predicate Extends(sofar: CallArgs, c: CallArgs) {
    && sofar.positional <= c.positional && sofar.named <= c.named
    && (sofar.named != [] ==> c.positional == sofar.positional)
  }

  lemma {:induction false} ArgumentsSound(src: string, i: nat, sofar: CallArgs, c: CallArgs, j: nat)
    requires i <= |src| && ArgumentsAt(src, i, sofar) == Ok(c, j)
    ensures Extends(sofar, c) && Arguments(src, i, j, c, |sofar.positional|, |sofar.named|)
    decreases |src| - i, 3
  {
    if i < |src| && src[i] != ')' {
      var one := ArgumentAt(src, i, sofar);
      var n := AfterArgument(src, one.pos);
      ArgumentsSound(src, n, one.value, c, j);
      AfterSeparates(src, one.pos, n);
      ArgumentSound(src, i, sofar, one.value, one.pos, c);
    }
  }

  lemma {:induction false} AfterSeparates(src: string, i: nat, j: nat)
    requires i <= |src|
    ensures AfterArgument(src, i) == j <==> Separated(src, i, j)
  {
    var k := SkipBlank(src, i);
    SkipBlankIs(src, i, k);
    if At(src, k, ',') {
      SkipBlankIs(src, k + 1, j);
    } else {
      SkipBlankStays(src, i);
    }
    forall x: nat | Blanks(src, i, x) ensures x == k {
      BlanksUnique(src, i, x, k);
    }
  }

  lemma {:induction false} SkipBlankStays(src: string, i: nat)
    requires i <= |src|
    ensures SkipBlank(src, SkipBlank(src, i)) == SkipBlank(src, i)
  {
    SkipBlankIs(src, i, SkipBlank(src, i));
  }

  /** One argument, of those that c holds. */
  lemma {:induction false} ArgumentSound(src: string, i: nat, sofar: CallArgs, one: CallArgs, j: nat, c: CallArgs)
    requires i < |src| && ArgumentAt(src, i, sofar) == Ok(one, j) && Extends(one, c)
    ensures Extends(sofar, c)
    ensures
      var p, q := |sofar.positional|, |sofar.named|;
      if p < |c.positional| then
        Positional(src, i, j, c, p) && |one.positional| == p + 1 && |one.named| == q
      else q < |c.named| && NamedArgs(src, i, j, c, q) && |one.positional| == p && |one.named| == q + 1
    decreases |src| - i, 2
  {
    var e := InlineAt(src, i, false);
    InlineSound(src, i, false, e.value, e.pos);
    var bare := e.value.MessageRef? && e.value.attr == "";
    if bare {
      BareEnds(src, i, e.value, e.pos);
    }
    if bare && At(src, e.pos, ':') {
      NamedArgumentSound(src, i, e.value, e.pos, sofar, one, j, c);
    }
  }

  /** A bare name ends after the blanks that follow it. */
  lemma {:induction false} BareEnds(src: string, i: nat, e: InlineExpr, j: nat)
    requires i <= |src| && e.MessageRef? && e.attr == "" && Inlines(src, i, j, e, false)
    ensures j <= |src| && SkipBlank(src, j) == j
    ensures exists m: nat :: Named(src, i, m, j, e.id)
  {
    var m: nat, n: nat :| Named(src, i, m, n, e.id) && !Here(src, n, '(') && Accessor(src, n, j, e.attr);
  }

  lemma {:induction false} NamedArgumentSound(src: string, i: nat, e: InlineExpr, m: nat, sofar: CallArgs,
                                              one: CallArgs, j: nat, c: CallArgs)
    requires i <= m && e.MessageRef? && exists n: nat :: Named(src, i, n, m, e.id)
    requires At(src, m, ':') && NamedArgumentAt(src, m, e.id, sofar) == Ok(one, j) && Extends(one, c)
    ensures Extends(sofar, c) && |sofar.positional| == |c.positional| == |one.positional|
    ensures |one.named| == |sofar.named| + 1 <= |c.named| && NamedArgs(src, i, j, c, |sofar.named|)
    decreases |src| - m, 2
  {
    var v := SkipBlank(src, m + 1);
    var n: nat :| Named(src, i, n, m, e.id);
    SkipBlankIs(src, m + 1, v);
    assert Labelled(src, i, n, m, v, e.id);
    NamedArgumentParts(src, m, e.id, sofar, one, j);
    var a := one.named[|sofar.named|];
    assert c.named[|sofar.named|] == a;
    InlineSound(src, v, true, a.value, j);
    NameIsNew(sofar, one, e.id, c);
  }

  lemma {:induction false} NamedArgumentParts(src: string, i: nat, name: string, sofar: CallArgs, one: CallArgs, j: nat)
    requires At(src, i, ':') && NamedArgumentAt(src, i, name, sofar) == Ok(one, j)
    ensures name !in Names(sofar.named) && one.positional == sofar.positional
    ensures |one.named| == |sofar.named| + 1 && one.named == sofar.named + [one.named[|sofar.named|]]
    ensures one.named[|sofar.named|].name == name
    ensures InlineAt(src, SkipBlank(src, i + 1), true) == Ok(one.named[|sofar.named|].value, j)
  {
  }

  lemma {:induction false} NameIsNew(sofar: CallArgs, one: CallArgs, name: string, c: CallArgs)
    requires name !in Names(sofar.named) && sofar.named <= one.named && one.named <= c.named
    ensures forall k | 0 <= k < |sofar.named| :: c.named[k].name != name
  {
    forall k | 0 <= k < |sofar.named| ensures c.named[k].name != name {
      assert c.named[k] == one.named[k] == sofar.named[k];
      assert Names(sofar.named)[k] in Names(sofar.named);
    }
  }

  lemma {:induction false} PlaceableSound(src: string, i: nat, x: Expression, j: nat)
    requires i <= |src| && PlaceableAt(src, i) == Ok(x, j)
    ensures Placeables(src, i, j, x)
    decreases |src| - i, 3
  {
    var a, b := PlaceableParts(src, i, x, j);
    SkipBlankIs(src, i, a);
    SkipSpacesIs(src, b, j - 1);
    ExpressionSound(src, a, x, b);
    assert Closed(src, b, j);
  }

  lemma {:induction false} PlaceableParts(src: string, i: nat, x: Expression, j: nat) returns (a: nat, b: nat)
    requires i <= |src| && PlaceableAt(src, i) == Ok(x, j)
    ensures i <= a <= |src| && SkipBlank(src, i) == a && ExpressionAt(src, a) == Ok(x, b) && !IsTermAttribute(x)
    ensures b < j <= |src| && SkipBlankInline(src, b) == j - 1 && At(src, j - 1, '}')
  {
    a := SkipBlank(src, i);
    b := ExpressionAt(src, a).pos;
  }

  lemma {:induction false} ExpressionSound(src: string, i: nat, x: Expression, j: nat)
    requires i <= |src| && ExpressionAt(src, i) == Ok(x, j)
    ensures Expressions(src, i, j, x)
    decreases |src| - i, 2
  {
    var e := InlineAt(src, i, false);
    var n := SkipBlank(src, e.pos);
    InlineSound(src, i, false, e.value, e.pos);
    SkipBlankIs(src, e.pos, n);
    if Arrow(src, n) {
      SelectorsAgree(e.value);
      var v := SelectSound(src, e.pos, n, e.value, x, j);
    }
  }

  lemma {:induction false} SelectorsAgree(e: InlineExpr)
    ensures SelectorError(e).None? <==> Selects(e)
  {
  }

  lemma {:induction false} SelectSound(src: string, m: nat, n: nat, selector: InlineExpr, x: Expression, j: nat)
      returns (v: nat)
    requires Blanks(src, m, n) && Arrow(src, n) && SelectAt(src, n + 2, selector) == Ok(x, j)
    ensures x.Select? && x.selector == selector && Arrowed(src, m, n, v) && Variants(src, v, j, x, 0, false)
    decreases |src| - n, 3
  {
    var p := SkipBlankInline(src, n + 2);
    var q := SkipEol(src, p);
    v := SkipBlank(src, q);
    SkipSpacesIs(src, n + 2, p);
    SkipEolIs(src, p, q);
    SkipBlankIs(src, q, v);
    assert ArrowLine(src, n, p, q);
    VariantsSound(src, v, [], false, x, j);
  }

  lemma {:induction false} VariantsSound(src: string, i: nat, sofar: seq<Variant>, hasDefault: bool, x: Expression,
                                         j: nat)
    requires i <= |src| && x.Select? && VariantsAt(src, i, sofar, hasDefault) == Ok(x.variants, j)
    ensures sofar <= x.variants && Variants(src, i, j, x, |sofar|, hasDefault)
    decreases |src| - i, 9
  {
    var v, n := VariantsParts(src, i, sofar, hasDefault, x.variants, j);
    if v.Some? {
      VariantsSound(src, SkipBlank(src, n), sofar + [v.value], hasDefault || v.value.isDefault, x, j);
      assert x.variants[|sofar|] == v.value;
      MoreSound(src, i, n, j, x, |sofar|, hasDefault);
    } else {
      EndSound(src, i, hasDefault, j);
    }
  }

  lemma {:induction false} MoreSound(src: string, i: nat, n: nat, j: nat, x: Expression, k: nat, hasDefault: bool)
    requires i <= |src| && x.Select? && k < |x.variants|
    requires n <= |src| && NextVariant(src, i, hasDefault) == Ok(Some(x.variants[k]), n)
    requires Variants(src, SkipBlank(src, n), j, x, k + 1, hasDefault || x.variants[k].isDefault)
    ensures Variants(src, i, j, x, k, hasDefault)
    decreases |src| - i, 8
  {
    SkipBlankIs(src, n, SkipBlank(src, n));
    VariantSound(src, i, hasDefault, x, k, n);
    VariantsMore(src, i, n, SkipBlank(src, n), j, x, k, hasDefault);
  }

  lemma {:induction false} VariantsParts(src: string, i: nat, sofar: seq<Variant>, hasDefault: bool, vs: seq<Variant>,
                                         j: nat) returns (v: Option<Variant>, n: nat)
    requires i <= |src| && VariantsAt(src, i, sofar, hasDefault) == Ok(vs, j)
    ensures n <= |src| && NextVariant(src, i, hasDefault) == Ok(v, n)
    ensures
      if v.None? then vs == sofar && n == j
      else
        i < n && VariantsAt(src, SkipBlank(src, n), sofar + [v.value], hasDefault || v.value.isDefault) == Ok(vs, j)
  {
    v, n := NextVariant(src, i, hasDefault).value, NextVariant(src, i, hasDefault).pos;
  }

  lemma {:induction false} VariantsStep(src: string, i: nat, sofar: seq<Variant>, hasDefault: bool, v: Variant, n: nat)
    requires i <= |src| && NextVariant(src, i, hasDefault) == Ok(Some(v), n)
    ensures i < n <= |src|
    ensures VariantsAt(src, i, sofar, hasDefault) ==
            VariantsAt(src, SkipBlank(src, n), sofar + [v], hasDefault || v.isDefault)
  {
  }

  lemma {:induction false} VariantsMore(src: string, i: nat, n: nat, next: nat, j: nat, x: Expression, k: nat,
                                        hasDefault: bool)
    requires x.Select? && k < |x.variants| && !(x.variants[k].isDefault && hasDefault)
    requires OneVariant(src, i, n, x, k) && Blanks(src, n, next)
    requires Variants(src, next, j, x, k + 1, hasDefault || x.variants[k].isDefault)
    ensures Variants(src, i, j, x, k, hasDefault)
  {
  }

  lemma {:induction false} VariantSound(src: string, i: nat, hasDefault: bool, x: Expression, k: nat, j: nat)
    requires i <= |src| && x.Select? && k < |x.variants|
    requires NextVariant(src, i, hasDefault) == Ok(Some(x.variants[k]), j)
    ensures !(x.variants[k].isDefault && hasDefault) && OneVariant(src, i, j, x, k)
    decreases |src| - i, 7
  {
    var star := At(src, i, '*');
    var b := if star then i + 1 else i;
    BracketParts(src, i, star, b, hasDefault, x.variants[k], j);
    OneSound(src, i, b, x, k, j);
  }

  lemma {:induction false} BracketParts(src: string, i: nat, star: bool, b: nat, hasDefault: bool, v: Variant, j: nat)
    requires star == At(src, i, '*') && b == if star then i + 1 else i
    requires i <= |src| && NextVariant(src, i, hasDefault) == Ok(Some(v), j)
    ensures !(star && hasDefault) && At(src, b, '[') && VariantAt(src, b + 1, star) == Ok(v, j)
    ensures v.isDefault == star
  {
    assert Bracketed(src, b, star, hasDefault) == Ok(Some(v), j);
    BracketedParts(src, star, b, hasDefault, v, j);
  }

  lemma {:induction false} BracketedParts(src: string, star: bool, b: nat, hasDefault: bool, v: Variant, j: nat)
    requires b <= |src| && Bracketed(src, b, star, hasDefault) == Ok(Some(v), j)
    ensures At(src, b, '[') && VariantAt(src, b + 1, star) == Ok(v, j) && v.isDefault == star
  {
    assert VariantAt(src, b + 1, star) == Ok(v, j);
    var m := OneParts(src, b + 1, star, v, j);
  }

  lemma {:induction false} OneSound(src: string, i: nat, b: nat, x: Expression, k: nat, j: nat)
    requires x.Select? && k < |x.variants| && At(src, b, '[')
    requires VariantAt(src, b + 1, x.variants[k].isDefault) == Ok(x.variants[k], j)
    requires (x.variants[k].isDefault <==> At(src, i, '*')) && b == if x.variants[k].isDefault then i + 1 else i
    ensures OneVariant(src, i, j, x, k)
    decreases |src| - b, 5
  {
    var m := OneHeads(src, i, b, x.variants[k], j);
    ValueSound(src, m, x.variants[k].value, j);
    HeadedVariant(src, i, m, j, x, k);
  }

  lemma {:induction false} OneHeads(src: string, i: nat, b: nat, v: Variant, j: nat) returns (m: nat)
    requires At(src, b, '[') && b == if v.isDefault then i + 1 else i
    requires VariantAt(src, b + 1, v.isDefault) == Ok(v, j)
    ensures Heading(src, i, m, v) && b < m <= |src| && PatternAt(src, m) == Ok(Some(v.value), j)
  {
    m := OneParts(src, b + 1, v.isDefault, v, j);
    HeadingIs(src, i, m, v);
  }

  lemma {:induction false} HeadedVariant(src: string, i: nat, m: nat, j: nat, x: Expression, k: nat)
    requires x.Select? && k < |x.variants| && (x.variants[k].isDefault <==> Here(src, i, '*'))
    requires Heading(src, i, m, x.variants[k]) && Patterns(src, m, j, x.variants[k].value)
    requires x.variants[k].value.elements != []
    ensures OneVariant(src, i, j, x, k)
  {
  }

  lemma {:induction false} HeadingIs(src: string, i: nat, m: nat, v: Variant)
    ensures
      var b := if v.isDefault then i + 1 else i;
      Heading(src, i, m, v) <==> At(src, b, '[') && VariantKeyAt(src, b + 1) == Ok((v.key, v.numberKey), m)
  {
    var b := if v.isDefault then i + 1 else i;
    if b < |src| {
      KeyIs(src, b + 1, m, v.key, v.numberKey);
    }
  }

  lemma {:induction false} OneParts(src: string, i: nat, star: bool, v: Variant, j: nat) returns (m: nat)
    requires i <= |src| && VariantAt(src, i, star) == Ok(v, j)
    ensures v.isDefault == star && i < m <= |src| && VariantKeyAt(src, i) == Ok((v.key, v.numberKey), m)
    ensures PatternAt(src, m) == Ok(Some(v.value), j)
  {
    m := VariantKeyAt(src, i).pos;
  }

  lemma {:induction false} EndSound(src: string, i: nat, hasDefault: bool, j: nat)
    requires i <= |src|
    ensures NextVariant(src, i, hasDefault) == Ok(None, j) <==> ListEnds(src, i, j, hasDefault)
  {
  }

  // ----- patterns -----

  lemma {:induction false} PatternSound(src: string, i: nat, p: Option<Pattern>, j: nat)
    requires i <= |src| && PatternAt(src, i) == Ok(p, j)
    ensures Patterns(src, i, j, Whole(p)) && (p.Some? ==> p.value.elements != [])
    decreases |src| - i, 6
  {
    var (s, role) := PatternStart(src, i);
    OpensIs(src, i, s, role);
    var out := PatternScan(src, s, Scan([], -1, -1, role)).value;
    FinishedMade(src, i, s, role, out, j);
    ScanSound(src, s, Scan([], -1, -1, role), out, j, Whole(p));
    assert Composed(src, i, s, role, out.elements, j, Whole(p));
  }

  lemma {:induction false} ValueSound(src: string, i: nat, p: Pattern, j: nat)
    requires i <= |src| && PatternAt(src, i) == Ok(Some(p), j)
    ensures Patterns(src, i, j, p) && p.elements != []
    decreases |src| - i, 7
  {
    PatternSound(src, i, Some(p), j);
  }

  /** The placeables of the scan are those of the pattern. */
  ghost predicate HolesAre(els: seq<Placeholder>, p: Pattern) {
    forall k | 0 <= k < |els| && els[k].Hole? :: k < |p.elements| && p.elements[k] == Placeable(els[k].expr)
  }

  lemma {:induction false} FinishedMade(src: string, i: nat, s: nat, role: Role, out: Scan, j: nat)
    requires i <= |src| && PatternStart(src, i) == (s, role)
    requires PatternScan(src, s, Scan([], -1, -1, role)) == Ok(out, j)
    ensures Made(src, out.elements, Whole(Finish(src, out))) && HolesAre(out.elements, Whole(Finish(src, out)))
  {
    Dedent.StartStands(src, i);
    assert Dedent.Measured(src, s, Scan([], -1, -1, role));
    Dedent.ScanMeasured(src, s, Scan([], -1, -1, role));
    var end: nat :| Dedent.Measured(src, end, out);
    MeasuredMade(src, end, out);
  }

  lemma {:induction false} MeasuredMade(src: string, i: nat, out: Scan)
    requires Dedent.Measured(src, i, out)
    ensures Made(src, out.elements, Whole(Finish(src, out))) && HolesAre(out.elements, Whole(Finish(src, out)))
  {
    var p, last := Whole(Finish(src, out)), out.lastNonBlank;
    assert |p.elements| == last + 1;
    forall k | 0 <= k < |p.elements|
      ensures Dedent.Rendered(src, out.elements[k], out.commonIndent, k == last, p.elements[k])
    {
      Dedent.FinishedDedented(src, out.elements[k], out.commonIndent, k == last);
    }
  }

  lemma {:induction false} ScanSound(src: string, i: nat, scan: Scan, out: Scan, j: nat, p: Pattern)
    requires i <= |src| && scan.Valid() && PatternScan(src, i, scan) == Ok(out, j) && HolesAre(out.elements, p)
    ensures scan.elements <= out.elements
    ensures Pieces(src, i, scan.role, out.elements, |scan.elements|, j, p)
    decreases |src| - i, 5
  {
    if i < |src| {
      var step := NextElement(src, i, scan);
      if step.value.Stop? {
        StepEnds(src, i, scan, j);
      } else {
        ScanSound(src, step.pos, step.value.scan, out, j, p);
        if src[i] == '{' {
          HoleSound(src, i, scan, step.pos, step.value.scan, out, p);
          PiecesHole(src, i, scan.role, out.elements, |scan.elements|, j, p);
        } else {
          var from, stop := StepRuns(src, i, scan, step.value.scan, step.pos);
          PiecesText(src, i, scan, from, stop, step.value.scan, out.elements, j, p);
        }
      }
    }
  }

  lemma {:induction false} PiecesHole(src: string, i: nat, role: Role, els: seq<Placeholder>, n: nat, j: nat,
                                      p: Pattern)
    requires n < |els| && HolePiece(src, i, role, els[n], p, n)
    requires Placeables(src, i + 1, els[n].end, p.elements[n].expr)
    requires Pieces(src, els[n].end, Continuation, els, n + 1, j, p)
    ensures Pieces(src, i, role, els, n, j, p)
  {
  }

  lemma {:induction false} PiecesText(src: string, i: nat, scan: Scan, from: nat, stop: nat, after: Scan,
                                      els: seq<Placeholder>, j: nat, p: Pattern)
    requires TextRun(src, i, scan.role, from, stop) && Follows(src, i, scan, from, stop, after)
    requires after.elements <= els
    requires Pieces(src, NextAt(src, from, stop), after.role, els, |after.elements|, j, p)
    ensures scan.elements <= els && Pieces(src, i, scan.role, els, |scan.elements|, j, p)
  {
    var n := |scan.elements|;
    assert Adds(src, i, scan.role, from, stop) ==> after.elements[n] == els[n];
    assert TextPiece(src, i, scan.role, from, stop, els, n);
  }

  lemma {:induction false} HoleSound(src: string, i: nat, scan: Scan, j: nat, after: Scan, out: Scan, p: Pattern)
    requires At(src, i, '{') && scan.Valid() && NextElement(src, i, scan) == Ok(Go(after), j)
    requires after.elements <= out.elements && HolesAre(out.elements, p)
    ensures
      var n := |scan.elements|;
      && scan.elements <= out.elements && n < |out.elements|
      && HolePiece(src, i, scan.role, out.elements[n], p, n) && out.elements[n].end == j
      && Placeables(src, i + 1, j, p.elements[n].expr)
      && |after.elements| == n + 1 && after.role == Continuation
    decreases |src| - i, 4
  {
    var x := PlaceableAt(src, i + 1).value;
    assert after.elements == scan.elements + [Hole(i, j, x, scan.role)];
    assert out.elements[|scan.elements|] == after.elements[|scan.elements|];
    PlaceableSound(src, i + 1, x, j);
  }

  // ----- entries -----

  lemma {:induction false} AttributeSound(src: string, i: nat, a: Attribute, j: nat)
    requires i <= |src| && AttributeAt(src, i) == Ok(a, j)
    ensures Attributed(src, i, j, a)
  {
    var m, n := AttributeParts(src, i, a, j);
    AssignedIs(src, i, m, n, a.id);
    ValueSound(src, n + 1, a.value, j);
    PartsAttributed(src, i, m, n, a, j);
  }

  lemma {:induction false} AttributeParts(src: string, i: nat, a: Attribute, j: nat) returns (m: nat, n: nat)
    requires i <= |src| && AttributeAt(src, i) == Ok(a, j)
    ensures Identifier(src, i) == Ok(a.id, m) && SkipBlankInline(src, m) == n && At(src, n, '=')
    ensures PatternAt(src, n + 1) == Ok(Some(a.value), j)
  {
    m := Identifier(src, i).pos;
    n := SkipBlankInline(src, m);
  }

  lemma {:induction false} PartsAttributed(src: string, i: nat, m: nat, n: nat, a: Attribute, j: nat)
    requires a.value.elements != [] && Assigned(src, i, m, n, a.id) && Patterns(src, n + 1, j, a.value)
    ensures Attributed(src, i, j, a)
  {
  }

  lemma {:induction false} AssignedIs(src: string, i: nat, m: nat, n: nat, id: string)
    requires i <= |src|
    ensures Identifier(src, i) == Ok(id, m) && SkipBlankInline(src, m) == n && At(src, n, '=')
            <==> Assigned(src, i, m, n, id)
  {
    IdentifierIs(src, i, m, id);
    if m <= |src| {
      SkipSpacesIs(src, m, n);
    }
  }

  lemma {:induction false} NextAttributeSound(src: string, i: nat, a: Attribute, j: nat)
    requires i <= |src| && NextAttribute(src, i) == (Some(a), j)
    ensures AttributeLine(src, i, j, a)
  {
    var s := SkipBlankInline(src, i);
    SkipSpacesIs(src, i, s);
    AttributeSound(src, s + 1, a, j);
  }
}
