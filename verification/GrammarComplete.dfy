/** Completeness of the parser: whatever the grammar says a stretch of source spells,
    the parser reads it there, and takes just that stretch. */
module GrammarComplete {
  import opened FluentSyntax
  import opened Options
  import opened Chars
  import opened ParserSpec
  import opened WellFormed
  import Dedent
  import opened Grammar
  import opened GrammarTokens
  import opened GrammarSound

  // ----- expressions -----

  lemma {:induction false} StringComplete(src: string, i: nat, raw: string)
    requires QuotedAt(src, raw, i) && Spelled(raw)
    ensures StringLit(src, i) == Ok(StringLiteral(raw), i + |raw| + 2)
  {
    QuotedRest(src, i, raw);
    LiteralGrammar(src, i, raw, src[i + |raw| + 2..]);
  }

  lemma {:induction false} QuotedRest(src: string, i: nat, raw: string)
    requires QuotedAt(src, raw, i)
    ensures i + |raw| + 2 <= |src| && src[i..] == "\"" + (raw + ("\"" + src[i + |raw| + 2..]))
  {
    var j := i + 1 + |raw|;
    assert src[j..] == "\"" + src[j + 1..];
    assert src[i + 1..] == src[i + 1..j] + src[j..];
    assert src[i..] == "\"" + src[i + 1..];
  }

  lemma {:induction false} InlineComplete(src: string, i: nat, j: nat, e: InlineExpr, only: bool)
    requires Inlines(src, i, j, e, only)
    ensures i < |src| && src[i] != ')' && InlineAt(src, i, only) == Ok(e, j)
    decreases e, 1
  {
    match e
    case StringLiteral(raw) => StringComplete(src, i, raw);
    case NumberLiteral(raw) => NumberComplete(src, i, j, raw, only);
    case VariableRef(id) => IdentifierIs(src, i + 1, j, id);
    case MessageRef(id, attr) =>
      var m: nat, n: nat :| Named(src, i, m, n, id) && !Here(src, n, '(') && Accessor(src, n, j, attr);
      ReferenceComplete(src, i, m, n, id, attr, j, only);
    case FunctionRef(_, _) => FunctionComplete(src, i, j, e, only);
    case TermRef(_, _, _) => TermComplete(src, i, j, e);
    case NestedPlaceable(x) => PlaceableComplete(src, i + 1, j, x);
  }

  lemma {:induction false} FunctionComplete(src: string, i: nat, j: nat, e: InlineExpr, only: bool)
    requires e.FunctionRef? && Inlines(src, i, j, e, only)
    ensures i < |src| && src[i] != ')' && InlineAt(src, i, only) == Ok(e, j)
    decreases e, 0
  {
    var m: nat, n: nat :| Named(src, i, m, n, e.id) && Call(src, n, j, e.callArgs);
    NameThen(src, i, m, n, e.id);
    CallComplete(src, m, n, j, e.callArgs);
    PartsFunction(src, i, m, j, e.id, e.callArgs, only);
  }

  lemma {:induction false} PartsFunction(src: string, i: nat, m: nat, j: nat, id: string, c: CallArgs, only: bool)
    requires i < |src| && IsAlpha(src[i]) && Identifier(src, i) == Ok(id, m) && m <= |src| && IsCallee(id)
    requires CallArgumentsAt(src, m) == Ok(Some(c), j)
    ensures InlineAt(src, i, only) == Ok(FunctionRef(id, c), j)
  {
  }

  lemma {:induction false} TermComplete(src: string, i: nat, j: nat, e: InlineExpr)
    requires e.TermRef? && Inlines(src, i, j, e, false)
    ensures i < |src| && src[i] != ')' && InlineAt(src, i, false) == Ok(e, j)
    decreases e, 0
  {
    var m: nat, n: nat, k: nat :| TermHead(src, i, m, n, k, e.id, e.attr) &&
      if e.args.None? then j == k && !Here(src, k, '(') else Call(src, k, j, e.args.value);
    TermThen(src, i, m, n, k, e.id, e.attr);
    if e.args.Some? {
      CallComplete(src, n, k, j, e.args.value);
    }
    PartsTerm(src, i, m, n, j, e.id, e.attr, e.args);
  }

  lemma {:induction false} PartsTerm(src: string, i: nat, m: nat, n: nat, j: nat, id: string, attr: string,
                                     args: Option<CallArgs>)
    requires At(src, i, '-') && i + 1 < |src| && IsAlpha(src[i + 1]) && Identifier(src, i + 1) == Ok(id, m)
    requires m <= |src| && AttributeAccessor(src, m) == Ok(attr, n) && CallArgumentsAt(src, n) == Ok(args, j)
    ensures InlineAt(src, i, false) == Ok(TermRef(id, attr, args), j)
  {
  }

  lemma {:induction false} NumberComplete(src: string, i: nat, j: nat, raw: string, only: bool)
    requires Numeral(src, i, j, raw) && (only ==> !Here(src, i, '-'))
    ensures i < |src| && src[i] != ')' && InlineAt(src, i, only) == Ok(NumberLiteral(raw), j)
  {
    NumberIs(src, i, j, raw);
  }

  /** A name and what is read at it. */
  lemma {:induction false} NameThen(src: string, i: nat, m: nat, n: nat, id: string)
    requires Named(src, i, m, n, id)
    ensures i < |src| && IsAlpha(src[i]) && Identifier(src, i) == Ok(id, m) && m <= |src| && SkipBlank(src, m) == n
    ensures n <= |src|
  {
    IdentifierIs(src, i, m, id);
    SkipBlankIs(src, m, n);
  }

  lemma {:induction false} TermThen(src: string, i: nat, m: nat, n: nat, k: nat, id: string, attr: string)
    requires TermHead(src, i, m, n, k, id, attr)
    ensures At(src, i, '-') && i + 1 < |src| && IsAlpha(src[i + 1]) && Identifier(src, i + 1) == Ok(id, m)
    ensures m <= |src| && AttributeAccessor(src, m) == Ok(attr, n) && n <= |src| && SkipBlank(src, n) == k <= |src|
  {
    IdentifierIs(src, i + 1, m, id);
    AccessorIs(src, m, n, attr);
    SkipBlankIs(src, n, k);
  }

  lemma {:induction false} ReferenceComplete(src: string, i: nat, m: nat, n: nat, id: string, attr: string, j: nat,
                                             only: bool)
    requires Named(src, i, m, n, id) && !Here(src, n, '(') && Accessor(src, n, j, attr)
    ensures i < |src| && src[i] != ')' && InlineAt(src, i, only) == Ok(MessageRef(id, attr), j)
  {
    NameThen(src, i, m, n, id);
    AccessorIs(src, n, j, attr);
    assert CallArgumentsAt(src, m) == Ok(None, n);
  }

  lemma {:induction false} CallComplete(src: string, i: nat, k: nat, j: nat, c: CallArgs)
    requires i <= |src| && SkipBlank(src, i) == k && Call(src, k, j, c)
    ensures CallArgumentsAt(src, i) == Ok(Some(c), j)
    decreases c, |c.positional| + |c.named| + 1
  {
    var a: nat, m: nat :|
      Blanks(src, k + 1, a) && Arguments(src, a, m, c, 0, 0) && Here(src, m, ')') && j == m + 1;
    SkipBlankIs(src, k + 1, a);
    ArgumentsComplete(src, a, m, c, 0, 0);
    assert Read(c, 0, 0) == CallArgs([], []);
    PartsCall(src, i, k, a, m, c);
  }

  lemma {:induction false} PartsCall(src: string, i: nat, k: nat, a: nat, m: nat, c: CallArgs)
    requires i <= |src| && SkipBlank(src, i) == k && At(src, k, '(') && SkipBlank(src, k + 1) == a
    requires ArgumentsAt(src, a, CallArgs([], [])) == Ok(c, m) && At(src, m, ')')
    ensures CallArgumentsAt(src, i) == Ok(Some(c), m + 1)
  {
  }

  /** The arguments before the p-th positional and the q-th named one. */
  function Read(c: CallArgs, p: nat, q: nat): CallArgs
    requires p <= |c.positional| && q <= |c.named|
  {
    CallArgs(c.positional[..p], c.named[..q])
  }

  lemma {:induction false} ArgumentsComplete(src: string, i: nat, j: nat, c: CallArgs, p: nat, q: nat)
    requires p <= |c.positional| && q <= |c.named| && (q > 0 ==> p == |c.positional|)
    requires Arguments(src, i, j, c, p, q) && Here(src, j, ')')
    ensures i <= |src| && ArgumentsAt(src, i, Read(c, p, q)) == Ok(c, j)
    decreases c, |c.positional| - p + |c.named| - q
  {
    if p < |c.positional| {
      var m: nat, n: nat :| Positional(src, i, m, c, p) && Separated(src, m, n) && Arguments(src, n, j, c, p + 1, q);
      ArgumentsComplete(src, n, j, c, p + 1, q);
      PositionalComplete(src, i, m, c, p);
      AfterSeparates(src, m, n);
    } else if q < |c.named| {
      var m: nat, n: nat :| NamedArgs(src, i, m, c, q) && Separated(src, m, n) && Arguments(src, n, j, c, p, q + 1);
      ArgumentsComplete(src, n, j, c, p, q + 1);
      NamedComplete(src, i, m, c, q);
      AfterSeparates(src, m, n);
    } else {
      assert Read(c, p, q) == c;
    }
  }

  lemma {:induction false} PositionalComplete(src: string, i: nat, j: nat, c: CallArgs, p: nat)
    requires p < |c.positional| && Positional(src, i, j, c, p)
    ensures i < |src| && src[i] != ')' && ArgumentAt(src, i, Read(c, p, 0)) == Ok(Read(c, p + 1, 0), j)
    decreases c, 0
  {
    var e := c.positional[p];
    InlineComplete(src, i, j, e, false);
    if e.MessageRef? && e.attr == "" {
      BareEnds(src, i, e, j);
    }
    assert c.positional[..p + 1] == c.positional[..p] + [e];
  }

  lemma {:induction false} NamedComplete(src: string, i: nat, j: nat, c: CallArgs, q: nat)
    requires q < |c.named| && NamedArgs(src, i, j, c, q)
    ensures
      var p := |c.positional|;
      i < |src| && src[i] != ')' && ArgumentAt(src, i, Read(c, p, q)) == Ok(Read(c, p, q + 1), j)
    decreases c, 0
  {
    var a := c.named[q];
    var m, n, v := NamedParts(src, i, j, c, q);
    InlineComplete(src, v, j, a.value, true);
    LabelComplete(src, i, m, n, v, a.name);
    NewName(c, q);
    PartsNamed(src, i, n, v, a, Read(c, |c.positional|, q), j);
    ReadNamed(c, q);
  }

  lemma {:induction false} ReadNamed(c: CallArgs, q: nat)
    requires q < |c.named|
    ensures
      var sofar := Read(c, |c.positional|, q);
      Read(c, |c.positional|, q + 1) == sofar.(named := sofar.named + [c.named[q]])
  {
    assert c.named[..q + 1] == c.named[..q] + [c.named[q]];
  }

  lemma {:induction false} NamedParts(src: string, i: nat, j: nat, c: CallArgs, q: nat) returns (m: nat, n: nat, v: nat)
    requires q < |c.named| && NamedArgs(src, i, j, c, q)
    ensures Labelled(src, i, m, n, v, c.named[q].name) && Inlines(src, v, j, c.named[q].value, true)
    ensures forall k | 0 <= k < q :: c.named[k].name != c.named[q].name
  {
    m, n, v :| Labelled(src, i, m, n, v, c.named[q].name) && Inlines(src, v, j, c.named[q].value, true);
  }

  lemma {:induction false} PartsNamed(src: string, i: nat, n: nat, v: nat, a: NamedArg, sofar: CallArgs, j: nat)
    requires i < |src| && InlineAt(src, i, false) == Ok(MessageRef(a.name, ""), n)
    requires At(src, n, ':') && SkipBlank(src, n) == n && SkipBlank(src, n + 1) == v <= |src|
    requires a.name !in Names(sofar.named) && InlineAt(src, v, true) == Ok(a.value, j)
    ensures ArgumentAt(src, i, sofar) == Ok(sofar.(named := sofar.named + [a]), j)
  {
    assert NamedArgumentAt(src, n, a.name, sofar) == Ok(sofar.(named := sofar.named + [a]), j);
  }

  lemma {:induction false} LabelComplete(src: string, i: nat, m: nat, n: nat, v: nat, name: string)
    requires Labelled(src, i, m, n, v, name)
    ensures i < |src| && src[i] != ')' && InlineAt(src, i, false) == Ok(MessageRef(name, ""), n)
    ensures n < |src| && SkipBlank(src, n) == n && SkipBlank(src, n + 1) == v
  {
    ReferenceComplete(src, i, m, n, name, "", n, false);
    SkipBlankIs(src, n + 1, v);
    SkipBlankIs(src, n, n);
  }

  lemma {:induction false} NewName(c: CallArgs, q: nat)
    requires q < |c.named| && forall k | 0 <= k < q :: c.named[k].name != c.named[q].name
    ensures c.named[q].name !in Names(c.named[..q])
  {
  }

  lemma {:induction false} PlaceableComplete(src: string, i: nat, j: nat, x: Expression)
    requires Placeables(src, i, j, x)
    ensures i <= |src| && PlaceableAt(src, i) == Ok(x, j)
    decreases x, 3
  {
    var a: nat, b: nat :| Blanks(src, i, a) && Expressions(src, a, b, x) && Closed(src, b, j);
    ExpressionComplete(src, a, b, x);
    PartsPlaceable(src, i, a, b, j, x);
  }

  lemma {:induction false} PartsPlaceable(src: string, i: nat, a: nat, b: nat, j: nat, x: Expression)
    requires Blanks(src, i, a) && ExpressionAt(src, a) == Ok(x, b) && !IsTermAttribute(x) && Closed(src, b, j)
    ensures PlaceableAt(src, i) == Ok(x, j)
  {
    SkipBlankIs(src, i, a);
    SkipSpacesIs(src, b, j - 1);
  }

  lemma {:induction false} ExpressionComplete(src: string, i: nat, j: nat, x: Expression)
    requires Expressions(src, i, j, x) && !IsTermAttribute(x)
    ensures i <= |src| && ExpressionAt(src, i) == Ok(x, j)
    decreases x, 2
  {
    if x.Inline? {
      AloneComplete(src, i, j, x);
    } else {
      var m: nat, n: nat, v: nat :|
        Inlines(src, i, m, x.selector, false) && Arrowed(src, m, n, v) && Variants(src, v, j, x, 0, false);
      InlineComplete(src, i, m, x.selector, false);
      SelectorsAgree(x.selector);
      SkipBlankIs(src, m, n);
      SelectComplete(src, m, n, v, j, x);
      PartsSelection(src, i, m, n, x, j);
    }
  }

  lemma {:induction false} AloneComplete(src: string, i: nat, j: nat, x: Expression)
    requires x.Inline? && Expressions(src, i, j, x) && !IsTermAttribute(x)
    ensures i <= |src| && ExpressionAt(src, i) == Ok(x, j)
    decreases x, 1
  {
    var m: nat :| Inlines(src, i, m, x.e, false) && Blanks(src, m, j);
    InlineComplete(src, i, m, x.e, false);
    SkipBlankIs(src, m, j);
  }

  lemma {:induction false} PartsSelection(src: string, i: nat, m: nat, n: nat, x: Expression, j: nat)
    requires i <= |src| && x.Select? && InlineAt(src, i, false) == Ok(x.selector, m) && SkipBlank(src, m) == n
    requires n + 2 <= |src| && Arrow(src, n) && SelectorError(x.selector).None?
    requires SelectAt(src, n + 2, x.selector) == Ok(x, j)
    ensures ExpressionAt(src, i) == Ok(x, j)
  {
    assert AfterInline(src, n, x.selector) == Ok(x, j);
  }

  lemma {:induction false} SelectComplete(src: string, m: nat, n: nat, v: nat, j: nat, x: Expression)
    requires x.Select? && Arrowed(src, m, n, v) && Variants(src, v, j, x, 0, false)
    ensures n + 2 <= |src| && Arrow(src, n) && SelectAt(src, n + 2, x.selector) == Ok(x, j)
    decreases x, 1, |x.variants| + 2
  {
    var p: nat, q: nat :| ArrowLine(src, n, p, q) && Blanks(src, q, v);
    SkipSpacesIs(src, n + 2, p);
    SkipEolIs(src, p, q);
    SkipBlankIs(src, q, v);
    AllVariants(src, v, j, x);
    PartsSelect(src, n + 2, p, q, v, j, x);
  }

  lemma {:induction false} AllVariants(src: string, i: nat, j: nat, x: Expression)
    requires i <= |src| && x.Select? && Variants(src, i, j, x, 0, false)
    ensures VariantsAt(src, i, [], false) == Ok(x.variants, j)
    decreases x, 1, |x.variants| + 1
  {
    VariantsComplete(src, i, j, x, 0, false);
    assert x.variants[..0] == [];
  }

  lemma {:induction false} PartsSelect(src: string, i: nat, p: nat, q: nat, v: nat, j: nat, x: Expression)
    requires i <= |src| && SkipBlankInline(src, i) == p && SkipEol(src, p) == q != p && SkipBlank(src, q) == v
    requires x.Select? && VariantsAt(src, v, [], false) == Ok(x.variants, j)
    ensures SelectAt(src, i, x.selector) == Ok(x, j)
  {
  }

  lemma {:induction false} VariantsComplete(src: string, i: nat, j: nat, x: Expression, k: nat, hasDefault: bool)
    requires i <= |src| && x.Select? && k <= |x.variants| && Variants(src, i, j, x, k, hasDefault)
    ensures VariantsAt(src, i, x.variants[..k], hasDefault) == Ok(x.variants, j)
    decreases x, 1, |x.variants| - k
  {
    if k == |x.variants| {
      EndSound(src, i, hasDefault, j);
      assert x.variants[..k] == x.variants;
    } else {
      var v := x.variants[k];
      var n: nat, next: nat :|
        && OneVariant(src, i, n, x, k) && Blanks(src, n, next)
        && Variants(src, next, j, x, k + 1, hasDefault || v.isDefault);
      SkipBlankIs(src, n, next);
      VariantsComplete(src, next, j, x, k + 1, hasDefault || v.isDefault);
      VariantComplete(src, i, n, x, k, hasDefault);
      ReadVariants(x, k);
      VariantsStep(src, i, x.variants[..k], hasDefault, v, n);
    }
  }

  lemma {:induction false} ReadVariants(x: Expression, k: nat)
    requires x.Select? && k < |x.variants|
    ensures x.variants[..k + 1] == x.variants[..k] + [x.variants[k]]
  {
  }

  lemma {:induction false} VariantComplete(src: string, i: nat, j: nat, x: Expression, k: nat, hasDefault: bool)
    requires i <= |src| && x.Select? && k < |x.variants| && OneVariant(src, i, j, x, k)
    requires !(x.variants[k].isDefault && hasDefault)
    ensures NextVariant(src, i, hasDefault) == Ok(Some(x.variants[k]), j)
    decreases x, 1, 0
  {
    var v := x.variants[k];
    var m: nat :| Heading(src, i, m, v) && Patterns(src, m, j, v.value);
    HeadingIs(src, i, m, v);
    PatternComplete(src, m, j, v.value);
    PartsVariant(src, i, hasDefault, v, m, j);
  }

  lemma {:induction false} PartsVariant(src: string, i: nat, hasDefault: bool, v: Variant, m: nat, j: nat)
    requires i <= |src| && (v.isDefault <==> At(src, i, '*')) && !(v.isDefault && hasDefault)
    requires
      var b := if v.isDefault then i + 1 else i;
      At(src, b, '[') && m <= |src| && VariantKeyAt(src, b + 1) == Ok((v.key, v.numberKey), m)
    requires PatternAt(src, m) == Ok(Some(v.value), j)
    ensures NextVariant(src, i, hasDefault) == Ok(Some(v), j)
  {
    var b := if v.isDefault then i + 1 else i;
    PartsOne(src, b + 1, v, m, j);
    PartsBracketed(src, b, v, hasDefault, j);
  }

  lemma {:induction false} PartsBracketed(src: string, b: nat, v: Variant, hasDefault: bool, j: nat)
    requires At(src, b, '[') && VariantAt(src, b + 1, v.isDefault) == Ok(v, j)
    ensures Bracketed(src, b, v.isDefault, hasDefault) == Ok(Some(v), j)
  {
  }

  lemma {:induction false} PartsOne(src: string, i: nat, v: Variant, m: nat, j: nat)
    requires i <= |src| && m <= |src| && VariantKeyAt(src, i) == Ok((v.key, v.numberKey), m)
    requires PatternAt(src, m) == Ok(Some(v.value), j)
    ensures VariantAt(src, i, v.isDefault) == Ok(v, j)
  {
  }

  // ----- patterns -----

  lemma {:induction false} PatternComplete(src: string, i: nat, j: nat, p: Pattern)
    requires i <= |src| && Patterns(src, i, j, p)
    ensures PatternAt(src, i) == Ok(if p.elements == [] then None else Some(p), j)
    decreases p, 3
  {
    var s: nat, role: Role, els: seq<Placeholder> :| Composed(src, i, s, role, els, j, p);
    OpensIs(src, i, s, role);
    var out := ScanComplete(src, s, Scan([], -1, -1, role), els, j, p);
    FinishedMade(src, i, s, role, out, j);
    MadeUnique(src, els, p, Whole(Finish(src, out)));
    MadeSome(src, out, p);
  }

  lemma {:induction false} MadeSome(src: string, out: Scan, p: Pattern)
    requires out.Valid() && Whole(Finish(src, out)) == p
    ensures Finish(src, out) == if p.elements == [] then None else Some(p)
  {
  }

  lemma {:induction false} ScanComplete(src: string, i: nat, scan: Scan, els: seq<Placeholder>, j: nat, p: Pattern)
      returns (out: Scan)
    requires i <= |src| && scan.Valid() && scan.elements <= els
    requires Pieces(src, i, scan.role, els, |scan.elements|, j, p)
    ensures PatternScan(src, i, scan) == Ok(out, j) && out.elements == els
    decreases p, 2, |src| - i
  {
    var n := |scan.elements|;
    if n == |els| && Ends(src, i, scan.role, j) {
      out := scan;
      EndComplete(src, i, scan, j);
    } else if n < |els| && HolePiece(src, i, scan.role, els[n], p, n) &&
              Placeables(src, i + 1, els[n].end, p.elements[n].expr) &&
              Pieces(src, els[n].end, Continuation, els, n + 1, j, p)
    {
      out := HoleComplete(src, i, scan, els, j, p);
    } else {
      var from: nat, stop: nat :| TextPiece(src, i, scan.role, from, stop, els, n) &&
        Pieces(src, NextAt(src, from, stop), NextRole(src, stop), els,
               if Adds(src, i, scan.role, from, stop) then n + 1 else n, j, p);
      out := TextComplete(src, i, scan, from, stop, els, j, p);
    }
  }

  lemma {:induction false} EndComplete(src: string, i: nat, scan: Scan, j: nat)
    requires i <= |src| && scan.Valid() && Ends(src, i, scan.role, j)
    ensures PatternScan(src, i, scan) == Ok(scan, j)
  {
    if i < |src| {
      StepEnds(src, i, scan, j);
    }
  }

  lemma {:induction false} TextComplete(src: string, i: nat, scan: Scan, from: nat, stop: nat, els: seq<Placeholder>,
                                        j: nat, p: Pattern) returns (out: Scan)
    requires scan.Valid() && scan.elements <= els && TextPiece(src, i, scan.role, from, stop, els, |scan.elements|)
    requires Pieces(src, NextAt(src, from, stop), NextRole(src, stop), els,
                    if Adds(src, i, scan.role, from, stop) then |scan.elements| + 1 else |scan.elements|, j, p)
    ensures PatternScan(src, i, scan) == Ok(out, j) && out.elements == els
    decreases p, 2, |src| - i, 0
  {
    var after := PieceSteps(src, i, scan, from, stop, els);
    out := ScanComplete(src, NextAt(src, from, stop), after, els, j, p);
    ScanSteps(src, i, scan, after, NextAt(src, from, stop));
  }

  lemma {:induction false} HoleComplete(src: string, i: nat, scan: Scan, els: seq<Placeholder>, j: nat, p: Pattern)
      returns (out: Scan)
    requires scan.Valid() && scan.elements < els
    requires HolePiece(src, i, scan.role, els[|scan.elements|], p, |scan.elements|)
    requires
      var n := |scan.elements|;
      && Placeables(src, i + 1, els[n].end, p.elements[n].expr)
      && Pieces(src, els[n].end, Continuation, els, n + 1, j, p)
    ensures PatternScan(src, i, scan) == Ok(out, j) && out.elements == els
    decreases p, 2, |src| - i, 0
  {
    var el := els[|scan.elements|];
    var after := AddHole(scan, i, el.end, el.expr);
    PlaceableComplete(src, i + 1, el.end, el.expr);
    out := ScanComplete(src, el.end, after, els, j, p);
    ScanSteps(src, i, scan, after, el.end);
  }

  lemma {:induction false} PieceSteps(src: string, i: nat, scan: Scan, from: nat, stop: nat, els: seq<Placeholder>)
      returns (after: Scan)
    requires scan.Valid() && scan.elements <= els && TextPiece(src, i, scan.role, from, stop, els, |scan.elements|)
    ensures NextElement(src, i, scan) == Ok(Go(after), NextAt(src, from, stop)) && after.Valid()
    ensures after.role == NextRole(src, stop) && after.elements <= els
    ensures |after.elements| == |scan.elements| + if Adds(src, i, scan.role, from, stop) then 1 else 0
  {
    after := RunSteps(src, i, scan, from, stop);
  }

  lemma {:induction false} ScanSteps(src: string, i: nat, scan: Scan, after: Scan, next: nat)
    requires i < |src| && scan.Valid() && NextElement(src, i, scan) == Ok(Go(after), next)
    ensures next <= |src| && after.Valid() && PatternScan(src, i, scan) == PatternScan(src, next, after)
  {
  }

  /** The elements make one pattern only. */
  lemma {:induction false} MadeUnique(src: string, els: seq<Placeholder>, p: Pattern, q: Pattern)
    requires Made(src, els, p) && Made(src, els, q)
    ensures p == q
  {
    var last := |p.elements| - 1;
    assert |q.elements| - 1 == last;
    var c: int :| Dedent.IsCommonIndent(src, els, c) &&
      forall k | 0 <= k < |p.elements| :: Dedent.Rendered(src, els[k], c, k == last, p.elements[k]);
    var d: int :| Dedent.IsCommonIndent(src, els, d) &&
      forall k | 0 <= k < |q.elements| :: Dedent.Rendered(src, els[k], d, k == last, q.elements[k]);
    IndentUnique(src, els, c, d);
    forall k | 0 <= k <= last ensures p.elements[k] == q.elements[k] {
      RenderedUnique(src, els[k], c, k == last, p.elements[k], q.elements[k]);
    }
  }

  lemma {:induction false} IndentUnique(src: string, els: seq<Placeholder>, c: int, d: int)
    requires Dedent.IsCommonIndent(src, els, c) && Dedent.IsCommonIndent(src, els, d)
    ensures c == d
  {
  }

  lemma {:induction false} RenderedUnique(src: string, el: Placeholder, c: int, last: bool, a: Element, b: Element)
    requires Dedent.Rendered(src, el, c, last, a) && Dedent.Rendered(src, el, c, last, b)
    ensures a == b
  {
    if el.Slice? && last {
      TrimmedUnique(src[el.start + Cut(el, c)..el.end], a.text, b.text);
    }
  }

  lemma {:induction false} TrimmedUnique(whole: string, s: string, t: string)
    requires Dedent.Trimmed(whole, s) && Dedent.Trimmed(whole, t)
    ensures s == t
  {
    NotLonger(whole, s, t);
    NotLonger(whole, t, s);
  }

  lemma {:induction false} NotLonger(whole: string, s: string, t: string)
    requires Dedent.Trimmed(whole, s) && Dedent.Trimmed(whole, t)
    ensures |t| <= |s|
  {
    if t != "" {
      assert t[|t| - 1] == whole[|t| - 1];
    }
  }
}
