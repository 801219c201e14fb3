/** Two rules of the Fluent grammar that the parser does not enforce, and exactly
    when it meets them: a select has a default variant, and the value of a named
    argument is a literal. */
module Looseness {
  import opened FluentSyntax
  import opened Options
  import opened Chars
  import opened ParserSpec

  // ----- a default variant -----

  /** Where a variant list ends: the position at which no further variant is read,
      before a star that may stand there. */
  function ListEnd(src: string, i: nat, hasDefault: bool): (j: nat)
    requires i <= |src|
    ensures i <= j <= |src|
    decreases |src| - i
  {
    var v := NextVariant(src, i, hasDefault);
    if v.Err? || v.value.None? then i
    else ListEnd(src, SkipBlank(src, v.pos), hasDefault || v.value.value.isDefault)
  }

  /** A star that no variant follows. */
  predicate LoneStar(src: string, i: nat) { At(src, i, '*') && !At(src, i + 1, '[') }

  ghost predicate HasDefault(vs: seq<Variant>) { exists k :: 0 <= k < |vs| && vs[k].isDefault }

  lemma {:induction false} DefaultUnlessLoneStar(src: string, i: nat, sofar: seq<Variant>, hasDefault: bool)
    requires i <= |src| && (hasDefault <==> HasDefault(sofar)) && VariantsAt(src, i, sofar, hasDefault).Ok?
    ensures HasDefault(VariantsAt(src, i, sofar, hasDefault).value) <==> !LoneStar(src, ListEnd(src, i, hasDefault))
    decreases |src| - i
  {
    var v := NextVariant(src, i, hasDefault);
    if v.value.None? {
      var j := if At(src, i, '*') then i + 1 else i;
      assert Bracketed(src, j, At(src, i, '*'), hasDefault).value.None? && !At(src, j, '[');
      assert VariantsAt(src, i, sofar, hasDefault).value == sofar && ListEnd(src, i, hasDefault) == i;
      assert hasDefault <==> !At(src, i, '*');
    } else {
      var more := sofar + [v.value.value];
      VariantStar(src, i, hasDefault, v.value.value, v.pos);
      if HasDefault(sofar) {
        var k :| 0 <= k < |sofar| && sofar[k].isDefault;
        assert more[k].isDefault;
      }
      assert more[|sofar|] == v.value.value;
      DefaultUnlessLoneStar(src, SkipBlank(src, v.pos), more, hasDefault || v.value.value.isDefault);
      assert VariantsAt(src, i, sofar, hasDefault) ==
             VariantsAt(src, SkipBlank(src, v.pos), more, hasDefault || v.value.value.isDefault);
    }
  }

  /** A variant is a default exactly when a star precedes its bracket. */
  lemma {:induction false} VariantStar(src: string, i: nat, hasDefault: bool, v: Variant, end: nat)
    requires i <= |src| && NextVariant(src, i, hasDefault) == Ok(Some(v), end)
    ensures v.isDefault <==> At(src, i, '*')
  {
    BracketStar(src, if At(src, i, '*') then i + 1 else i, At(src, i, '*'), hasDefault, v, end);
  }

  lemma {:induction false} BracketStar(src: string, i: nat, star: bool, hasDefault: bool, v: Variant, end: nat)
    requires i <= |src| && Bracketed(src, i, star, hasDefault) == Ok(Some(v), end)
    ensures v.isDefault == star
  {
    assert VariantAt(src, i + 1, star) == Ok(v, end);
  }

  /** A select that is read has a default variant if and only if its list does not
      end at a lone star. */
  lemma {:induction false} SelectHasDefault(src: string, i: nat, selector: InlineExpr)
    requires i <= |src| && SelectAt(src, i, selector).Ok?
    ensures
      var e := SelectAt(src, i, selector).value;
      var first := SkipBlank(src, SkipEol(src, SkipBlankInline(src, i)));
      e.Select? && (HasDefault(e.variants) <==> !LoneStar(src, ListEnd(src, first, false)))
  {
    DefaultUnlessLoneStar(src, SkipBlank(src, SkipEol(src, SkipBlankInline(src, i))), [], false);
  }

  const LONE_STAR: string := "a = {1->\n*}"

  /** A message whose value is a select without any variant. */
  lemma {:induction false} SelectWithoutDefault()
    ensures Parse(LONE_STAR) == OneMessage(Select(NumberLiteral("1"), []))
  {
    EmptySelect(LONE_STAR, 5);
    WholePlaceable(LONE_STAR, Select(NumberLiteral("1"), []));
  }

  lemma {:induction false} EmptySelect(src: string, i: nat)
    requires i + 6 == |src| && src[i..] == "1->\n*}"
    ensures PlaceableAt(src, i) == Ok(Select(NumberLiteral("1"), []), i + 6)
  {
    var e := Select(NumberLiteral("1"), []);
    assert src[i] == '1' && src[i + 1] == '-' && src[i + 2] == '>' && src[i + 4] == '*' && src[i + 5] == '}';
    EmptyVariants(src, i + 3);
    OneDigit(src, i);
    assert ExpressionAt(src, i) == Ok(e, i + 5);
  }

  lemma {:induction false} OneDigit(src: string, i: nat)
    requires i + 1 < |src| && src[i] == '1' && src[i + 1] == '-'
    ensures InlineAt(src, i, false) == Ok(NumberLiteral("1"), i + 1)
  {
    assert DigitsEnd(src, i + 1) == i + 1;
    assert src[i..i + 1] == "1" && Number(src, i) == Ok("1", i + 1);
  }

  lemma {:induction false} EmptyVariants(src: string, i: nat)
    requires i + 3 == |src| && src[i] == '\n' && src[i + 1] == '*' && src[i + 2] == '}'
    ensures SelectAt(src, i, NumberLiteral("1")) == Ok(Select(NumberLiteral("1"), []), i + 2)
  {
    assert NextVariant(src, i + 1, false) == Ok(None, i + 2);
    assert VariantsAt(src, i + 1, [], false) == Ok([], i + 2);
  }

  // ----- a whole source -----

  /** A source of one message, whose value is one placeable. */
  function OneMessage(e: Expression): Resource {
    Resource([Entry(false, "a", Some(Pattern([Placeable(e)])), [])], [])
  }

  lemma {:induction false} WholePlaceable(src: string, e: Expression)
    requires |src| > 5 && src[..5] == "a = {" && PlaceableAt(src, 5) == Ok(e, |src|)
    ensures Parse(src) == OneMessage(e)
  {
    var entry := Entry(false, "a", Some(Pattern([Placeable(e)])), []);
    assert src[0] == 'a' && src[1] == ' ' && src[2] == '=' && src[3] == ' ' && src[4] == '{';
    WholePattern(src, e);
    WholeMessage(src, Pattern([Placeable(e)]));
    WholeEntry(src, entry);
  }

  lemma {:induction false} WholePattern(src: string, e: Expression)
    requires |src| > 5 && src[3] == ' ' && src[4] == '{' && PlaceableAt(src, 5) == Ok(e, |src|)
    ensures PatternAt(src, 3) == Ok(Some(Pattern([Placeable(e)])), |src|)
  {
    var scan := Scan([], -1, -1, InitialLineStart);
    var after := AddHole(scan, 4, |src|, e);
    assert PatternStart(src, 3) == (4, InitialLineStart);
    assert NextElement(src, 4, scan) == Ok(Go(after), |src|);
    assert PatternScan(src, |src|, after) == Ok(after, |src|);
    assert PatternScan(src, 4, scan) == Ok(after, |src|);
    assert FinishElements(src, after) == [Placeable(e)];
  }

  lemma {:induction false} WholeMessage(src: string, p: Pattern)
    requires |src| > 5 && src[0] == 'a' && src[1] == ' ' && src[2] == '=' && PatternAt(src, 3) == Ok(Some(p), |src|)
    ensures MessageAt(src, 0) == Ok(Entry(false, "a", Some(p), []), |src|)
  {
    assert IdentEnd(src, 1) == 1 && src[0..1] == "a" && Identifier(src, 0) == Ok("a", 1);
    assert AttributesAt(src, |src|, []) == ([], |src|);
  }

  lemma {:induction false} WholeEntry(src: string, entry: Entry)
    requires src != "" && src[0] == 'a' && MessageAt(src, 0) == Ok(entry, |src|)
    ensures Parse(src) == Resource([entry], [])
  {
    var item := Parsed(entry, 0, |src|);
    assert EntryAt(src, 0) == Ok(Some(entry), |src|);
    assert ItemAt(src, 0) == item;
    assert ItemsFrom(src, |src|) == [];
    assert Items(src) == [item];
    OneEntry(src, item);
  }

  lemma {:induction false} OneEntry(src: string, item: Item)
    requires item.Parsed?
    ensures EntriesOf([item]) == [item.entry] && JunkOf(src, [item]) == []
  {
    assert [item][1..] == [];
  }

  // ----- a literal value -----

  predicate IsLiteral(e: InlineExpr) { e.StringLiteral? || e.NumberLiteral? }

  /** What is read where only a literal is admitted is one if and only if it does not
      start with a letter. */
  lemma {:induction false} LiteralUnlessLetter(src: string, i: nat)
    requires i <= |src| && InlineAt(src, i, true).Ok?
    ensures i < |src| && (IsLiteral(InlineAt(src, i, true).value) <==> !IsAlpha(src[i]))
  {
  }

  /** The named argument read last has a literal value if and only if what follows
      its colon, blanks aside, does not start with a letter. */
  lemma {:induction false} NamedIsLiteral(src: string, i: nat, name: string, sofar: CallArgs)
    requires At(src, i, ':') && NamedArgumentAt(src, i, name, sofar).Ok?
    ensures
      var args := NamedArgumentAt(src, i, name, sofar).value;
      var j := SkipBlank(src, i + 1);
      && |args.named| == |sofar.named| + 1 && args.named[..|sofar.named|] == sofar.named
      && j < |src| && (IsLiteral(args.named[|sofar.named|].value) <==> !IsAlpha(src[j]))
  {
    LiteralUnlessLetter(src, SkipBlank(src, i + 1));
  }

  /** Every named argument is read so: all values are literals if and only if none
      starts with a letter. */
  ghost predicate AllLiteral(c: CallArgs) { forall k | 0 <= k < |c.named| :: IsLiteral(c.named[k].value) }

  /** No value of a named argument read from i on starts with a letter. */
  predicate NoLetterValue(src: string, i: nat, sofar: CallArgs)
    requires i <= |src|
    decreases |src| - i
  {
    if i == |src| || src[i] == ')' || ArgumentAt(src, i, sofar).Err? then true
    else
      var one := ArgumentAt(src, i, sofar);
      (|one.value.named| > |sofar.named| ==> !LetterValue(src, i)) &&
      NoLetterValue(src, AfterArgument(src, one.pos), one.value)
  }

  /** The named argument at i has a value that starts with a letter. */
  predicate LetterValue(src: string, i: nat)
    requires i <= |src|
  {
    var e := InlineAt(src, i, false);
    e.Ok? && var j := SkipBlank(src, SkipBlank(src, e.pos) + 1); j < |src| && IsAlpha(src[j])
  }

  lemma {:induction false} LiteralArguments(src: string, i: nat, sofar: CallArgs)
    requires i <= |src| && AllLiteral(sofar) && ArgumentsAt(src, i, sofar).Ok?
    ensures AllLiteral(ArgumentsAt(src, i, sofar).value) <==> NoLetterValue(src, i, sofar)
    decreases |src| - i
  {
    if i < |src| && src[i] != ')' {
      var one := ArgumentAt(src, i, sofar);
      ArgumentLiteral(src, i, sofar, one.value, one.pos);
      if AllLiteral(one.value) {
        LiteralArguments(src, AfterArgument(src, one.pos), one.value);
      } else {
        NamedStay(src, AfterArgument(src, one.pos), one.value);
      }
    }
  }

  /** A bare name and a colon at i. */
  predicate IsNamed(src: string, i: nat)
    requires i <= |src|
  {
    var e := InlineAt(src, i, false);
    e.Ok? && e.value.MessageRef? && e.value.attr == "" && At(src, ColonAt(src, i), ':')
  }

  function NameAt(src: string, i: nat): string
    requires i <= |src| && IsNamed(src, i)
  {
    InlineAt(src, i, false).value.id
  }

  function ColonAt(src: string, i: nat): nat
    requires i <= |src|
  {
    SkipBlank(src, InlineAt(src, i, false).pos)
  }

  lemma {:induction false} ArgumentLiteral(src: string, i: nat, sofar: CallArgs, args: CallArgs, end: nat)
    requires i < |src| && AllLiteral(sofar) && ArgumentAt(src, i, sofar) == Ok(args, end)
    ensures |args.named| > |sofar.named| <==> IsNamed(src, i)
    ensures AllLiteral(args) <==> (IsNamed(src, i) ==> !LetterValue(src, i))
  {
    ArgumentCase(src, i, sofar, args, end);
    if IsNamed(src, i) {
      LetterAfterColon(src, i);
      NamedLiteral(src, ColonAt(src, i), NameAt(src, i), sofar, args, end);
    }
  }

  lemma {:induction false} LetterAfterColon(src: string, i: nat)
    requires i <= |src| && IsNamed(src, i)
    ensures var j := SkipBlank(src, ColonAt(src, i) + 1); LetterValue(src, i) <==> j < |src| && IsAlpha(src[j])
  {
  }

  lemma {:induction false} ArgumentCase(src: string, i: nat, sofar: CallArgs, args: CallArgs, end: nat)
    requires i < |src| && ArgumentAt(src, i, sofar) == Ok(args, end)
    ensures
      if IsNamed(src, i) then NamedArgumentAt(src, ColonAt(src, i), NameAt(src, i), sofar) == Ok(args, end)
      else args.named == sofar.named
  {
  }

  lemma {:induction false} NamedLiteral(src: string, i: nat, name: string, sofar: CallArgs, args: CallArgs, end: nat)
    requires At(src, i, ':') && AllLiteral(sofar) && NamedArgumentAt(src, i, name, sofar) == Ok(args, end)
    ensures
      var j := SkipBlank(src, i + 1);
      |args.named| > |sofar.named| && j < |src| && (AllLiteral(args) <==> !IsAlpha(src[j]))
  {
    NamedIsLiteral(src, i, name, sofar);
    LastLiteral(sofar, args);
  }

  lemma {:induction false} LastLiteral(sofar: CallArgs, args: CallArgs)
    requires AllLiteral(sofar) && |args.named| == |sofar.named| + 1 && args.named[..|sofar.named|] == sofar.named
    ensures AllLiteral(args) <==> IsLiteral(args.named[|sofar.named|].value)
  {
    assert forall k | 0 <= k < |sofar.named| :: args.named[k] == sofar.named[k];
  }

  lemma {:induction false} ArgumentKeeps(src: string, i: nat, sofar: CallArgs)
    requires i < |src| && ArgumentAt(src, i, sofar).Ok?
    ensures sofar.named <= ArgumentAt(src, i, sofar).value.named
  {
    var one := ArgumentAt(src, i, sofar);
    ArgumentCase(src, i, sofar, one.value, one.pos);
  }

  /** Named arguments once read are kept. */
  lemma {:induction false} NamedStay(src: string, i: nat, sofar: CallArgs)
    requires i <= |src| && ArgumentsAt(src, i, sofar).Ok?
    ensures sofar.named <= ArgumentsAt(src, i, sofar).value.named
    decreases |src| - i
  {
    if i < |src| && src[i] != ')' {
      var one := ArgumentAt(src, i, sofar);
      ArgumentKeeps(src, i, sofar);
      NamedStay(src, AfterArgument(src, one.pos), one.value);
      assert ArgumentsAt(src, i, sofar) == ArgumentsAt(src, AfterArgument(src, one.pos), one.value);
    }
  }

  const REFERENCE_VALUE: string := "a = {F(a:b)}"

  /** A message that calls a function with a reference for a named argument. */
  lemma {:induction false} NamedReference()
    ensures Parse(REFERENCE_VALUE) ==
            OneMessage(Inline(FunctionRef("F", CallArgs([], [NamedArg("a", MessageRef("b", ""))]))))
  {
    ReferenceIn(REFERENCE_VALUE);
  }

  lemma {:induction false} ReferenceIn(src: string)
    requires |src| == 12 && src[..5] == "a = {" && src[5..] == "F(a:b)}"
    ensures Parse(src) == OneMessage(Inline(FunctionRef("F", CallArgs([], [NamedArg("a", MessageRef("b", ""))]))))
  {
    var args := CallArgs([], [NamedArg("a", MessageRef("b", ""))]);
    assert src[5] == 'F' && src[6] == '(' && src[7] == 'a' && src[8] == ':' && src[9] == 'b';
    assert src[10] == ')' && src[11] == '}';
    LetterArgument(src, 7);
    assert [src[7]] == "a" && [src[9]] == "b";
    OneArgument(src, 6, args);
    CallPlaceable(src, 5, args);
    WholePlaceable(src, Inline(FunctionRef("F", args)));
  }

  lemma {:induction false} OneLetter(src: string, i: nat, onlyLiteral: bool)
    requires i + 1 < |src| && IsAlpha(src[i]) && src[i + 1] in {':', ')'}
    ensures InlineAt(src, i, onlyLiteral) == Ok(MessageRef([src[i]], ""), i + 1)
  {
    assert IdentEnd(src, i + 1) == i + 1 && src[i..i + 1] == [src[i]];
    assert Identifier(src, i) == Ok([src[i]], i + 1);
    assert CallArgumentsAt(src, i + 1) == Ok(None, i + 1);
  }

  lemma {:induction false} LetterArgument(src: string, i: nat)
    requires i + 3 < |src| && IsAlpha(src[i]) && src[i + 1] == ':' && IsAlpha(src[i + 2]) && src[i + 3] == ')'
    ensures ArgumentAt(src, i, CallArgs([], [])) ==
            Ok(CallArgs([], [NamedArg([src[i]], MessageRef([src[i + 2]], ""))]), i + 3)
  {
    var arg := NamedArg([src[i]], MessageRef([src[i + 2]], ""));
    OneLetter(src, i, false);
    OneLetter(src, i + 2, true);
    assert SkipBlank(src, i + 2) == i + 2 && [] + [arg] == [arg];
    assert NamedArgumentAt(src, i + 1, [src[i]], CallArgs([], [])) == Ok(CallArgs([], [arg]), i + 3);
  }

  lemma {:induction false} OneArgument(src: string, i: nat, args: CallArgs)
    requires i + 5 < |src| && src[i] == '(' && IsAlpha(src[i + 1]) && src[i + 4] == ')'
    requires ArgumentAt(src, i + 1, CallArgs([], [])) == Ok(args, i + 4)
    ensures CallArgumentsAt(src, i) == Ok(Some(args), i + 5)
  {
    OneArgumentOnly(src, i + 1, args);
    assert SkipBlank(src, i) == i && SkipBlank(src, i + 1) == i + 1;
  }

  lemma {:induction false} OneArgumentOnly(src: string, i: nat, args: CallArgs)
    requires i + 4 < |src| && IsAlpha(src[i]) && src[i + 3] == ')'
    requires ArgumentAt(src, i, CallArgs([], [])) == Ok(args, i + 3)
    ensures ArgumentsAt(src, i, CallArgs([], [])) == Ok(args, i + 3)
  {
    assert AfterArgument(src, i + 3) == i + 3;
    assert ArgumentsAt(src, i + 3, args) == Ok(args, i + 3);
  }

  lemma {:induction false} CallPlaceable(src: string, i: nat, args: CallArgs)
    requires i + 6 < |src| && src[i] == 'F' && src[i + 1] == '(' && src[i + 6] == '}'
    requires CallArgumentsAt(src, i + 1) == Ok(Some(args), i + 6)
    ensures PlaceableAt(src, i) == Ok(Inline(FunctionRef("F", args)), i + 7)
  {
    assert IdentEnd(src, i + 1) == i + 1 && src[i..i + 1] == "F" && Identifier(src, i) == Ok("F", i + 1);
    assert InlineAt(src, i, false) == Ok(FunctionRef("F", args), i + 6);
    assert ExpressionAt(src, i) == Ok(Inline(FunctionRef("F", args)), i + 6);
  }
}
