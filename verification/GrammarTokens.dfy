/** The parser's skipping and its tokens are those of the grammar. */
module GrammarTokens {
  import opened FluentSyntax
  import opened Options
  import opened Chars
  import opened ParserSpec
  import opened WellFormed
  import opened Grammar

  lemma {:induction false} SkipBlankIs(src: string, i: nat, j: nat)
    requires i <= |src|
    ensures SkipBlank(src, i) == j <==> Blanks(src, i, j)
  {
    SkipBlankBlanks(src, i);
    if Blanks(src, i, j) {
      BlanksUnique(src, i, j, SkipBlank(src, i));
    }
  }

  lemma {:induction false} SkipBlankBlanks(src: string, i: nat)
    requires i <= |src|
    ensures Blanks(src, i, SkipBlank(src, i))
    decreases |src| - i
  {
    if BlankAt(src, i) {
      var next := if src[i] == '\r' then i + 2 else i + 1;
      SkipBlankBlanks(src, next);
      forall k: nat | i <= k < SkipBlank(src, i) ensures BlankAt(src, k) {
        assert k < next ==> k == i || (next == i + 2 && k == i + 1);
      }
    }
  }

  lemma {:induction false} BlanksUnique(src: string, i: nat, j: nat, k: nat)
    requires Blanks(src, i, j) && Blanks(src, i, k)
    ensures j == k
  {
  }

  lemma {:induction false} SkipSpacesIs(src: string, i: nat, j: nat)
    requires i <= |src|
    ensures SkipBlankInline(src, i) == j <==> Spaces(src, i, j)
  {
    var s := SkipBlankInline(src, i);
    assert Spaces(src, i, s);
    if Spaces(src, i, j) {
      SpacesUnique(src, i, j, s);
    }
  }

  lemma {:induction false} SpacesUnique(src: string, i: nat, j: nat, k: nat)
    requires Spaces(src, i, j) && Spaces(src, i, k)
    ensures j == k
  {
  }

  lemma {:induction false} SkipEolIs(src: string, i: nat, j: nat)
    ensures Newline(src, i, j) <==> SkipEol(src, i) == j && j != i
  {
  }

  lemma {:induction false} SkipLinesIs(src: string, i: nat, j: nat)
    requires i <= |src|
    ensures SkipBlankBlock(src, i) == j <==> BlankLines(src, i, j)
    decreases |src| - i
  {
    var s := SkipBlankInline(src, i);
    var q := SkipEol(src, s);
    SkipSpacesIs(src, i, s);
    SkipEolIs(src, s, q);
    OneBlankLine(src, i, s, q);
    if q != s {
      SkipLinesIs(src, q, j);
    }
  }

  lemma {:induction false} OneBlankLine(src: string, i: nat, s: nat, q: nat)
    requires i <= |src| && s == SkipBlankInline(src, i) && q == SkipEol(src, s)
    ensures BlankLine(src, i, s, q) <==> q != s
    ensures forall t: nat, r: nat | BlankLine(src, i, t, r) :: t == s && r == q
  {
    SkipSpacesIs(src, i, s);
    SkipEolIs(src, s, q);
    forall t: nat, r: nat | BlankLine(src, i, t, r) ensures t == s && r == q {
      SkipSpacesIs(src, i, t);
      SkipEolIs(src, t, r);
    }
  }

  // ----- names and numbers -----

  lemma {:induction false} IdentifierIs(src: string, i: nat, j: nat, id: string)
    ensures i <= |src| ==> (Identifier(src, i) == Ok(id, j) <==> Name(src, i, j, id))
    ensures Name(src, i, j, id) ==> i < |src|
  {
    if i < |src| && Letter(src[i]) {
      var e := IdentEnd(src, i + 1);
      assert forall k | i < k < e :: NameChar(src[k]);
      if Name(src, i, j, id) {
        NameEndUnique(src, i, j, e);
      }
    }
  }

  lemma {:induction false} NameEndUnique(src: string, i: nat, j: nat, e: nat)
    requires i < j <= |src| && i < e <= |src|
    requires (forall k | i < k < j :: NameChar(src[k])) && (forall k | i < k < e :: NameChar(src[k]))
    requires (j < |src| ==> !NameChar(src[j])) && (e < |src| ==> !NameChar(src[e]))
    ensures j == e
  {
  }

  lemma {:induction false} NameNotEmpty(src: string, i: nat, j: nat, id: string)
    requires Name(src, i, j, id)
    ensures id != "" && |id| == j - i
  {
  }

  lemma {:induction false} AccessorIs(src: string, i: nat, j: nat, attr: string)
    requires i <= |src|
    ensures AttributeAccessor(src, i) == Ok(attr, j) <==> Accessor(src, i, j, attr)
  {
    if Here(src, i, '.') {
      IdentifierIs(src, i + 1, j, attr);
      if Identifier(src, i + 1).Ok? {
        NameNotEmpty(src, i + 1, Identifier(src, i + 1).pos, Identifier(src, i + 1).value) by {
          IdentifierIs(src, i + 1, Identifier(src, i + 1).pos, Identifier(src, i + 1).value);
        }
      }
    }
  }

  lemma {:induction false} DigitsAre(src: string, i: nat, j: nat)
    requires i <= |src|
    ensures Digits(src, i) == Ok((), j) <==> DigitRun(src, i, j)
  {
    if DigitRun(src, i, j) {
      RunUnique(src, i, j, DigitsEnd(src, i));
    }
  }

  lemma {:induction false} RunUnique(src: string, i: nat, j: nat, e: nat)
    requires i <= j <= |src| && i <= e <= |src|
    requires (forall k | i <= k < j :: Digit(src[k])) && (forall k | i <= k < e :: Digit(src[k]))
    requires (j < |src| ==> !Digit(src[j])) && (e < |src| ==> !Digit(src[e]))
    ensures j == e
  {
  }

  lemma {:induction false} NumberIs(src: string, i: nat, j: nat, raw: string)
    requires i <= |src|
    ensures Number(src, i) == Ok(raw, j) <==> Numeral(src, i, j, raw)
  {
    if Number(src, i) == Ok(raw, j) {
      var d := if Here(src, i, '-') then i + 1 else i;
      var m := Digits(src, d).pos;
      DigitsAre(src, d, m);
      if Here(src, m, '.') {
        DigitsAre(src, m + 1, j);
      }
      assert Fractioned(src, d, m, j);
    }
    if d: nat, m: nat :| Numeral(src, i, j, raw) && Fractioned(src, d, m, j) &&
                         d == if Here(src, i, '-') then i + 1 else i {
      DigitsAre(src, d, m);
      if Here(src, m, '.') {
        DigitsAre(src, m + 1, j);
      }
    }
  }

  lemma {:induction false} KeyIs(src: string, i: nat, j: nat, key: string, numeric: bool)
    requires i <= |src|
    ensures VariantKeyAt(src, i) == Ok((key, numeric), j) <==> Key(src, i, j, key, numeric)
  {
    var a := SkipBlank(src, i);
    SkipBlankIs(src, i, a);
    if VariantKeyAt(src, i) == Ok((key, numeric), j) {
      var b := if numeric then Number(src, a).pos else Identifier(src, a).pos;
      KeyTextIs(src, a, b, key, numeric);
      SkipBlankIs(src, b, SkipBlank(src, b));
      assert KeyParts(src, i, a, b, SkipBlank(src, b), key, numeric);
    }
    if x: nat, b: nat, c: nat :| KeyParts(src, i, x, b, c, key, numeric) && j == c + 1 {
      BlanksUnique(src, i, x, a);
      KeyTextIs(src, a, b, key, numeric);
      SkipBlankIs(src, b, c);
    }
  }

  lemma {:induction false} KeyTextIs(src: string, i: nat, j: nat, key: string, numeric: bool)
    requires i <= |src|
    ensures
      (numeric <==> IsNumberStart(src, i)) && (if numeric then Number(src, i) else Identifier(src, i)) == Ok(key, j)
      <==> KeyText(src, i, j, key, numeric)
  {
    NumeralStarts(src, i, j, key);
    NumberIs(src, i, j, key);
    IdentifierIs(src, i, j, key);
  }

  lemma {:induction false} NumeralStarts(src: string, i: nat, j: nat, raw: string)
    ensures Numeral(src, i, j, raw) ==> IsNumberStart(src, i) && i < j
  {
  }

  // ----- one line of text -----

  /** Where a text runs to. */
  lemma {:induction false} TextIs(src: string, from: nat, stop: nat)
    requires from < |src| && TextAt(src, from).Ok?
    requires from <= stop <= |src| && (forall k | from <= k < stop :: src[k] !in {'\n', '{', '}'})
    requires stop < |src| ==> src[stop] == '\n' || src[stop] == '{'
    ensures
      var t := TextAt(src, from);
      && t.pos == NextAt(src, from, stop) && t.value.end == SliceEnd(src, from, stop)
      && (t.value.blank <==>
          forall k | from <= k < (if CarriageReturn(src, from, stop) then stop - 1 else stop) :: src[k] == ' ')
      && (t.value.term == ByLineFeed <==> Here(src, stop, '\n') && !CarriageReturn(src, from, stop))
      && (t.value.term == ByCrLf <==> CarriageReturn(src, from, stop))
  {
    StopIs(src, from, stop);
    var last := if CarriageReturn(src, from, stop) then stop - 1 else stop;
    assert BlankText(src[from..last]) <==> forall k | from <= k < last :: src[k] == ' ' by {
      assert forall k | from <= k < last :: src[k] == src[from..last][k - from];
    }
  }

  lemma {:induction false} StopIs(src: string, from: nat, stop: nat)
    requires from <= stop <= |src| && (forall k | from <= k < stop :: src[k] !in {'\n', '{', '}'})
    requires stop < |src| ==> src[stop] in {'\n', '{', '}'}
    ensures TextStop(src, from) == stop
    decreases stop - from
  {
    if from < stop {
      StopIs(src, from + 1, stop);
    }
  }

  lemma {:induction false} TextRuns(src: string, from: nat)
    requires from < |src|
    ensures
      var stop := TextStop(src, from);
      TextAt(src, from).Ok? <==> (stop < |src| ==> src[stop] == '\n' || src[stop] == '{')
  {
  }

  /** The scan after a line of text. */
  predicate Follows(src: string, i: nat, scan: Scan, from: nat, stop: nat, after: Scan)
    requires i <= from <= stop <= |src|
  {
    && after.role == NextRole(src, stop)
    && after.elements == if Adds(src, i, scan.role, from, stop)
                         then scan.elements + [Slice(i, SliceEnd(src, from, stop), from - i, scan.role)]
                         else scan.elements
  }

  lemma {:induction false} SliceFollows(src: string, i: nat, scan: Scan, from: nat, stop: nat)
    requires i <= from < |src| && TextAt(src, from).Ok? && from <= stop <= |src|
    requires forall k | from <= k < stop :: src[k] !in {'\n', '{', '}'}
    requires stop < |src| ==> src[stop] == '\n' || src[stop] == '{'
    ensures Follows(src, i, scan, from, stop, AddSlice(scan, i, from - i, TextAt(src, from).value))
  {
    TextIs(src, from, stop);
  }

  /** A round that goes on over text goes over a line's text. */
  lemma {:induction false} StepRuns(src: string, i: nat, scan: Scan, after: Scan, next: nat)
    returns (from: nat, stop: nat)
    requires i < |src| && src[i] != '{' && scan.Valid() && TextStep(src, i, scan) == Ok(Go(after), next)
    ensures TextRun(src, i, scan.role, from, stop) && next == NextAt(src, from, stop)
    ensures Follows(src, i, scan, from, stop, after)
  {
    from := if scan.role == LineStart then SkipBlankInline(src, i) else i;
    SkipSpacesIs(src, i, from);
    TextRuns(src, from);
    stop := TextStop(src, from);
    TextIs(src, from, stop);
    SliceFollows(src, i, scan, from, stop);
  }

  /** And conversely. */
  lemma {:induction false} RunSteps(src: string, i: nat, scan: Scan, from: nat, stop: nat) returns (after: Scan)
    requires scan.Valid() && TextRun(src, i, scan.role, from, stop)
    ensures TextStep(src, i, scan) == Ok(Go(after), NextAt(src, from, stop)) && after.Valid()
    ensures Follows(src, i, scan, from, stop, after)
  {
    RunReads(src, i, scan.role, from, stop);
    SliceFollows(src, i, scan, from, stop);
    after := AddSlice(scan, i, from - i, TextAt(src, from).value);
  }

  lemma {:induction false} RunReads(src: string, i: nat, role: Role, from: nat, stop: nat)
    requires TextRun(src, i, role, from, stop)
    ensures from == if role == LineStart then SkipBlankInline(src, i) else i
    ensures TextAt(src, from).Ok? && TextAt(src, from).pos == NextAt(src, from, stop)
  {
    SkipSpacesIs(src, i, from);
    StopIs(src, from, stop);
    TextRuns(src, from);
    TextIs(src, from, stop);
  }

  /** A round stops exactly where the pattern ends. */
  lemma {:induction false} StepEnds(src: string, i: nat, scan: Scan, j: nat)
    requires i < |src| && src[i] != '{' && scan.Valid()
    ensures TextStep(src, i, scan) == Ok(Stop, j) <==> Ends(src, i, scan.role, j)
  {
    if scan.role == LineStart {
      var s := SkipBlankInline(src, i);
      SkipSpacesIs(src, i, s);
      forall t: nat | Spaces(src, i, t) ensures t == s {
        SpacesUnique(src, i, t, s);
      }
    }
  }

  // ----- where a pattern starts -----

  lemma {:induction false} OpensIs(src: string, i: nat, s: nat, role: Role)
    requires i <= |src|
    ensures PatternStart(src, i) == (s, role) <==> Opens(src, i, s, role)
  {
    var a := SkipBlankInline(src, i);
    var q := SkipEol(src, a);
    SkipSpacesIs(src, i, a);
    SkipEolIs(src, a, a + 1);
    SkipEolIs(src, a, a + 2);
    SkipLinesIs(src, q, s);
    forall t: nat | Spaces(src, i, t) ensures t == a {
      SpacesUnique(src, i, t, a);
    }
  }
}
