/** Where reading gives up, and why, told by the grammar: after everything up to there
    has been spelled, what should follow does not. */
module GrammarStops {
  import opened FluentSyntax
  import opened Options
  import opened Chars
  import opened ParserSpec
  import opened WellFormed
  import opened Grammar
  import opened GrammarTokens
  import opened GrammarSound
  import opened GrammarComplete
  import opened GrammarEntries
  import Literal

  predicate LetterAt(src: string, i: nat) { i < |src| && Letter(src[i]) }

  predicate DigitAt(src: string, i: nat) { i < |src| && Digit(src[i]) }

  predicate Hexadecimal(c: char) { Digit(c) || 'a' <= c <= 'f' || 'A' <= c <= 'F' }

  // ----- tokens -----

  /** No digit where the whole or the fraction should have one. */
  ghost predicate NumberStops(src: string, i: nat, k: ErrorKind, f: nat) {
    k == ExpectedDigit && !DigitAt(src, f) && DigitsStop(src, if Here(src, i, '-') then i + 1 else i, f)
  }

  ghost predicate DigitsStop(src: string, d: nat, f: nat) {
    f == d || exists m: nat :: DigitRun(src, d, m) && Here(src, m, '.') && f == m + 1
  }

  /** After the opening quote, and then the units up to j: a line end, the end of the source, an
      escape that there is none of, or one cut short. */
  ghost predicate StringStops(src: string, i: nat, k: ErrorKind, f: nat) {
    exists j: nat :: i <= j <= |src| && Spelled(src[i..j]) && UnitStops(src, j, k, f)
  }

  predicate UnitStops(src: string, j: nat, k: ErrorKind, f: nat) {
    || (Here(src, j, '\n') && k == UnterminatedStringLiteral && f == j)
    || (j == |src| && k == ExpectedToken('"') && f == j)
    || (Here(src, j, '\\') && !(j + 1 < |src| && src[j + 1] in {'\\', '{', '"', 'u', 'U'}) &&
        k == UnknownEscape && f == j)
    || (Here(src, j, '\\') && (Here(src, j + 1, 'u') || Here(src, j + 1, 'U')) && k == InvalidUnicodeEscape &&
        j + 2 <= f <= |src| && f < j + 2 + (if src[j + 1] == 'u' then 4 else 6) &&
        (forall h | j + 2 <= h < f :: Hexadecimal(src[h])) && !(f < |src| && Hexadecimal(src[f])))
  }

  // ----- expressions -----

  /** Nothing that an inline expression starts with, or one that stops. */
  ghost predicate InlineStops(src: string, i: nat, only: bool, k: ErrorKind, f: nat)
    decreases |src| - i, 1
  {
    if Here(src, i, '"') then StringStops(src, i + 1, k, f)
    else if DigitAt(src, i) then NumberStops(src, i, k, f)
    else if LetterAt(src, i) then NameStops(src, i, k, f)
    else if !only && Here(src, i, '-') then
      if LetterAt(src, i + 1) then TermStops(src, i, k, f) else NumberStops(src, i, k, f)
    else if !only && Here(src, i, '$') then k == ExpectedLetter && f == i + 1 && !LetterAt(src, f)
    else if !only && Here(src, i, '{') then PlaceableStops(src, i + 1, k, f)
    else k == (if only then ExpectedLiteral else ExpectedInlineExpression) && f == i
  }

  /** A name whose arguments stop, that may not be called, or with no attribute after its
      dot. */
  ghost predicate NameStops(src: string, i: nat, k: ErrorKind, f: nat)
    decreases |src| - i, 0
  {
    exists m: nat, n: nat, id :: Named(src, i, m, n, id) && i < n && CalledStops(src, n, id, k, f)
  }

  ghost predicate CalledStops(src: string, n: nat, id: string, k: ErrorKind, f: nat)
    decreases |src| - n, 5
  {
    if Here(src, n, '(') then
      || CallStops(src, n, k, f)
      || (k == ForbiddenCallee && !IsCallee(id) && exists c :: Call(src, n, f, c))
    else Here(src, n, '.') && k == ExpectedLetter && f == n + 1 && !LetterAt(src, f)
  }

  ghost predicate TermStops(src: string, i: nat, k: ErrorKind, f: nat)
    decreases |src| - i, 0
  {
    || (k == ExpectedLetter && !LetterAt(src, f) && DotStops(src, i + 1, f))
    || exists m: nat, n: nat, q: nat, id, attr :: TermHead(src, i, m, n, q, id, attr) && CallStops(src, q, k, f)
  }

  ghost predicate DotStops(src: string, i: nat, f: nat) {
    exists m: nat, id :: Name(src, i, m, id) && Here(src, m, '.') && f == m + 1
  }

  /** After the opening parenthesis. */
  ghost predicate CallStops(src: string, i: nat, k: ErrorKind, f: nat)
    decreases |src| - i, 4
  {
    Here(src, i, '(') && FirstStops(src, i + 1, k, f)
  }

  ghost predicate FirstStops(src: string, i: nat, k: ErrorKind, f: nat)
    decreases |src| - i, 4
  {
    exists a: nat :: Blanks(src, i, a) && ArgumentsStop(src, a, [], k, f)
  }

  /** The arguments from i on, when named ones of these names came before. */
  ghost predicate ArgumentsStop(src: string, i: nat, names: seq<string>, k: ErrorKind, f: nat)
    decreases |src| - i, 3
  {
    if i >= |src| then i == |src| == f && k == ExpectedToken(')')
    else
      src[i] != ')' && (InlineStops(src, i, false, k, f) ||
        exists e, m: nat :: Inlines(src, i, m, e, false) && i < m && ArgumentStops(src, m, e, names, k, f))
  }

  /** After an argument's expression. */
  ghost predicate ArgumentStops(src: string, m: nat, e: InlineExpr, names: seq<string>, k: ErrorKind, f: nat)
    decreases |src| - m, 4
  {
    if e.MessageRef? && e.attr == "" && Here(src, m, ':') then
      if e.id in names then k == DuplicatedNamedArgument(e.id) && f == m
      else NamedStops(src, m + 1, names + [e.id], k, f)
    else if names != [] then k == PositionalAfterNamed && f == m
    else exists next: nat :: Separated(src, m, next) && ArgumentsStop(src, next, names, k, f)
  }

  /** After a named argument's colon. */
  ghost predicate NamedStops(src: string, i: nat, names: seq<string>, k: ErrorKind, f: nat)
    decreases |src| - i, 4
  {
    exists v: nat :: Blanks(src, i, v) && ValueStops(src, v, names, k, f)
  }

  /** From a named argument's value on. */
  ghost predicate ValueStops(src: string, v: nat, names: seq<string>, k: ErrorKind, f: nat)
    decreases |src| - v, 3
  {
    || InlineStops(src, v, true, k, f)
    || exists x, n: nat, next: nat ::
         Inlines(src, v, n, x, true) && v < n && Separated(src, n, next) && ArgumentsStop(src, next, names, k, f)
  }

  /** After the opening brace. */
  ghost predicate PlaceableStops(src: string, i: nat, k: ErrorKind, f: nat)
    decreases |src| - i, 4
  {
    exists a: nat :: Blanks(src, i, a) && ClosedStops(src, a, k, f)
  }

  ghost predicate ClosedStops(src: string, a: nat, k: ErrorKind, f: nat)
    decreases |src| - a, 3
  {
    || ExpressionStops(src, a, k, f)
    || (k == ExpectedToken('}') && !Here(src, f, '}') &&
        exists x, b: nat :: Expressions(src, a, b, x) && Spaces(src, b, f))
  }

  ghost predicate ExpressionStops(src: string, i: nat, k: ErrorKind, f: nat)
    decreases |src| - i, 2
  {
    || InlineStops(src, i, false, k, f)
    || exists e, m: nat, n: nat ::
         Inlines(src, i, m, e, false) && i < m && Blanks(src, m, n) && AfterStops(src, n, e, k, f)
  }

  /** After an inline expression and blanks: an attribute of a term alone, what may not
      select, no line end after the arrow, or variants that stop. */
  ghost predicate AfterStops(src: string, n: nat, e: InlineExpr, k: ErrorKind, f: nat)
    decreases |src| - n, 4
  {
    if !Arrow(src, n) then e.TermRef? && e.attr != "" && k == TermAttributeAsPlaceable && f == n
    else if !Selects(e) then f == n && Unselectable(e, k)
    else ArrowStops(src, n + 2, k, f)
  }

  ghost predicate ArrowStops(src: string, i: nat, k: ErrorKind, f: nat)
    decreases |src| - i, 13
  {
    exists p: nat :: Spaces(src, i, p) && LineStops(src, p, k, f)
  }

  ghost predicate LineStops(src: string, p: nat, k: ErrorKind, f: nat)
    decreases |src| - p, 12
  {
    || (k == ExpectedLineEnd && f == p && !Newline(src, p, p + 1) && !Newline(src, p, p + 2))
    || exists q: nat, v: nat :: Newline(src, p, q) && Blanks(src, q, v) && VariantsStop(src, v, false, k, f)
  }

  predicate Unselectable(e: InlineExpr, k: ErrorKind) {
    match e
    case MessageRef(_, attr) => k == if attr == "" then MessageReferenceAsSelector else MessageAttributeAsSelector
    case TermRef(_, _, _) => k == TermReferenceAsSelector
    case NestedPlaceable(_) => k == ExpectedSimpleExpression
    case _ => false
  }

  /** The variants from i on: a second default, none in the whole list, or a variant that
      stops. */
  ghost predicate VariantsStop(src: string, i: nat, hasDefault: bool, k: ErrorKind, f: nat)
    decreases |src| - i, 9
  {
    if Here(src, i, '*') then
      if hasDefault then k == MultipleDefaultVariants && f == i + 1
      else Here(src, i + 1, '[') && VariantStops(src, i + 2, true, k, f)
    else if Here(src, i, '[') then VariantStops(src, i + 1, hasDefault, k, f)
    else !hasDefault && k == MissingDefaultVariant && f == i
  }

  /** After its bracket: the key stops at m, or what comes after the key, which ends
      there. */
  ghost predicate VariantStops(src: string, i: nat, hasDefault: bool, k: ErrorKind, f: nat)
    decreases |src| - i, 11
  {
    exists m: nat :: HeadStops(src, i, m, hasDefault, k, f)
  }

  ghost predicate HeadStops(src: string, i: nat, m: nat, hasDefault: bool, k: ErrorKind, f: nat)
    decreases |src| - i, 10
  {
    || (m == f && KeyStops(src, i, k, f))
    || ((exists key, numeric :: Key(src, i, m, key, numeric)) && i < m && KeyedStops(src, m, hasDefault, k, f))
  }

  /** After a variant's key: a pattern that stops, none, or the next variants. */
  ghost predicate KeyedStops(src: string, m: nat, hasDefault: bool, k: ErrorKind, f: nat)
    decreases |src| - m, 10
  {
    || PatternStops(src, m, k, f)
    || (k == MissingValue && Patterns(src, m, f, Pattern([])))
    || exists p, n: nat, next: nat ::
         Patterns(src, m, n, p) && p.elements != [] && m < n && Blanks(src, n, next) &&
         VariantsStop(src, next, hasDefault, k, f)
  }

  ghost predicate KeyStops(src: string, i: nat, k: ErrorKind, f: nat) {
    exists a: nat :: Blanks(src, i, a) && BracketStops(src, a, k, f)
  }

  ghost predicate BracketStops(src: string, a: nat, k: ErrorKind, f: nat) {
    || (if DigitAt(src, a) || Here(src, a, '-') then NumberStops(src, a, k, f)
        else !LetterAt(src, a) && k == ExpectedLetter && f == a)
    || (k == ExpectedToken(']') && !Here(src, f, ']') &&
        exists b: nat, key, numeric :: KeyText(src, a, b, key, numeric) && Blanks(src, b, f))
  }

  // ----- patterns and entries -----

  ghost predicate PatternStops(src: string, i: nat, k: ErrorKind, f: nat)
    decreases |src| - i, 6
  {
    exists s: nat, role: Role :: OpenedStops(src, i, s, role, k, f)
  }

  ghost predicate OpenedStops(src: string, i: nat, s: nat, role: Role, k: ErrorKind, f: nat)
    decreases |src| - i, 5, 1
  {
    Opens(src, i, s, role) && i <= s && PiecesStop(src, s, role, k, f)
  }

  /** A closing brace in a text, a placeable that stops, or either in what comes later. */
  ghost predicate PiecesStop(src: string, i: nat, role: Role, k: ErrorKind, f: nat)
    decreases |src| - i, 5, 0
  {
    if Here(src, i, '{') then
      || PlaceableStops(src, i + 1, k, f)
      || exists j: nat :: PlaceableEnds(src, i + 1, j) && i < j && PiecesStop(src, j, Continuation, k, f)
    else
      || (k == UnbalancedClosingBrace && Here(src, f, '}') && exists from: nat :: LineRun(src, i, role, from, f))
      || exists from: nat, stop: nat ::
           TextRun(src, i, role, from, stop) && i < NextAt(src, from, stop) &&
           PiecesStop(src, NextAt(src, from, stop), NextRole(src, stop), k, f)
  }

  ghost predicate PlaceableEnds(src: string, i: nat, j: nat) { exists x :: Placeables(src, i, j, x) }

  /** An entry: no name, no equals sign, a value that stops, or none. */
  ghost predicate EntryStops(src: string, i: nat, err: ParseError, f: nat) {
    var b := if Here(src, i, '-') then i + 1 else i;
    if !LetterAt(src, b) then err == ParseError(ExpectedLetter, f) && f == b else NamedEntryStops(src, i, b, err, f)
  }

  ghost predicate NamedEntryStops(src: string, i: nat, b: nat, err: ParseError, f: nat) {
    exists m: nat, n: nat, id :: Name(src, b, m, id) && Spaces(src, m, n) && ValueEntryStops(src, i, b, n, id, err, f)
  }

  ghost predicate ValueEntryStops(src: string, i: nat, b: nat, n: nat, id: string, err: ParseError, f: nat) {
    if !Here(src, n, '=') then err == ParseError(ExpectedToken('='), f) && f == n
    else if b == i then BodyStops(src, i, n + 1, id, err, f)
    else SpacedStops(src, i, n + 1, id, err, f)
  }

  ghost predicate SpacedStops(src: string, i: nat, n: nat, id: string, err: ParseError, f: nat) {
    exists s: nat :: Spaces(src, n, s) && TermBodyStops(src, i, s, id, err, f)
  }

  /** A message with neither value nor attribute is reported where it starts. */
  ghost predicate BodyStops(src: string, i: nat, s: nat, id: string, err: ParseError, f: nat) {
    ValueLost(src, s, [], ExpectedMessageField(id), i, err, f)
  }

  /** So is a term without a value, after its attributes. */
  ghost predicate TermBodyStops(src: string, i: nat, s: nat, id: string, err: ParseError, f: nat) {
    exists attrs :: ValueLost(src, s, attrs, ExpectedTermField(id), i, err, f)
  }

  /** A value that stops, or is missing. */
  ghost predicate ValueLost(src: string, s: nat, attrs: seq<Attribute>, kind: ErrorKind, i: nat, err: ParseError,
                            f: nat)
  {
    || (err.pos == f && PatternStops(src, s, err.kind, f))
    || (err == ParseError(kind, i) && exists v: nat, w: nat :: NoValueAt(src, s, v, w, attrs, f))
  }

  /** No value, the blank lines after it, and then the attributes. */
  ghost predicate NoValueAt(src: string, s: nat, v: nat, w: nat, attrs: seq<Attribute>, f: nat) {
    Patterns(src, s, v, Pattern([])) && BlankLines(src, v, w) && Attributes(src, w, f, attrs, 0)
  }

  // ----- the parser gives up just so -----

  lemma {:induction false} NumberStopped(src: string, i: nat, err: ParseError, f: nat)
    requires i <= |src| && Number(src, i) == Err(err, f)
    ensures err == ParseError(ExpectedDigit, f) && NumberStops(src, i, ExpectedDigit, f)
  {
    var d := if Here(src, i, '-') then i + 1 else i;
    if Digits(src, d).Ok? {
      DigitsAre(src, d, Digits(src, d).pos);
    }
  }

  lemma {:induction false} UnitsStopped(src: string, i: nat, err: ParseError, f: nat) returns (j: nat)
    requires i <= |src| && StringEnd(src, i) == Err(err, f)
    ensures err.pos == f && i <= j <= |src| && Spelled(src[i..j]) && UnitStops(src, j, err.kind, f)
    decreases |src| - i
  {
    var u := UnitBefore(src, i);
    if u.None? {
      j := i;
      NothingSpelled(src, i);
    } else {
      var next := i + |u.value.Spelling()|;
      j := UnitsStopped(src, next, err, f);
      SpelledCons(u.value, src[next..j]);
      Join(src, i, next, j);
    }
  }

  lemma {:induction false} NothingSpelled(src: string, i: nat)
    requires i <= |src|
    ensures Spelled(src[i..i])
  {
    var none: seq<Literal.Unit> := [];
    assert Literal.Units(none) && src[i..i] == Literal.Spell(none);
  }

  /** The unit that the scanner steps over, or where it stops. */
  lemma {:induction false} UnitBefore(src: string, i: nat) returns (u: Option<Literal.Unit>)
    requires i <= |src| && StringEnd(src, i).Err?
    ensures u.None? ==> StringEnd(src, i).error.pos == StringEnd(src, i).pos &&
                        UnitStops(src, i, StringEnd(src, i).error.kind, StringEnd(src, i).pos)
    ensures u.Some? ==> u.value.Valid() && i + |u.value.Spelling()| <= |src|
    ensures u.Some? ==> src[i..i + |u.value.Spelling()|] == u.value.Spelling()
    ensures u.Some? ==> StringEnd(src, i) == StringEnd(src, i + |u.value.Spelling()|)
  {
    u := None;
    if src[i] != '\\' {
      u := if src[i] == '\n' then None else Some(Literal.Plain(src[i]));
    } else if i + 1 < |src| && src[i + 1] in {'\\', '{', '"'} {
      u := Some(EscapeBefore(src, i));
    } else if i + 1 < |src| && src[i + 1] in {'u', 'U'} {
      var n := if src[i + 1] == 'u' then 4 else 6;
      if HexEnd(src, i + 2, n) == i + 2 + n {
        u := Some(HexBefore(src, i, n));
      }
    }
  }

  function EscapeBefore(src: string, i: nat): (u: Literal.Unit)
    requires At(src, i, '\\') && i + 1 < |src| && src[i + 1] in {'\\', '{', '"'}
    ensures u.Valid() && src[i..i + 2] == u.Spelling()
  {
    assert src[i..i + 2] == [src[i], src[i + 1]];
    if src[i + 1] == '\\' then Literal.Backslash else if src[i + 1] == '{' then Literal.Brace else Literal.Quote
  }

  function HexBefore(src: string, i: nat, n: nat): (u: Literal.Unit)
    requires At(src, i, '\\') && (n == 4 || n == 6) && At(src, i + 1, if n == 4 then 'u' else 'U')
    requires i + 2 + n <= |src| && forall h | i + 2 <= h < i + 2 + n :: IsHex(src[h])
    ensures u.Valid() && src[i..i + 2 + n] == u.Spelling() && |u.Spelling()| == n + 2
  {
    HexSpelled(src, i, n);
    if n == 4 then Literal.Short(src[i + 2..i + 2 + n]) else Literal.Long(src[i + 2..i + 2 + n])
  }

  lemma {:induction false} HexSpelled(src: string, i: nat, n: nat)
    requires i + 2 + n <= |src| && forall h | i + 2 <= h < i + 2 + n :: IsHex(src[h])
    ensures All(src[i + 2..i + 2 + n], IsHex)
    ensures src[i..i + 2 + n] == [src[i], src[i + 1]] + src[i + 2..i + 2 + n]
  {
  }

  lemma {:induction false} StringStopped(src: string, i: nat, err: ParseError, f: nat)
    requires At(src, i, '"') && StringLit(src, i) == Err(err, f)
    ensures err.pos == f && StringStops(src, i + 1, err.kind, f)
  {
    var end := StringEnd(src, i + 1);
    if end.Err? {
      var j := UnitsStopped(src, i + 1, err, f);
    } else {
      ScannedUnits(src, i + 1, end.pos);
    }
  }

  lemma {:induction false} InlineStopped(src: string, i: nat, only: bool, err: ParseError, f: nat)
    requires i <= |src| && InlineAt(src, i, only) == Err(err, f)
    ensures err.pos == f && InlineStops(src, i, only, err.kind, f)
    decreases |src| - i, 1
  {
    if Here(src, i, '"') {
      StringStopped(src, i, err, f);
    } else if DigitAt(src, i) {
      NumberStopped(src, i, err, f);
    } else if LetterAt(src, i) {
      NameStopped(src, i, only, err, f);
    } else if !only && Here(src, i, '-') {
      if LetterAt(src, i + 1) {
        TermStopped(src, i, err, f);
      } else {
        NumberStopped(src, i, err, f);
      }
    } else if !only && Here(src, i, '{') {
      PlaceableStopped(src, i + 1, err, f);
    }
  }

  lemma {:induction false} NameStopped(src: string, i: nat, only: bool, err: ParseError, f: nat)
    requires LetterAt(src, i) && InlineAt(src, i, only) == Err(err, f)
    ensures err.pos == f && NameStops(src, i, err.kind, f)
    decreases |src| - i, 0
  {
    var id, m := Identifier(src, i).value, Identifier(src, i).pos;
    NameFails(src, i, only, id, m, err, f);
    NameIs(src, i, m, SkipBlank(src, m), id);
    CalledStopped(src, m, SkipBlank(src, m), id, err, f);
  }

  lemma {:induction false} NameIs(src: string, i: nat, m: nat, n: nat, id: string)
    requires LetterAt(src, i) && Identifier(src, i) == Ok(id, m) && SkipBlank(src, m) == n
    ensures i < m <= n && Named(src, i, m, n, id)
  {
    IdentifierIs(src, i, m, id);
    SkipBlankIs(src, m, n);
  }

  /** Why what starts with a name is not read. */
  ghost predicate NameLost(src: string, m: nat, id: string, err: ParseError, f: nat)
    requires m <= |src|
  {
    match CallArgumentsAt(src, m)
    case Err(e, g) => e == err && g == f
    case Ok(None, n) => At(src, n, '.') && err == ParseError(ExpectedLetter, f) && f == n + 1 && !LetterAt(src, f)
    case Ok(Some(_), n) => !IsCallee(id) && err == ParseError(ForbiddenCallee, f) && f == n
  }

  lemma {:induction false} NameFails(src: string, i: nat, only: bool, id: string, m: nat, err: ParseError, f: nat)
    requires LetterAt(src, i) && InlineAt(src, i, only) == Err(err, f) && Identifier(src, i) == Ok(id, m)
    ensures NameLost(src, m, id, err, f)
  {
  }

  lemma {:induction false} CalledStopped(src: string, m: nat, n: nat, id: string, err: ParseError, f: nat)
    requires m <= |src| && SkipBlank(src, m) == n && NameLost(src, m, id, err, f)
    ensures err.pos == f && CalledStops(src, n, id, err.kind, f)
    decreases |src| - m, 1
  {
    var args := CallArgumentsAt(src, m);
    if args.Err? {
      CallStopped(src, m, n, err, f);
    } else {
      CallSound(src, m, args.value, args.pos);
    }
  }

  lemma {:induction false} TermStopped(src: string, i: nat, err: ParseError, f: nat)
    requires At(src, i, '-') && LetterAt(src, i + 1) && InlineAt(src, i, false) == Err(err, f)
    ensures err.pos == f && TermStops(src, i, err.kind, f)
    decreases |src| - i, 0
  {
    var id, m := Identifier(src, i + 1).value, Identifier(src, i + 1).pos;
    var attr := AttributeAccessor(src, m);
    IdentifierIs(src, i + 1, m, id);
    if attr.Ok? {
      var q := SkipBlank(src, attr.pos);
      AccessorIs(src, m, attr.pos, attr.value);
      SkipBlankIs(src, attr.pos, q);
      assert TermHead(src, i, m, attr.pos, q, id, attr.value);
      CallStopped(src, attr.pos, q, err, f);
    }
  }

  lemma {:induction false} CallStopped(src: string, i: nat, n: nat, err: ParseError, f: nat)
    requires i <= |src| && SkipBlank(src, i) == n && CallArgumentsAt(src, i) == Err(err, f)
    ensures err.pos == f && CallStops(src, n, err.kind, f)
    decreases |src| - i, 0
  {
    var a := SkipBlank(src, n + 1);
    SkipBlankIs(src, n + 1, a);
    CallRunsOut(src, i, n, a, err, f);
    ArgumentsStopped(src, a, CallArgs([], []), err, f);
    assert Names([]) == [];
  }

  lemma {:induction false} CallRunsOut(src: string, i: nat, n: nat, a: nat, err: ParseError, f: nat)
    requires i <= |src| && SkipBlank(src, i) == n && CallArgumentsAt(src, i) == Err(err, f)
    requires SkipBlank(src, n + 1) == a
    ensures At(src, n, '(') && a <= |src| && RunsOut(src, a, CallArgs([], []), err, f)
  {
    var args := ArgumentsAt(src, a, CallArgs([], []));
    if args.Ok? {
      ArgumentsEnd(src, a, CallArgs([], []));
    }
  }

  lemma {:induction false} ArgumentsEnd(src: string, i: nat, sofar: CallArgs)
    requires i <= |src| && ArgumentsAt(src, i, sofar).Ok?
    ensures ArgumentsAt(src, i, sofar).pos == |src| || At(src, ArgumentsAt(src, i, sofar).pos, ')')
    decreases |src| - i
  {
    if i < |src| && src[i] != ')' {
      var one := ArgumentAt(src, i, sofar);
      ArgumentsEnd(src, AfterArgument(src, one.pos), one.value);
    }
  }

  /** Arguments that stop, or that the source ends in. */
  ghost predicate RunsOut(src: string, i: nat, sofar: CallArgs, err: ParseError, f: nat)
    requires i <= |src|
  {
    var r := ArgumentsAt(src, i, sofar);
    r == Err(err, f) || (r.Ok? && r.pos == |src| == f && err == ParseError(ExpectedToken(')'), f))
  }

  lemma {:induction false} ArgumentsStopped(src: string, i: nat, sofar: CallArgs, err: ParseError, f: nat)
    requires i <= |src| && RunsOut(src, i, sofar, err, f)
    ensures err.pos == f && ArgumentsStop(src, i, Names(sofar.named), err.kind, f)
    decreases |src| - i, 3
  {
    if i < |src| && src[i] != ')' {
      var e := InlineAt(src, i, false);
      if e.Err? {
        assert ArgumentAt(src, i, sofar) == Err(e.error, e.pos);
        InlineStopped(src, i, false, err, f);
      } else {
        InlineSound(src, i, false, e.value, e.pos);
        if e.value.MessageRef? && e.value.attr == "" {
          BareEnds(src, i, e.value, e.pos);
        }
        ArgumentsRunOut(src, i, e.value, e.pos, sofar, err, f);
        ArgumentStopped(src, e.pos, e.value, sofar, err, f);
      }
    }
  }

  /** What comes of the arguments after one's expression. */
  ghost predicate ArgumentRunsOut(src: string, m: nat, e: InlineExpr, sofar: CallArgs, err: ParseError, f: nat)
    requires m <= |src|
  {
    if e.MessageRef? && e.attr == "" && At(src, m, ':') then
      if e.id in Names(sofar.named) then err == ParseError(DuplicatedNamedArgument(e.id), f) && f == m
      else ValueRunsOut(src, SkipBlank(src, m + 1), e.id, sofar, err, f)
    else if sofar.named != [] then err == ParseError(PositionalAfterNamed, f) && f == m
    else RunsOut(src, AfterArgument(src, m), sofar.(positional := sofar.positional + [e]), err, f)
  }

  lemma {:induction false} ArgumentsRunOut(src: string, i: nat, e: InlineExpr, m: nat, sofar: CallArgs, err: ParseError,
                                           f: nat)
    requires i < |src| && src[i] != ')' && RunsOut(src, i, sofar, err, f) && InlineAt(src, i, false) == Ok(e, m)
    requires e.MessageRef? && e.attr == "" ==> SkipBlank(src, m) == m
    ensures ArgumentRunsOut(src, m, e, sofar, err, f)
  {
    if e.MessageRef? && e.attr == "" && At(src, m, ':') {
      assert ArgumentAt(src, i, sofar) == NamedArgumentAt(src, m, e.id, sofar);
      if e.id in Names(sofar.named) {
        DuplicateStopped(src, i, e.id, m, sofar, err, f);
      } else {
        NamedRunsOut(src, i, e.id, m, SkipBlank(src, m + 1), sofar, err, f);
      }
    } else {
      PositionalReads(src, i, e, m, sofar);
    }
  }

  lemma {:induction false} PositionalReads(src: string, i: nat, e: InlineExpr, m: nat, sofar: CallArgs)
    requires i < |src| && InlineAt(src, i, false) == Ok(e, m)
    requires e.MessageRef? && e.attr == "" ==> SkipBlank(src, m) == m && !At(src, m, ':')
    ensures ArgumentAt(src, i, sofar) ==
            if sofar.named != [] then Err(ParseError(PositionalAfterNamed, m), m)
            else Ok(sofar.(positional := sofar.positional + [e]), m)
  {
  }

  lemma {:induction false} ArgumentStopped(src: string, m: nat, e: InlineExpr, sofar: CallArgs, err: ParseError, f: nat)
    requires m <= |src| && ArgumentRunsOut(src, m, e, sofar, err, f)
    ensures err.pos == f && ArgumentStops(src, m, e, Names(sofar.named), err.kind, f)
    decreases |src| - m, 4
  {
    if e.MessageRef? && e.attr == "" && At(src, m, ':') {
      if e.id !in Names(sofar.named) {
        NamedStopped(src, m + 1, SkipBlank(src, m + 1), e.id, sofar, err, f);
      }
    } else if sofar.named == [] {
      AfterSeparates(src, m, AfterArgument(src, m));
      ArgumentsStopped(src, AfterArgument(src, m), sofar.(positional := sofar.positional + [e]), err, f);
    }
  }

  lemma {:induction false} DuplicateStopped(src: string, i: nat, name: string, m: nat, sofar: CallArgs, err: ParseError,
                                            f: nat)
    requires i < |src| && src[i] != ')' && RunsOut(src, i, sofar, err, f) && At(src, m, ':')
    requires ArgumentAt(src, i, sofar) == NamedArgumentAt(src, m, name, sofar) && name in Names(sofar.named)
    ensures err == ParseError(DuplicatedNamedArgument(name), m) && f == m
  {
  }

  /** From a named argument's value on. */
  ghost predicate ValueRunsOut(src: string, v: nat, name: string, sofar: CallArgs, err: ParseError, f: nat)
    requires v <= |src|
  {
    match InlineAt(src, v, true)
    case Err(e, g) => e == err && g == f
    case Ok(x, n) => RunsOut(src, AfterArgument(src, n), sofar.(named := sofar.named + [NamedArg(name, x)]), err, f)
  }

  lemma {:induction false} NamedRunsOut(src: string, i: nat, name: string, m: nat, v: nat, sofar: CallArgs,
                                        err: ParseError, f: nat)
    requires i < |src| && src[i] != ')' && RunsOut(src, i, sofar, err, f) && At(src, m, ':')
    requires ArgumentAt(src, i, sofar) == NamedArgumentAt(src, m, name, sofar)
    requires name !in Names(sofar.named) && SkipBlank(src, m + 1) == v <= |src|
    ensures ValueRunsOut(src, v, name, sofar, err, f)
  {
    NamedReads(src, m, name, sofar, v);
  }

  lemma {:induction false} NamedStopped(src: string, i: nat, v: nat, name: string, sofar: CallArgs, err: ParseError,
                                        f: nat)
    requires i <= v <= |src| && SkipBlank(src, i) == v && ValueRunsOut(src, v, name, sofar, err, f)
    ensures err.pos == f && NamedStops(src, i, Names(sofar.named) + [name], err.kind, f)
    decreases |src| - v, 3
  {
    SkipBlankIs(src, i, v);
    ValueStopped(src, v, name, sofar, err, f);
  }

  lemma {:induction false} ValueStopped(src: string, v: nat, name: string, sofar: CallArgs, err: ParseError, f: nat)
    requires v <= |src| && ValueRunsOut(src, v, name, sofar, err, f)
    ensures err.pos == f && ValueStops(src, v, Names(sofar.named) + [name], err.kind, f)
    decreases |src| - v, 2
  {
    var x := InlineAt(src, v, true);
    if x.Err? {
      InlineStopped(src, v, true, err, f);
    } else {
      var one := sofar.(named := sofar.named + [NamedArg(name, x.value)]);
      assert Names(one.named) == Names(sofar.named) + [name];
      LaterStopped(src, v, x.value, x.pos, one, err, f);
    }
  }

  lemma {:induction false} NamedReads(src: string, m: nat, name: string, sofar: CallArgs, v: nat)
    requires At(src, m, ':') && name !in Names(sofar.named) && SkipBlank(src, m + 1) == v <= |src|
    ensures
      var x := InlineAt(src, v, true);
      NamedArgumentAt(src, m, name, sofar) ==
        if x.Err? then Err(x.error, x.pos)
        else Ok(sofar.(named := sofar.named + [NamedArg(name, x.value)]), x.pos)
  {
  }

  /** After a named argument's value. */
  lemma {:induction false} LaterStopped(src: string, v: nat, x: InlineExpr, n: nat, one: CallArgs, err: ParseError,
                                        f: nat)
    requires v <= |src| && InlineAt(src, v, true) == Ok(x, n) && RunsOut(src, AfterArgument(src, n), one, err, f)
    ensures err.pos == f && ValueStops(src, v, Names(one.named), err.kind, f)
    decreases |src| - v, 1
  {
    InlineSound(src, v, true, x, n);
    AfterSeparates(src, n, AfterArgument(src, n));
    ArgumentsStopped(src, AfterArgument(src, n), one, err, f);
  }

  lemma {:induction false} PlaceableStopped(src: string, i: nat, err: ParseError, f: nat)
    requires i <= |src| && PlaceableAt(src, i) == Err(err, f)
    ensures err.pos == f && PlaceableStops(src, i, err.kind, f)
    decreases |src| - i, 4
  {
    var a := SkipBlank(src, i);
    var x := ExpressionAt(src, a);
    SkipBlankIs(src, i, a);
    if x.Err? {
      ExpressionStopped(src, a, err, f);
    } else {
      ExpressionSound(src, a, x.value, x.pos);
      NoAttribute(src, a, x.value, x.pos);
      SkipSpacesIs(src, x.pos, f);
    }
    assert ClosedStops(src, a, err.kind, f);
  }

  lemma {:induction false} NoAttribute(src: string, i: nat, x: Expression, j: nat)
    requires i <= |src| && ExpressionAt(src, i) == Ok(x, j)
    ensures !IsTermAttribute(x)
  {
    var e := InlineAt(src, i, false);
    AloneNoAttribute(src, SkipBlank(src, e.pos), e.value, x, j);
  }

  lemma {:induction false} AloneNoAttribute(src: string, n: nat, e: InlineExpr, x: Expression, j: nat)
    requires n <= |src| && AfterInline(src, n, e) == Ok(x, j)
    ensures !IsTermAttribute(x)
  {
    if Arrow(src, n) {
      assert SelectAt(src, n + 2, e) == Ok(x, j);
    }
  }

  lemma {:induction false} ExpressionStopped(src: string, i: nat, err: ParseError, f: nat)
    requires i <= |src| && ExpressionAt(src, i) == Err(err, f)
    ensures err.pos == f && ExpressionStops(src, i, err.kind, f)
    decreases |src| - i, 3
  {
    var e := InlineAt(src, i, false);
    if e.Err? {
      InlineStopped(src, i, false, err, f);
    } else {
      var n := SkipBlank(src, e.pos);
      InlineSound(src, i, false, e.value, e.pos);
      SkipBlankIs(src, e.pos, n);
      AfterStopped(src, n, e.value, err, f);
    }
  }

  lemma {:induction false} AfterStopped(src: string, n: nat, e: InlineExpr, err: ParseError, f: nat)
    requires n <= |src| && AfterInline(src, n, e) == Err(err, f)
    ensures err.pos == f && AfterStops(src, n, e, err.kind, f)
    decreases |src| - n, 4
  {
    SelectorsAgree(e);
    if Arrow(src, n) && Selects(e) {
      SelectStopped(src, n + 2, e, err, f);
    }
  }

  lemma {:induction false} SelectStopped(src: string, i: nat, selector: InlineExpr, err: ParseError, f: nat)
    requires i <= |src| && SelectAt(src, i, selector) == Err(err, f)
    ensures err.pos == f && ArrowStops(src, i, err.kind, f)
    decreases |src| - i, 3
  {
    var p := SkipBlankInline(src, i);
    var q := SkipEol(src, p);
    SkipSpacesIs(src, i, p);
    SkipEolIs(src, p, p + 1);
    SkipEolIs(src, p, p + 2);
    if q != p {
      SkipBlankIs(src, q, SkipBlank(src, q));
      ListStopped(src, SkipBlank(src, q), [], false, err, f);
    }
    assert LineStops(src, p, err.kind, f);
  }

  lemma {:induction false} ListStopped(src: string, i: nat, sofar: seq<Variant>, hasDefault: bool, err: ParseError,
                                       f: nat)
    requires i <= |src| && VariantsAt(src, i, sofar, hasDefault) == Err(err, f)
    ensures err.pos == f && VariantsStop(src, i, hasDefault, err.kind, f)
    decreases |src| - i, 9
  {
    if At(src, i, '*') && !hasDefault && At(src, i + 1, '[') {
      var m := OpenedStopped(src, i, true, i + 1, sofar, false, err, f);
    } else if At(src, i, '[') {
      var m := OpenedStopped(src, i, false, i, sofar, hasDefault, err, f);
    } else {
      NoVariant(src, i, hasDefault, err, f);
    }
  }

  lemma {:induction false} OpenedStopped(src: string, i: nat, star: bool, b: nat, sofar: seq<Variant>, hasDefault: bool,
                                         err: ParseError, f: nat) returns (m: nat)
    requires Opened(src, i, star, b, hasDefault) && VariantsAt(src, i, sofar, hasDefault) == Err(err, f)
    ensures err.pos == f && HeadStops(src, b + 1, m, hasDefault || star, err.kind, f)
    decreases |src| - i, 8
  {
    VariantsRunOut(src, b, i, star, sofar, hasDefault, err, f);
    m := HeadStopped(src, b + 1, star, sofar, hasDefault, err, f);
  }

  lemma {:induction false} HeadStopped(src: string, c: nat, star: bool, sofar: seq<Variant>, hasDefault: bool,
                                       err: ParseError, f: nat) returns (m: nat)
    requires c <= |src| && VariantRunsOut(src, c, star, sofar, hasDefault, err, f)
    ensures err.pos == f && HeadStops(src, c, m, hasDefault || star, err.kind, f)
    decreases |src| - c, 10
  {
    var key := VariantKeyAt(src, c);
    if key.Err? {
      m := f;
      KeyStopped(src, c, err, f);
    } else {
      m := key.pos;
      KeyIs(src, c, m, key.value.0, key.value.1);
      KeyedStopped(src, m, key.value.0, key.value.1, star, sofar, hasDefault, err, f);
    }
  }

  lemma {:induction false} NoVariant(src: string, i: nat, hasDefault: bool, err: ParseError, f: nat)
    requires i <= |src| && NextVariant(src, i, hasDefault) == Err(err, f)
    requires
      var star := At(src, i, '*');
      (star && hasDefault) || !At(src, if star then i + 1 else i, '[')
    ensures
      var star := At(src, i, '*');
      if star && hasDefault then err == ParseError(MultipleDefaultVariants, f) && f == i + 1
      else !star && !hasDefault && err == ParseError(MissingDefaultVariant, f) && f == i
  {
  }

  /** The variant at i, whose bracket is at b. */
  predicate Opened(src: string, i: nat, star: bool, b: nat, hasDefault: bool) {
    && i <= |src| && star == At(src, i, '*') && !(star && hasDefault)
    && b == (if star then i + 1 else i) && At(src, b, '[')
  }

  lemma {:induction false} OpenedNext(src: string, i: nat, star: bool, b: nat, hasDefault: bool)
    requires Opened(src, i, star, b, hasDefault)
    ensures NextVariant(src, i, hasDefault) == Bracketed(src, b, star, hasDefault)
  {
  }

  lemma {:induction false} OpenedFails(src: string, i: nat, star: bool, b: nat, sofar: seq<Variant>, hasDefault: bool,
                                       err: ParseError, f: nat)
    requires Opened(src, i, star, b, hasDefault) && VariantAt(src, b + 1, star) == Err(err, f)
    ensures VariantsAt(src, i, sofar, hasDefault) == Err(err, f)
  {
    OpenedNext(src, i, star, b, hasDefault);
    BracketFails(src, b, star, hasDefault, err, f);
  }

  lemma {:induction false} BracketFails(src: string, b: nat, star: bool, hasDefault: bool, err: ParseError, f: nat)
    requires At(src, b, '[') && VariantAt(src, b + 1, star) == Err(err, f)
    ensures Bracketed(src, b, star, hasDefault) == Err(err, f)
  {
  }

  lemma {:induction false} OpenedSteps(src: string, i: nat, star: bool, b: nat, sofar: seq<Variant>, hasDefault: bool,
                                       v: Variant, n: nat)
    requires Opened(src, i, star, b, hasDefault) && Bracketed(src, b, star, hasDefault) == Ok(Some(v), n)
    ensures i < n <= |src|
    ensures VariantsAt(src, i, sofar, hasDefault) ==
            VariantsAt(src, SkipBlank(src, n), sofar + [v], hasDefault || v.isDefault)
  {
    OpenedNext(src, i, star, b, hasDefault);
    VariantsStep(src, i, sofar, hasDefault, v, n);
  }

  lemma {:induction false} BracketReads(src: string, b: nat, star: bool, hasDefault: bool, v: Variant, n: nat)
    requires At(src, b, '[') && VariantAt(src, b + 1, star) == Ok(v, n)
    ensures Bracketed(src, b, star, hasDefault) == Ok(Some(v), n)
  {
  }

  /** What comes of a variant whose bracket has been read. */
  ghost predicate VariantRunsOut(src: string, i: nat, star: bool, sofar: seq<Variant>, hasDefault: bool,
                                 err: ParseError, f: nat)
    requires i <= |src|
  {
    match VariantKeyAt(src, i)
    case Err(e, g) => e == err && g == f
    case Ok(key, m) => KeyedRunsOut(src, m, key.0, key.1, star, sofar, hasDefault, err, f)
  }

  ghost predicate KeyedRunsOut(src: string, m: nat, key: string, numeric: bool, star: bool, sofar: seq<Variant>,
                               hasDefault: bool, err: ParseError, f: nat)
    requires m <= |src|
  {
    match PatternAt(src, m)
    case Err(e, g) => e == err && g == f
    case Ok(None, n) => err == ParseError(MissingValue, f) && f == n
    case Ok(Some(p), n) =>
      VariantsAt(src, SkipBlank(src, n), sofar + [Variant(key, numeric, p, star)], hasDefault || star) == Err(err, f)
  }

  lemma {:induction false} VariantsRunOut(src: string, b: nat, i: nat, star: bool, sofar: seq<Variant>,
                                          hasDefault: bool, err: ParseError, f: nat)
    requires Opened(src, i, star, b, hasDefault) && VariantsAt(src, i, sofar, hasDefault) == Err(err, f)
    ensures VariantRunsOut(src, b + 1, star, sofar, hasDefault, err, f)
  {
    var v := VariantAt(src, b + 1, star);
    if v.Err? {
      OpenedFails(src, i, star, b, sofar, hasDefault, v.error, v.pos);
    } else {
      BracketReads(src, b, star, hasDefault, v.value, v.pos);
      OpenedSteps(src, i, star, b, sofar, hasDefault, v.value, v.pos);
    }
  }

  lemma {:induction false} KeyedStopped(src: string, m: nat, key: string, numeric: bool, star: bool,
                                        sofar: seq<Variant>, hasDefault: bool, err: ParseError, f: nat)
    requires m <= |src| && KeyedRunsOut(src, m, key, numeric, star, sofar, hasDefault, err, f)
    ensures err.pos == f && KeyedStops(src, m, hasDefault || star, err.kind, f)
    decreases |src| - m, 10
  {
    var value := PatternAt(src, m);
    if value.Err? {
      PatternStopped(src, m, err, f);
    } else if value.value.None? {
      PatternSound(src, m, None, value.pos);
    } else {
      var p, n := value.value.value, value.pos;
      ValueSound(src, m, p, n);
      SkipBlankIs(src, n, SkipBlank(src, n));
      var more := sofar + [Variant(key, numeric, p, star)];
      ListStopped(src, SkipBlank(src, n), more, hasDefault || star, err, f);
    }
  }

  lemma {:induction false} KeyStopped(src: string, i: nat, err: ParseError, f: nat)
    requires i <= |src| && VariantKeyAt(src, i) == Err(err, f)
    ensures err.pos == f && KeyStops(src, i, err.kind, f)
  {
    var a := SkipBlank(src, i);
    var numeric := IsNumberStart(src, a);
    var key := if numeric then Number(src, a) else Identifier(src, a);
    SkipBlankIs(src, i, a);
    if key.Err? {
      if numeric {
        NumberStopped(src, a, err, f);
      }
    } else {
      KeyTextIs(src, a, key.pos, key.value, numeric);
      SkipBlankIs(src, key.pos, f);
    }
    assert BracketStops(src, a, err.kind, f);
  }

  lemma {:induction false} PatternStopped(src: string, i: nat, err: ParseError, f: nat)
    requires i <= |src| && PatternAt(src, i) == Err(err, f)
    ensures err.pos == f && PatternStops(src, i, err.kind, f)
    decreases |src| - i, 6
  {
    var (s, role) := PatternStart(src, i);
    OpensIs(src, i, s, role);
    ScanStopped(src, s, Scan([], -1, -1, role), err, f);
    assert OpenedStops(src, i, s, role, err.kind, f);
  }

  lemma {:induction false} ScanStopped(src: string, i: nat, scan: Scan, err: ParseError, f: nat)
    requires i <= |src| && scan.Valid() && PatternScan(src, i, scan) == Err(err, f)
    ensures err.pos == f && PiecesStop(src, i, scan.role, err.kind, f)
    decreases |src| - i, 5
  {
    var step := NextElement(src, i, scan);
    if step.Err? {
      if src[i] == '{' {
        PlaceableStopped(src, i + 1, err, f);
      } else {
        var from := LineStopped(src, i, scan, err, f);
      }
    } else {
      ScanStopped(src, step.pos, step.value.scan, err, f);
      if src[i] == '{' {
        PlaceableSound(src, i + 1, PlaceableAt(src, i + 1).value, step.pos);
        assert PlaceableEnds(src, i + 1, step.pos);
      } else {
        var from, stop := StepRuns(src, i, scan, step.value.scan, step.pos);
      }
    }
  }

  lemma {:induction false} LineStopped(src: string, i: nat, scan: Scan, err: ParseError, f: nat) returns (from: nat)
    requires i < |src| && src[i] != '{' && scan.Valid() && TextStep(src, i, scan) == Err(err, f)
    ensures err == ParseError(UnbalancedClosingBrace, f) && Here(src, f, '}') && LineRun(src, i, scan.role, from, f)
  {
    from := if scan.role == LineStart then SkipBlankInline(src, i) else i;
    SkipSpacesIs(src, i, from);
  }

  // ----- entries -----

  /** Why an entry with a name is not read: no equals sign, a value at s that cannot be
      read, or none there before the attributes. */
  datatype Cause = NoEquals | BadValue(s: nat) | NoValue(s: nat, v: nat, attrs: seq<Attribute>)

  predicate Caused(src: string, n: nat, c: Cause, kind: ErrorKind, i: nat, err: ParseError, f: nat) {
    match c
    case NoEquals => !At(src, n, '=') && err == ParseError(ExpectedToken('='), f) && f == n
    case BadValue(s) => At(src, n, '=') && s <= |src| && PatternAt(src, s) == Err(err, f)
    case NoValue(s, v, attrs) =>
      && At(src, n, '=') && s <= |src| && PatternAt(src, s) == Ok(None, v) && err == ParseError(kind, i)
      && AttributesAt(src, SkipBlankBlock(src, v), []) == (attrs, f)
  }

  lemma {:induction false} MessageCause(src: string, i: nat, id: string, m: nat, n: nat, err: ParseError, f: nat)
      returns (c: Cause)
    requires m <= |src| && SkipBlankInline(src, m) == n && MessageBody(src, i, id, m) == Err(err, f)
    ensures Caused(src, n, c, ExpectedMessageField(id), i, err, f) && (c.BadValue? || c.NoValue? ==> c.s == n + 1)
    ensures c.NoValue? ==> |c.attrs| == 0
  {
    if !At(src, n, '=') {
      EqualsFails(src, i, id, m, n, err, f);
      c := NoEquals;
    } else {
      c := ValueCause(src, i, id, m, n, PatternAt(src, n + 1), err, f);
    }
  }

  lemma {:induction false} EqualsFails(src: string, i: nat, id: string, m: nat, n: nat, err: ParseError, f: nat)
    requires m <= |src| && SkipBlankInline(src, m) == n && MessageBody(src, i, id, m) == Err(err, f) && !At(src, n, '=')
    ensures err == ParseError(ExpectedToken('='), f) && f == n
  {
  }

  lemma {:induction false} ValueCause(src: string, i: nat, id: string, m: nat, n: nat, r: Res<Option<Pattern>>,
                                      err: ParseError, f: nat) returns (c: Cause)
    requires m <= |src| && SkipBlankInline(src, m) == n && MessageBody(src, i, id, m) == Err(err, f)
    requires At(src, n, '=') && PatternAt(src, n + 1) == r
    ensures Caused(src, n, c, ExpectedMessageField(id), i, err, f) && !c.NoEquals? && c.s == n + 1
    ensures c.NoValue? ==> |c.attrs| == 0
  {
    if r.Err? {
      ValueFails(src, i, id, m, n, err, f);
      c := BadValue(n + 1);
    } else {
      c := FieldCause(src, i, id, m, n, r.value, r.pos, err, f);
    }
  }

  lemma {:induction false} FieldCause(src: string, i: nat, id: string, m: nat, n: nat, value: Option<Pattern>, v: nat,
                                      err: ParseError, f: nat) returns (c: Cause)
    requires m <= |src| && SkipBlankInline(src, m) == n && MessageBody(src, i, id, m) == Err(err, f)
    requires At(src, n, '=') && PatternAt(src, n + 1) == Ok(value, v)
    ensures c.NoValue? && Caused(src, n, c, ExpectedMessageField(id), i, err, f) && c.s == n + 1 && |c.attrs| == 0
  {
    var attrs := NoFields(src, i, id, m, n, value, v, SkipBlankBlock(src, v), err, f);
    c := NoValue(n + 1, v, attrs);
  }

  lemma {:induction false} ValueFails(src: string, i: nat, id: string, m: nat, n: nat, err: ParseError, f: nat)
    requires m <= |src| && SkipBlankInline(src, m) == n && At(src, n, '=') && MessageBody(src, i, id, m) == Err(err, f)
    requires PatternAt(src, n + 1).Err?
    ensures PatternAt(src, n + 1) == Err(err, f)
  {
    assert Expect(src, n, '=') == Ok((), n + 1);
  }

  lemma {:induction false} NoFields(src: string, i: nat, id: string, m: nat, n: nat, value: Option<Pattern>, v: nat,
                                    w: nat, err: ParseError, f: nat) returns (attrs: seq<Attribute>)
    requires m <= |src| && SkipBlankInline(src, m) == n && At(src, n, '=') && MessageBody(src, i, id, m) == Err(err, f)
    requires PatternAt(src, n + 1) == Ok(value, v) && SkipBlankBlock(src, v) == w <= |src|
    ensures err == ParseError(ExpectedMessageField(id), i) && value == None
    ensures |attrs| == 0 && AttributesAt(src, w, []) == (attrs, f)
  {
    var end: nat;
    attrs, end := AttributesAt(src, w, []).0, AttributesAt(src, w, []).1;
    PartsMessageBody(src, i, m, n, v, w, id, value, attrs, end);
  }

  lemma {:induction false} TermCause(src: string, i: nat, id: string, m: nat, n: nat, err: ParseError, f: nat)
      returns (c: Cause)
    requires m <= |src| && SkipBlankInline(src, m) == n && TermBody(src, i, id, m) == Err(err, f)
    ensures Caused(src, n, c, ExpectedTermField(id), i, err, f)
    ensures c.BadValue? || c.NoValue? ==> c.s == SkipBlankInline(src, n + 1)
  {
    var s := SkipBlankInline(src, n + 1);
    if !At(src, n, '=') {
      TermEqualsFails(src, i, id, m, n, err, f);
      c := NoEquals;
    } else {
      c := TermValueCause(src, i, id, m, n, s, PatternAt(src, s), err, f);
    }
  }

  lemma {:induction false} TermEqualsFails(src: string, i: nat, id: string, m: nat, n: nat, err: ParseError, f: nat)
    requires m <= |src| && SkipBlankInline(src, m) == n && TermBody(src, i, id, m) == Err(err, f) && !At(src, n, '=')
    ensures err == ParseError(ExpectedToken('='), f) && f == n
  {
  }

  lemma {:induction false} TermValueCause(src: string, i: nat, id: string, m: nat, n: nat, s: nat,
                                          r: Res<Option<Pattern>>, err: ParseError, f: nat) returns (c: Cause)
    requires m <= |src| && SkipBlankInline(src, m) == n && TermBody(src, i, id, m) == Err(err, f)
    requires At(src, n, '=') && SkipBlankInline(src, n + 1) == s && PatternAt(src, s) == r
    ensures Caused(src, n, c, ExpectedTermField(id), i, err, f) && !c.NoEquals? && c.s == s
  {
    if r.Err? {
      TermValueFails(src, i, id, m, n, s, err, f);
      c := BadValue(s);
    } else {
      var attrs := NoTermValue(src, i, id, m, n, s, r.value, r.pos, SkipBlankBlock(src, r.pos), err, f);
      c := NoValue(s, r.pos, attrs);
    }
  }

  lemma {:induction false} TermValueFails(src: string, i: nat, id: string, m: nat, n: nat, s: nat, err: ParseError,
                                          f: nat)
    requires m <= |src| && SkipBlankInline(src, m) == n && At(src, n, '=') && TermBody(src, i, id, m) == Err(err, f)
    requires SkipBlankInline(src, n + 1) == s && PatternAt(src, s).Err?
    ensures PatternAt(src, s) == Err(err, f)
  {
    assert Expect(src, n, '=') == Ok((), n + 1);
  }

  lemma {:induction false} NoTermValue(src: string, i: nat, id: string, m: nat, n: nat, s: nat, value: Option<Pattern>,
                                       v: nat, w: nat, err: ParseError, f: nat) returns (attrs: seq<Attribute>)
    requires m <= |src| && SkipBlankInline(src, m) == n && At(src, n, '=') && TermBody(src, i, id, m) == Err(err, f)
    requires SkipBlankInline(src, n + 1) == s && PatternAt(src, s) == Ok(value, v)
    requires SkipBlankBlock(src, v) == w <= |src|
    ensures err == ParseError(ExpectedTermField(id), i) && value == None && AttributesAt(src, w, []) == (attrs, f)
  {
    var end: nat;
    attrs, end := AttributesAt(src, w, []).0, AttributesAt(src, w, []).1;
    PartsTermBody(src, i, m, n, s, v, w, id, value, attrs, end);
  }

  lemma {:induction false} CauseLoses(src: string, n: nat, c: Cause, kind: ErrorKind, i: nat, err: ParseError, f: nat)
    requires Caused(src, n, c, kind, i, err, f) && !c.NoEquals?
    ensures ValueLost(src, c.s, if c.NoValue? then c.attrs else [], kind, i, err, f)
  {
    if c.BadValue? {
      PatternStopped(src, c.s, err, f);
    } else {
      MissingStopped(src, c.s, c.v, c.attrs, f);
    }
  }

  /** No value, and attributes. */
  lemma {:induction false} MissingStopped(src: string, s: nat, v: nat, attrs: seq<Attribute>, f: nat)
    requires s <= |src| && PatternAt(src, s) == Ok(None, v)
    requires AttributesAt(src, SkipBlankBlock(src, v), []) == (attrs, f)
    ensures NoValueAt(src, s, v, SkipBlankBlock(src, v), attrs, f)
  {
    PatternSound(src, s, None, v);
    SkipLinesIs(src, v, SkipBlankBlock(src, v));
    AttributesAre(src, SkipBlankBlock(src, v), attrs, f);
  }

  lemma {:induction false} MessageStops(src: string, i: nat, id: string, m: nat, n: nat, c: Cause, err: ParseError,
                                        f: nat)
    requires Name(src, i, m, id) && Spaces(src, m, n) && Caused(src, n, c, ExpectedMessageField(id), i, err, f)
    requires (c.BadValue? || c.NoValue? ==> c.s == n + 1) && (c.NoValue? ==> |c.attrs| == 0)
    ensures NamedEntryStops(src, i, i, err, f)
  {
    if !c.NoEquals? {
      CauseLoses(src, n, c, ExpectedMessageField(id), i, err, f);
      assert BodyStops(src, i, n + 1, id, err, f);
    }
    assert ValueEntryStops(src, i, i, n, id, err, f);
  }

  lemma {:induction false} TermEntryStops(src: string, i: nat, b: nat, id: string, m: nat, n: nat, c: Cause,
                                          err: ParseError, f: nat)
    requires b != i && Name(src, b, m, id) && Spaces(src, m, n)
    requires Caused(src, n, c, ExpectedTermField(id), i, err, f)
    requires c.BadValue? || c.NoValue? ==> c.s == SkipBlankInline(src, n + 1)
    ensures NamedEntryStops(src, i, b, err, f)
  {
    if !c.NoEquals? {
      CauseLoses(src, n, c, ExpectedTermField(id), i, err, f);
      SkipSpacesIs(src, n + 1, c.s);
      assert TermBodyStops(src, i, c.s, id, err, f);
    }
    assert ValueEntryStops(src, i, b, n, id, err, f);
  }

  /** Whatever entry cannot be read, reading gives up as the grammar tells. */
  lemma {:induction false} EntryStopped(src: string, i: nat, err: ParseError, f: nat)
    requires i < |src| && EntryAt(src, i) == Err(err, f)
    ensures src[i] != '#' && EntryStops(src, i, err, f)
  {
    var b := if Here(src, i, '-') then i + 1 else i;
    if LetterAt(src, b) {
      var id, m := Identifier(src, b).value, Identifier(src, b).pos;
      var n := SkipBlankInline(src, m);
      NamedEntryFails(src, i, b, id, m, err, f);
      IdentifierIs(src, b, m, id);
      SkipSpacesIs(src, m, n);
      if b == i {
        var c := MessageCause(src, i, id, m, n, err, f);
        MessageStops(src, i, id, m, n, c, err, f);
      } else {
        var c := TermCause(src, i, id, m, n, err, f);
        TermEntryStops(src, i, b, id, m, n, c, err, f);
      }
    }
  }

  lemma {:induction false} NamedEntryFails(src: string, i: nat, b: nat, id: string, m: nat, err: ParseError, f: nat)
    requires i < |src| && EntryAt(src, i) == Err(err, f) && b == if Here(src, i, '-') then i + 1 else i
    requires Identifier(src, b) == Ok(id, m)
    ensures m <= |src|
    ensures (if b == i then MessageBody(src, i, id, m) else TermBody(src, i, id, m)) == Err(err, f)
  {
  }
}
