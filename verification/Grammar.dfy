/** The grammar of the runtime's Fluent sources, as a relation between a stretch of a
    source and the syntax tree that it spells. Nothing here parses: each clause says
    what stands where, and the tree is given. */
module Grammar {
  import opened FluentSyntax
  import opened Options
  import opened WellFormed
  import opened Dedent
  import ParserSpec

  type Placeholder = ParserSpec.Placeholder
  type Role = ParserSpec.Role

  // ----- characters and blanks -----

  predicate Here(src: string, i: nat, c: char) { i < |src| && src[i] == c }

  predicate Letter(c: char) { 'a' <= c <= 'z' || 'A' <= c <= 'Z' }

  predicate Digit(c: char) { '0' <= c <= '9' }

  predicate NameChar(c: char) { Letter(c) || Digit(c) || c == '-' || c == '_' }

  /** A blank: a space, a line feed, or a carriage return before one. */
  predicate BlankAt(src: string, i: nat) {
    i < |src| && (src[i] == ' ' || src[i] == '\n' || (src[i] == '\r' && Here(src, i + 1, '\n')))
  }

  /** All the blanks there are from i on, up to j. */
  ghost predicate Blanks(src: string, i: nat, j: nat) {
    && i <= j <= |src| && !BlankAt(src, j)
    && forall k: nat | i <= k < j :: BlankAt(src, k)
  }

  /** All the spaces. */
  ghost predicate Spaces(src: string, i: nat, j: nat) {
    && i <= j <= |src| && !Here(src, j, ' ')
    && forall k: nat | i <= k < j :: Here(src, k, ' ')
  }

  /** A line end, with or without a carriage return. */
  predicate Newline(src: string, i: nat, j: nat) {
    (Here(src, i, '\n') && j == i + 1) || (Here(src, i, '\r') && Here(src, i + 1, '\n') && j == i + 2)
  }

  /** All the lines of nothing but spaces. */
  ghost predicate BlankLines(src: string, i: nat, j: nat)
    decreases |src| - i
  {
    || (i == j <= |src| && !exists s: nat, q: nat :: BlankLine(src, i, s, q))
    || exists s: nat, q: nat :: BlankLine(src, i, s, q) && BlankLines(src, q, j)
  }

  ghost predicate BlankLine(src: string, i: nat, s: nat, q: nat) { Spaces(src, i, s) && Newline(src, s, q) }

  // ----- names and numbers -----

  /** A letter, then all the name characters there are. */
  ghost predicate Name(src: string, i: nat, j: nat, id: string) {
    && i < j <= |src| && src[i..j] == id && Letter(src[i])
    && (forall k | i < k < j :: NameChar(src[k]))
    && (j < |src| ==> !NameChar(src[j]))
  }

  /** All the digits there are, at least one. */
  ghost predicate DigitRun(src: string, i: nat, j: nat) {
    && i < j <= |src| && (forall k | i <= k < j :: Digit(src[k]))
    && (j < |src| ==> !Digit(src[j]))
  }

  /** A minus sign or none, digits, and a fraction if a dot follows. */
  ghost predicate Numeral(src: string, i: nat, j: nat, raw: string) {
    && i <= j <= |src| && src[i..j] == raw
    && exists d: nat, m: nat :: Fractioned(src, d, m, j) && d == if Here(src, i, '-') then i + 1 else i
  }

  ghost predicate Fractioned(src: string, i: nat, m: nat, j: nat) {
    DigitRun(src, i, m) && if Here(src, m, '.') then DigitRun(src, m + 1, j) else j == m
  }

  /** An attribute after a dot, or none and no dot. */
  ghost predicate Accessor(src: string, i: nat, j: nat, attr: string) {
    if attr == "" then j == i && !Here(src, i, '.') else Here(src, i, '.') && Name(src, i + 1, j, attr)
  }

  /** A name and the blanks after it. */
  ghost predicate Named(src: string, i: nat, m: nat, n: nat, id: string) {
    Name(src, i, m, id) && Blanks(src, m, n)
  }

  /** A hyphen, a term's name and attribute, and the blanks after them. */
  ghost predicate TermHead(src: string, i: nat, m: nat, n: nat, k: nat, id: string, attr: string) {
    Here(src, i, '-') && Name(src, i + 1, m, id) && Accessor(src, m, n, attr) && Blanks(src, n, k)
  }

  /** Capitals, digits, underscores and hyphens. */
  predicate IsCallee(id: string) {
    forall k | 0 <= k < |id| :: 'A' <= id[k] <= 'Z' || Digit(id[k]) || id[k] == '_' || id[k] == '-'
  }

  // ----- expressions -----

  /** src[i..j] spells an inline expression, the blanks that belong to it included; as
      the value of a named argument when only is set. */
  ghost predicate Inlines(src: string, i: nat, j: nat, e: InlineExpr, only: bool)
    decreases e, 1
  {
    match e
    case StringLiteral(raw) => j == i + |raw| + 2 && QuotedAt(src, raw, i) && Spelled(raw)
    case NumberLiteral(raw) => Numeral(src, i, j, raw) && (only ==> !Here(src, i, '-'))
    case VariableRef(id) => !only && Here(src, i, '$') && Name(src, i + 1, j, id)
    case MessageRef(id, attr) =>
      exists m: nat, n: nat :: Named(src, i, m, n, id) && !Here(src, n, '(') && Accessor(src, n, j, attr)
    case FunctionRef(id, c) =>
      IsCallee(id) && exists m: nat, n: nat :: Named(src, i, m, n, id) && Call(src, n, j, c)
    case TermRef(id, attr, args) =>
      && !only
      && exists m: nat, n: nat, k: nat :: TermHead(src, i, m, n, k, id, attr) &&
           if args.None? then j == k && !Here(src, k, '(') else Call(src, k, j, args.value)
    case NestedPlaceable(x) => !only && Here(src, i, '{') && Placeables(src, i + 1, j, x)
  }

  /** Arguments in parentheses. */
  ghost predicate Call(src: string, i: nat, j: nat, c: CallArgs)
    decreases c, |c.positional| + |c.named| + 1
  {
    && Here(src, i, '(')
    && exists k: nat, m: nat ::
         Blanks(src, i + 1, k) && Arguments(src, k, m, c, 0, 0) && Here(src, m, ')') && j == m + 1
  }

  /** The positional arguments from the p-th on, then the named ones from the q-th on,
      each with what separates it from the next. */
  ghost predicate Arguments(src: string, i: nat, j: nat, c: CallArgs, p: nat, q: nat)
    requires p <= |c.positional| && q <= |c.named|
    decreases c, |c.positional| - p + |c.named| - q
  {
    if p < |c.positional| then
      exists m: nat, n: nat ::
        Positional(src, i, m, c, p) && Separated(src, m, n) && Arguments(src, n, j, c, p + 1, q)
    else if q < |c.named| then
      exists m: nat, n: nat ::
        NamedArgs(src, i, m, c, q) && Separated(src, m, n) && Arguments(src, n, j, c, p, q + 1)
    else i == j
  }

  /** A positional argument: what is not a bare name before a colon. */
  ghost predicate Positional(src: string, i: nat, j: nat, c: CallArgs, p: nat)
    requires p < |c.positional|
    decreases c, 0
  {
    var e := c.positional[p];
    Inlines(src, i, j, e, false) && !(e.MessageRef? && e.attr == "" && Here(src, j, ':'))
  }

  /** A name, a colon and a value; no name twice. */
  ghost predicate NamedArgs(src: string, i: nat, j: nat, c: CallArgs, q: nat)
    requires q < |c.named|
    decreases c, 0
  {
    var a := c.named[q];
    && (forall k | 0 <= k < q :: c.named[k].name != a.name)
    && exists m: nat, n: nat, v: nat ::
         Labelled(src, i, m, n, v, a.name) && Inlines(src, v, j, a.value, true)
  }

  ghost predicate Labelled(src: string, i: nat, m: nat, n: nat, v: nat, name: string) {
    Named(src, i, m, n, name) && Here(src, n, ':') && Blanks(src, n + 1, v)
  }

  /** Blanks with at most one comma. */
  ghost predicate Separated(src: string, i: nat, j: nat) {
    exists k: nat :: Blanks(src, i, k) && if Here(src, k, ',') then Blanks(src, k + 1, j) else j == k
  }

  /** A placeable after its opening brace; no bare attribute of a term. */
  ghost predicate Placeables(src: string, i: nat, j: nat, x: Expression)
    decreases x, 3
  {
    && !(x.Inline? && x.e.TermRef? && x.e.attr != "")
    && exists a: nat, b: nat :: Blanks(src, i, a) && Expressions(src, a, b, x) && Closed(src, b, j)
  }

  /** Spaces and a closing brace. */
  ghost predicate Closed(src: string, i: nat, j: nat) { i < j && Spaces(src, i, j - 1) && Here(src, j - 1, '}') }

  predicate Arrow(src: string, i: nat) { Here(src, i, '-') && Here(src, i + 1, '>') }

  /** An inline expression, or a selector, an arrow and variants from the next line on. */
  ghost predicate Expressions(src: string, i: nat, j: nat, x: Expression)
    decreases x, 2
  {
    match x
    case Inline(e) => !Arrow(src, j) && exists m: nat :: Inlines(src, i, m, e, false) && Blanks(src, m, j)
    case Select(selector, _) =>
      && Selects(selector)
      && exists m: nat, n: nat, v: nat ::
           Inlines(src, i, m, selector, false) && Arrowed(src, m, n, v) && Variants(src, v, j, x, 0, false)
  }

  /** Blanks, an arrow, a line end, blanks. */
  ghost predicate Arrowed(src: string, i: nat, n: nat, v: nat) {
    Blanks(src, i, n) && exists p: nat, q: nat :: ArrowLine(src, n, p, q) && Blanks(src, q, v)
  }

  ghost predicate ArrowLine(src: string, n: nat, p: nat, q: nat) { Arrow(src, n) && BlankLine(src, n + 2, p, q) }

  /** What may select: a literal, a variable, a call, or an attribute of a term. */
  predicate Selects(e: InlineExpr) {
    match e
    case StringLiteral(_) => true
    case NumberLiteral(_) => true
    case VariableRef(_) => true
    case FunctionRef(_, _) => true
    case TermRef(_, attr, _) => attr != ""
    case MessageRef(_, _) => false
    case NestedPlaceable(_) => false
  }

  /** The variants from the k-th on. The list ends where no bracket follows, after a
      default or a star. */
  ghost predicate Variants(src: string, i: nat, j: nat, x: Expression, k: nat, hasDefault: bool)
    requires x.Select? && k <= |x.variants|
    decreases x, 1, |x.variants| - k
  {
    if k == |x.variants| then ListEnds(src, i, j, hasDefault)
    else
      && !(x.variants[k].isDefault && hasDefault)
      && exists n: nat, next: nat ::
           && OneVariant(src, i, n, x, k) && Blanks(src, n, next)
           && Variants(src, next, j, x, k + 1, hasDefault || x.variants[k].isDefault)
  }

  predicate ListEnds(src: string, i: nat, j: nat, hasDefault: bool) {
    if Here(src, i, '*') then !hasDefault && !Here(src, i + 1, '[') && j == i + 1
    else hasDefault && !Here(src, i, '[') && j == i
  }

  /** A star before the default one, a key in brackets, a pattern. */
  ghost predicate OneVariant(src: string, i: nat, j: nat, x: Expression, k: nat)
    requires x.Select? && k < |x.variants|
    decreases x, 1, 0
  {
    var v := x.variants[k];
    && (v.isDefault <==> Here(src, i, '*')) && v.value.elements != []
    && exists m: nat :: Heading(src, i, m, v) && Patterns(src, m, j, v.value)
  }

  ghost predicate Heading(src: string, i: nat, j: nat, v: Variant) {
    var b := if v.isDefault then i + 1 else i;
    Here(src, b, '[') && Key(src, b + 1, j, v.key, v.numberKey)
  }

  /** A number or a name, blanks around it, and the closing bracket. */
  ghost predicate Key(src: string, i: nat, j: nat, key: string, numeric: bool) {
    exists a: nat, b: nat, c: nat :: KeyParts(src, i, a, b, c, key, numeric) && j == c + 1
  }

  ghost predicate KeyParts(src: string, i: nat, a: nat, b: nat, c: nat, key: string, numeric: bool) {
    Blanks(src, i, a) && KeyText(src, a, b, key, numeric) && Blanks(src, b, c) && Here(src, c, ']')
  }

  ghost predicate KeyText(src: string, i: nat, j: nat, key: string, numeric: bool) {
    if numeric then Numeral(src, i, j, key) else Name(src, i, j, key)
  }

  // ----- patterns -----

  /** A pattern, no elements for none. */
  function Whole(p: Option<Pattern>): Pattern { if p.Some? then p.value else Pattern([]) }

  /** What a pattern is made of, and what that makes. */
  ghost predicate Patterns(src: string, i: nat, j: nat, p: Pattern)
    decreases p, 3
  {
    exists s: nat, role: Role, els: seq<Placeholder> :: Composed(src, i, s, role, els, j, p)
  }

  ghost predicate Composed(src: string, i: nat, s: nat, role: Role, els: seq<Placeholder>, j: nat, p: Pattern)
    decreases p, 2, |src| + 1
  {
    s <= |src| && Opens(src, i, s, role) && Pieces(src, s, role, els, 0, j, p) && Made(src, els, p)
  }

  /** Where the first element starts: on this line, or after the blank lines that follow. */
  ghost predicate Opens(src: string, i: nat, s: nat, role: Role) {
    exists a: nat :: Spaces(src, i, a) &&
      if Newline(src, a, a + 1) then BlankLines(src, a + 1, s) && role == ParserSpec.LineStart
      else if Newline(src, a, a + 2) then BlankLines(src, a + 2, s) && role == ParserSpec.LineStart
      else s == a && role == ParserSpec.InitialLineStart
  }

  /** The elements make the pattern: it ends with the last that is not blank, and each
      text has lost its share of the common indent, the last its trailing white space. */
  ghost predicate Made(src: string, els: seq<Placeholder>, p: Pattern) {
    && IsLastNonBlank(src, els, |p.elements| - 1)
    && exists c: int :: IsCommonIndent(src, els, c) &&
         forall k | 0 <= k < |p.elements| :: Rendered(src, els[k], c, k == |p.elements| - 1, p.elements[k])
  }

  /** From i to j stand the elements from the n-th on. */
  ghost predicate Pieces(src: string, i: nat, role: Role, els: seq<Placeholder>, n: nat, j: nat, p: Pattern)
    requires n <= |els|
    decreases p, 2, |src| - i
  {
    || (n == |els| && Ends(src, i, role, j))
    || (n < |els| && HolePiece(src, i, role, els[n], p, n) &&
        Placeables(src, i + 1, els[n].end, p.elements[n].expr) &&
        Pieces(src, els[n].end, ParserSpec.Continuation, els, n + 1, j, p))
    || exists from: nat, stop: nat :: TextPiece(src, i, role, from, stop, els, n) &&
         Pieces(src, NextAt(src, from, stop), NextRole(src, stop), els,
                if Adds(src, i, role, from, stop) then n + 1 else n, j, p)
  }

  /** A placeable at its brace, and in the pattern. */
  predicate HolePiece(src: string, i: nat, role: Role, el: Placeholder, p: Pattern, n: nat) {
    && el.Hole? && Here(src, i, '{') && el.start == i && el.role == role && i < el.end <= |src|
    && n < |p.elements| && p.elements[n] == Placeable(el.expr)
  }

  /** A line's text, which may add an element. */
  ghost predicate TextPiece(src: string, i: nat, role: Role, from: nat, stop: nat, els: seq<Placeholder>, n: nat) {
    && TextRun(src, i, role, from, stop)
    && (Adds(src, i, role, from, stop) ==>
          n < |els| && els[n] == ParserSpec.Slice(i, SliceEnd(src, from, stop), from - i, role))
  }

  /** A pattern goes on in an indented line that does not begin like an attribute, a
      variant or a closing brace, and in an empty one. */
  ghost predicate Ends(src: string, i: nat, role: Role, j: nat) {
    || (i == |src| && j == i)
    || (role == ParserSpec.LineStart && i < |src| && src[i] != '{' &&
        exists s: nat :: Spaces(src, i, s) &&
          if s == |src| then j == s
          else j == i && if s == i then src[i] != '\r' && src[i] != '\n' else src[s] in {'.', '}', '[', '*'})
  }

  /** A line's text: after the indent of a line start, up to a line feed or an opening
      brace. */
  ghost predicate TextRun(src: string, i: nat, role: Role, from: nat, stop: nat) {
    LineRun(src, i, role, from, stop) && !Here(src, stop, '}')
  }

  /** Up to a line feed or either brace. */
  ghost predicate LineRun(src: string, i: nat, role: Role, from: nat, stop: nat) {
    && i < |src| && src[i] != '{'
    && (if role == ParserSpec.LineStart then Spaces(src, i, from) else from == i)
    && from < |src|
    && (role == ParserSpec.LineStart ==>
          if from == i then src[i] == '\r' || src[i] == '\n' else src[from] !in {'.', '}', '[', '*'})
    && from <= stop <= |src| && (forall k | from <= k < stop :: src[k] !in {'\n', '{', '}'})
    && (stop < |src| ==> src[stop] in {'\n', '{', '}'})
  }

  /** The line feed belongs to the text, unless a carriage return stands before it. */
  predicate CarriageReturn(src: string, from: nat, stop: nat)
    requires from <= stop <= |src|
  {
    Here(src, stop, '\n') && from < stop && src[stop - 1] == '\r'
  }

  function SliceEnd(src: string, from: nat, stop: nat): nat
    requires from <= stop <= |src|
  {
    if CarriageReturn(src, from, stop) then stop - 1 else if Here(src, stop, '\n') then stop + 1 else stop
  }

  function NextAt(src: string, from: nat, stop: nat): (next: nat)
    requires from <= stop <= |src|
    ensures stop <= next <= |src|
  {
    if Here(src, stop, '\n') && !CarriageReturn(src, from, stop) then stop + 1 else stop
  }

  function NextRole(src: string, stop: nat): Role {
    if Here(src, stop, '\n') then ParserSpec.LineStart else ParserSpec.Continuation
  }

  /** Blank lines add an element only for their line feed. */
  predicate Adds(src: string, i: nat, role: Role, from: nat, stop: nat)
    requires from <= stop <= |src|
  {
    var end := SliceEnd(src, from, stop);
    var blank := forall k | from <= k < (if CarriageReturn(src, from, stop) then stop - 1 else stop) :: src[k] == ' ';
    && from != end
    && (role != ParserSpec.LineStart || !blank || (Here(src, stop, '\n') && !CarriageReturn(src, from, stop)))
  }

  // ----- entries -----

  /** A name, an equals sign and a pattern. */
  ghost predicate Attributed(src: string, i: nat, j: nat, a: Attribute) {
    a.value.elements != [] &&
    exists m: nat, n: nat :: Assigned(src, i, m, n, a.id) && Patterns(src, n + 1, j, a.value)
  }

  ghost predicate Assigned(src: string, i: nat, m: nat, n: nat, id: string) {
    Name(src, i, m, id) && Spaces(src, m, n) && Here(src, n, '=')
  }

  /** An attribute on a line of its own, after spaces and a dot. */
  ghost predicate AttributeLine(src: string, i: nat, j: nat, a: Attribute) {
    exists s: nat :: Spaces(src, i, s) && Here(src, s, '.') && Attributed(src, s + 1, j, a)
  }

  /** The attributes from the k-th on, as many lines as hold one. */
  ghost predicate Attributes(src: string, i: nat, j: nat, attrs: seq<Attribute>, k: nat)
    requires k <= |attrs|
    decreases |attrs| - k
  {
    if k == |attrs| then i == j && !exists m: nat, a: Attribute :: AttributeLine(src, i, m, a)
    else exists m: nat :: AttributeThen(src, i, m, j, attrs, k)
  }

  ghost predicate AttributeThen(src: string, i: nat, m: nat, j: nat, attrs: seq<Attribute>, k: nat)
    requires k < |attrs|
    decreases |attrs| - k, 0
  {
    AttributeLine(src, i, m, attrs[k]) && Attributes(src, m, j, attrs, k + 1)
  }

  /** A value, no elements for none, and attributes after the blank lines that follow. */
  ghost predicate Body(src: string, i: nat, j: nat, e: Entry) {
    exists v: nat, s: nat ::
      && Patterns(src, i, v, Whole(e.value)) && BlankLines(src, v, s) && Attributes(src, s, j, e.attrs, 0)
  }

  /** A message: a name, an equals sign, a value or attributes. */
  ghost predicate MessageEntry(src: string, i: nat, j: nat, e: Entry) {
    && (e.value.Some? || e.attrs != [])
    && exists m: nat, n: nat :: Assigned(src, i, m, n, e.id) && Body(src, n + 1, j, e)
  }

  /** A term: the same after a hyphen, with spaces before its value, which it cannot do
      without. */
  ghost predicate TermEntry(src: string, i: nat, j: nat, e: Entry) {
    e.value.Some? && exists m: nat, n: nat, s: nat :: TermAssigned(src, i, m, n, s, e.id) && Body(src, s, j, e)
  }

  ghost predicate TermAssigned(src: string, i: nat, m: nat, n: nat, s: nat, id: string) {
    Here(src, i, '-') && Assigned(src, i + 1, m, n, id) && Spaces(src, n + 1, s)
  }

  ghost predicate Entries(src: string, i: nat, j: nat, e: Entry) {
    && (e.value.Some? ==> e.value.value.elements != [])
    && if e.term then TermEntry(src, i, j, e) else MessageEntry(src, i, j, e)
  }
}
