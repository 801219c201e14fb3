/** The Fluent syntax tree that the runtime parser builds and the resolver
    renders. Text is a sequence of code points: every byte the parser tests for
    is ASCII, so cutting at code points and cutting at bytes agree. */
module FluentSyntax {
  import opened Options

  /** One parsed source: the entries read, and the slices that were not. */
  datatype Resource = Resource(entries: seq<Entry>, junk: seq<JunkEntry>)

  datatype ErrorKind =
    | ExpectedToken(c: char)
    | ExpectedLetter
    | ExpectedDigit
    | UnterminatedStringLiteral
    | InvalidUnicodeEscape
    | UnknownEscape
    | UnbalancedClosingBrace
    | TermAttributeAsPlaceable
    | MessageReferenceAsSelector
    | MessageAttributeAsSelector
    | TermReferenceAsSelector
    | ExpectedSimpleExpression
    | ExpectedLineEnd
    | MultipleDefaultVariants
    | MissingDefaultVariant
    | MissingValue
    | ExpectedLiteral
    | ExpectedInlineExpression
    | ForbiddenCallee
    | DuplicatedNamedArgument(name: string)
    | PositionalAfterNamed
    | ExpectedMessageField(id: string)
    | ExpectedTermField(id: string)

  datatype ParseError = ParseError(kind: ErrorKind, pos: nat)

  datatype JunkEntry = JunkEntry(content: string, err: ParseError)

  /** A message or a term; only a message may lack a value. */
  datatype Entry = Entry(term: bool, id: string, value: Option<Pattern>, attrs: seq<Attribute>)

  datatype Attribute = Attribute(id: string, value: Pattern)

  datatype Pattern = Pattern(elements: seq<Element>)

  datatype Element = Text(text: string) | Placeable(expr: Expression)

  datatype Expression =
    | Inline(e: InlineExpr)
    | Select(selector: InlineExpr, variants: seq<Variant>)

  /** An empty attr stands for an absent attribute, as in the program. */
  datatype InlineExpr =
    | StringLiteral(raw: string)
    | NumberLiteral(raw: string)
    | MessageRef(id: string, attr: string)
    | TermRef(id: string, attr: string, args: Option<CallArgs>)
    | VariableRef(id: string)
    | FunctionRef(id: string, callArgs: CallArgs)
    | NestedPlaceable(expr: Expression)

  datatype CallArgs = CallArgs(positional: seq<InlineExpr>, named: seq<NamedArg>)

  datatype NamedArg = NamedArg(name: string, value: InlineExpr)

  datatype Variant = Variant(key: string, numberKey: bool, value: Pattern, isDefault: bool)
}
