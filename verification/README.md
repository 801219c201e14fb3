# Verification of the shell's language and configuration core

A Dafny model of the parts of the shell whose correctness rests on more than one
function: the Fluent runtime, locale negotiation, the layered configuration, the
clipboard bridge and the greeter's login conversation. Each algorithm that changes
state is a method or a class, proved against a function of its inputs; what the
program promises is proved of those functions.

| modules | what they hold |
|---|---|
| Options, FluentSyntax, Chars, Digraph | optional values, syntax trees, character classes, finite graphs and stacks |
| Literal, FluentValues | string escapes, numbers, matching of select variants |
| ParserSpec, Parser | the parser as functions of source and offset; the one-cursor parser |
| Grammar, GrammarTokens, GrammarSound, GrammarComplete, GrammarEntries, GrammarStops, GrammarRounds | the grammar as a relation between source and tree, that the parser reads exactly what it spells, and where it gives up |
| WellFormed, Recovery, Dedent, Looseness | what parsing guarantees: trees, tiling of the source, indentation; and two rules it enforces only in part |
| ResolverSpec, Resolver, Guards, Isolation, Marks, FluentLaws, Translation | rendering with its three guards, a rendering without them that shares nothing with it, isolation marks, numbers and references, source to text |
| LangIds, LangIdLaws, Negotiation, NegotiationLaws, Ranking | language identifiers, the six-stage filter, and the ranking that it refines |
| ConfigTexts | settings given as one string: actions and colours |
| Codec, Decoder, Denotation, Encoding, CodecLaw | decoding and encoding over type descriptors, what trees denote and values are written as, and the law between them |
| Merge, Loader, Imports | merging documents, loading with imports |
| Staging, Tables, CanonicalTrees | the staging tree as a value, on the heap, and in the form layers write |
| Layers, LayerOrder, Overlay, OverlayLaws, Reloads, Sources, Service | applying layers, the service as a machine and as a class, what its operations do and report |
| Clipboard, ClipboardLaws, Greeter, GreeterLaws | two machines driven from outside: any interleaving, any late event |

How the source is represented:

- Text is a sequence of code points. The Fluent parser looks only at ASCII, so
  offsets count characters where the source counts bytes; the one visible
  difference is in raw escapes the parser never accepts (a `\u` followed by
  multi-byte text is skipped by bytes in the source).
- The parser's input is the source with CRLF already folded where the loader does it.
- A pattern's identity, which `track` compares by pointer, is the reference that
  leads to it: the value or attribute of an entry. Variant patterns have none.
- Floating-point numbers are opaque. What the code asks of them (parsing, printing,
  comparing, plural operands, widening) is a record of functions passed in; widening
  is taken to be exact, and nothing is claimed about NaN.
- Go types and their struct tags are descriptors: a leaf type, a value struct, a
  section. A typed configuration is the value of each setting by canonical path.
  Dotted paths are sequences of segments, as splitting at the dots gives them.
- Errors are kinds with the values they name, not wording.
- A leaf type with its own decoding and encoding is a pair of functions; clamped
  numbers, click actions, workspace click actions and colours are such pairs, spelled
  out (modules and bar items are modelled in full).
- A table is an object on the heap; an array, with any tables inside it, is a value,
  so that the source's copies share their arrays does not show.
- A schema is taken to keep the canonical, alias and deprecated keys of one struct
  distinct, to have no empty key, leaf types that write what they read, and defaults
  that can be written and read back. CodecLaw.LawFails shows what happens to a
  default that cannot; its type, an optional enum field without one, occurs in no
  schema of the program, whose value structs set theirs (config/wallpaper.go:161,
  config/mail.go:174).

Where the code and its comments or its grammar differ, the code is followed, and a
lemma says when they agree. The value of a named argument need not be a literal
(i18n/syntax.go:81-84 calls it one): Looseness.NamedIsLiteral. A select may go without
a default variant, since a lone `*` satisfies the check at i18n/parser.go:566-598:
Looseness.SelectHasDefault. Merging is associative exactly for compatible documents:
Merge.MergeAssociative.

## Model

| member | source | states |
|---|---|---|
| Resolver.Scope.WritePattern | i18n/bundle.go:79-112 | rendering a pattern with the guards in fields: the text written and the fields left behind are those of the recursive specification |
| Resolver.Scope.WriteElement | i18n/bundle.go:84-108 | one element: text as it is; a placeable counted, entered on the stack, marked, and cut off at the limit |
| Resolver.Scope.WriteMarked | i18n/bundle.go:98-107 | an expression, followed by the spelling of what was cut short once the limit is passed |
| Resolver.Scope.WriteExpression | i18n/bundle.go:124-152 | a select renders the first matching variant, else the first default, else nothing |
| Resolver.Scope.WriteInline | i18n/bundle.go:173-229 | each inline expression, and `localArgs` left nil after a term call |
| Resolver.Scope.WriteReference | i18n/bundle.go:180-222 | a reference to nothing writes its error, any other is tracked |
| Resolver.Scope.ResolveInline | i18n/bundle.go:232-253 | the value a selector or argument stands for |
| Resolver.Scope.NamedArgs | i18n/bundle.go:257-269 | positional arguments are resolved and dropped, named ones kept, later ones winning |
| Resolver.Scope.Track | i18n/bundle.go:271-279 | a pattern already on the stack writes an error; the stack is restored |
| Resolver.NewBundle | i18n/bundle.go:29-48 | each identifier is bound to its first definition, messages and terms apart |
| Resolver.BundleUnique | i18n/bundle.go:29-48 | there is one such bundle |
| Resolver.Format | i18n/bundle.go:62-67 | formatting starts with clear guards and yields the text of the specification |
| ResolverSpec.WritePattern | i18n/bundle.go:79-112 | rendering terminates on every bundle, cyclic ones included; at most 100 placeables are evaluated, `dirty` holds exactly past the limit and stays, and the stack is left as it was |
| ResolverSpec.WriteTarget | i18n/bundle.go:180-222 | following a reference keeps the same: a reference on the stack is not followed, and the stack comes back |
| ResolverSpec.ResolveInline | i18n/bundle.go:232-253 | resolving a value keeps the counting and the stack |
| ResolverSpec.StackIsBounded | i18n/bundle.go:271-279 | a stack without repeats holds no more patterns than the bundle has, which is why tracking ends |
| FluentValues.Choose | i18n/bundle.go:129-150 | the variant chosen is the first that matches, else the first default, and none only when there is neither |
| FluentValues.ChosenUnique | i18n/bundle.go:129-150 | that description singles out one variant |
| FluentLaws.HitIs | i18n/bundle.go:129-171 | a key is a hit just when it is the selecting string, or spells an equal number with as many fraction digits, or is the keyword of that number's plural category |
| FluentLaws.OperandsAre | i18n/value.go:95-118 | the plural operands of a number are its integer part and the fraction digits it shows or asks for, whichever are more |
| FluentLaws.ReferenceLeads | i18n/bundle.go:173-229 | a message reference leads to a message's value or first attribute of the name, a term reference to a term's |
| Guards.GuardIsSilent | i18n/bundle.go:271-279 | on an acyclic part of the reference graph the cycle guard never fires, since the stack is a walk that leads to the pattern |
| Guards.GraphCovers | i18n/bundle.go:173-279 | the reference graph (values, attributes, selectors, variants, arguments) has an edge for every reference rendering can follow |
| Guards.Transparent | i18n/bundle.go:79-112 | from a pattern no cycle is reachable from, the limit is passed exactly when the rendering without guards needs more than 100 placeables, and otherwise both renderings and their counts are equal |
| Marks.FormatPieces | i18n/bundle.go:79-122 | for every bundle a formatted text is its elements' texts in a row: below the limit, in a pattern of several elements, U+2068 and U+2069 stand around selects, variables, numbers, calls and nested placeables and around nothing else; in a pattern of one element around nothing; past the limit nothing is added, and what it cut short is followed by its spelling in braces |
| Marks.ReferenceWrites | i18n/bundle.go:271-310 | for every bundle: a reference to nothing or to a pattern being rendered writes its spelling in braces and does nothing else, any other writes the elements of what it names with that on the stack |
| Marks.SelfReference | i18n/bundle.go:271-310 | a message that is one reference to itself reads as that reference in braces |
| Isolation.FormatBalanced | i18n/bundle.go:79-122 | when texts, literals and arguments are free of marks, every output is well nested in U+2068 and U+2069, on errors, cycles and past the limit too |
| Isolation.TargetBalanced | i18n/bundle.go:271-310 | the same of a followed, missing or cyclic reference |
| Literal.UnescapeLoop | i18n/value.go:147-186 | the index loop decodes as specified, unescaped strings returned as they are |
| Literal.Escaped | i18n/value.go:160-183 | one escape: its character and width, U+FFFD for a truncated, unknown or invalid one |
| Literal.DecodesUnitByUnit | i18n/value.go:147-186 | content made of valid units is read unit by unit, never meeting a truncated escape |
| Literal.UnescapeEscape | i18n/value.go:147-186 | decoding undoes escaping, for every text |
| FluentLaws.NumberReads | i18n/value.go:44-54 | a spelling that parses is a number with the fraction digits it shows, any other a string |
| FluentLaws.NumberWrites | i18n/value.go:73-86 | a number is written as its digits, padded with zeros to the fraction digits it asks for |
| FluentLaws.EscapeSpells | i18n/value.go:165-190 | the escape of four or six hexadecimal digits of a code point, in either case, stands for it |
| Literal.ReplacementOrigin | i18n/value.go:147-190 | U+FFFD in the output is itself in the source, or an escaped brace, or a code point escape of U+FFFD or of no code point |
| WellFormed.LiteralGrammar | i18n/parser.go:700-737 | the scanner takes a literal exactly when it is spelled by valid units |
| WellFormed.EscapedTextRoundTrip | i18n/parser.go:700-737 | an escaped text between quotes is accepted by the parser and decodes to the text |
| Parser.ParseResource | i18n/parser.go:20-37 | the parser as it runs, entries and junk as specified; it ends on every source |
| Parser.Cursor.Round | i18n/parser.go:22-34 | one round: an entry, a comment or junk, advancing past it |
| Parser.Cursor.EntryRuntime | i18n/parser.go:81-92 | an entry by its first character |
| Parser.Cursor.SkipComment | i18n/parser.go:94-106 | a comment to the end of its line |
| Parser.Cursor.Message | i18n/parser.go:108-127 | a message needs a value or attributes |
| Parser.Cursor.Term | i18n/parser.go:129-152 | a term needs a value |
| Parser.Cursor.Attributes | i18n/parser.go:154-170 | attributes up to the first line that holds none, the cursor put back there |
| Parser.Cursor.Attribute | i18n/parser.go:172-189 | an attribute needs a value |
| Parser.Cursor.Identifier | i18n/parser.go:209-216 | a letter, then letters, digits, dash and underscore |
| Parser.Cursor.SkipToNextEntryStart | i18n/parser.go:225-234 | to the next line that starts with a letter, dash or number sign |
| Parser.Cursor.SkipBlankBlock | i18n/parser.go:267-276 | blank lines only; a line that is not blank keeps its indent |
| Parser.Cursor.NumberLiteral | i18n/parser.go:306-318 | an optional sign, digits, and optionally a fraction |
| Parser.Cursor.Pattern | i18n/parser.go:376-468 | the scan for elements and the dedent |
| Parser.Cursor.PatternLoop | i18n/parser.go:388-441 | elements gathered with role, common indent and last non-blank element |
| Parser.Cursor.TextElement | i18n/parser.go:402-441 | one stretch of text, its indent measured at a line start |
| Parser.Cursor.FinishLoop | i18n/parser.go:444-468 | placeholders turned into elements, the common indent cut |
| Parser.Cursor.TextSlice | i18n/parser.go:481-509 | text up to a line end, a brace or the end, a stray closing brace an error |
| Parser.Cursor.Placeable | i18n/parser.go:511-525 | an expression between braces |
| Parser.Cursor.Expression | i18n/parser.go:527-564 | an inline expression or a select |
| Parser.Cursor.SelectRest | i18n/parser.go:553-564 | the variants after an arrow and a line end |
| Parser.Cursor.Variants | i18n/parser.go:566-598 | variants in order |
| Parser.Cursor.NextVariant | i18n/parser.go:570-595 | at most one default; a lone star ends the list and counts as one |
| Parser.Cursor.VariantKey | i18n/parser.go:600-618 | a number or an identifier in brackets |
| Parser.Cursor.InlineExpression | i18n/parser.go:629-698 | every kind of inline expression, and what only a literal admits |
| Parser.Cursor.StringLiteral | i18n/parser.go:700-737 | quoted content with escapes, on one line |
| Parser.Cursor.CallArguments | i18n/parser.go:739-789 | arguments in parentheses |
| Parser.Cursor.Argument | i18n/parser.go:751-782 | a named argument is new, a positional one precedes them |
| Parser.TrimFluentWs | i18n/parser.go:471-477 | the longest prefix that does not end in white space |
| GrammarEntries.EntryIs | i18n/parser.go:81-789 | at every position the parser reads an entry, and up to some end, if and only if the grammar spells that entry there and up to that end; the grammar is a relation between source and tree that names no function of the parser |
| GrammarEntries.Unambiguous | i18n/parser.go:81-789 | no position spells two entries |
| GrammarRounds.ParsesAsSpelled | i18n/parser.go:20-37 | on every source the rounds of parsing are the grammar's: an entry where one is spelled and just that one, comment lines, junk only where no entry is spelled, with where and why reading gave up, and from there up to the next line that can start one; the entries returned are those, in order |
| GrammarStops.EntryStopped | i18n/parser.go:81-789 | where an entry cannot be read, the error reported and the place where reading gave up are the grammar's: everything up to there is spelled, and what should follow does not stand there |
| GrammarRounds.SpelledParses | i18n/parser.go:20-37 | a source that is spelled as entries and comments with blank lines between parses to just those entries and to no junk |
| GrammarSound.InlineSound | i18n/parser.go:629-698 | an inline expression that is read is spelled by the stretch taken: `$` and a name, a name and attribute, a hyphen, name, attribute and arguments, a callee and arguments, a literal, braces |
| GrammarComplete.InlineComplete | i18n/parser.go:629-698 | and what is spelled is read |
| GrammarSound.ExpressionSound | i18n/parser.go:511-564 | a placeable's expression is spelled: an inline expression, or a selector, an arrow, a line end and variants |
| GrammarComplete.ExpressionComplete | i18n/parser.go:511-564 | and what is spelled is read |
| GrammarSound.VariantsSound | i18n/parser.go:566-618 | variants that are read are spelled with star, key in brackets and pattern, and the list ends where the grammar says |
| GrammarComplete.VariantsComplete | i18n/parser.go:566-618 | and what is spelled is read |
| GrammarSound.ArgumentsSound | i18n/parser.go:739-789 | arguments that are read are spelled: positional ones, then named ones under new names, blanks and at most one comma after each |
| GrammarComplete.ArgumentsComplete | i18n/parser.go:739-789 | and what is spelled is read |
| GrammarSound.PatternSound | i18n/parser.go:376-468 | a pattern that is read is made of the lines and placeables that stand there, dedented by the common indent that those lines have |
| GrammarComplete.PatternComplete | i18n/parser.go:376-468 | and what is spelled is read |
| GrammarEntries.AttributesSound | i18n/parser.go:154-189 | attributes that are read stand on lines of their own, and where they end no line holds one |
| GrammarEntries.AttributesComplete | i18n/parser.go:154-189 | and what is spelled is read |
| WellFormed.ParseWf | i18n/parser.go:108-152 | every entry the parser returns is well formed: messages with a value or attributes, terms with a value, at most one default in a select, selectors of the five kinds only, unique argument names, callees in upper case, no bare term attribute as a placeable, texts without braces |
| Looseness.SelectHasDefault | i18n/parser.go:566-598 | a select that is read has a default variant if and only if its list does not end at a star that no bracket follows |
| Looseness.SelectWithoutDefault | i18n/parser.go:566-598 | a whole source whose one message is a select without any variant |
| Looseness.NamedIsLiteral | i18n/parser.go:757-768 | the value of a named argument is a literal if and only if what follows its colon does not start with a letter |
| Looseness.LiteralArguments | i18n/parser.go:739-789 | all named arguments of a call are literals if and only if none does |
| Looseness.NamedReference | i18n/parser.go:739-789 | a whole source whose one message calls a function with a reference for a named argument |
| WellFormed.VariantsWf | i18n/parser.go:566-598 | a select has at most one default |
| WellFormed.InlineWf | i18n/parser.go:629-698 | inline expressions are well formed, and where only a literal is admitted they are a literal or what the identifier case lets through |
| WellFormed.ArgumentsWf | i18n/parser.go:739-789 | argument names are unique and values admissible |
| WellFormed.SelectWf | i18n/parser.go:527-564 | a select has a selector of an allowed kind |
| Recovery.ParseTiles | i18n/parser.go:20-37 | on every source the rounds tile it: in order, each advancing, only a comment reaching one past the end, junk non-empty and ending at an entry start or the end |
| Recovery.TilesInOrder | i18n/parser.go:20-37 | rounds are non-empty, disjoint and in order |
| Recovery.EveryCharacter | i18n/parser.go:20-37 | no character is lost but white space between rounds |
| Recovery.JunkSlices | i18n/parser.go:20-37 | the junk reported is the slices of all the junk rounds, each once, in order |
| Dedent.PatternText | i18n/parser.go:376-468 | each text element is its slice of the source less the indent cut, only the last one trimmed; the common indent is the least indent of the elements that start a line of the source (the one the pattern begins on aside) with non-blank text, or 0 with a placeable at column zero; an element that starts a line loses the smaller of the two indents, another none |
| Dedent.PatternCovers | i18n/parser.go:376-468 | nothing is lost: every character from where a pattern begins to where it ends is in one of the slices or placeables it was made of, or is a space or part of a line end |
| Dedent.RelativeIndent | i18n/parser.go:442-467 | the produced texts that start lines with non-blank text differ in their leading blanks just as those lines of the source do, and with no placeable at column zero some such text has none |
| Translation.BuiltWf | i18n/bundle.go:29-48 | a bundle built from a source holds only well-formed patterns of it |
| Translation.BuiltQuiet | i18n/bundle.go:29-48 | a source that holds no isolation mark and no escape that spells one yields a bundle without them |
| Translation.GetMessage | i18n/bundle.go:62-67 | from source text to message: there is a text exactly when the first message with the identifier has a value, it is that value formatted in the bundle of the source, and its isolation marks balance whenever source, escapes included, and arguments are free of them |
| LangIds.ParseLangID | i18n/langid.go:24-53 | the loop over subtags parses as specified |
| LangIds.SplitJoin | i18n/langid.go:66-68 | splitting joined subtags gives them back |
| LangIds.SortUniqueSorts | i18n/langid.go:44-52 | the variants end up sorted, the same ones, each once |
| LangIds.ParsedCanonical | i18n/langid.go:24-53 | what is parsed is in canonical case, its variants strictly sorted |
| LangIds.ParsesGrammatical | i18n/langid.go:24-53 | a text parses if and only if its subtags are a language, an optional script, an optional region and variants |
| LangIds.RoundTrip | i18n/langid.go:126-136 | parsing the canonical text gives the identifier back if and only if it has a script or region or no variant of four letters comes first |
| LangIds.RoundTripFails | i18n/langid.go:126-136 | an identifier that does read back differently |
| LangIdLaws.SplitGlues | i18n/langid.go:66-68 | splitting gives the subtags between the hyphens and underscores, empty ones kept |
| LangIdLaws.ParsesAcceptable | i18n/langid.go:24-124 | which texts parse: a language of two to eight letters but not four, an optional script, an optional region, then variants of five to eight letters and digits, or of four characters that start with a digit or are letters and digits after the first |
| LangIdLaws.ParsedFields | i18n/langid.go:24-124 | which subtag each field of the parsed identifier is, and in which case |
| LangIdLaws.TextReads | i18n/langid.go:126-144 | the text is language, or und, script, region and variants, hyphens between |
| Negotiation.Filter.Try | i18n/negotiate.go:37-60 | one comparison: accepted candidates move over in order, one only unless filtering |
| Negotiation.Filter.Maximize | i18n/langid.go:173-193 | the likely subtags replace the request's, or its region is guessed from its language |
| Negotiation.Filter.Request | i18n/negotiate.go:62-89 | one request runs through its six comparisons in order, and stops as the mode says |
| Negotiation.FilterLoop | i18n/negotiate.go:30-95 | the nested loops over shrinking candidates compute the specification |
| Negotiation.NegotiateLanguages | i18n/negotiate.go:100-112 | the default is appended when absent, and for a lookup when nothing matched |
| Ranking.FilteringIsRanking | i18n/negotiate.go:30-95 | filtering gives the available locales some comparison accepts, stably ordered by the first that does |
| Ranking.FilteringMembers | i18n/negotiate.go:30-95 | a locale is in the result if and only if it is available and some request accepts it |
| Ranking.Conserved | i18n/negotiate.go:30-95 | result and remainder are a permutation of the available locales; a lookup keeps at most one, matching at most one per request |
| Ranking.LookupIsFirst | i18n/negotiate.go:30-95 | a lookup finds the first of what filtering finds, and nothing when that is nothing |
| Ranking.MatchingIsEach | i18n/negotiate.go:30-95 | matching gives each request in turn the head of its own ranking of the locales that the requests before it have left, and takes that one away |
| Ranking.MatchedLanguages | i18n/langid.go:154-163 | when every available locale names a language no match has one that was not requested |
| Ranking.ParsedLanguageSolid | i18n/langid.go:81-90 | a parsed language holds no separator, as that asks for |
| NegotiationLaws.RankIsGrade | i18n/negotiate.go:62-92 | the comparison that first accepts a locale is told by the subtags it shares with the request: the same; within the request; within it with likely subtags; overlapping that, variants aside; within the likely form for no region; overlapping that, region aside; else none |
| NegotiationLaws.LookupYields | i18n/negotiate.go:100-107 | a lookup yields the first locale of the ranking, the default when there is none |
| NegotiationLaws.OthersYield | i18n/negotiate.go:108-112 | the other modes yield their matches, with the default at the end unless it is among them |
| Decoder.DecodeInto | config/decode.go:33-122 | decoding into a destination yields the value or the refusal of the specification |
| Decoder.DecodeList | config/decode.go:90-101 | every element decodes or none is kept |
| Decoder.DecodeMap | config/decode.go:102-115 | every entry decodes or none is kept |
| Decoder.DecodeValueStruct | config/decode.go:127-156 | fields by canonical key, then aliases, over the defaults; a missing required key fails |
| Decoder.FirstKey | config/decode.go:140-150 | the value at the first key present |
| Decoder.UnmarshalBarItem | config/baritem.go:37-85 | a module reference first, else a group |
| Denotation.DecodeDenotes | config/decode.go:33-166 | decoding yields a value if and only if the tree denotes it: its scalar, an integer converted where a float is wanted, elements and entries position by position, for a struct what stands under the first key that is there, else the base |
| Denotation.FloatedAlike | config/decode.go:77-82 | in a float place, however deep, an integer decodes as that integer written as a float |
| Denotation.ClampedDenotes | config/newtypes.go:28-41 | a clamped number is the nearest in its range |
| Encoding.EncodeIs | config/decode.go:225-297 | encoding yields exactly what a value is written as: scalars as themselves, integers above the signed range unsigned, structs under canonical keys, nothing for what is unset |
| CodecLaw.DecodedAdmitted | config/decode.go:33-156 | what decodes is a value of the type: integers in range, enum values among the variants, known modules, required fields decoded, groups of modules only, and what a type with its own codec decodes |
| CodecLaw.Law | config/decode.go:33-156 | encoding what was decoded, taking the plain form and decoding again gives the same value if and only if every default taken for a missing key is unset or storable |
| CodecLaw.StorableReproduces | config/decode.go:33-156 | a value of any type can be written and read back over a destination if and only if it is storable, by structure: a listed variant, a known module, an integer in the type's range and in 64 bits, an option that is set, map entries that are written, struct fields in turn (an unset one only if optional and as it was), groups of module references only |
| CodecLaw.StorableWhenFilled | config/decode.go:127-156 | what was decoded is storable if and only if every default taken for a missing key is unset or storable |
| CodecLaw.ClampedReadsBack | config/newtypes.go:28-41 | clamped unsigned numbers write what they read, as the law asks of types with their own codec |
| CodecLaw.TextsReadBack | config/colorvalue.go:125-177 | so do click actions, workspace click actions, colours and hex colours |
| ConfigTexts.ClickReadsBack | config/clickaction.go:31-77 | the text of a click action parses to it if and only if it sets only what its kind uses, its brightness fits in 32 bits, and a command is neither empty nor spelled like another kind |
| ConfigTexts.IntReadsBack | config/clickaction.go:42-60 | a printed integer is parsed back exactly when it fits in 32 bits, and refused otherwise |
| ConfigTexts.WorkspaceReadsBack | config/workspaces.go:45-104 | the text parsed is the text printed again, and an action is read back if and only if it is in the form parsing yields |
| ConfigTexts.ColorReadsBack | config/colorvalue.go:125-177 | the colour parsed is printed as it was written, and a colour is read back if and only if its token is known or its hex digits are valid and nothing else is set |
| CodecLaw.StructLaw | config/decode.go:127-156 | the law for value structs, by their fields |
| CodecLaw.BarItemRoundTrip | config/baritem.go:37-107 | the law for the recursive union of bar items |
| CodecLaw.DecodedPresent | config/decode.go:83-89 | what was decoded is never written as absent |
| CodecLaw.LawEverywhere | config/decode.go:231-297 | over schemas whose defaults are unset or storable the law holds for every tree |
| CodecLaw.LawFails | config/decode.go:127-156 | without sound defaults it can fail |
| Merge.MergeAll | config/tree.go:224-229 | the imports folded in order, the importing document on top |
| Merge.MergeIdempotent | config/tree.go:204-220 | merging a document with itself changes nothing |
| Merge.EmptyIsIdentity | config/tree.go:204-220 | the empty table is the identity, on the right for tables only |
| Merge.MergedValue | config/tree.go:204-229 | what the merged document says at a path is the ruling of the documents in order |
| Merge.LastWins | config/tree.go:204-229 | a value that is no table stands at a path exactly when the last document not silent there says so; a non-table above the path is not silent |
| Merge.MergeAssociative | config/tree.go:204-220 | merging three documents is associative if and only if the middle one puts no non-table where the outer one does not cover the inner one |
| Merge.AgreeingDocumentsAssociate | config/tree.go:204-220 | documents that never disagree on table against non-table associate |
| Merge.NotAssociative | config/tree.go:204-220 | a scalar between two tables shows the failure |
| Loader.Session.LoadMerged | config/load.go:78-93 | the main file with the chain pushed and, on success, restored |
| Loader.Session.MergeWithImports | config/load.go:97-126 | imports loaded in order, then merged under the file |
| Loader.Session.ImportOne | config/load.go:104-121 | an import that is not YAML or does not resolve fails, any other is loaded |
| Loader.Session.LoadCanonical | config/load.go:128-142 | an import with the chain pushed and always restored |
| Loader.LoadsIffAcyclic | config/load.go:78-159 | on files that parse and imports that lead to files: loading fails exactly when a cycle is reachable from the main file, and is otherwise the plain recursive merge, diamonds included |
| Loader.OnlyCircular | config/load.go:146-159 | the only failure there is a circular import, and the chain it names is a walk of the imports from the main file back to a file on it |
| Loader.AcyclicLoads | config/load.go:97-142 | on an acyclic part the chain check is silent |
| Loader.LoadedAcyclic | config/load.go:146-159 | a load that succeeds has no cycle to reach |
| Imports.ImportsListed | config/load.go:163-173 | the imports are the strings of the imports array, by an increasing map onto their places there, and none without an array |
| Imports.LoadedSays | config/load.go:97-126 | in a load that succeeds a value that is no table stands at a path if and only if the main file says it, or is silent there and the last string of the imports array whose loaded document is not silent says it |
| Imports.FailsTruly | config/load.go:78-159 | on any disk a load fails only with something that is so: a file that cannot be read or parsed, an import not YAML or unresolvable, a file already on the chain |
| Tables.OrderedTable.constructor | config/tree.go:30-30 | an empty table |
| Tables.OrderedTable.Put | config/tree.go:32-37 | the new value, and the key appended once, the orders of the other tables as they were |
| Tables.OrderedTable.Delete | config/tree.go:44-55 | the key gone from list and map |
| Tables.RemoveKey | config/tree.go:49-54 | the key list less one key, still without repeats |
| Tables.OrderedTable.SetStaged | config/layers.go:148-160 | in place, the tree set at the path; no table comes to be shared |
| Tables.OrderedTable.StagedAt | config/layers.go:163-175 | whether anything stands at a path |
| Tables.OrderedTable.DeleteStaged | config/layers.go:178-191 | in place, the leaf gone with the tables it empties |
| Tables.OrderedTable.Clone | config/layers.go:194-204 | equal value, equal key order at every depth, every table new; arrays, which the source shares, are values here |
| Tables.OrderedTable.Plain | config/tree.go:314-337 | the parsed shape of the whole table |
| Tables.FromTree | config/decode.go:286-294 | an encoded table as tables of its own |
| Staging.SetThenAt | config/layers.go:148-160 | what was set is read back |
| Staging.SetElsewhere | config/layers.go:148-160 | setting disturbs no path apart from it |
| Staging.DeleteThenAt | config/layers.go:178-191 | what was deleted is gone |
| Staging.DeleteElsewhere | config/layers.go:178-191 | deleting disturbs no path apart from it, pruning included |
| Staging.DeleteUndoesSet | config/layers.go:178-191 | deleting after a first setting restores the tree |
| CanonicalTrees.SetCanonical | config/layers.go:148-160 | setting settings keeps the tree to settings with no empty table between |
| CanonicalTrees.DeleteCanonical | config/layers.go:178-191 | so does deleting |
| CanonicalTrees.SameTree | config/layers.go:148-191 | such a tree is determined by what it holds at the settings |
| CanonicalTrees.GivenStaged | config/tree.go:314-337 | laid again in parsed shape, it gives each setting exactly what is staged for it |
| Layers.LayerApply.ApplyContainer | config/layers.go:67-99 | the walk over a section is the run over its visits, stopping at the first failure of the runtime layer |
| Layers.LayerApply.ApplyField | config/layers.go:72-97 | canonical key first; fields out of layers are passed over |
| Layers.LayerApply.ApplyLeaf | config/layers.go:101-136 | a value that decodes is stored and staged, another is skipped or stops the walk |
| Layers.Visited | config/layers.go:67-99 | the walk comes to every setting the tree gives something |
| Layers.VisitsBelong | config/layers.go:67-99 | and to no other |
| Layers.LayAt | config/layers.go:101-136 | what a layer does to one setting: its decoded value stored and staged, or nothing changed |
| Layers.FailsIffRejects | config/layers.go:101-116 | the runtime layer stops exactly when some setting is given what it rejects |
| LayerOrder.RuntimeLayAt | config/layers.go:67-136 | a runtime layer takes effect on a setting if and only if it gives it a value that decodes and no setting earlier in the schema rejects its own |
| Layers.SettingsApart | config/layers.go:148-160 | no setting's path leads through another's |
| Service.Service.Load | config/service.go:60-86 | both files laid over the defaults |
| Service.Service.Publish | config/service.go:136-151 | the new state, configSet recomputed |
| Service.Service.SetByPath | config/service.go:217-232 | the step of the machine; a rejected set leaves all four fields, and published tables are never written |
| Service.Service.ResetByPath | config/service.go:236-249 | the step of the machine, or the path's error and nothing changed |
| Service.Service.ResetAllRuntime | config/service.go:253-258 | every override dropped |
| Service.Service.ReloadMain | config/service.go:318-330 | a broken main file changes nothing |
| Service.Service.ReloadRuntime | config/service.go:334-344 | an unreadable runtime file changes nothing |
| Service.BuildLayers | config/service.go:157-172 | config then runtime onto the defaults |
| Service.ConfigLeaves | config/source.go:25-33 | the leaves a document sets |
| Overlay.InsertFresh | config/tree.go:263-286 | into a fresh tree every path can be inserted |
| Overlay.BuildInv | config/service.go:157-172 | whatever the documents, a build puts every setting at its override, else what the config set, else its default |
| Overlay.BuiltAt | config/service.go:157-172 | what the config layer gives each setting, and stages for it |
| Overlay.Relaid | config/service.go:225-225 | building from readable overrides stages exactly those and fails nowhere, by the codec law |
| Overlay.Rebuild | config/service.go:225-225 | the state is what building from its own document and overrides gives |
| Overlay.SameLive | config/service.go:20-30 | document and overrides determine the state |
| OverlayLaws.SetEffect | config/service.go:217-232 | a set is rejected if and only if some setting rejects what it is given; otherwise only the settings given a value change, in value and override |
| OverlayLaws.SetNowhere | config/service.go:215-216 | a path that leads to nothing changes nothing |
| OverlayLaws.ClearsNamed | config/layers.go:210-237 | a path resolves to a setting if and only if it names it by any of its keys |
| OverlayLaws.NestedGives | config/service.go:218-221 | a value set at such a path is given to that setting and no other |
| OverlayLaws.ResetEffect | config/service.go:236-249 | the one override goes, its setting falls back to config or default, all others are as they were, and `cleared` says whether there was one |
| OverlayLaws.SetThenReset | config/service.go:217-249 | resetting undoes a first set |
| OverlayLaws.ResetAllEffect | config/service.go:253-264 | every setting falls back |
| OverlayLaws.ConfigIsPerSetting | config/layers.go:101-115 | what the config gives other settings, good or bad, changes nothing for this one |
| OverlayLaws.SaveThenLoad | config/service.go:174-192 | overrides saved and loaded again give the same state |
| OverlayLaws.EveryRun | config/service.go:136-344 | after loading and any run of sets, resets and reloads the document is the last main file that parsed, and every setting is its override, else what that document gives it, else its default |
| Reloads.LoadEffect | config/service.go:60-86 | loading takes the main file's document, none when it is missing or broken; each setting has what the runtime document overrides it with, else what that document gives it, else its default |
| Reloads.ReloadMainEffect | config/service.go:315-330 | a reload takes the new document and the overrides of the runtime file, none when that is missing or unreadable; a main file that does not load changes nothing |
| Reloads.ReloadRuntimeEffect | config/service.go:332-344 | reloading the overrides keeps the document and takes the file's, none when it is missing; an unreadable file changes nothing |
| Reloads.SaysIs | config/layers.go:67-136 | what a document gives a setting, told without the layers: what stands at each section under the first of the field's keys, and the value that it denotes |
| Reloads.EveryHistory | config/service.go:60-344 | after loading and any run of operations the document is the last that parsed, and each setting has its last override, told from the operations, else what that document gives it, else its default |
| Sources.GetsSetting | config/service.go:203-213 | the value reported at a setting is what its value in effect writes, nothing for an unset option |
| Sources.SetThenGet | config/service.go:203-232 | a setting just set reads as the value set |
| Sources.SourceOfSetting | config/source.go:53-90 | the layer reported is the one the value comes from, and what that layer is said to hold reads as the value in effect |
| Sources.SourceOfSection | config/source.go:51-67 | a section takes the highest layer any setting under it uses |
| Sources.CanonicalItself | config/source.go:37-49 | a canonical path resolves to itself |
| Clipboard.Bridge.FileTransfer | portal/clipboard.go:174-189 | a pipe filed under a fresh serial for the claimer, or closed |
| Clipboard.Bridge.DropTransfers | portal/clipboard.go:194-201 | every pending pipe closed |
| Clipboard.Bridge.SelectionChanged | portal/clipboard.go:149-158 | another client's selection drops the transfers |
| Clipboard.Bridge.OwnerClosed | portal/clipboard.go:205-222 | a closing claimer loses its claim and transfers |
| Clipboard.Bridge.LoopEnded | portal/clipboard.go:101-105 | device, claim and transfers gone |
| Clipboard.Bridge.Ensure | portal/clipboard.go:84-96 | the device started once |
| Clipboard.Bridge.SetSelection | portal/clipboard.go:254-282 | transfers dropped and the claim taken, put back when it fails |
| Clipboard.Bridge.SelectionWrite | portal/clipboard.go:287-301 | the pipe of a transfer pending for just this session |
| Clipboard.EveryInterleaving | portal/clipboard.go:171-222 | under every interleaving of lock-held steps each pipe given is held by one method, pending, closed or handed over, and exactly one of these; it is handed only to the session it was filed for; pending serials lie in 1..serial |
| Clipboard.MoveInv | portal/clipboard.go:171-301 | any one step of any method keeps this |
| Clipboard.EveryWholeRun | portal/clipboard.go:254-282 | with whole methods atomic every pending transfer is the claimer's and a claimer has a device |
| Clipboard.FinishSettles | portal/clipboard.go:101-301 | any one whole method keeps this |
| Clipboard.StepSettles | portal/clipboard.go:101-282 | a step leaves a settled bridge unsettled exactly when it claims without a device or over another session's transfers, gives up a claim with its transfers pending, or puts back a predecessor in either situation |
| Clipboard.SettledIffNoneBreaks | portal/clipboard.go:101-301 | under every interleaving the bridge is settled after every step if and only if no step is one of those |
| Clipboard.StaleTransfer | portal/clipboard.go:266-272 | an interleaving that leaves a transfer with a session no longer the claimer |
| Clipboard.ClaimWithoutDevice | portal/clipboard.go:258-272 | and one that leaves a claimer without a device |
| ClipboardLaws.WholeEffect | portal/clipboard.go:101-301 | what each method does to pipes, claim, device and serial when no other comes between |
| ClipboardLaws.OwnEcho | portal/clipboard.go:149-158 | the echo of the bridge's own claim changes nothing, whatever comes between |
| ClipboardLaws.ForeignSelection | portal/clipboard.go:149-158 | under every interleaving: once another client's selection has been dealt with, no transfer that was pending when it came is pending still |
| Greeter.Screen.EnterPassword | greeter/screen.go:280-302 | an answer to the prompt that waits, nothing while a login runs, else a login |
| Greeter.Screen.StartConversation | greeter/screen.go:304-322 | a new generation, its password pending |
| Greeter.Screen.HandleEvent | greeter/screen.go:315-345 | events of another generation ignored; failure ends the conversation |
| Greeter.Screen.HandlePrompt | greeter/screen.go:350-368 | the pending password answers, or the prompt waits |
| Greeter.EveryRun | greeter/screen.go:280-368 | over every run of submits and late events at most one conversation is live, each typed password is answered at most once and only in its own conversation, and answers never outnumber input prompts |
| Greeter.LateEvents | greeter/screen.go:313-321 | events of a conversation that is over change nothing, and those of the live one are let through |
| GreeterLaws.SubmitEffect | greeter/screen.go:280-322 | after any run: the text entered answers the prompt on the screen, in the live conversation and as typed; while one is live without asking it goes nowhere; with none live it is the password of a new one, if a user is named and greetd can be reached |
| GreeterLaws.EventEffect | greeter/screen.go:313-368 | after any run: a prompt for input is noted and, when it is the first, answered with the password typed for this conversation; a failure ends it; other events, and those of other conversations, add nothing |

## Left out

- YAML text, file-system calls, path resolution, file watching and atomic saving: documents arrive parsed, resolution is a function, and a disk is a map from paths to documents.
- Go reflection, struct tags and the module config structs with their defaults: data to the model.
- Decoder.DecodeInto: of the types with their own decoding, modules, bar items, clamped integers, click actions, workspace click actions, colours and hex colours are spelled out; sizes, clamped floats, time formats, mount points, monitor targets and workspace maps are opaque pairs of functions, and that each of those writes what it reads is assumed. A workspace map that spells one number in two ways decodes in an order the source leaves open.
- The order of keys in encoded tables: a table's key list is kept and proved free of repeats, and Put and Clone state it at every depth; elsewhere values are compared without it.
- Tables.OrderedTable.SetStaged: the loop down the path is written as recursion into the child table, as `deleteStaged` is in the source.
- Overlay.InsertFresh: `insertPath` is modelled on values, so the mutation of nested maps in place is not captured.
- Layers.LayerApply.ApplyContainer: the typed config it fills is a field updated by path, not a Go struct addressed by reflection; deprecation and override diagnostics are not produced.
- Service.BuildLayers: the config layer stages into a table that is thrown away where the source passes nil.
- Service.Service.SetByPath: one atomic step; the source reads and publishes under separate lock sections, and no claim is made about concurrent edits.
- Subscribers, watchers and the signals of the service.
- Sources.SourceOfSetting: a path into a bar item has no canonical form in the model.
- Resolver.NewBundle: the parsed resource is one source; merging several resources and choosing a bundle by locale are left out.
- FluentValues.Choose: plural categories are a parameter; the CLDR rules behind them are data.
- LangIds.RoundTrip: likely-subtag tables are a parameter of negotiation.
- Negotiation.NegotiateLanguages: reading the locale from the environment is left out.
- Codec errors' wording, JSON Schema, docs and the `keepNone` mode of encoding, which only those use.
- Clipboard.EveryInterleaving: D-Bus signals, the session table and the Wayland device are outcomes passed in; fewer than 2^32 transfers are assumed.
- Greeter.EveryRun: widgets, messages and saving the last login are left out; the username and whether greetd can be reached are inputs.
- The audio visualiser, theming, D-Bus services and every other module: library, device or layout work.
- Tables.OrderedTable.Clone: an array is a value, so that a copy shares its arrays, and tables inside them, with the original is not modelled.
