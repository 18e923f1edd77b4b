# TeslaSync generators, scanners and worker pool in Dafny

A model of the self-contained logic of the TeslaSync repository, with proofs of what
that logic is for. One group of modules per component:

- **Tesla proto code generator** (`cmd/protogen-tesla`). `ProtoLexer` is the tokenizer: a
  reference lexer by offsets, and the original loop with its running line and column proved
  equal to it. `ProtoTokens` says outright, without the tokenizer, what texts it reads and as
  what; `ProtoLexerTheory` proves its span and layout laws. `ProtoParser` is the parser
  as functions on token streams, `ProtoParserObject` the same parser as the object that moves
  `pos`. `ProtoSkips` and `ProtoGrammar` give the language independently, by counting brackets
  and as syntax trees with a meaning, and `ProtoAccepts` proves the parser accepts exactly
  that. `ProtoRoundTrip` has a printer and the round trip from text, `ProtoReadable` the models
  that can be read at all. `StableSort` and `Canonicalize` are the canonicalizer, `EnumCodegen`
  the common prefix, the enum parser tables and the meaning of the generated switches.
- **Resubscribe worker pool** (`cmd/resubscribe`). `WorkerPool` is a transition system: the
  producer, the bounded channel, the workers and one cancellation step interleave freely.
- **SLO code generator** (`cmd/slogen`). `Catalog` is the line parser with its flags, comment
  stripper, unquoter and quoter; `CatalogScalars` what these make of plain and quoted
  scalars, `CatalogTags` of tag lists, `CatalogLines` of single lines, and `CatalogRoundTrip` of
  a whole catalogue printed in the documented layout; `CatalogChecks` the items a text can lose, and the validator;
  `Windows` the re-windowing of expressions; `CamelCase` the camel-casing and its collisions;
  `SloRules` the recording rules and alerts.
- **Dashboard scripts** (`scripts`). `SqlCalls` and `SqlRewriting` are the rewriting of
  `convert_*` calls, `SqlNames` their names spelled out, `SqlFixedPoints` and
  `SqlCounterexample` its second run. `LinksSpan` is the threading of navigation links,
  `LinksSecondRun` its second run, `LinksBlock` what the rendered block says when read as JSON;
  `LinksJson`, `LinksDocument` and `LinksInsert` are what the script makes of a JSON text
  somebody else wrote. `SelectScope` is the scoping of column rewrites, `ScopeWords` the words
  it looks for.
- **Stateful pieces**. `LatLonPairs` pairs coordinate rows in place (`cmd/pub-test-signal`);
  `ErrorTracking` is the error tracker, and `Redaction` the body redaction and the capped
  buffer (`internal/api`).

`Wrappers`, `Strconv`, `GoStrings` and `PyStrings` hold the library functions used, each with
what it does said a second time without it.

Conventions. Text is a sequence of characters that stand for bytes; classification of characters
follows the library used, restricted to ASCII (Latin-1 for the letters of the tokenizer and the
blanks of the scripts). A loop of the source is a method whose contract ties its result to a
function; the lemmas are about that function. Where an object of the source changes its fields,
the model is a class. `dafny verify dfyconfig.toml` verifies the whole project.

## Where the code differs from what is said of it

- The parser skips package statements, so a model that has a package is
  never read back (`ProtoRoundTrip.PackageNeverRead`); the round trip is for models without.
- The catalogue parser loses an item when a top-level key follows it. It keeps exactly the
  announced items if and only if no top-level key follows an item
  (`CatalogChecks.NoItemLostIff`; `CatalogChecks.LateKeyLosesItem` shows a text that loses its
  only one). The array reader splits at commas, quoted or not, and a tag that ends in a
  backslash turns the comment stripper's quote flag over: tags are read back exactly when none
  holds a comma, and none a `#` behind an odd number of tags that end in a backslash
  (`CatalogTags.TagsReadIff`, `CatalogTags.TagWitnesses`).
- `transform_sql` is not idempotent on every text without nested calls: an unclosed call whose
  string holds a closed one is closed by the first run, and the second repeats text
  (`SqlCounterexample.NotIdempotent`). On texts without nested calls a second run changes
  nothing exactly when no unclosed call is closed by the rewriting of the calls behind it
  (`SqlFixedPoints.TransformIdempotentIff`). Where calls do nest, as in
  `convert_temp(convert_speed(a))`, the inner call is written a second time behind the outer
  one, with a parenthesis that nothing opens (`SqlFixedPoints.NestedCopied`), and no text with
  nested calls is ever left alone (`SqlFixedPoints.FixedIff`).
- The links script is said to replace the links array and keep the rest of the file byte for
  byte. It does so if and only if the value of the first links key is an array
  (`LinksJson.ReplacementIff`, and `LinksDocument.DashboardIff` for every JSON text with such a
  key); where it is something else, the next bracket in the text is taken for the beginning of
  the array, and every key on the way to the end of that array is deleted
  (`LinksJson.NextArrayTaken`; `LinksJson.PanelsLost` shows a dashboard that loses its panels).
- The links script means to keep Windows line endings, but it reads in text mode, which turns
  them into newlines first; no carriage return is ever written (`LinksSpan.ThreadFile`). When a
  file has a links key and no array is found behind it, the script inserts a second key, the next
  run does not find the inserted block and writes yet another text; in all other cases it finds
  the block and writes the same text (`LinksSecondRun.BlockFoundIff`,
  `LinksSecondRun.SecondRunIff`, and `LinksSecondRun.NullLinksChangeAgain` for such a file).
- The truncation flag of the capped buffer is said to mean a dropped byte; an empty write that
  finds the buffer full raises it too (`Redaction.FlagIff`; `Redaction.EmptyWriteRaisesFlag` for
  such writes).
- The scope search takes a parenthesis followed by the letters SELECT for a subquery even when
  a longer word follows; the alias collector asks for the whole word. Its scope is the
  one that asking for the whole word would give, unless the innermost such parenthesis is
  followed by a longer word (`SelectScope.ScopesAgreeIff`; `SelectScope.LongerWordMisread` for
  such a text).
- Two valid SLO names can give one alert name; exactly when they differ only in underscores that
  no letter follows (`SloRules.AlertsDistinctIff`; `SloRules.DigitPartCollides` for a valid
  catalogue of two).

## Model

| member | source | states |
|---|---|---|
| Strconv.ParseIntIff | cmd/protogen-tesla/parser.go:296-306 | A text is read as a number if and only if it is an optional sign and decimal digits, the number is the one the digits have by their places, and it is in range. |
| Strconv.IntRoundTrip | cmd/protogen-tesla/parser.go:296-306 | A number in range, printed in decimal, is read back by the range-checked integer parser the field and value numbers go through. |
| ProtoLexer.Advance | cmd/protogen-tesla/parser.go:148-161 | Inside the text, advancing keeps line and column equal to those counted from the newlines before the offset; out of range it leaves the offset where it was. |
| ProtoLexer.SkipBlock | cmd/protogen-tesla/parser.go:176-187 | The block comment loop stops just past the first closing mark and reports when there is none, in step with line and column. |
| ProtoLexer.ReadString | cmd/protogen-tesla/parser.go:188-209 | The string loop stops at the first quote not behind a backslash pair and returns exactly the text before it. |
| ProtoLexer.Tokenize | cmd/protogen-tesla/parser.go:144-244 | On every input the loop ends, and returns the tokens of the reference lexer at their counted lines and columns, or the failure and position the reference lexer fails at. |
| ProtoTokens.ReadIff | cmd/protogen-tesla/parser.go:144-249 | A text is read without error, as these tokens at these places, if and only if it is a run of blanks, line and block comments, names, numbers, quoted strings and the eleven signs, each given by its characters, none going on into the next, whose tokens they are. |
| ProtoTokens.RefusedIff | cmd/protogen-tesla/parser.go:144-244 | A text is refused with an error at a place if and only if it is such a run up to a comment or string that does not end or a character that begins nothing, and the place is the one the source names. |
| ProtoTokens.TokenTextIff | cmd/protogen-tesla/parser.go:188-236 | The token texts a printed file may hold are exactly those forms. |
| ProtoTokens.FollowsIff | cmd/protogen-tesla/parser.go:210-236 | What may stand directly behind a printed token: anything but a character that would go on with a name or a number. |
| ProtoTokens.FillerIff | cmd/protogen-tesla/parser.go:162-187 | The layout between printed tokens is exactly the runs of blanks and closed comments. |
| ProtoLexerTheory.TokenSpans | cmd/protogen-tesla/parser.go:144-244 | Tokens come from ordered source spans that spell them; the gaps hold only whitespace and comments; each line and column is the one computed from the newlines before the span. |
| ProtoLexerTheory.SpansDisjoint | cmd/protogen-tesla/parser.go:144-244 | The spans of any two tokens are in order and do not overlap. |
| ProtoLexerTheory.LayoutIndependent | cmd/protogen-tesla/parser.go:162-187 | Adding whitespace or a comment at the edge of any token leaves all token kinds and values unchanged. |
| ProtoLexerTheory.RenderLexes | cmd/protogen-tesla/parser.go:144-244 | Any tokens written in any layout, with gaps that may be empty where neighbours do not run together, are read back as those tokens. |
| ProtoParserObject.Parser.Next | cmd/protogen-tesla/parser.go:267-274 | The position never moves past the EOF token, and otherwise by one. |
| ProtoParserObject.Parser.ParseFile | cmd/protogen-tesla/parser.go:308-339 | The object ends on every token stream and returns what the functional parser returns, its errors at the same token. |
| ProtoParserObject.Parser.ParseMessage | cmd/protogen-tesla/parser.go:410-467 | The message loop, with nested declarations and statements skipped, leaves the model and the position of the functional parser. |
| ProtoParserObject.Parser.ParseEnum | cmd/protogen-tesla/parser.go:365-408 | The enum loop leaves the model and the position of the functional parser. |
| ProtoParserObject.Parser.ParseOneof | cmd/protogen-tesla/parser.go:469-494 | The oneof loop leaves the model and the position of the functional parser. |
| ProtoParserObject.Parser.ParseField | cmd/protogen-tesla/parser.go:496-519 | A field, with its options skipped, is read as the functional parser reads it. |
| ProtoSkips.SkipStatementStops | cmd/protogen-tesla/parser.go:343-363 | A statement is skipped to just after its first semicolon outside all brackets. |
| ProtoSkips.SkipStatementCases | cmd/protogen-tesla/parser.go:343-363 | On every stream, what is skipped is such a statement, or there is none and the skip ends at the EOF token. |
| ProtoSkips.SkipBracketsStops | cmd/protogen-tesla/parser.go:521-540 | An option group is skipped to just after the square bracket that balances it. |
| ProtoSkips.SkipBracketsCases | cmd/protogen-tesla/parser.go:521-540 | On every stream the skip ends behind a balanced group or at the EOF token. |
| ProtoSkips.SkipBracesStops | cmd/protogen-tesla/parser.go:542-558 | A nested declaration is skipped to just after the brace that balances it. |
| ProtoSkips.SkipBracesCases | cmd/protogen-tesla/parser.go:542-558 | On every stream the skip ends behind a balanced group or at the EOF token. |
| ProtoGrammar.WordsSpelled | cmd/protogen-tesla/parser.go:308-467 | The words that begin a skipped statement in a body and in a file, and the words a message body does not take for a type. |
| ProtoGrammar.FileParses | cmd/protogen-tesla/parser.go:308-519 | Parsing the tokens of any syntax tree gives the model the tree denotes and reads to the end. |
| ProtoAccepts.AcceptsExactlyTheGrammar | cmd/protogen-tesla/parser.go:308-558 | The parser returns a model for a token stream if and only if the stream is that of a syntax tree denoting the model. |
| ProtoRoundTrip.ReadProtoText | cmd/protogen-tesla/parser.go:59-77 | Tokenizer loop and parser object together end on every text with the model or error of the specification. |
| ProtoRoundTrip.AnyLayoutReads | cmd/protogen-tesla/parser.go:144-558 | A syntax tree written in any layout, with options, reserved statements, other skipped statements and nested types, is read as the model it denotes. |
| ProtoRoundTrip.PrintRoundTrip | cmd/protogen-tesla/parser.go:144-558 | Printing any model that can be written down and reading the text gives exactly that model. |
| ProtoReadable.ReadableIff | cmd/protogen-tesla/parser.go:59-558 | A model is read from some text if and only if the printer can write it down, so each of the printer's conditions is one that reading guarantees. |
| ProtoReadable.IdentIff | cmd/protogen-tesla/parser.go:246-249 | The identifiers of a printable model are the names a text can hold, by their characters. |
| ProtoRoundTrip.PackageNeverRead | cmd/protogen-tesla/parser.go:308-339 | No text is read as a model with a package. |
| StableSort.SortIsStable | cmd/protogen-tesla/parser.go:79-100 | The sort permutes, sorts, and keeps entries with equal keys in their order. |
| StableSort.StableUnique | cmd/protogen-tesla/parser.go:79-100 | Only one result is sorted and keeps that order, so the specification leaves a stable sort no freedom. |
| StableSort.SortForgetsOrderIff | cmd/protogen-tesla/parser.go:79-100 | All permutations of a list sort to one list if and only if equal keys mean equal entries. |
| Canonicalize.Model.Canonicalize | cmd/protogen-tesla/parser.go:79-100 | The in-place passes over every level leave the canonical form of the model. |
| Canonicalize.CanonicalKeepsAndSorts | cmd/protogen-tesla/parser.go:79-100 | Canonicalization loses, adds and changes no entry at any level, and sorts every level. |
| Canonicalize.CanonicalRises | cmd/protogen-tesla/parser.go:79-100 | In the canonical model enum, message and oneof names never fall in byte order, and value, field and variant numbers never fall. |
| Canonicalize.CanonicalIdempotent | cmd/protogen-tesla/parser.go:79-100 | Canonicalizing twice is canonicalizing once. |
| Canonicalize.CanonicalForgetsOrder | cmd/protogen-tesla/main.go:10-13 | When the canonical model has distinct keys, another file has the same canonical model if and only if it declares the same things in whatever order, which the byte-stability claim needs. |
| Canonicalize.OrderForgottenIff | cmd/protogen-tesla/parser.go:79-100 | All reorderings of a file, at every level, have one canonical model if and only if in that model each name or number stands for one declaration. |
| Canonicalize.DistinctSuffices | cmd/protogen-tesla/parser.go:79-100 | It is enough that the file as declared has distinct keys. |
| Canonicalize.ParseProtoFile | cmd/protogen-tesla/parser.go:59-77 | Reading a text and canonicalizing the model computes the specification on every input. |
| Canonicalize.ParseProtoRoundTrip | cmd/protogen-tesla/parser.go:59-100 | A printed model parses to its canonical form, and where that has distinct keys another printed model parses alike if and only if it declares the same things. |
| EnumCodegen.LongestCommonPrefix | cmd/protogen-tesla/emit.go:1073-1095 | The loop returns a common prefix of all names that every common prefix is a prefix of. |
| EnumCodegen.LcpOrderIndependent | cmd/protogen-tesla/emit.go:1073-1095 | Order and repetition of the names do not change the prefix. |
| EnumCodegen.BuildEnumPrefixMap | cmd/protogen-tesla/emit.go:991-1004 | The map holds, for every enum it covers, the longest common prefix of its names. |
| EnumCodegen.RenderEnumParsers | cmd/protogen-tesla/emit.go:1097-1139 | The rows handed to the template carry each value's name, number and the label its prefix leaves. |
| EnumCodegen.PrefixesInStep | cmd/protogen-tesla/emit.go:991-1139 | The prefix the decoder trims and the one the parser's short labels are cut at are the same for every enum of a file with distinct names. |
| EnumCodegen.RowsOrderIndependent | cmd/protogen-tesla/emit.go:1097-1139 | Declaring the values in another order changes neither the prefix nor any label. |
| EnumCodegen.LabelsDistinctIff | cmd/protogen-tesla/emit.go:1043-1066 | All case labels of the generated Parse are distinct if and only if the names are distinct and none is the prefix followed by another name. |
| EnumCodegen.NoDoublingSuffices | cmd/protogen-tesla/emit.go:1043-1066 | It is enough that the names are distinct and none starts with the prefix doubled. |
| EnumCodegen.AcceptedParses | cmd/protogen-tesla/emit.go:1043-1066 | Whatever label a row accepts is parsed to the number of that row. |
| EnumCodegen.ParseSound | cmd/protogen-tesla/emit.go:1043-1066 | Parse accepts nothing but names and short labels, each with its own number. |
| EnumCodegen.ShortParses | cmd/protogen-tesla/emit.go:1422-1426 | The decoder's trimmed short form parses back to its value if and only if the name is more than the prefix. |
| EnumCodegen.EnumCodeCoherent | cmd/protogen-tesla/emit.go:1043-1139 | String then Parse gives every value back, short forms of different values differ, and short forms parse back exactly when the name is more than the prefix. |
| WorkerPool.StepInv | cmd/resubscribe/main.go:300-340 | Every step of producer, workers and cancellation keeps the invariant. |
| WorkerPool.TargetsConserved | cmd/resubscribe/main.go:300-335 | Under every interleaving and any cancellation moment each target is in exactly one of pending, queued, in flight and counted; queued and in flight never exceed the worker count each. |
| WorkerPool.StepMeasure | cmd/resubscribe/main.go:306-335 | Every step lowers a measure over remaining, queued, in-flight and live work. |
| WorkerPool.RunsEnd | cmd/resubscribe/main.go:306-335 | Every run ends: at most three steps a target, one a worker and three more. |
| WorkerPool.NeverStuck | cmd/resubscribe/main.go:306-335 | With at least one worker, every reachable state before the exit has a step of the program itself, full channel, closed channel and cancelled context included. |
| WorkerPool.StuckWithoutWorkers | cmd/resubscribe/main.go:148-151 | With no workers the producer cannot move until cancelled, which is why the flag must be positive. |
| WorkerPool.ExitCodeMeans | cmd/resubscribe/main.go:300-340 | At the end each target was counted once, the three counters add up to the targets, and the exit code is 0 if and only if every target succeeded. |
| WorkerPool.CountersCount | cmd/resubscribe/main.go:306-335 | Each counter counts the steps of its kind: targets given up or without VIN, pushes the proxy accepted (or a dry run did not send), and all other pushes. |
| WorkerPool.ExitCodeIff | cmd/resubscribe/main.go:300-445 | A finished run exits 0 if and only if no target was given up, every target has a VIN, and, unless it is a dry run, every push was answered without an error by a status from 200 to 299; otherwise 1. |
| WorkerPool.DryRunExit | cmd/resubscribe/main.go:377-445 | A dry run nobody cancels exits 0 if and only if every target has a VIN. |
| WorkerPool.FilterVehicles | cmd/resubscribe/main.go:451-468 | Without a filter all present vehicles by id; with one the first vehicle of that id, or none. |
| WorkerPool.Begin | cmd/resubscribe/main.go:239-300 | The pool starts exactly when listing and configuration succeed and a vehicle is chosen, and with the chosen ones; an empty fleet exits 0, an unknown id and every failure exit 1. |
| GoStrings.LinesUnlines | cmd/slogen/main.go:181-191 | A text of whole lines is cut back into those lines by the scanner. |
| GoStrings.TrimSpaceIs | cmd/slogen/main.go:194-204 | Trimming leaves what stands between the blanks at both ends. |
| Catalog.StripCommentLoop | cmd/slogen/main.go:330-347 | The quote-aware loop keeps what the specification keeps: all up to the first `#` outside quotes, without trailing blanks. |
| Catalog.QuoteScalar | cmd/slogen/generate.go:136-153 | The loop writes the scalar between quotes with backslashes and quotes escaped. |
| Catalog.ParseInlineArray | cmd/slogen/main.go:362-380 | The loop reads an inline array as the specification does, and refuses what is no array. |
| CatalogScalars.UnquoteMeans | cmd/slogen/main.go:349-360 | What any scalar means: in double quotes and well escaped, its characters with each escape replaced by the character it names; otherwise in single quotes, what stands between them; otherwise the text itself. |
| CatalogLines.SkippedLine | cmd/slogen/main.go:190-196 | Blank lines and lines that hold only a comment change nothing. |
| Catalog.ParseCatalog | cmd/slogen/main.go:179-328 | On every text the loop with its flags returns the catalogue or the first error, at its line, of the line-by-line specification. |
| CatalogScalars.KeptQuoted | cmd/slogen/main.go:330-347 | Met with the quote flag down, a quoted scalar passes the comment stripper whole, `#` included, and with the flag up when it holds no `#`; behind it the flag has changed if and only if the scalar ends in a backslash. |
| CatalogScalars.CommentDropped | cmd/slogen/main.go:330-347 | A comment behind such a scalar is dropped and the scalar kept, whatever both hold. |
| CatalogScalars.QuoteRoundTrip | cmd/slogen/main.go:349-360 | Unquoting what the quoter wrote gives every one-line scalar back. |
| CatalogTags.ArrayReadIff | cmd/slogen/main.go:362-380 | A printed array of one-line tags is read back if and only if no tag holds a comma, quotes, backslashes and hashes included. |
| CatalogTags.TagsReadIff | cmd/slogen/main.go:307-380 | A printed tags line of one-line tags is read back, comment stripper and array reader together, if and only if no tag holds a comma and none a `#` behind an odd number of tags that end in a backslash. |
| CatalogTags.ShownReadIff | cmd/slogen/main.go:307-380 | The same for tags written plainly or in single quotes: read back if and only if no tag holds a comma. |
| CatalogTags.TagWitnesses | cmd/slogen/main.go:330-380 | A tag with a comma, and a hash behind a backslash, that are not read back; a last tag ending in a backslash that is. |
| CatalogLines.DecimalRoundTrip | cmd/slogen/main.go:294-300 | A printed decimal objective is read back exactly. |
| CatalogRoundTrip.PrintRoundTripIff | cmd/slogen/main.go:179-380 | A catalogue in the documented layout, with decimal objectives, each scalar plain, in single or in double quotes as it can be, and blank and comment lines between, parses to the same catalogue, each item with the line it starts on, if and only if the tags line of every item can be read back. |
| CatalogChecks.NoItemLostIff | cmd/slogen/main.go:198-248 | Of a text that parses, exactly the announced items come out, in order, if and only if no top-level key follows an item; otherwise some are lost. |
| CatalogChecks.LateKeyLosesItem | cmd/slogen/main.go:198-248 | A text with one item before its version key parses, without an error, to a catalogue of no items. |
| CatalogChecks.BareItem | cmd/slogen/main.go:226-248 | An item of which only the name is written has no description, expressions, window, owner or tags. |
| CatalogChecks.NameIff | cmd/slogen/main.go:62 | A valid name is a small letter and behind it small letters, digits and underscores. |
| CatalogChecks.WindowIff | cmd/slogen/main.go:63 | A valid window is digits and one of the four units. |
| CatalogChecks.ValidateSlo | cmd/slogen/main.go:137-173 | No complaint if and only if all field rules hold; a field is named if and only if it breaks its rule and no rule before it, the tags in their order, is broken. |
| CatalogChecks.ValidateCatalog | cmd/slogen/main.go:117-135 | No complaint if and only if the catalogue is valid; a violation is reported if and only if it is the first: of an item its first broken rule, or its repeated name, all items before it being in order. |
| Windows.OnePass | cmd/slogen/generate.go:120-124 | The two replacements one after the other equal one simultaneous pass from left to right in which only the two bracket forms take the window. |
| Windows.RenderPieces | cmd/slogen/generate.go:120-124 | The pieces of that pass are the expression itself, so everything else stays. |
| Windows.FiveMinutesIdentity | cmd/slogen/generate.go:120-124 | Rewriting to five minutes changes nothing. |
| Windows.SecondRewrite | cmd/slogen/generate.go:120-124 | Once a different digits-plus-unit window is in place, a further rewrite to any window changes nothing. |
| CamelCase.CamelCase | cmd/slogen/generate_alerts.go:134-143 | The in-place loop over the parts drops underscores and raises the character behind each. |
| CamelCase.GoCamelCase | cmd/protogen-tesla/emit.go:1460-1480 | The code generator's variant computes the same name. |
| CamelCase.CollideIff | cmd/slogen/generate_alerts.go:134-143 | Two names that start with a letter camel-case alike if and only if they agree once the underscores that no letter follows are dropped. |
| CamelCase.CamelInjective | cmd/slogen/generate_alerts.go:134-143 | Names whose parts all start with a letter never collide. |
| SloRules.RenderRecordingRules | cmd/slogen/generate.go:81-104 | The nested loops produce, in catalogue order, one group per SLO with one rule per recording window. |
| SloRules.RulesSpelled | cmd/slogen/generate.go:81-124 | The group of an SLO spelled out: its name, and four rules with the names, windows, labels and ratio expressions for 5m, 1h, 6h and 30d. |
| SloRules.RuleNamesDistinct | cmd/slogen/generate.go:81-104 | All recording-rule names of a valid catalogue are distinct. |
| SloRules.BurnRatioExpr | cmd/slogen/generate_alerts.go:116-123 | The loop refers to the first recorded window of that length and otherwise writes the ratio inline. |
| SloRules.RatiosResolve | cmd/slogen/generate_alerts.go:116-123 | In a valid catalogue every ratio in an alert, referred to or inline, means exactly the SLI ratio over its window; a rule referred to is defined, and once. |
| SloRules.RenderAlerts | cmd/slogen/generate_alerts.go:69-110 | The nested loops produce one alert per SLO and tier, with its name, its two ratios and its routing. |
| SloRules.AlertsSpelled | cmd/slogen/generate_alerts.go:29-123 | The alerts of an SLO spelled out: the fast one on the recorded 1h and 5m ratios, paging, for 2m; the slow one on the recorded 6h ratio and the inline 30m ratio, a ticket, for 15m. |
| SloRules.AlertsDistinctIff | cmd/slogen/generate_alerts.go:85-143 | The alert names of a valid catalogue are distinct if and only if its SLO names differ in more than underscores that no letter follows. |
| SloRules.LetterPartsSuffice | cmd/slogen/generate_alerts.go:134-143 | It is enough that every part of every name starts with a letter. |
| SloRules.DigitPartCollides | cmd/slogen/generate_alerts.go:134-143 | A catalogue the validator accepts whose two SLOs give the same alert names. |
| SqlCalls.SplitCall | scripts/fix_grafana_unit_conversions.py:46-71 | The scan returns the end of the call, its arguments and the first of them, or that the parentheses never balance. |
| SqlCalls.TransformSql | scripts/fix_grafana_unit_conversions.py:74-110 | The loop over the matches writes the specified text, crossed slices included, and counts renamed, stripped and untouched calls. |
| SqlNames.MatchIff | scripts/fix_grafana_unit_conversions.py:41-43 | A call is found exactly where one of the twenty names, spelled out, stands with a parenthesis behind it and no letter, digit or underscore before it. |
| SqlNames.TargetSpelled | scripts/fix_grafana_unit_conversions.py:35-39 | The name a call gets, spelled out: _pa, _m and _mps for a raw pressure, distance and speed, and its own name in every other case; and the one argument it keeps. |
| SqlNames.CallRewritten | scripts/fix_grafana_unit_conversions.py:74-110 | A call of such a name, with a balanced first argument and perhaps more behind a comma, is written under that name with the first argument alone, without its trailing blanks. |
| PyStrings.RStripIs | scripts/fix_grafana_unit_conversions.py:90 | Stripping leaves what stands before the white space at the end. |
| SqlRewriting.TransformIsRewrite | scripts/fix_grafana_unit_conversions.py:74-110 | Where no match starts inside the arguments of a closed call, the loop is a single pass that meets every closed call once. |
| SqlRewriting.OutsideVerbatim | scripts/fix_grafana_unit_conversions.py:74-110 | There, everything outside closed calls, unclosed calls included, is copied character for character, and each closed call is replaced by its target. |
| SqlRewriting.TargetFinal | scripts/fix_grafana_unit_conversions.py:87-108 | A rewritten call closes, has one argument, holds no call, and is left alone when met again. |
| SqlFixedPoints.TransformIdempotentIff | scripts/fix_grafana_unit_conversions.py:74-110 | Where calls do not nest, a second run changes nothing if and only if no unclosed call is closed by the rewriting of the calls behind it, and then it finds the same number of calls, none to rename or strip; for any camp-B test that ignores trailing blanks. |
| SqlFixedPoints.FixedIff | scripts/fix_grafana_unit_conversions.py:74-110 | A run leaves a text as it stands if and only if no closed call lies inside another and each is already what it would be rewritten to; on every text. |
| SqlFixedPoints.NestedCopied | scripts/fix_grafana_unit_conversions.py:74-110 | What is written for a call whose whole argument is a call of plain arguments: the outer call rewritten, the inner one rewritten behind it, and a stray parenthesis. |
| SqlCounterexample.NotIdempotent | scripts/fix_grafana_unit_conversions.py:74-110 | A text without nested calls on which the second run changes the first result. |
| LinksSpan.FindLinksSpan | scripts/fix_grafana_infra_links.py:86-128 | The scanning loop returns what its specification does: from the first links key to where the next bracket behind it is balanced, strings and escapes respected, or nothing. |
| LinksJson.SpanIsValueIff | scripts/fix_grafana_infra_links.py:86-128 | The span found is the first links key with its own JSON value if and only if that value is an array, whatever it and the text around it hold. |
| LinksJson.ReplacementIff | scripts/fix_grafana_infra_links.py:133-176 | What is written is the file with that value replaced by the block and every other character kept, up to a final newline, if and only if the value is an array. |
| LinksDocument.DashboardIff | scripts/fix_grafana_infra_links.py:86-176 | In every JSON text that holds the line the search looks for, the first such place is a links key with a JSON value behind it, and it is found with that value, and the rest of the file kept, if and only if the value is an array. |
| LinksInsert.InsertedIff | scripts/fix_grafana_infra_links.py:149-176 | A dashboard without the key is extended if and only if it has a member and only newlines behind its brace, and is then written as the same JSON object with one member more at its end: those links. |
| LinksJson.NextArrayTaken | scripts/fix_grafana_infra_links.py:106-128 | When the value holds no bracket, everything from the links key to the end of the next array is replaced. |
| LinksJson.PanelsLost | scripts/fix_grafana_infra_links.py:133-176 | A dashboard with null links, whose panels the run deletes. |
| LinksSpan.RunDump | scripts/fix_grafana_infra_links.py:33-80 | Whatever a title holds, brackets and quotes included, its dumped form stays inside its string. |
| LinksBlock.DumpDecodes | scripts/fix_grafana_infra_links.py:51 | A dumped title, unescaped by section 7 of RFC 8259, is the title. |
| LinksBlock.BlockMeans | scripts/fix_grafana_infra_links.py:33-80 | Read as JSON, the block is the links key with three objects: the link to the previous dashboard with its address, its title as tooltip and the Prev caption, the TeslaSync menu, and the same for the next dashboard; every member of each is given. |
| LinksSpan.BlockFound | scripts/fix_grafana_infra_links.py:86-128 | A rendered block behind text without such a key is found exactly, whatever follows it, despite nested arrays and brackets in titles; uids free of quotes, backslashes and control characters. |
| LinksSpan.ThreadFile | scripts/fix_grafana_infra_links.py:133-176 | One file: the replaced or extended text with a final newline, or a refusal; no carriage return is written. |
| LinksSpan.UniversalIs | scripts/fix_grafana_infra_links.py:135 | Reading a file turns a carriage return, alone or with a newline behind it, into one newline. |
| LinksSecondRun.BlockFoundIff | scripts/fix_grafana_infra_links.py:133-176 | After a run the search finds exactly the block just written if and only if an array was found before or there was no links key. |
| LinksSecondRun.SecondRunIff | scripts/fix_grafana_infra_links.py:133-176 | A second run writes the same text again if and only if an array was found before the first or there was no links key. |
| LinksSecondRun.SecondFileIff | scripts/fix_grafana_infra_links.py:133-176 | The same for the files as read and written. |
| LinksSecondRun.NullLinksChangeAgain | scripts/fix_grafana_infra_links.py:133-176 | A dashboard with uid and title whose links are null and behind which there is no array: the second run changes it again. |
| SelectScope.BackIsTop | scripts/migrate_grafana_signal_log.py:150-168 | The backward scan meets the open parentheses of a forward stack parse from the top down, on unbalanced text too. |
| SelectScope.EnclosingScope | scripts/migrate_grafana_signal_log.py:150-183 | The two loops return the body of the topmost open group that starts with SELECT, or the whole text. |
| SelectScope.GroupIsOpen | scripts/migrate_grafana_signal_log.py:170-183 | A group is open before a position in the stack parse if and only if the position lies in the body the forward scan finds. |
| SelectScope.ScopeIsInnermost | scripts/migrate_grafana_signal_log.py:150-183 | The whole text is returned exactly when no subquery is open at the position; otherwise the body of the innermost open one, which holds the position. |
| SelectScope.ScopesAgreeIff | scripts/migrate_grafana_signal_log.py:105-183 | The scope is the one that asking for the whole word, as the alias collector does, would give if and only if the parenthesis the scan stops at is not followed by a longer word. |
| SelectScope.ScopesAlwaysAgreeIff | scripts/migrate_grafana_signal_log.py:105-183 | The two agree at every position of a text if and only if behind no parenthesis the letters begin a longer word. |
| SelectScope.LongerWordMisread | scripts/migrate_grafana_signal_log.py:150-183 | A text with no subquery whose parenthesised part is taken for a scope. |
| ScopeWords.SelectAtIff | scripts/migrate_grafana_signal_log.py:150-168 | The scan stops at a parenthesis exactly when blanks and the letters of SELECT, each in either case, stand behind it. |
| ScopeWords.SelectWordIff | scripts/migrate_grafana_signal_log.py:112-121 | The alias collector takes these for the word unless a letter, digit or underscore goes on with it. |
| ScopeWords.AliasNamed | scripts/migrate_grafana_signal_log.py:122-138 | Behind a closing parenthesis, blanks, AS in either case, blanks and a name give the name as alias, unless it is one of the twenty-four words. |
| ScopeWords.AliasBare | scripts/migrate_grafana_signal_log.py:122-138 | So do blanks and a name alone. |
| SelectScope.CollectDerivedAliases | scripts/migrate_grafana_signal_log.py:105-139 | The loop with its stack of flags collects exactly the aliases behind parentheses that close a subquery. |
| SelectScope.ClosersAreEnds | scripts/migrate_grafana_signal_log.py:105-139 | Those parentheses are exactly the ends of the subqueries that are closed at all. |
| LatLonPairs.PairLatLonRows | cmd/pub-test-signal/main.go:370-418 | The pass over the array returns the specified rows, leaves the array with its paired coordinates blanked, and counts the pairs. |
| LatLonPairs.EachTimestamp | cmd/pub-test-signal/main.go:370-418 | On time-sorted rows, the rows of each timestamp come out with one location row at the head exactly when both coordinates are there and parse, built from the last of each, the coordinates blanked and all else kept in order. |
| LatLonPairs.PairedMeans | cmd/pub-test-signal/main.go:379-414 | Rows with a last latitude and a last longitude that are numbers come out behind a location row of the two at the latitude's time, the coordinates losing their signal and nothing else changing; otherwise they come out as they are. |
| LatLonPairs.UnpairedMeans | cmd/pub-test-signal/main.go:388-414 | So they do when a coordinate is missing. |
| LatLonPairs.OutLength | cmd/pub-test-signal/main.go:370-418 | The output has one row more for every pair. |
| LatLonPairs.OutLater | cmd/pub-test-signal/main.go:370-418 | Time-sorted rows come out time-sorted. |
| LatLonPairs.InPlaceAt | cmd/pub-test-signal/main.go:405-411 | A row handed in changes only if its timestamp is paired and it is a coordinate, and then only in its signal. |
| ErrorTracking.ErrorTracker.Track | internal/api/error_tracker.go:70-106 | Tracking appends to the log; the three maps stay the tallies of the log and the ring its end. |
| ErrorTracking.ErrorTracker.Stats | internal/api/error_tracker.go:109-147 | The snapshot holds the tallies in counters of its own and the last errors, newest first, as many as the ring holds. |
| ErrorTracking.RingAt | internal/api/error_tracker.go:128-137 | Walking back from the write index around the end of the ring gives the newest errors of the log. |
| ErrorTracking.TallyMeans | internal/api/error_tracker.go:77-94 | A bucket is there exactly for the keys that occur, with the number of their errors and the time and message of the last. |
| ErrorTracking.CountsSumToTotal | internal/api/error_tracker.go:76-94 | The counts of each map add up to the total. |
| ErrorTracking.SnapshotStays | internal/api/error_tracker.go:109-147 | A snapshot keeps its counts and its recent errors whatever is tracked afterwards, any number of errors. |
| Redaction.ClearPaths | internal/api/api_call_log_middleware.go:323-344 | Along keys that do not match, every path leads where it led, to the redacted value, and no path appears. |
| Redaction.MatchingKeys | internal/api/api_call_log_middleware.go:323-344 | At every depth, what stands under a matching key is the literal, and nothing is reachable below it. |
| Redaction.RedactedIsDetermined | internal/api/api_call_log_middleware.go:323-344 | The redacted value is the only one that at every path clear of matching keys has the leaf, the array length or the keys of the original, and the literal under every matching key. |
| Redaction.RedactTwice | internal/api/api_call_log_middleware.go:323-344 | Redacting twice is redacting once. |
| Redaction.RedactedTellsNoMore | internal/api/api_call_log_middleware.go:323-344 | Two values redact to the same value if and only if they differ under matching keys alone. |
| Redaction.CappedBuffer.Write | internal/api/api_call_log_middleware.go:357-372 | The buffer holds the first bytes of all that was written, up to its cap, and every write reports full length. |
| Redaction.FlagIff | internal/api/api_call_log_middleware.go:346-372 | The flag is up if and only if the buffer does not hold all that was written or an empty write came upon a full buffer. |
| Redaction.EmptyWriteRaisesFlag | internal/api/api_call_log_middleware.go:346-372 | Two writes that raise the flag though every byte is there. |

## Left out

- CatalogRoundTrip.PrintRoundTripIff: exact decimals stand for the float objective; line numbers are those of the printed layout; scalars that hold a newline, or a `#` outside double quotes, or that begin with a quote but are written plainly, are not printed.
- Catalog.ParseCatalog: numeric escapes of the unquoter, exponents, infinities and underscores of the float parser, the line length limit of the scanner and error texts are not modelled.
- CatalogChecks.ValidateCatalog: the objective is compared exactly, not as a rounded float.
- WorkerPool.FilterVehicles: the library sort is not stable; a stable order stands for it, and only what holds of any sort by id is stated.
- WorkerPool.NeverStuck: the exit code is computed in one step after the last worker has ended; timeouts, tracing and the audit entries of a push are not modelled, and what a push returns is arbitrary.
- Canonicalize.Model.Canonicalize: the library's stable sort is a function here, fixed by being the only stable sort.
- SloRules.RenderRecordingRules: the rules are names, expressions and label values; the YAML text around them and its quoting are left out.
- SloRules.RenderAlerts: thresholds (formatted floats), annotations and the YAML text around names and expressions are left out.
- SqlCalls.TransformSql: the pattern of call names is a lookup over its twenty names, word characters are ASCII, and the camp-B patterns are one predicate.
- LinksSpan.ThreadFile: the ring of neighbours is given; that the file read again yields the same uids and titles is left out.
- SelectScope.ScopeIsInnermost: parentheses are counted as the script counts them, those inside string literals and comments included.
- SelectScope.CollectDerivedAliases: the aliases found by regular expressions (common table expressions and references to them) are left out.
- LatLonPairs.PairLatLonRows: float parsing and marshalling are parameters; timestamps are instants.
- ErrorTracking.ErrorTracker.Stats: uptime, the lock and 64-bit overflow of counters are left out; the clock reading comes in with the error and is not zero.
- Redaction.RedactedTellsNoMore: decoding and encoding of JSON text, the header and query redaction and the nil buffer are left out.
- The rest of the emitter of the proto generator (classification tables, templates, formatting), the dashboards of slogen, the migration's rewrite tables, and all database, MQTT, HTTP and process wiring: library calls, constant data or plumbing that would add only easy members.
