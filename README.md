# Operation comment parser of the Go swagger generator

This project models `parser/operation.go`, the part of the generator that
turns the comment block above one HTTP handler into a Swagger 1.2 operation
record. `ParseComment` walks the comment lines in order. It strips leading
`/` characters and the surrounding white space from each line. It then
dispatches on the first tag the line starts with (`@router`, `@Title`,
`@Description`, `@Success`, `@Param`, `@Failure`, `@Accept`, tried in that
order). The first directive that fails ends the walk with its error. An
operation that ends the walk without a path is rejected with
`CommentIsEmptyError`.

The model is in six modules:

- `Wrappers`: `Option` and `Result`.
- `GoText`: the parts of Go's `strings`, `strconv` and `unicode` packages
  that the parser calls. These are `TrimSpace`, `TrimLeft(s, "//")`,
  `Trim(s, "[]")`, `Split`, `SplitN`, `ToUpper`, `ToLower`, `Atoi` and
  `IsSpace`, each with the lemmas the parser's properties need. It also
  holds `Itoa`, which the parser does not call: it is the inverse of `Atoi`
  that the round-trip lemmas use to write their lines.
- `ParamSyntax`: the `@Param` regular expression. It is written as a
  deterministic run-by-run matcher (`MatchPrefix`) plus the unanchored
  leftmost search of `FindStringSubmatch` (`FindParam`). It is proved equal
  to the declarative grammar: four words separated by white space, more
  white space, then a quoted non-empty description.
- `OperationSpec`: the records and the effect of each directive, as a
  function from the operation's state before a line to an `Outcome`. The
  `Outcome` holds the returned error and the state afterwards. It also
  holds the walk over the lines (`Run`) and the path gate
  (`ParseCommentOutcome`).
- `OperationModel`: the class `Operation`. Its fields are those of the Go
  struct that the parser touches. Its methods change them in place, with
  the same branches and loops as the Go methods. Each method is proved to
  return the error and leave the state that its `OperationSpec` function
  describes.
- `OperationProperties`: what the parser promises, proved over those
  functions. This covers the path gate, fail-fast dispatch, lists that only
  grow, and each directive's effect, including the line forms each directive
  is written in and their round trips.

Model resolution (`ParseModel`), the package name and the basic-type check
live outside this file. They are the fields of the `Parser` value, an
uninterpreted oracle. The four MIME constants are four distinct constructors
of `ContentType`.

## Model

| member | source | states |
|---|---|---|
| OperationModel.Operation.constructor | parser/operation.go:36-42 | `NewOperation`: every field holds its zero value (empty texts, empty lists), and the parser and package name are the arguments |
| OperationModel.Operation.SetItemsType | parser/operation.go:44-51 | `Items` is replaced wholesale by `ItemsFor(parser, itemsType)`, and no other field changes |
| OperationSpec.ItemsFor | parser/operation.go:44-51 | a basic type gives `Type = itemsType` with `Ref` empty; any other type gives `Ref = itemsType` with `Type` empty |
| OperationModel.Operation.ParseComment | parser/operation.go:53-91 | returns exactly the error and leaves exactly the state of `ParseCommentOutcome`: absent group is an error, the walk stops at the first failing line, then the path gate |
| OperationModel.Operation.ParseCommentLine | parser/operation.go:57-82 | one normalised line goes through the prefix cascade in the source's order, with exactly the effect `Step` gives it |
| OperationSpec.NormalizeLine | parser/operation.go:57 | the normalised line has no white space at either end |
| OperationProperties.PathGate | parser/operation.go:53-91 | an absent group is `CommentIsEmptyError` with nothing changed; after a walk without error the result is nil exactly when `Path != ""`; a nil result always has a non-empty `Path`, and one that started without a path passed a `@router` line |
| OperationProperties.RunPathFromRouter | parser/operation.go:53-91 | a walk that changes `Path` contains a `@router` line |
| OperationProperties.RunKeepsPath | parser/operation.go:55-83 | a walk with no `@router` line leaves `Path` as it was |
| OperationProperties.StepKeepsPath | parser/operation.go:62-82 | every directive other than `@router` leaves `Path` as it was |
| OperationProperties.UntaggedRejected | parser/operation.go:53-91 | a group of lines that start with none of the tags leaves a fresh operation unchanged and is rejected with `CommentIsEmptyError` |
| OperationProperties.FirstErrorStops | parser/operation.go:55-83 | after lines without error, a failing line ends the walk with its own error and state, whatever lines follow |
| OperationProperties.RunAppend | parser/operation.go:55-83 | walking two groups of lines in turn is walking their concatenation; an error in the first group ends it |
| OperationProperties.NoPanicAppend | parser/operation.go:55-83 | two groups that are each safe to walk in turn are safe to walk as one |
| OperationProperties.RunUntagged | parser/operation.go:55-83 | lines with none of the seven tags leave the operation unchanged and return nil |
| OperationProperties.StepExtends | parser/operation.go:55-83 | no line removes or reorders anything in `Parameters`, `ResponseMessages`, `Consumes`, `Produces` or `models`, and `Consumes` and `Produces` grow by the same elements |
| OperationProperties.RunExtends | parser/operation.go:55-83 | the same holds for a whole walk, including one that fails |
| OperationProperties.ExtendsTrans | parser/operation.go:55-83 | growing lists compose across consecutive lines |
| OperationProperties.ParamExtends | parser/operation.go:97-117 | `@Param` never removes or reorders an entry of the lists, and of all the fields it may change only `Parameters`: every other field is left as it was |
| OperationProperties.FailureExtends | parser/operation.go:159-165 | `@Failure` never removes or reorders an entry of the lists, and of all the fields it may change only `ResponseMessages`: every other field is left as it was |
| OperationProperties.SuccessExtends | parser/operation.go:198-229 | `@Success` never removes or reorders an entry of the lists, and of all the fields it may change only `Type`, `Items`, `ResponseMessages` and `models`: every other field, `Parameters`, `Consumes`, `Produces` and `Path` among them, is left as it was |
| OperationSpec.TitleOutcome | parser/operation.go:62-63 | `@Title` never fails and changes only `Nickname`, to a trimmed text no longer than the rest of the line |
| OperationSpec.DescriptionOutcome | parser/operation.go:64-65 | `@Description` never fails and changes only `Summary`, to a trimmed text no longer than the rest of the line |
| OperationProperties.TitleLine | parser/operation.go:62-63 | `@Title`, any white space and a trimmed text set `Nickname` to exactly that text and change nothing else |
| OperationProperties.DescriptionLine | parser/operation.go:64-65 | `@Description`, any white space and a trimmed text set `Summary` to exactly that text and change nothing else |
| OperationModel.Operation.ParseParamComment | parser/operation.go:97-118 | returns exactly the error and leaves exactly the state of `ParamOutcome` |
| OperationProperties.ParamEffect | parser/operation.go:97-118 | an error happens exactly when the expression matches at no position of the parameter text, and then nothing changes |
| OperationProperties.ParamFound | parser/operation.go:103-114 | on success exactly one parameter is appended, built from a spelling of the expression inside the parameter text |
| OperationProperties.ParamLine | parser/operation.go:94-118 | a line laid out as in the comment above `ParseParamComment`, with any one character after the tag (a space, or the tab that comment has), appends the parameter with name, parameter kind, the data type as both `Type` and `DataType`, `Required` from the lowercased fourth word, and the quoted description |
| OperationProperties.ParamStringOf | parser/operation.go:99 | the parameter text of such a line is the spelling itself |
| OperationProperties.SpellTrimmed | parser/operation.go:99 | a spelling with a trimmed tail has no white space at either end |
| OperationProperties.FindParamSpelled | parser/operation.go:101-103 | a match found is spelled out at some position of the text |
| OperationProperties.ParamRequiredAnyCase | parser/operation.go:111 | `true`, `True` and `TRUE` all make the parameter required |
| ParamSyntax.LeftmostMatch | parser/operation.go:101-103 | the first position at or after `i` where the expression matches, and no match before it; none when it matches nowhere |
| ParamSyntax.FindParamLeftmost | parser/operation.go:101-103 | a match is found exactly when the expression matches at some position, and the one found is the leftmost |
| ParamSyntax.FindParamOf | parser/operation.go:101-103 | a spelling preceded by text at which the expression matches nowhere is found, with its own groups |
| ParamSyntax.MatchPrefixComplete | parser/operation.go:101 | every spelling of the expression is recognised at its start, with its own five groups |
| ParamSyntax.MatchPrefixSound | parser/operation.go:101 | everything recognised is a spelling of the expression with the groups reported |
| ParamSyntax.TakeRun | parser/operation.go:101 | one `[\w]+` or `[\s]+` run split off the text: the text is the run followed by the rest, and the rest does not start with another character of that class |
| OperationModel.Operation.ParseAcceptComment | parser/operation.go:120-139 | never fails, and leaves exactly the state of `AcceptOutcome` |
| OperationModel.Operation.AddContentTypes | parser/operation.go:122-137 | both `Consumes` and `Produces` grow by `ContentTypes(accepts)`, and nothing else changes |
| OperationProperties.ContentTypesAppend | parser/operation.go:122-137 | the constants of two groups of tokens are those of each group, in order |
| OperationProperties.ContentTypesMember | parser/operation.go:122-137 | a constant is added exactly when some token spells it |
| OperationProperties.ContentTypesInOrder | parser/operation.go:122-137 | when every token is recognised there is one constant per token, repeats included, in token order |
| OperationProperties.ContentTypesAtMost | parser/operation.go:122-137 | at most one constant per token |
| OperationProperties.AcceptTokensOf | parser/operation.go:121 | after `@Accept` and a space, the tokens of a trimmed comma-joined list are exactly its comma-free pieces, untrimmed |
| OperationProperties.AcceptTokensCut | parser/operation.go:121 | after the tag and a space, a trimmed list is split as it stands |
| OperationProperties.TrimTwice | parser/operation.go:121 | trimming twice a trimmed text after one space gives the text |
| OperationProperties.AcceptLine | parser/operation.go:120-139 | such a line appends the constants of its tokens to both lists |
| OperationProperties.AcceptTokensExample | parser/operation.go:122-137 | `json`, ` xml`, `JSON`, `html`, `json` give JSON, HTML, JSON: no trimming, no case folding, no deduplication |
| OperationModel.Operation.ParseFailureComment | parser/operation.go:140-166 | returns exactly the error and leaves exactly the state of `FailureOutcome` |
| OperationModel.ScanFailureStatement | parser/operation.go:144-157 | the rune loop yields the first run of non-space characters as the code and the trimmed text after the following space as the message |
| OperationProperties.FailureFieldsOf | parser/operation.go:144-157 | `<code> <message>` gives that code and message, and a lone code gives an empty message |
| OperationProperties.FailureStatementOf | parser/operation.go:142 | the statement after the tag is the code and the message as written |
| OperationProperties.FailureRoundTrip | parser/operation.go:140-166 | a line written from a 64-bit code and a trimmed message appends exactly the response with that code and that message |
| OperationProperties.FailureNotInteger | parser/operation.go:159-160 | a code text that is not a decimal is an error and nothing is recorded; its cause is a range error when the leading digits overflow 64 unsigned bits, and a syntax error otherwise |
| OperationProperties.FailureEmpty | parser/operation.go:142-160 | `@Failure` with nothing after it fails on the empty code |
| OperationModel.Operation.ParseRouterComment | parser/operation.go:168-182 | never fails, and leaves exactly the state of `RouterOutcome` |
| OperationProperties.RouterEffect | parser/operation.go:168-182 | never an error; only `Path` and `HttpMethod` change; `Path` is the text before the first space; with no space the method is `GET`, otherwise it is the next space-delimited token without brackets, upper-cased |
| OperationProperties.BeforeSpace | parser/operation.go:170-174 | the text before the first space: a prefix with no space in it that ends at the first space, or is the whole text when there is none |
| OperationProperties.RouterSplit | parser/operation.go:169-177 | elements `<path> <rest>` give that path and the method from the first token of the rest |
| OperationProperties.RouterElementsOf | parser/operation.go:169 | after the tag and a space, trimmed elements are taken as they stand |
| OperationProperties.SpaceCutIndex | parser/operation.go:170 | in a space-free word followed by a space and a remainder, the first space is the one after the word |
| OperationProperties.Bracketed | parser/operation.go:176-177 | a bracketed space-free verb is one token, and the brackets come off |
| OperationProperties.EmptyToken | parser/operation.go:175-177 | a remainder that starts with a space has an empty first token |
| OperationProperties.RouterLine | parser/operation.go:168-182 | `@router <path> [<verb>]` sets exactly that path and the upper-cased verb |
| OperationProperties.RouterBareVerb | parser/operation.go:168-182 | `@router <path> <verb>` without brackets also sets that path and the upper-cased verb |
| OperationProperties.RouterExample | parser/operation.go:168-182 | `@router /pets/{id} [post]` gives path `/pets/{id}` and method `POST` |
| OperationProperties.RouterTwoSpaces | parser/operation.go:170-177 | with two spaces after the path, the method is the empty token between them, whatever follows |
| OperationProperties.RouterEmpty | parser/operation.go:169-180 | an empty `@router` sets an empty path and `GET`, without an error |
| OperationProperties.NormalizeRouterComment | parser/operation.go:57-58 | `// @router` normalises to the bare tag |
| OperationProperties.RouterEmptyRejected | parser/operation.go:53-91 | an empty `@router` as the only line is not a directive error, and the path gate rejects the operation |
| OperationModel.Operation.ParseSuccessComment | parser/operation.go:185-230 | returns exactly the error and leaves exactly the state of `SuccessOutcome` |
| OperationModel.DropEmpty | parser/operation.go:189-195 | the filter loop keeps exactly the non-empty parts, in order |
| OperationSpec.NonEmpty | parser/operation.go:189-195 | no kept part is empty |
| OperationProperties.NonEmptyAppend | parser/operation.go:189-195 | filtering two groups is filtering each, in order |
| OperationProperties.NonEmptyKeeps | parser/operation.go:189-195 | parts that are all non-empty are kept as they are |
| OperationProperties.NonEmptyDrops | parser/operation.go:188-195 | an empty part, as two adjacent spaces produce, disappears |
| OperationProperties.SuccessPartsOf | parser/operation.go:186-195 | after `@Success` and a space, the tokens of space-joined parts are the non-empty parts, so a run of spaces counts as one separator |
| OperationProperties.SuccessPartsCut | parser/operation.go:186-188 | after the tag and a space, a trimmed text is split as it stands |
| OperationProperties.SuccessThreeTokens | parser/operation.go:186-195 | three words separated by single spaces are the three tokens |
| OperationProperties.SuccessErrors | parser/operation.go:197-211 | a non-integer code, a model kind without a type, and a resolver error are the only errors, each with its own error value, and none changes the operation |
| OperationProperties.SuccessModel | parser/operation.go:204-223 | `{object}`/`{array}` with a resolved type appends one response with the code and the model's id, appends the model then its inner models, sets `Type` to the id (object) or to `array` with `Items` from `SetItemsType` (array), and changes nothing else |
| OperationProperties.SuccessPlain | parser/operation.go:224-228 | any other second token appends one response whose message is the third token alone |
| OperationProperties.SuccessModelLine | parser/operation.go:184-230 | the line form of the comment above `ParseSuccessComment`, `@Success <code> {object} <type>`, or `{array}`, for a 64-bit code and a resolvable type: no error, the response, the models and the type as above |
| OperationProperties.SuccessPlainLine | parser/operation.go:185-230 | `@Success <code> <word> <message>` appends exactly the response with that code and message |
| GoText.TrimSpace | parser/operation.go:57 | `strings.TrimSpace`: the result has no white space at either end and is no longer than the text |
| GoText.TrimSpaceOf | parser/operation.go:57 | trimming removes exactly the surrounding white space and keeps a trimmed core whole |
| GoText.TrimSpaceShape | parser/operation.go:57 | every text is white space, its trimmed core and white space |
| GoText.TrimSpaceIdempotent | parser/operation.go:121 | trimming twice is trimming once |
| GoText.TrimLeftSlashes | parser/operation.go:57 | `strings.TrimLeft(s, "//")` drops the leading slashes and nothing else |
| GoText.TrimBrackets | parser/operation.go:177 | `strings.Trim(s, "[]")`: the result neither starts nor ends with a bracket |
| GoText.TrimBracketsOf | parser/operation.go:177 | the brackets come off a bracketed word that has none at its ends |
| GoText.TrimBracketsShape | parser/operation.go:177 | every text is a run of brackets, the trimmed text and another run of brackets: only the bracket runs at the two ends are removed |
| GoText.TrimBracketsKeeps | parser/operation.go:177 | a text with no bracket at either end is left as it is |
| GoText.Split | parser/operation.go:121 | `strings.Split` with a one-character separator yields at least one piece |
| GoText.SplitJoinBack | parser/operation.go:121 | the pieces join back to the text |
| GoText.SplitSeparators | parser/operation.go:121 | no piece contains the separator |
| GoText.SplitJoin | parser/operation.go:188 | splitting undoes joining separator-free pieces |
| GoText.SplitN | parser/operation.go:170-173 | `strings.SplitN(s, " ", n)` yields between one and `n` pieces, so `len(e1) < 1` cannot happen |
| GoText.SplitNJoin | parser/operation.go:170 | the pieces join back to the text |
| GoText.SplitNSeparators | parser/operation.go:170 | only the last piece can contain the separator, and only when the piece budget is used up |
| GoText.SplitInTwo | parser/operation.go:170-176 | with `n == 2` the text is cut at its first space, if any |
| GoText.IndexOf | parser/operation.go:170 | the position of the first separator, or the length |
| GoText.IndexOfFirst | parser/operation.go:170 | no separator comes before that position |
| GoText.ToUpper | parser/operation.go:177 | `strings.ToUpper`: the same length, each ASCII letter upper-cased |
| GoText.ToLower | parser/operation.go:111 | `strings.ToLower`: the same length, each ASCII letter lower-cased |
| GoText.Atoi | parser/operation.go:159 | `strconv.Atoi`: a value exactly for an optional sign and decimal digits within 64 signed bits; a range error exactly when the leading digits overflow 64 unsigned bits or a decimal lies outside 64 signed bits; a syntax error exactly for every other text that is not decimal |
| GoText.AtoiShort | parser/operation.go:159 | on a text of fewer than 19 characters, Go's fast path, an error happens exactly when the text is not decimal, and it is always a syntax error |
| GoText.AtoiOverflowFirst | parser/operation.go:159 | digits that overflow 64 unsigned bits give a range error even when other characters follow them |
| GoText.AtoiJunk | parser/operation.go:159 | digits that fit in 64 unsigned bits, followed by a character that is neither a digit nor a sign, give a syntax error |
| GoText.LeadingDigits | parser/operation.go:159 | the longest run of digits at the start of a text: a prefix, all digits, followed by a non-digit or the end |
| GoText.Itoa | parser/operation.go:159 | `strconv.Itoa`, which the parser does not call, is the inverse of the `strconv.Atoi` call, used only to write the lines of `FailureRoundTrip`, `SuccessModelLine` and `SuccessPlainLine`; it gives a non-empty text without white space |
| GoText.AtoiItoa | parser/operation.go:159 | reading back a printed 64-bit integer gives the integer |

Lemmas that only unfold a definition one step, used inside the proofs above and with no row of their own: `OperationSpec.StepOf`, `OperationSpec.RunCons`, `OperationSpec.RunAdvance`, `OperationSpec.RecognisedCases`, `OperationSpec.ContentTypesPrefix`, `OperationProperties.ContentTypesSnoc` and `OperationSpec.FailureOutcomeOf`.

## Left out

- `Authorizations` and `Protocols` are never touched by the parser, so the state leaves them out. `Notes` is kept, always empty.
- The JSON struct tags and `omitempty` encoding belong to `encoding/json`, not to the parser.
- The `go/ast` comment group becomes `Option<seq<string>>`: `None` stands for a nil group or a nil list, and each element is one comment's text.
- Go's regular-expression engine is not modelled in general. Only the one `@Param` expression is modelled, as a deterministic matcher proved equal to its grammar.
- `NewModel`, `ParseModel`, `IsBasicType` and `CurrentPackage` are defined in files that are not part of this model. They are the fields of the uninterpreted `Parser` oracle, and `ParseModel` returns either an error message or a model with its inner models.
- The texts of the four MIME constants are defined outside this file. They are four distinct constructors of `ContentType`.
- Slicing is by character, not by byte. Go's `commentLine[len("@Param "):]` and the rune loop of `ParseFailureComment` index UTF-8 bytes, so text with multi-byte characters is not modelled byte for byte.
- GoText.ToUpper: only ASCII letters change case. Go's `strings.ToUpper` also maps other Unicode letters.
- GoText.ToLower: only ASCII letters change case, for the same reason.
- GoText.Atoi: Go's `int` is taken to be 64 bits wide.
- The Go code panics on some inputs instead of returning an error. These are preconditions of the model, not error results: a `@Param` line shorter than seven characters, and a `@Success` line with no token, one whose only token is an integer code, or one with exactly two tokens where the first is an integer code and the second is neither `{object}` nor `{array}` (`SuccessPanics`). When the first token is not an integer, `Atoi`'s error is returned before any further token is read. `ParseComment` requires only that the lines it reaches before the first error do not panic (`NoPanic`).
- The `len(e1) < 1` error of `ParseRouterComment` is not a branch of the model. `SplitN`'s contract shows it cannot be reached.
- An empty `@router` is not rejected by `ParseRouterComment`: it sets `Path` to "" and `HttpMethod` to `GET` without an error, and only the final path check refuses the operation (`RouterEmpty`, `RouterEmptyRejected`).
- The loop bodies of the Go methods are factored into helpers so that each proof stays small. These are `ParseCommentLine` (one pass of the dispatch loop), `AddContentTypes` (the `@Accept` token loop), `ScanFailureStatement` (the `@Failure` rune loop) and `DropEmpty` (the `@Success` filter loop). Each helper keeps the source's branches in its own order.
- `generator.go` and `example/web/main.go` do flag parsing, file I/O, JSON output and server start-up. They are not part of this model.
