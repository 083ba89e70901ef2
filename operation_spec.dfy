/**
 * The values the comment parser of `parser/operation.go` works on, and the
 * effect of each directive as a function from the operation's state before
 * the line to an `Outcome`: the error the Go method returns (if any) and the
 * operation's state afterwards. The methods of `OperationModel.Operation`
 * are proved to have exactly these effects.
 */
module OperationSpec {
  import opened Wrappers
  import opened GoText
  import opened ParamSyntax

  // ---------------------------------------------------------------------
  // Records (Swagger 1.2 operation, parameter and response message)
  // ---------------------------------------------------------------------

  /** The element reference of an array-typed response: one of the two is set. */
  datatype OperationItems = OperationItems(Ref: string, Type: string)

  datatype Parameter = Parameter(
    Name: string, ParamType: string, Type: string, DataType: string,
    Required: bool, Description: string)

  datatype ResponseMessage = ResponseMessage(Code: int, Message: string, ResponseModel: string)

  /** The four MIME constants of the package; their texts are defined outside this model. */
  datatype ContentType = ContentTypeJson | ContentTypeXml | ContentTypePlain | ContentTypeHtml

  /** A resolved schema; its properties are produced by the model resolver. */
  datatype Model = Model(Id: string, Properties: map<string, string>)

  /** What `model.ParseModel` reports: an error, or the model and the models it refers to. */
  datatype Resolution = ResolveFailed(message: string) | Resolved(model: Model, inner: seq<Model>)

  /**
   * The collaborators of the parser that live outside this file: the
   * package being parsed, model resolution, and the basic-type check.
   */
  datatype Parser = Parser(
    CurrentPackage: string,
    ParseModel: (string, string) -> Resolution,
    IsBasicType: string -> bool)

  datatype Error =
    | CommentIsEmptyError                                // the package's sentinel error
    | ParamCommentError(paramString: string)             // "Can not parse param comment ..."
    | FailureCodeError(code: string, cause: NumError)    // "Failure notation parse error: ..."
    | SuccessCodeError                                   // "Success http code must be int"
    | SuccessModelTypeError                              // "... object type must be specified"
    | ModelError(message: string)                        // passed on from the resolver

  /** The fields of an `Operation` that the parser reads or writes. */
  datatype OpState = OpState(
    HttpMethod: string,
    Nickname: string,
    Type: string,
    Items: OperationItems,
    Summary: string,
    Notes: string,
    Parameters: seq<Parameter>,
    ResponseMessages: seq<ResponseMessage>,
    Consumes: seq<ContentType>,
    Produces: seq<ContentType>,
    Path: string,
    models: seq<Model>)

  /** A freshly made operation: every field at Go's zero value. */
  const EmptyState: OpState :=
    OpState("", "", "", OperationItems("", ""), "", "", [], [], [], [], "", [])

  /** The error a parsing method returns and the state it leaves behind. */
  datatype Outcome = Outcome(err: Option<Error>, state: OpState)

  // ---------------------------------------------------------------------
  // Dispatch
  // ---------------------------------------------------------------------

  const RouterTag: string := "@router"
  const TitleTag: string := "@Title"
  const DescriptionTag: string := "@Description"
  const SuccessTag: string := "@Success"
  const ParamTag: string := "@Param"
  const FailureTag: string := "@Failure"
  const AcceptTag: string := "@Accept"

  datatype Directive = Router | Title | Description | Success | Param | Failure | Accept | Untagged

  /** The prefix cascade, tried in the source's order. */
  function DirectiveOf(line: string): Directive {
    if RouterTag <= line then Router
    else if TitleTag <= line then Title
    else if DescriptionTag <= line then Description
    else if SuccessTag <= line then Success
    else if ParamTag <= line then Param
    else if FailureTag <= line then Failure
    else if AcceptTag <= line then Accept
    else Untagged
  }

  /** A raw comment text with its leading slashes and surrounding whitespace removed. */
  function NormalizeLine(text: string): (line: string)
    ensures Trimmed(line)
  {
    TrimSpace(TrimLeftSlashes(text))
  }

  // ---------------------------------------------------------------------
  // SetItemsType
  // ---------------------------------------------------------------------

  /** The `Items` value `SetItemsType` installs. */
  function ItemsFor(p: Parser, itemsType: string): (items: OperationItems)
    ensures p.IsBasicType(itemsType) ==> items.Type == itemsType && items.Ref == ""
    ensures !p.IsBasicType(itemsType) ==> items.Ref == itemsType && items.Type == ""
  {
    if p.IsBasicType(itemsType) then OperationItems("", itemsType) else OperationItems(itemsType, "")
  }

  // ---------------------------------------------------------------------
  // @router
  // ---------------------------------------------------------------------

  /** The trimmed text after the tag. */
  function RouterElements(line: string): string
    requires |line| >= |RouterTag|
  {
    TrimSpace(line[|RouterTag|..])
  }

  function RouterOutcome(st: OpState, line: string): Outcome
    requires |line| >= |RouterTag|
  {
    var e1 := SplitN(RouterElements(line), ' ', 2);
    var verb :=
      if |e1| == 2 && e1[1] != "" then ToUpper(TrimBrackets(SplitN(e1[1], ' ', 2)[0])) else "GET";
    Outcome(None, st.(Path := e1[0], HttpMethod := verb))
  }

  // ---------------------------------------------------------------------
  // @Param
  // ---------------------------------------------------------------------

  function ParamString(line: string): string
    requires |line| >= |ParamTag| + 1
  {
    TrimSpace(line[|ParamTag| + 1..])
  }

  function ParameterOf(m: ParamMatch): Parameter {
    Parameter(m.name, m.paramType, m.dataType, m.dataType, ToLower(m.required) == "true", m.description)
  }

  function ParamOutcome(st: OpState, line: string): Outcome
    requires |line| >= |ParamTag| + 1
  {
    match FindParam(ParamString(line))
    case None => Outcome(Some(ParamCommentError(ParamString(line))), st)
    case Some(m) => Outcome(None, st.(Parameters := st.Parameters + [ParameterOf(m)]))
  }

  // ---------------------------------------------------------------------
  // @Accept
  // ---------------------------------------------------------------------

  function AcceptTokens(line: string): seq<string>
    requires |line| >= |AcceptTag|
  {
    Split(TrimSpace(TrimSpace(line[|AcceptTag|..])), ',')
  }

  /** The MIME constant an @Accept token stands for; the match is exact and case-sensitive. */
  function ContentTypeOf(token: string): Option<ContentType> {
    if token == "json" then Some(ContentTypeJson)
    else if token == "xml" then Some(ContentTypeXml)
    else if token == "plain" then Some(ContentTypePlain)
    else if token == "html" then Some(ContentTypeHtml)
    else None
  }

  /** The MIME constants of the recognised tokens, in token order. */
  function ContentTypes(tokens: seq<string>): seq<ContentType>
    decreases |tokens|
  {
    if tokens == [] then []
    else
      ContentTypes(tokens[..|tokens| - 1]) + Recognised(tokens[|tokens| - 1])
  }

  /** The MIME constant of one token, as a sequence of zero or one elements. */
  function Recognised(token: string): seq<ContentType> {
    match ContentTypeOf(token)
    case Some(t) => [t]
    case None => []
  }

  /** What `Recognised` gives for each branch of the token cascade. */
  lemma RecognisedCases(token: string)
    ensures token == "json" ==> Recognised(token) == [ContentTypeJson]
    ensures token != "json" && token == "xml" ==> Recognised(token) == [ContentTypeXml]
    ensures token != "json" && token != "xml" && token == "plain" ==> Recognised(token) == [ContentTypePlain]
    ensures token != "json" && token != "xml" && token != "plain" && token == "html" ==>
      Recognised(token) == [ContentTypeHtml]
    ensures token != "json" && token != "xml" && token != "plain" && token != "html" ==>
      Recognised(token) == []
  {
  }

  /** `ContentTypes` grows by one token at a time. */
  lemma ContentTypesPrefix(tokens: seq<string>, i: nat)
    requires i < |tokens|
    ensures ContentTypes(tokens[..i + 1]) == ContentTypes(tokens[..i]) + Recognised(tokens[i])
  {
    assert tokens[..i + 1][..i] == tokens[..i];
  }

  function AcceptOutcome(st: OpState, line: string): Outcome
    requires |line| >= |AcceptTag|
  {
    var added := ContentTypes(AcceptTokens(line));
    Outcome(None, st.(Consumes := st.Consumes + added, Produces := st.Produces + added))
  }

  // ---------------------------------------------------------------------
  // @Failure
  // ---------------------------------------------------------------------

  function FailureStatement(line: string): string
    requires |line| >= |FailureTag|
  {
    TrimSpace(line[|FailureTag|..])
  }

  /**
   * The code text (the first run of non-space characters) and the message
   * (the trimmed text after the space that ends that run).
   */
  function FailureFields(statement: string): (string, string) {
    var start := RunEnd(statement, 0, IsSpace);
    var stop := RunEnd(statement, start, IsNonSpace);
    (statement[start..stop], MessageAfter(statement, stop))
  }

  /** The trimmed text after position `stop`, or nothing when `stop` is the end. */
  function MessageAfter(statement: string, stop: nat): string
    requires stop <= |statement|
  {
    if stop < |statement| then TrimSpace(statement[stop + 1..]) else ""
  }

  function FailureOutcome(st: OpState, line: string): Outcome
    requires |line| >= |FailureTag|
  {
    var fields := FailureFields(FailureStatement(line));
    match Atoi(fields.0)
    case Err(e) => Outcome(Some(FailureCodeError(fields.0, e)), st)
    case Ok(code) =>
      Outcome(None, st.(ResponseMessages := st.ResponseMessages + [ResponseMessage(code, fields.1, "")]))
  }

  /** `FailureOutcome` once the code text and the message are known. */
  lemma FailureOutcomeOf(st: OpState, line: string, code: string, message: string)
    requires |line| >= |FailureTag|
    requires (code, message) == FailureFields(FailureStatement(line))
    ensures Atoi(code).Err? ==>
      FailureOutcome(st, line) == Outcome(Some(FailureCodeError(code, Atoi(code).error)), st)
    ensures Atoi(code).Ok? ==>
      FailureOutcome(st, line) == Outcome(None, st.(ResponseMessages :=
        st.ResponseMessages + [ResponseMessage(Atoi(code).value, message, "")]))
  {
  }

  // ---------------------------------------------------------------------
  // @Success
  // ---------------------------------------------------------------------

  /** The parts that are not empty, in order. */
  function NonEmpty(parts: seq<string>): (r: seq<string>)
    ensures forall i :: 0 <= i < |r| ==> r[i] != []
    decreases |parts|
  {
    if parts == [] then []
    else
      var last := parts[|parts| - 1];
      NonEmpty(parts[..|parts| - 1]) + (if last != [] then [last] else [])
  }

  /** The space-separated tokens after the tag. */
  function SuccessParts(line: string): seq<string>
    requires |line| >= |SuccessTag|
  {
    NonEmpty(Split(TrimSpace(line[|SuccessTag|..]), ' '))
  }

  predicate IsModelKind(token: string) {
    token == "{object}" || token == "{array}"
  }

  /**
   * The lines on which the Go method indexes past the end of its parts and
   * panics: no token at all, an integer code with nothing after it, or a
   * plain (non-model) response with no third token.
   */
  predicate SuccessPanics(line: string)
    requires |line| >= |SuccessTag|
  {
    var parts := SuccessParts(line);
    || |parts| == 0
    || (Atoi(parts[0]).Ok? && (|parts| == 1 || (!IsModelKind(parts[1]) && |parts| == 2)))
  }

  function SuccessOutcome(p: Parser, st: OpState, line: string): Outcome
    requires |line| >= |SuccessTag| && !SuccessPanics(line)
  {
    var parts := SuccessParts(line);
    match Atoi(parts[0])
    case Err(_) => Outcome(Some(SuccessCodeError), st)
    case Ok(code) =>
      if IsModelKind(parts[1]) then
        if |parts| < 3 then Outcome(Some(SuccessModelTypeError), st)
        else
          match p.ParseModel(parts[2], p.CurrentPackage)
          case ResolveFailed(message) => Outcome(Some(ModelError(message)), st)
          case Resolved(model, inner) =>
            var typed :=
              if parts[1] == "{array}" then st.(Items := ItemsFor(p, model.Id), Type := "array")
              else st.(Type := model.Id);
            Outcome(None, typed.(
              models := st.models + [model] + inner,
              ResponseMessages := st.ResponseMessages + [ResponseMessage(code, "", model.Id)]))
      else
        Outcome(None, st.(ResponseMessages := st.ResponseMessages + [ResponseMessage(code, parts[2], "")]))
  }

  // ---------------------------------------------------------------------
  // One comment line, and the comment group
  // ---------------------------------------------------------------------

  /** The normalised lines on which the Go code panics instead of returning. */
  predicate Panics(line: string) {
    match DirectiveOf(line)
    case Success => SuccessPanics(line)
    case Param => |line| < |ParamTag| + 1
    case _ => false
  }

  /** `@Title`: the trimmed rest of the line becomes the nickname. */
  function TitleOutcome(st: OpState, line: string): (r: Outcome)
    requires |line| >= |TitleTag|
    ensures r.err.None? && r.state == st.(Nickname := r.state.Nickname)
    ensures Trimmed(r.state.Nickname) && |r.state.Nickname| <= |line| - |TitleTag|
  {
    Outcome(None, st.(Nickname := TrimSpace(line[|TitleTag|..])))
  }

  /** `@Description`: the trimmed rest of the line becomes the summary. */
  function DescriptionOutcome(st: OpState, line: string): (r: Outcome)
    requires |line| >= |DescriptionTag|
    ensures r.err.None? && r.state == st.(Summary := r.state.Summary)
    ensures Trimmed(r.state.Summary) && |r.state.Summary| <= |line| - |DescriptionTag|
  {
    Outcome(None, st.(Summary := TrimSpace(line[|DescriptionTag|..])))
  }

  /** The effect of one normalised comment line. */
  function Step(p: Parser, st: OpState, line: string): Outcome
    requires !Panics(line)
  {
    match DirectiveOf(line)
    case Router => RouterOutcome(st, line)
    case Title => TitleOutcome(st, line)
    case Description => DescriptionOutcome(st, line)
    case Success => SuccessOutcome(p, st, line)
    case Param => ParamOutcome(st, line)
    case Failure => FailureOutcome(st, line)
    case Accept => AcceptOutcome(st, line)
    case Untagged => Outcome(None, st)
  }

  /** No line that the walk reaches panics (lines after the first error are never reached). */
  predicate NoPanic(p: Parser, st: OpState, texts: seq<string>)
    decreases |texts|
  {
    texts == [] ||
      var line := NormalizeLine(texts[0]);
      !Panics(line) &&
        var o := Step(p, st, line);
        o.err.Some? || NoPanic(p, o.state, texts[1..])
  }

  /** The walk over the comment lines: stop at the first error. */
  function Run(p: Parser, st: OpState, texts: seq<string>): Outcome
    requires NoPanic(p, st, texts)
    decreases |texts|
  {
    if texts == [] then Outcome(None, st)
    else
      var o := Step(p, st, NormalizeLine(texts[0]));
      if o.err.Some? then o else Run(p, o.state, texts[1..])
  }

  /** `ParseComment`: absent comments and a missing path are both `CommentIsEmptyError`. */
  function ParseCommentOutcome(p: Parser, st: OpState, group: Option<seq<string>>): Outcome
    requires group.Some? ==> NoPanic(p, st, group.value)
  {
    match group
    case None => Outcome(Some(CommentIsEmptyError), st)
    case Some(texts) =>
      var o := Run(p, st, texts);
      if o.err.Some? then o
      else if o.state.Path == "" then Outcome(Some(CommentIsEmptyError), o.state)
      else o
  }

  /** One step of the walk: the first line decides whether the walk goes on. */
  lemma RunCons(p: Parser, st: OpState, texts: seq<string>)
    requires texts != [] && NoPanic(p, st, texts)
    ensures !Panics(NormalizeLine(texts[0]))
    ensures var o := Step(p, st, NormalizeLine(texts[0]));
      (o.err.None? ==> NoPanic(p, o.state, texts[1..])) &&
      Run(p, st, texts) == if o.err.Some? then o else Run(p, o.state, texts[1..])
  {
  }

  /** `Step` for each branch of the directive cascade. */
  lemma StepOf(p: Parser, st: OpState, line: string)
    requires !Panics(line)
    ensures DirectiveOf(line) == Router ==> |line| >= |RouterTag| && Step(p, st, line) == RouterOutcome(st, line)
    ensures DirectiveOf(line) == Title ==> |line| >= |TitleTag| && Step(p, st, line) == TitleOutcome(st, line)
    ensures DirectiveOf(line) == Description ==>
      |line| >= |DescriptionTag| && Step(p, st, line) == DescriptionOutcome(st, line)
    ensures DirectiveOf(line) == Success ==>
      |line| >= |SuccessTag| && !SuccessPanics(line) && Step(p, st, line) == SuccessOutcome(p, st, line)
    ensures DirectiveOf(line) == Param ==> |line| >= |ParamTag| + 1 && Step(p, st, line) == ParamOutcome(st, line)
    ensures DirectiveOf(line) == Failure ==> |line| >= |FailureTag| && Step(p, st, line) == FailureOutcome(st, line)
    ensures DirectiveOf(line) == Accept ==> |line| >= |AcceptTag| && Step(p, st, line) == AcceptOutcome(st, line)
    ensures DirectiveOf(line) == Untagged ==> Step(p, st, line) == Outcome(None, st)
  {
    match DirectiveOf(line)
    case Router =>
    case Title =>
    case Description =>
    case Success =>
    case Param =>
    case Failure =>
    case Accept =>
    case Untagged =>
  }

  /** A step without error moves the walk on to the next line. */
  lemma RunAdvance(p: Parser, st: OpState, texts: seq<string>, next: OpState)
    requires texts != [] && NoPanic(p, st, texts)
    requires !Panics(NormalizeLine(texts[0])) && Step(p, st, NormalizeLine(texts[0])) == Outcome(None, next)
    ensures NoPanic(p, next, texts[1..])
    ensures Run(p, st, texts) == Run(p, next, texts[1..])
  {
  }
}
