/**
 * The `Operation` record of `parser/operation.go` and its parsing methods.
 * Each method changes the fields in place, as the Go methods do, and is
 * proved to leave exactly the state (and return exactly the error) that the
 * matching function of `OperationSpec` describes.
 */
module OperationModel {
  import opened Wrappers
  import opened GoText
  import opened OperationSpec

  class Operation {
    var HttpMethod: string
    var Nickname: string
    var Type: string
    var Items: OperationItems
    var Summary: string
    var Notes: string
    var Parameters: seq<Parameter>
    var ResponseMessages: seq<ResponseMessage>
    var Consumes: seq<ContentType>
    var Produces: seq<ContentType>
    var Path: string
    var models: seq<Model>
    const parser: Parser
    const packageName: string

    /** The fields as one value. */
    function State(): OpState
      reads this
    {
      OpState(HttpMethod, Nickname, Type, Items, Summary, Notes, Parameters,
              ResponseMessages, Consumes, Produces, Path, models)
    }

    /** `NewOperation`: an empty operation bound to a parser and a package. */
    constructor (parser: Parser, packageName: string)
      ensures State() == EmptyState
      ensures this.parser == parser && this.packageName == packageName
    {
      HttpMethod, Nickname, Type, Items := "", "", "", OperationItems("", "");
      Summary, Notes, Parameters, ResponseMessages := "", "", [], [];
      Consumes, Produces, Path, models := [], [], "", [];
      this.parser, this.packageName := parser, packageName;
    }

    /** Replaces `Items` with a reference to `itemsType`, by name if basic, by `$ref` otherwise. */
    method SetItemsType(itemsType: string)
      modifies this
      ensures State() == old(State()).(Items := ItemsFor(parser, itemsType))
    {
      Items := OperationItems("", "");
      if parser.IsBasicType(itemsType) {
        Items := Items.(Type := itemsType);
      } else {
        Items := Items.(Ref := itemsType);
      }
    }

    method ParseComment(commentList: Option<seq<string>>) returns (err: Option<Error>)
      requires commentList.Some? ==> NoPanic(parser, State(), commentList.value)
      modifies this
      ensures Outcome(err, State()) == ParseCommentOutcome(parser, old(State()), commentList)
    {
      if commentList.None? {
        return Some(CommentIsEmptyError);
      }
      var texts := commentList.value;
      ghost var walk := Run(parser, old(State()), texts);
      var i := 0;
      while i < |texts|
        invariant 0 <= i <= |texts|
        invariant NoPanic(parser, State(), texts[i..])
        invariant walk == Run(parser, State(), texts[i..])
      {
        ghost var st := State();
        RunCons(parser, st, texts[i..]);
        assert texts[i..][0] == texts[i] && texts[i..][1..] == texts[i + 1..];
        var commentLine := NormalizeLine(texts[i]);
        err := ParseCommentLine(commentLine);
        if err.Some? {
          assert walk == Outcome(err, State());
          return;
        }
        RunAdvance(parser, st, texts[i..], State());
        i := i + 1;
      }
      assert texts[i..] == [];
      assert walk == Outcome(None, State());
      if Path == "" {
        return Some(CommentIsEmptyError);
      }
      return None;
    }

    /**
     * One pass of the loop of `ParseComment`: the first tag the normalised
     * line starts with selects the directive.
     */
    method ParseCommentLine(commentLine: string) returns (err: Option<Error>)
      requires !Panics(commentLine)
      modifies this
      ensures Outcome(err, State()) == Step(parser, old(State()), commentLine)
    {
      ghost var st := State();
      err := None;
      if RouterTag <= commentLine {
        err := ParseRouterComment(commentLine);
        StepOf(parser, st, commentLine);
        assert Outcome(err, State()) == Step(parser, st, commentLine);
      } else if TitleTag <= commentLine {
        Nickname := TrimSpace(commentLine[|TitleTag|..]);
        StepOf(parser, st, commentLine);
        assert Outcome(err, State()) == Step(parser, st, commentLine);
      } else if DescriptionTag <= commentLine {
        Summary := TrimSpace(commentLine[|DescriptionTag|..]);
        StepOf(parser, st, commentLine);
        assert Outcome(err, State()) == Step(parser, st, commentLine);
      } else if SuccessTag <= commentLine {
        err := ParseSuccessComment(commentLine);
        StepOf(parser, st, commentLine);
        assert Outcome(err, State()) == Step(parser, st, commentLine);
      } else if ParamTag <= commentLine {
        err := ParseParamComment(commentLine);
        StepOf(parser, st, commentLine);
        assert Outcome(err, State()) == Step(parser, st, commentLine);
      } else if FailureTag <= commentLine {
        err := ParseFailureComment(commentLine);
        StepOf(parser, st, commentLine);
        assert Outcome(err, State()) == Step(parser, st, commentLine);
      } else if AcceptTag <= commentLine {
        err := ParseAcceptComment(commentLine);
        StepOf(parser, st, commentLine);
        assert Outcome(err, State()) == Step(parser, st, commentLine);
      } else {
        StepOf(parser, st, commentLine);
        assert Outcome(err, State()) == Step(parser, st, commentLine);
      }
    }

    method ParseParamComment(commentLine: string) returns (err: Option<Error>)
      requires |commentLine| >= |ParamTag| + 1
      modifies this
      ensures Outcome(err, State()) == ParamOutcome(old(State()), commentLine)
    {
      var paramString := TrimSpace(commentLine[|ParamTag| + 1..]);
      var matches := ParamSyntax.FindParam(paramString);
      if matches.None? {
        return Some(ParamCommentError(paramString));
      }
      var m := matches.value;
      var swaggerParameter := Parameter(m.name, m.paramType, m.dataType, m.dataType,
                                        ToLower(m.required) == "true", m.description);
      Parameters := Parameters + [swaggerParameter];
      return None;
    }

    method ParseAcceptComment(commentLine: string) returns (err: Option<Error>)
      requires |commentLine| >= |AcceptTag|
      modifies this
      ensures Outcome(err, State()) == AcceptOutcome(old(State()), commentLine)
    {
      var accepts := Split(TrimSpace(TrimSpace(commentLine[|AcceptTag|..])), ',');
      AddContentTypes(accepts);
      return None;
    }

    /**
     * The token loop of `ParseAcceptComment`: every recognised token appends
     * its MIME constant to both `Consumes` and `Produces`.
     */
    method AddContentTypes(accepts: seq<string>)
      modifies this
      ensures State() == old(State()).(Consumes := old(Consumes) + ContentTypes(accepts),
                                       Produces := old(Produces) + ContentTypes(accepts))
    {
      ghost var added: seq<ContentType> := [];
      var i := 0;
      while i < |accepts|
        modifies this`Consumes, this`Produces
        invariant 0 <= i <= |accepts|
        invariant added == ContentTypes(accepts[..i])
        invariant Consumes == old(Consumes) + added && Produces == old(Produces) + added
      {
        ContentTypesPrefix(accepts, i);
        var a := accepts[i];
        RecognisedCases(a);
        ghost var t := Recognised(a);
        ghost var consumes0, produces0 := Consumes, Produces;
        if a == "json" {
          Consumes := Consumes + [ContentTypeJson];
          Produces := Produces + [ContentTypeJson];
          assert Consumes == consumes0 + t && Produces == produces0 + t;
        } else if a == "xml" {
          Consumes := Consumes + [ContentTypeXml];
          Produces := Produces + [ContentTypeXml];
          assert Consumes == consumes0 + t && Produces == produces0 + t;
        } else if a == "plain" {
          Consumes := Consumes + [ContentTypePlain];
          Produces := Produces + [ContentTypePlain];
          assert Consumes == consumes0 + t && Produces == produces0 + t;
        } else if a == "html" {
          Consumes := Consumes + [ContentTypeHtml];
          Produces := Produces + [ContentTypeHtml];
          assert Consumes == consumes0 + t && Produces == produces0 + t;
        } else {
          assert t == [] && consumes0 + t == consumes0 && produces0 + t == produces0;
        }
        AppendAssoc(old(Consumes), added, t);
        AppendAssoc(old(Produces), added, t);
        added := added + t;
        i := i + 1;
      }
      assert accepts[..|accepts|] == accepts;
    }

    method ParseFailureComment(commentLine: string) returns (err: Option<Error>)
      requires |commentLine| >= |FailureTag|
      modifies this
      ensures Outcome(err, State()) == FailureOutcome(old(State()), commentLine)
    {
      var httpCode, message := ScanFailureStatement(TrimSpace(commentLine[|FailureTag|..]));
      FailureOutcomeOf(old(State()), commentLine, httpCode, message);
      var code := Atoi(httpCode);
      if code.Err? {
        return Some(FailureCodeError(httpCode, code.error));
      }
      var response := ResponseMessage(code.value, message, "");
      ResponseMessages := ResponseMessages + [response];
      return None;
    }

    method ParseRouterComment(commentLine: string) returns (err: Option<Error>)
      requires |commentLine| >= |RouterTag|
      modifies this
      ensures err.None?
      ensures Outcome(err, State()) == RouterOutcome(old(State()), commentLine)
    {
      var elements := TrimSpace(commentLine[|RouterTag|..]);
      var e1 := SplitN(elements, ' ', 2);
      Path := e1[0];
      if |e1| == 2 && e1[1] != "" {
        e1 := SplitN(e1[1], ' ', 2);
        HttpMethod := ToUpper(TrimBrackets(e1[0]));
      } else {
        HttpMethod := "GET";
      }
      return None;
    }

    method ParseSuccessComment(commentLine: string) returns (err: Option<Error>)
      requires |commentLine| >= |SuccessTag| && !SuccessPanics(commentLine)
      modifies this
      ensures Outcome(err, State()) == SuccessOutcome(parser, old(State()), commentLine)
    {
      ghost var before := State();
      var sourceString := TrimSpace(commentLine[|SuccessTag|..]);
      var parts := Split(sourceString, ' ');
      parts := DropEmpty(parts);
      assert parts == SuccessParts(commentLine);

      var code := Atoi(parts[0]);
      if code.Err? {
        return Some(SuccessCodeError);
      }
      var response := ResponseMessage(code.value, "", "");
      ghost var expected: OpState;
      if parts[1] == "{object}" || parts[1] == "{array}" {
        if |parts| < 3 {
          return Some(SuccessModelTypeError);
        }
        response := response.(ResponseModel := parts[2]);
        var resolution := parser.ParseModel(response.ResponseModel, parser.CurrentPackage);
        if resolution.ResolveFailed? {
          return Some(ModelError(resolution.message));
        }
        var model := resolution.model;
        response := response.(ResponseModel := model.Id);
        ghost var typed :=
          if parts[1] == "{array}" then before.(Items := ItemsFor(parser, model.Id), Type := "array")
          else before.(Type := model.Id);
        expected := typed.(
          models := before.models + [model] + resolution.inner,
          ResponseMessages := before.ResponseMessages + [response]);
        assert SuccessOutcome(parser, before, commentLine) == Outcome(None, expected);
        if parts[1] == "{array}" {
          SetItemsType(model.Id);
          Type := "array";
        } else {
          Type := model.Id;
        }
        models := models + [model];
        models := models + resolution.inner;
      } else {
        response := response.(Message := parts[2]);
        expected := before.(ResponseMessages := before.ResponseMessages + [response]);
        assert SuccessOutcome(parser, before, commentLine) == Outcome(None, expected);
      }
      assert State() == expected.(ResponseMessages := ResponseMessages);
      ResponseMessages := ResponseMessages + [response];
      return None;
    }
  }

  /**
   * The character loop of `ParseFailureComment`: skips leading spaces,
   * collects the code text up to the next space, and takes the trimmed rest
   * as the message.
   */
  method ScanFailureStatement(statement: string) returns (httpCode: string, message: string)
    ensures (httpCode, message) == FailureFields(statement)
  {
    ghost var start0 := RunEnd(statement, 0, IsSpace);
    ghost var stop0 := RunEnd(statement, start0, IsNonSpace);
    message := "";
    httpCode := [];
    var start := false;
    var i := 0;
    while i < |statement|
      invariant 0 <= i <= |statement|
      invariant !start ==> i <= start0 && httpCode == []
      invariant start ==> start0 < i <= stop0 && httpCode == statement[start0..i]
      invariant message == ""
    {
      var s := statement[i];
      if IsSpace(s) {
        if start {
          assert i == stop0 by {
            RunEndAll(statement, start0, IsNonSpace);
          }
          message := TrimSpace(statement[i + 1..]);
          assert message == MessageAfter(statement, stop0);
          break;
        } else {
          i := i + 1;
          continue;
        }
      }
      assert !start ==> i == start0 by {
        RunEndAll(statement, 0, IsSpace);
      }
      start := true;
      httpCode := httpCode + [s];
      i := i + 1;
    }
    assert httpCode == statement[start0..stop0] && message == MessageAfter(statement, stop0);
  }

  /** The filter loop of `ParseSuccessComment`: keeps the parts that are not empty. */
  method DropEmpty(parts: seq<string>) returns (notEmptyParts: seq<string>)
    ensures notEmptyParts == NonEmpty(parts)
  {
    notEmptyParts := [];
    var i := 0;
    while i < |parts|
      invariant 0 <= i <= |parts|
      invariant notEmptyParts == NonEmpty(parts[..i])
    {
      assert parts[..i + 1][..i] == parts[..i];
      if parts[i] != "" {
        notEmptyParts := notEmptyParts + [parts[i]];
      }
      i := i + 1;
    }
    assert parts[..|parts|] == parts;
  }
}
