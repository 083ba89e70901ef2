/**
 * Properties of the comment parser of `parser/operation.go`, stated over the
 * functions of `OperationSpec` that the methods of `OperationModel.Operation`
 * are proved to implement: how the walk over the lines dispatches and stops,
 * the path gate, and what each directive does to the operation.
 */
module OperationProperties {
  import opened Wrappers
  import opened GoText
  import opened ParamSyntax
  import opened OperationSpec

  // ---------------------------------------------------------------------
  // The walk over the comment lines
  // ---------------------------------------------------------------------

  /** The head and the tail of a concatenation whose first part is not empty. */
  lemma ConcatHead<T>(a: seq<T>, b: seq<T>)
    requires a != []
    ensures (a + b)[0] == a[0] && (a + b)[1..] == a[1..] + b
  {
  }

  /** A walk that reaches the end of `a` without panicking goes on into `b` without panicking. */
  lemma {:induction false} NoPanicAppend(p: Parser, st: OpState, a: seq<string>, b: seq<string>)
    requires NoPanic(p, st, a)
    requires Run(p, st, a).err.None? ==> NoPanic(p, Run(p, st, a).state, b)
    ensures NoPanic(p, st, a + b)
    decreases |a|
  {
    if a == [] {
      assert a + b == b;
    } else {
      ConcatHead(a, b);
      RunCons(p, st, a);
      var o := Step(p, st, NormalizeLine(a[0]));
      if o.err.None? {
        NoPanicAppend(p, o.state, a[1..], b);
      }
    }
  }

  /** Walking two groups of lines one after the other is walking their concatenation. */
  lemma {:induction false} RunAppend(p: Parser, st: OpState, a: seq<string>, b: seq<string>)
    requires NoPanic(p, st, a)
    requires Run(p, st, a).err.None? ==> NoPanic(p, Run(p, st, a).state, b)
    ensures NoPanic(p, st, a + b)
    ensures Run(p, st, a + b) ==
      if Run(p, st, a).err.Some? then Run(p, st, a) else Run(p, Run(p, st, a).state, b)
    decreases |a|
  {
    NoPanicAppend(p, st, a, b);
    if a == [] {
      assert a + b == b;
    } else {
      var ab := a + b;
      ConcatHead(a, b);
      var line := NormalizeLine(a[0]);
      assert NormalizeLine(ab[0]) == line;
      RunCons(p, st, a);
      RunCons(p, st, ab);
      var o := Step(p, st, line);
      if o.err.None? {
        RunAppend(p, o.state, a[1..], b);
        assert Run(p, st, ab) == Run(p, o.state, a[1..] + b);
        assert Run(p, st, a) == Run(p, o.state, a[1..]);
      } else {
        assert Run(p, st, a) == o;
        assert Run(p, st, ab) == o;
      }
    }
  }

  /**
   * The first directive that fails ends the walk with its error: the lines
   * after it are never looked at, whatever they hold.
   */
  lemma FirstErrorStops(p: Parser, st: OpState, done: seq<string>, text: string, later: seq<string>)
    requires NoPanic(p, st, done) && Run(p, st, done).err.None?
    requires !Panics(NormalizeLine(text))
    requires Step(p, Run(p, st, done).state, NormalizeLine(text)).err.Some?
    ensures NoPanic(p, st, done + [text] + later)
    ensures Run(p, st, done + [text] + later) == Step(p, Run(p, st, done).state, NormalizeLine(text))
  {
    var rest := [text] + later;
    ConcatHead([text], later);
    RunCons(p, Run(p, st, done).state, rest);
    RunAppend(p, st, done, rest);
    AppendAssoc(done, [text], later);
  }

  /** Lines that start with none of the seven tags leave the operation as it was. */
  lemma {:induction false} RunUntagged(p: Parser, st: OpState, texts: seq<string>)
    requires forall i :: 0 <= i < |texts| ==> DirectiveOf(NormalizeLine(texts[i])) == Untagged
    ensures NoPanic(p, st, texts)
    ensures Run(p, st, texts) == Outcome(None, st)
    decreases |texts|
  {
    if texts != [] {
      UntaggedStep(p, st, NormalizeLine(texts[0]));
      UntaggedTail(texts);
      RunUntagged(p, st, texts[1..]);
      RunStep(p, st, texts, st);
    }
  }

  lemma UntaggedTail(texts: seq<string>)
    requires texts != []
    requires forall i :: 0 <= i < |texts| ==> DirectiveOf(NormalizeLine(texts[i])) == Untagged
    ensures forall i :: 0 <= i < |texts[1..]| ==> DirectiveOf(NormalizeLine(texts[1..][i])) == Untagged
  {
    assert forall i :: 0 <= i < |texts[1..]| ==> texts[1..][i] == texts[i + 1];
  }

  lemma UntaggedStep(p: Parser, st: OpState, line: string)
    requires DirectiveOf(line) == Untagged
    ensures !Panics(line) && Step(p, st, line) == Outcome(None, st)
  {
  }

  /** A first line without error that leaves `next`, followed by lines safe to walk from `next`. */
  lemma RunStep(p: Parser, st: OpState, texts: seq<string>, next: OpState)
    requires texts != [] && !Panics(NormalizeLine(texts[0]))
    requires Step(p, st, NormalizeLine(texts[0])) == Outcome(None, next)
    requires NoPanic(p, next, texts[1..])
    ensures NoPanic(p, st, texts)
    ensures Run(p, st, texts) == Run(p, next, texts[1..])
  {
  }

  /** Every directive other than `@router` leaves `Path` as it was. */
  lemma StepKeepsPath(p: Parser, st: OpState, line: string)
    requires !Panics(line) && DirectiveOf(line) != Router
    ensures Step(p, st, line).state.Path == st.Path
  {
    StepOf(p, st, line);
    match DirectiveOf(line)
    case Router =>
    case Title =>
    case Description =>
    case Success => SuccessKeepsPath(p, st, line);
    case Param =>
    case Failure => FailureKeepsPath(st, line);
    case Accept =>
    case Untagged =>
  }

  lemma SuccessKeepsPath(p: Parser, st: OpState, line: string)
    requires |line| >= |SuccessTag| && !SuccessPanics(line)
    ensures SuccessOutcome(p, st, line).state.Path == st.Path
  {
    var parts := SuccessParts(line);
    if Atoi(parts[0]).Ok? && IsModelKind(parts[1]) && |parts| >= 3 {
      match p.ParseModel(parts[2], p.CurrentPackage)
      case ResolveFailed(_) =>
      case Resolved(_, _) =>
    }
  }

  lemma FailureKeepsPath(st: OpState, line: string)
    requires |line| >= |FailureTag|
    ensures FailureOutcome(st, line).state.Path == st.Path
  {
    var fields := FailureFields(FailureStatement(line));
    match Atoi(fields.0)
    case Err(_) =>
    case Ok(_) =>
  }

  /** Without a `@router` line the walk leaves `Path` as it was. */
  lemma {:induction false} RunKeepsPath(p: Parser, st: OpState, texts: seq<string>)
    requires NoPanic(p, st, texts)
    requires forall i :: 0 <= i < |texts| ==> DirectiveOf(NormalizeLine(texts[i])) != Router
    ensures Run(p, st, texts).state.Path == st.Path
    decreases |texts|
  {
    if texts != [] {
      RunCons(p, st, texts);
      var line := NormalizeLine(texts[0]);
      StepKeepsPath(p, st, line);
      var o := Step(p, st, line);
      if o.err.None? {
        assert forall i :: 0 <= i < |texts[1..]| ==> texts[1..][i] == texts[i + 1];
        RunKeepsPath(p, o.state, texts[1..]);
      }
    }
  }

  /** A walk that changes `Path` went through a `@router` line. */
  lemma RunPathFromRouter(p: Parser, st: OpState, texts: seq<string>)
    requires NoPanic(p, st, texts)
    ensures Run(p, st, texts).state.Path != st.Path ==>
      exists i :: 0 <= i < |texts| && DirectiveOf(NormalizeLine(texts[i])) == Router
  {
    if forall i :: 0 <= i < |texts| ==> DirectiveOf(NormalizeLine(texts[i])) != Router {
      RunKeepsPath(p, st, texts);
    }
  }

  /**
   * The path gate: an absent comment group, a failed directive and a missing
   * path are the only ways to fail, and an operation that started without a
   * path is accepted only after a `@router` line.
   */
  lemma PathGate(p: Parser, st: OpState, group: Option<seq<string>>)
    requires group.Some? ==> NoPanic(p, st, group.value)
    ensures group.None? ==> ParseCommentOutcome(p, st, group) == Outcome(Some(CommentIsEmptyError), st)
    ensures group.Some? && Run(p, st, group.value).err.None? ==>
      (ParseCommentOutcome(p, st, group).err.None? <==> Run(p, st, group.value).state.Path != "")
    ensures ParseCommentOutcome(p, st, group).err.None? ==> ParseCommentOutcome(p, st, group).state.Path != ""
    ensures ParseCommentOutcome(p, st, group).err.None? && st.Path == "" ==>
      exists i :: 0 <= i < |group.value| && DirectiveOf(NormalizeLine(group.value[i])) == Router
  {
    if group.Some? {
      RunPathFromRouter(p, st, group.value);
    }
  }

  /** A comment group of untagged lines never makes a fresh operation valid. */
  lemma UntaggedRejected(p: Parser, texts: seq<string>)
    requires forall i :: 0 <= i < |texts| ==> DirectiveOf(NormalizeLine(texts[i])) == Untagged
    ensures NoPanic(p, EmptyState, texts)
    ensures ParseCommentOutcome(p, EmptyState, Some(texts)) == Outcome(Some(CommentIsEmptyError), EmptyState)
  {
    RunUntagged(p, EmptyState, texts);
  }

  // ---------------------------------------------------------------------
  // The lists are only appended to
  // ---------------------------------------------------------------------

  /**
   * `after` keeps every element of `before`'s lists at the front, and
   * `Consumes` and `Produces` have grown by the very same elements.
   */
  predicate Extends(before: OpState, after: OpState) {
    && before.Parameters <= after.Parameters
    && before.ResponseMessages <= after.ResponseMessages
    && before.Consumes <= after.Consumes
    && before.Produces <= after.Produces
    && before.models <= after.models
    && after.Consumes[|before.Consumes|..] == after.Produces[|before.Produces|..]
  }

  lemma PrefixTrans<T>(a: seq<T>, b: seq<T>, c: seq<T>)
    requires a <= b && b <= c
    ensures a <= c && c[|a|..] == b[|a|..] + c[|b|..]
  {
    assert c[..|b|] == b;
    assert c[..|a|] == c[..|b|][..|a|];
  }

  lemma ExtendsTrans(a: OpState, b: OpState, c: OpState)
    requires Extends(a, b) && Extends(b, c)
    ensures Extends(a, c)
  {
    PrefixTrans(a.Parameters, b.Parameters, c.Parameters);
    PrefixTrans(a.ResponseMessages, b.ResponseMessages, c.ResponseMessages);
    PrefixTrans(a.Consumes, b.Consumes, c.Consumes);
    PrefixTrans(a.Produces, b.Produces, c.Produces);
    PrefixTrans(a.models, b.models, c.models);
  }

  /** A state whose lists are those of `before`, or `before`'s with one more response, extends it. */
  lemma ExtendsBy(before: OpState, after: OpState, responses: seq<ResponseMessage>, parameters: seq<Parameter>,
                  added: seq<ContentType>, models: seq<Model>)
    requires after.Parameters == before.Parameters + parameters
    requires after.ResponseMessages == before.ResponseMessages + responses
    requires after.Consumes == before.Consumes + added && after.Produces == before.Produces + added
    requires after.models == before.models + models
    ensures Extends(before, after)
  {
    assert after.Consumes[|before.Consumes|..] == added;
    assert after.Produces[|before.Produces|..] == added;
  }

  /** One line appends to the lists and removes nothing. */
  lemma StepExtends(p: Parser, st: OpState, line: string)
    requires !Panics(line)
    ensures Extends(st, Step(p, st, line).state)
  {
    StepOf(p, st, line);
    match DirectiveOf(line)
    case Router => ExtendsKeeping(st, RouterOutcome(st, line).state);
    case Title => ExtendsKeeping(st, TitleOutcome(st, line).state);
    case Description => ExtendsKeeping(st, DescriptionOutcome(st, line).state);
    case Success => SuccessExtends(p, st, line);
    case Param => ParamExtends(st, line);
    case Failure => FailureExtends(st, line);
    case Accept => AcceptExtends(st, line);
    case Untagged => ExtendsSame(st);
  }

  /** A state with the same lists extends the old one. */
  lemma ExtendsKeeping(before: OpState, after: OpState)
    requires after.Parameters == before.Parameters && after.ResponseMessages == before.ResponseMessages
    requires after.Consumes == before.Consumes && after.Produces == before.Produces
    requires after.models == before.models
    ensures Extends(before, after)
  {
    ExtendsSame(before);
  }

  lemma AcceptExtends(st: OpState, line: string)
    requires |line| >= |AcceptTag|
    ensures Extends(st, AcceptOutcome(st, line).state)
  {
    var added := ContentTypes(AcceptTokens(line));
    assert AcceptOutcome(st, line).state == st.(Consumes := st.Consumes + added, Produces := st.Produces + added);
    ExtendsBy(st, AcceptOutcome(st, line).state, [], [], added, []);
  }

  lemma ParamExtends(st: OpState, line: string)
    requires |line| >= |ParamTag| + 1
    ensures Extends(st, ParamOutcome(st, line).state)
    ensures var o := ParamOutcome(st, line).state; o == st.(Parameters := o.Parameters)
  {
    match FindParam(ParamString(line))
    case None => ExtendsSame(st);
    case Some(m) =>
      assert ParamOutcome(st, line).state == st.(Parameters := st.Parameters + [ParameterOf(m)]);
      ExtendsWithParameter(st, ParameterOf(m));
  }

  lemma FailureExtends(st: OpState, line: string)
    requires |line| >= |FailureTag|
    ensures Extends(st, FailureOutcome(st, line).state)
    ensures var o := FailureOutcome(st, line).state; o == st.(ResponseMessages := o.ResponseMessages)
  {
    var fields := FailureFields(FailureStatement(line));
    match Atoi(fields.0)
    case Err(_) => ExtendsSame(st);
    case Ok(code) =>
      var r := ResponseMessage(code, fields.1, "");
      assert FailureOutcome(st, line).state == st.(ResponseMessages := st.ResponseMessages + [r]);
      ExtendsWithResponse(st, r);
  }

  lemma ExtendsSame(st: OpState)
    ensures Extends(st, st)
  {
    assert st.Consumes[|st.Consumes|..] == [] == st.Produces[|st.Produces|..];
  }

  lemma ExtendsWithParameter(st: OpState, x: Parameter)
    ensures Extends(st, st.(Parameters := st.Parameters + [x]))
  {
    ExtendsSame(st);
  }

  lemma ExtendsWithResponse(st: OpState, r: ResponseMessage)
    ensures Extends(st, st.(ResponseMessages := st.ResponseMessages + [r]))
  {
    ExtendsSame(st);
  }

  lemma SuccessExtends(p: Parser, st: OpState, line: string)
    requires |line| >= |SuccessTag| && !SuccessPanics(line)
    ensures Extends(st, SuccessOutcome(p, st, line).state)
    ensures var o := SuccessOutcome(p, st, line).state;
      o == st.(Type := o.Type, Items := o.Items, ResponseMessages := o.ResponseMessages, models := o.models)
  {
    var parts := SuccessParts(line);
    var o := SuccessOutcome(p, st, line);
    if o.err.Some? {
      assert o.state == st;
      ExtendsSame(st);
    } else if IsModelKind(parts[1]) {
      var r := p.ParseModel(parts[2], p.CurrentPackage);
      var response := ResponseMessage(Atoi(parts[0]).value, "", r.model.Id);
      assert o.state.Parameters == st.Parameters && o.state.Consumes == st.Consumes && o.state.Produces == st.Produces;
      assert o.state.ResponseMessages == st.ResponseMessages + [response];
      assert o.state.models == st.models + [r.model] + r.inner;
      AppendAssoc(st.models, [r.model], r.inner);
      ExtendsBy(st, o.state, [response], [], [], [r.model] + r.inner);
    } else {
      var response := ResponseMessage(Atoi(parts[0]).value, parts[2], "");
      assert o.state == st.(ResponseMessages := st.ResponseMessages + [response]);
      ExtendsWithResponse(st, response);
    }
  }

  /** A whole walk appends to the lists and removes nothing, even when it fails. */
  lemma {:induction false} RunExtends(p: Parser, st: OpState, texts: seq<string>)
    requires NoPanic(p, st, texts)
    ensures Extends(st, Run(p, st, texts).state)
    decreases |texts|
  {
    if texts == [] {
      assert st.Consumes[|st.Consumes|..] == [] == st.Produces[|st.Produces|..];
    } else {
      var line := NormalizeLine(texts[0]);
      StepExtends(p, st, line);
      var o := Step(p, st, line);
      if o.err.None? {
        RunExtends(p, o.state, texts[1..]);
        ExtendsTrans(st, o.state, Run(p, o.state, texts[1..]).state);
      }
    }
  }

  // ---------------------------------------------------------------------
  // @Title and @Description
  // ---------------------------------------------------------------------

  /**
   * `@Title`, any white space, then a trimmed text: the step sets the
   * nickname to exactly that text, with no error and nothing else changed.
   */
  lemma TitleLine(p: Parser, st: OpState, w: string, text: string)
    requires AllSpace(w) && Trimmed(text)
    ensures Step(p, st, TitleTag + w + text) == Outcome(None, st.(Nickname := text))
  {
    var line := TitleTag + w + text;
    AppendAssoc(TitleTag, w, text);
    DropTag(TitleTag, w + text);
    assert line[1] == 'T' && line[..|TitleTag|] == TitleTag;
    assert DirectiveOf(line) == Title;
    assert w + text == w + text + [];
    TrimSpaceOf(w, text, []);
  }

  /**
   * `@Description`, any white space, then a trimmed text: the step sets the
   * summary to exactly that text, with no error and nothing else changed.
   */
  lemma DescriptionLine(p: Parser, st: OpState, w: string, text: string)
    requires AllSpace(w) && Trimmed(text)
    ensures Step(p, st, DescriptionTag + w + text) == Outcome(None, st.(Summary := text))
  {
    var line := DescriptionTag + w + text;
    AppendAssoc(DescriptionTag, w, text);
    DropTag(DescriptionTag, w + text);
    assert line[1] == 'D' && line[..|DescriptionTag|] == DescriptionTag;
    assert DirectiveOf(line) == Description;
    assert w + text == w + text + [];
    TrimSpaceOf(w, text, []);
  }

  // ---------------------------------------------------------------------
  // @router
  // ---------------------------------------------------------------------

  /** The text before the first space, or all of it when there is none. */
  function BeforeSpace(s: string): (r: string)
    ensures r <= s && ' ' !in r
    ensures |r| == |s| || s[|r|] == ' '
  {
    IndexOfFirst(s, ' ');
    s[..IndexOf(s, ' ')]
  }

  /**
   * `@router`: never an error; `Path` is the text before the first space of
   * the trimmed remainder; with no space after it the method is `GET`,
   * otherwise it is the next space-delimited token without brackets, in
   * upper case. Nothing else changes.
   */
  lemma RouterEffect(st: OpState, line: string)
    requires |line| >= |RouterTag|
    ensures var el := RouterElements(line);
      var o := RouterOutcome(st, line);
      && o.err.None?
      && o.state == st.(Path := o.state.Path, HttpMethod := o.state.HttpMethod)
      && o.state.Path == BeforeSpace(el)
      && (' ' !in el ==> o.state.HttpMethod == "GET")
      && (' ' in el ==>
            o.state.HttpMethod == ToUpper(TrimBrackets(BeforeSpace(el[IndexOf(el, ' ') + 1..]))))
  {
    var el := RouterElements(line);
    var k := IndexOf(el, ' ');
    var e1 := SplitN(el, ' ', 2);
    SplitInTwo(el, ' ');
    assert e1[0] == BeforeSpace(el);
    if ' ' in el {
      SpaceBeforeEnd(el);
      var rest := el[k + 1..];
      assert |e1| == 2 && e1[1] == rest && rest != [];
      SplitInTwo(rest, ' ');
      var token := SplitN(rest, ' ', 2)[0];
      assert token == BeforeSpace(rest);
      assert RouterOutcome(st, line).state.HttpMethod == ToUpper(TrimBrackets(token));
    } else {
      assert |e1| == 1;
    }
  }

  /** In a trimmed text, a space is never the last character. */
  lemma SpaceBeforeEnd(el: string)
    requires Trimmed(el) && ' ' in el
    ensures IndexOf(el, ' ') < |el| - 1
  {
    var k := IndexOf(el, ' ');
    SplitInTwo(el, ' ');
    assert k < |el| && el[k] == ' ';
    assert IsSpace(el[k]);
  }

  /** No character of `s` is white space. */
  predicate NoSpace(s: string) {
    forall i :: 0 <= i < |s| ==> !IsSpace(s[i])
  }

  lemma SpaceCutIndex(path: string, rest: string)
    requires NoSpace(path)
    ensures var el := path + " " + rest;
      ' ' in el && BeforeSpace(el) == path && el[IndexOf(el, ' ') + 1..] == rest
  {
    var el := path + " " + rest;
    assert el[..|path|] == path && el[|path|] == ' ';
    IndexOfIs(el, ' ', |path|);
    assert el[|path| + 1..] == rest;
  }

  /** A bracketed word without spaces is one token, and the brackets come off. */
  lemma Bracketed(verb: string)
    requires verb != [] && NoSpace(verb) && !IsBracket(verb[0]) && !IsBracket(verb[|verb| - 1])
    ensures BeforeSpace("[" + verb + "]") == "[" + verb + "]"
    ensures TrimBrackets("[" + verb + "]") == verb
  {
    var rest := "[" + verb + "]";
    forall i | 0 <= i < |rest| ensures rest[i] != ' ' {
      if 0 < i < |rest| - 1 { assert rest[i] == verb[i - 1]; }
    }
    IndexOfIs(rest, ' ', |rest|);
    assert rest[..|rest|] == rest;
    TrimBracketsOf(verb);
  }

  /** A text that starts with a space has an empty first token. */
  lemma EmptyToken(rest: string)
    requires rest != [] && Trimmed(rest)
    ensures BeforeSpace(" " + rest) == [] && ToUpper(TrimBrackets([])) == []
    ensures (" " + rest) != [] && !IsSpace((" " + rest)[|" " + rest| - 1])
  {
    IndexOfIs(" " + rest, ' ', 0);
    assert (" " + rest)[|" " + rest| - 1] == rest[|rest| - 1];
  }

  /** The tag, a space and trimmed elements: the elements are exactly those. */
  lemma RouterElementsOf(el: string)
    requires el != [] && !IsSpace(el[0]) && !IsSpace(el[|el| - 1])
    ensures RouterElements(RouterTag + (" " + el)) == el
  {
    var line := RouterTag + (" " + el);
    assert line[|RouterTag|..] == " " + el + [];
    TrimSpaceOf(" ", el, []);
  }

  /** Elements `<path> <rest>`: the path, and the method from the first token of `rest`. */
  lemma RouterSplit(st: OpState, line: string, path: string, rest: string)
    requires |line| >= |RouterTag| && RouterElements(line) == path + " " + rest
    requires NoSpace(path)
    ensures RouterOutcome(st, line) ==
      Outcome(None, st.(Path := path, HttpMethod := ToUpper(TrimBrackets(BeforeSpace(rest)))))
  {
    SpaceCutIndex(path, rest);
    RouterEffect(st, line);
  }

  /** The form `@router <path> [<method>]`. */
  lemma RouterLine(st: OpState, path: string, verb: string)
    requires path != [] && NoSpace(path)
    requires verb != [] && NoSpace(verb) && !IsBracket(verb[0]) && !IsBracket(verb[|verb| - 1])
    ensures RouterOutcome(st, RouterTag + " " + path + " [" + verb + "]") ==
      Outcome(None, st.(Path := path, HttpMethod := ToUpper(verb)))
  {
    var rest := "[" + verb + "]";
    var el := path + " " + rest;
    var line := RouterTag + " " + path + " [" + verb + "]";
    assert line == RouterTag + (" " + el);
    assert el[0] == path[0] && el[|el| - 1] == ']';
    RouterElementsOf(el);
    Bracketed(verb);
    RouterSplit(st, line, path, rest);
  }

  /** The method may also be written without brackets: `@router <path> <method>`. */
  lemma RouterBareVerb(st: OpState, path: string, verb: string)
    requires path != [] && NoSpace(path)
    requires verb != [] && NoSpace(verb) && !IsBracket(verb[0]) && !IsBracket(verb[|verb| - 1])
    ensures RouterOutcome(st, RouterTag + " " + path + " " + verb) ==
      Outcome(None, st.(Path := path, HttpMethod := ToUpper(verb)))
  {
    var el := path + " " + verb;
    var line := RouterTag + " " + path + " " + verb;
    assert line == RouterTag + (" " + el);
    assert el[0] == path[0] && el[|el| - 1] == verb[|verb| - 1];
    RouterElementsOf(el);
    assert forall i | 0 <= i < |verb| :: verb[i] != ' ';
    IndexOfIs(verb, ' ', |verb|);
    assert verb[..|verb|] == verb;
    TrimBracketsKeeps(verb);
    RouterSplit(st, line, path, verb);
  }

  /** An example: `@router /pets/{id} [post]`. */
  lemma RouterExample(st: OpState)
    ensures RouterOutcome(st, "@router /pets/{id} [post]") ==
      Outcome(None, st.(Path := "/pets/{id}", HttpMethod := "POST"))
  {
    assert RouterTag + " " + "/pets/{id}" + " [" + "post" + "]" == "@router /pets/{id} [post]";
    assert ToUpper("post") == "POST";
    RouterLine(st, "/pets/{id}", "post");
  }

  /**
   * Only one space separates the path from the method: after two spaces the
   * method token is the empty text between them, whatever follows.
   */
  lemma RouterTwoSpaces(st: OpState, path: string, rest: string)
    requires path != [] && NoSpace(path)
    requires rest != [] && Trimmed(rest)
    ensures RouterOutcome(st, RouterTag + " " + path + "  " + rest) ==
      Outcome(None, st.(Path := path, HttpMethod := ""))
  {
    var line := RouterTag + " " + path + "  " + rest;
    var el := path + " " + (" " + rest);
    assert line == RouterTag + (" " + el);
    assert el[0] == path[0] && el[|el| - 1] == rest[|rest| - 1];
    RouterElementsOf(el);
    EmptyToken(rest);
    RouterSplit(st, line, path, " " + rest);
  }

  /** `@router` with nothing after the tag sets an empty path and `GET`, and is not an error. */
  lemma RouterEmpty(st: OpState, line: string)
    requires |line| >= |RouterTag| && RouterElements(line) == []
    ensures RouterOutcome(st, line) == Outcome(None, st.(Path := "", HttpMethod := "GET"))
  {
    assert SplitN([], ' ', 2) == [[]];
  }

  /** The comment marker and the spaces around the tag are removed before dispatch. */
  lemma NormalizeRouterComment()
    ensures NormalizeLine("// @router") == RouterTag
  {
    assert "// @router" == Repeat('/', 2) + " @router";
    RunEndIs("// @router", 0, 2, IsSlash);
    assert TrimLeftSlashes("// @router") == " @router";
    assert " @router" == " " + RouterTag + [];
    TrimSpaceOf(" ", RouterTag, []);
  }

  /** An empty `@router` as the only line: the path gate rejects the operation. */
  lemma RouterEmptyRejected(p: Parser, st: OpState, text: string)
    requires st.Path == "" && DirectiveOf(NormalizeLine(text)) == Router
    requires RouterElements(NormalizeLine(text)) == []
    ensures NoPanic(p, st, [text])
    ensures ParseCommentOutcome(p, st, Some([text])) == Outcome(Some(CommentIsEmptyError), st.(HttpMethod := "GET"))
  {
    var line := NormalizeLine(text);
    var texts := [text];
    var next := st.(Path := "", HttpMethod := "GET");
    RouterEmpty(st, line);
    assert !Panics(line) && Step(p, st, line) == Outcome(None, next);
    assert texts[0] == text && texts[1..] == [];
    assert NoPanic(p, next, texts[1..]);
    RunAdvance(p, st, texts, next);
  }

  // ---------------------------------------------------------------------
  // @Accept
  // ---------------------------------------------------------------------

  /** The MIME constants of two groups of tokens are those of each group, in order. */
  lemma {:induction false} ContentTypesAppend(a: seq<string>, b: seq<string>)
    ensures ContentTypes(a + b) == ContentTypes(a) + ContentTypes(b)
    decreases |b|
  {
    if b == [] {
      assert a + b == a;
    } else {
      var ab := a + b;
      var c := b[..|b| - 1];
      assert ab[..|ab| - 1] == a + c && ab[|ab| - 1] == b[|b| - 1];
      ContentTypesAppend(a, c);
      AppendAssoc(ContentTypes(a), ContentTypes(c), Recognised(b[|b| - 1]));
    }
  }

  /** A constant is added exactly when some token spells it. */
  lemma {:induction false} ContentTypesMember(tokens: seq<string>, t: ContentType)
    ensures t in ContentTypes(tokens) <==> exists i :: 0 <= i < |tokens| && ContentTypeOf(tokens[i]) == Some(t)
    decreases |tokens|
  {
    if tokens != [] {
      var init := tokens[..|tokens| - 1];
      ContentTypesMember(init, t);
      if t in ContentTypes(init) {
        var i :| 0 <= i < |init| && ContentTypeOf(init[i]) == Some(t);
        assert tokens[i] == init[i];
      }
      if exists i :: 0 <= i < |tokens| && ContentTypeOf(tokens[i]) == Some(t) {
        var i :| 0 <= i < |tokens| && ContentTypeOf(tokens[i]) == Some(t);
        if i < |init| {
          assert init[i] == tokens[i];
        }
      }
    }
  }

  /** One constant per token when every token is recognised, repeats included, in token order. */
  lemma {:induction false} ContentTypesInOrder(tokens: seq<string>)
    requires forall i :: 0 <= i < |tokens| ==> ContentTypeOf(tokens[i]).Some?
    ensures |ContentTypes(tokens)| == |tokens|
    ensures forall i :: 0 <= i < |tokens| ==> ContentTypes(tokens)[i] == ContentTypeOf(tokens[i]).value
    decreases |tokens|
  {
    if tokens != [] {
      var init := tokens[..|tokens| - 1];
      assert forall i :: 0 <= i < |init| ==> init[i] == tokens[i];
      ContentTypesInOrder(init);
    }
  }

  /** At most one constant per token. */
  lemma {:induction false} ContentTypesAtMost(tokens: seq<string>)
    ensures |ContentTypes(tokens)| <= |tokens|
    decreases |tokens|
  {
    if tokens != [] {
      ContentTypesAtMost(tokens[..|tokens| - 1]);
    }
  }

  /**
   * `@Accept` followed by comma-separated tokens: the tokens are exactly the
   * comma-free pieces (surrounding spaces of the whole list removed, spaces
   * inside a piece kept).
   */
  lemma AcceptTokensOf(tokens: seq<string>)
    requires |tokens| >= 1 && NoneContains(tokens, ',') && Trimmed(Join(tokens, ','))
    ensures AcceptTokens(AcceptTag + " " + Join(tokens, ',')) == tokens
  {
    AcceptTokensCut(Join(tokens, ','));
    SplitJoin(tokens, ',');
  }

  /** After the tag and one space, a trimmed list is split as it stands. */
  lemma AcceptTokensCut(j: string)
    requires Trimmed(j)
    ensures AcceptTokens(AcceptTag + " " + j) == Split(j, ',')
  {
    var line := AcceptTag + " " + j;
    AppendAssoc(AcceptTag, " ", j);
    DropTag(AcceptTag, " " + j);
    TrimTwice(j);
    assert TrimSpace(TrimSpace(line[|AcceptTag|..])) == j;
  }

  /** Dropping a tag from the front of a line leaves what followed it. */
  lemma DropTag(tag: string, rest: string)
    ensures (tag + rest)[|tag|..] == rest
  {
    assert forall i | 0 <= i < |rest| :: (tag + rest)[|tag|..][i] == rest[i];
  }

  /** Trimming twice a trimmed text after one space gives the text. */
  lemma TrimTwice(j: string)
    requires Trimmed(j)
    ensures TrimSpace(TrimSpace(" " + j)) == j
  {
    assert " " + j == " " + j + [];
    TrimSpaceOf(" ", j, []);
    assert [] + j + [] == j;
    TrimSpaceOf([], j, []);
  }

  /** Both lists grow by the constants of the tokens. */
  lemma AcceptLine(st: OpState, tokens: seq<string>)
    requires |tokens| >= 1 && NoneContains(tokens, ',') && Trimmed(Join(tokens, ','))
    ensures AcceptOutcome(st, AcceptTag + " " + Join(tokens, ',')) == Outcome(None, st.(
      Consumes := st.Consumes + ContentTypes(tokens), Produces := st.Produces + ContentTypes(tokens)))
  {
    AcceptTokensOf(tokens);
  }

  /** Tokens are compared untrimmed and case-sensitively, and repeats are kept. */
  lemma AcceptTokensExample()
    ensures ContentTypes(["json", " xml", "JSON", "html", "json"]) ==
      [ContentTypeJson, ContentTypeHtml, ContentTypeJson]
  {
    var ts: seq<string> := [];
    ContentTypesSnoc(ts, "json");
    ts := ts + ["json"];
    ContentTypesSnoc(ts, " xml");
    ts := ts + [" xml"];
    assert "JSON"[0] != "json"[0];
    ContentTypesSnoc(ts, "JSON");
    ts := ts + ["JSON"];
    ContentTypesSnoc(ts, "html");
    ts := ts + ["html"];
    ContentTypesSnoc(ts, "json");
    ts := ts + ["json"];
    assert ts == ["json", " xml", "JSON", "html", "json"];
  }

  /** One more token adds its constant, if any, at the end. */
  lemma ContentTypesSnoc(tokens: seq<string>, token: string)
    ensures ContentTypes(tokens + [token]) == ContentTypes(tokens) + Recognised(token)
  {
    var ts := tokens + [token];
    assert ts[..|ts| - 1] == tokens && ts[|ts| - 1] == token;
  }

  // ---------------------------------------------------------------------
  // @Failure
  // ---------------------------------------------------------------------

  /** A code without spaces, then a space and a trimmed message, or the code alone. */
  lemma FailureFieldsOf(code: string, message: string)
    requires code != [] && NoSpace(code) && Trimmed(message)
    ensures FailureFields(code + " " + message) == (code, message)
    ensures FailureFields(code) == (code, "")
  {
    var s := code + " " + message;
    assert s[0] == code[0] && s[..|code|] == code && s[|code|] == ' ';
    RunEndIs(s, 0, 0, IsSpace);
    assert forall j :: 0 <= j < |code| ==> s[j] == code[j];
    RunEndIs(s, 0, |code|, IsNonSpace);
    assert s[|code| + 1..] == [] + message + [];
    TrimSpaceOf([], message, []);
    RunEndIs(code, 0, 0, IsSpace);
    RunEndIs(code, 0, |code|, IsNonSpace);
    assert code[0..|code|] == code;
  }

  /** The statement after the tag of `@Failure <code> <message>`. */
  lemma FailureStatementOf(code: string, message: string)
    requires code != [] && NoSpace(code) && Trimmed(message)
    ensures FailureStatement(FailureTag + " " + code + " " + message) ==
      if message == [] then code else code + " " + message
  {
    var line := FailureTag + " " + code + " " + message;
    var body := code + " " + message;
    assert line[|FailureTag|..] == " " + body;
    if message == [] {
      assert " " + body == " " + code + " ";
      TrimSpaceOf(" ", code, " ");
    } else {
      assert body[0] == code[0] && body[|body| - 1] == message[|message| - 1];
      assert " " + body == " " + body + [];
      TrimSpaceOf(" ", body, []);
    }
  }

  /**
   * The round trip: a line written as `@Failure <code> <message>` with a
   * 64-bit code and a trimmed message appends exactly that response.
   */
  lemma FailureRoundTrip(st: OpState, code: int, message: string)
    requires MinInt <= code <= MaxInt && Trimmed(message)
    ensures FailureOutcome(st, FailureTag + " " + Itoa(code) + " " + message) ==
      Outcome(None, st.(ResponseMessages := st.ResponseMessages + [ResponseMessage(code, message, "")]))
  {
    var c := Itoa(code);
    FailureStatementOf(c, message);
    FailureFieldsOf(c, message);
    AtoiItoa(code);
  }

  /**
   * A code that is not a decimal integer is an error, and nothing is
   * recorded. The cause is a range error when its leading digits already
   * overflow 64 unsigned bits, and a syntax error otherwise.
   */
  lemma FailureNotInteger(st: OpState, code: string, message: string)
    requires code != [] && NoSpace(code) && Trimmed(message) && !IsDecimal(code)
    ensures FailureOutcome(st, FailureTag + " " + code + " " + message) ==
      Outcome(Some(FailureCodeError(code, if Overflows(code) then ErrRange else ErrSyntax)), st)
  {
    FailureStatementOf(code, message);
    FailureFieldsOf(code, message);
  }

  /** `@Failure` with nothing after it: the empty code is a syntax error. */
  lemma FailureEmpty(st: OpState)
    ensures FailureOutcome(st, FailureTag) == Outcome(Some(FailureCodeError("", ErrSyntax)), st)
  {
    assert FailureTag[|FailureTag|..] == [];
    assert FailureStatement(FailureTag) == [];
    assert FailureFields([]) == ([], []);
  }

  // ---------------------------------------------------------------------
  // @Param
  // ---------------------------------------------------------------------

  /** A spelling of the expression followed by a trimmed tail has no surrounding white space. */
  lemma SpellTrimmed(m: ParamMatch, g: Gaps, tail: string)
    requires WellFormed(m, g) && Trimmed(tail)
    ensures Trimmed(Spell(m, g, tail))
  {
    var runs := Runs(m, g);
    var q := ['"'] + (m.description + (['"'] + tail));
    var u := Spell(m, g, tail);
    assert runs == [m.name] + runs[1..];
    ConcatCons(m.name, runs[1..]);
    assert u[0] == m.name[0];
    assert IsWordChar(m.name[0]);
    assert u[|u| - 1] == q[|q| - 1];
    if tail != [] {
      assert q[|q| - 1] == tail[|tail| - 1];
    }
  }

  /**
   * A `@Param` line made of the five groups, with any one character after
   * the tag (a space, or the tab of the comment above `ParseParamComment`),
   * appends exactly the parameter built from them: name, parameter kind,
   * the data type as both `Type` and `DataType`, `Required` when the fourth
   * word is `true` in any case, and the quoted description.
   */
  lemma ParamLine(st: OpState, c: char, m: ParamMatch, g: Gaps, tail: string)
    requires WellFormed(m, g) && Trimmed(tail)
    ensures ParamOutcome(st, ParamTag + [c] + Spell(m, g, tail)) ==
      Outcome(None, st.(Parameters := st.Parameters + [ParameterOf(m)]))
  {
    ParamStringOf(c, m, g, tail);
    FindParamOf([], m, g, tail);
    assert [] + Spell(m, g, tail) == Spell(m, g, tail);
  }

  /**
   * The parameter text of such a line is the spelling itself: the character
   * after the tag is skipped whatever it is.
   */
  lemma ParamStringOf(c: char, m: ParamMatch, g: Gaps, tail: string)
    requires WellFormed(m, g) && Trimmed(tail)
    ensures ParamString(ParamTag + [c] + Spell(m, g, tail)) == Spell(m, g, tail)
  {
    var u := Spell(m, g, tail);
    var line := ParamTag + [c] + u;
    assert line[|ParamTag| + 1..] == [] + u + [];
    SpellTrimmed(m, g, tail);
    TrimSpaceOf([], u, []);
  }

  /**
   * `@Param`: an error, with nothing changed, exactly when the expression
   * matches nowhere in the parameter text; otherwise one parameter is
   * appended, built from a spelling of the expression found in that text.
   */
  lemma ParamEffect(st: OpState, line: string)
    requires |line| >= |ParamTag| + 1
    ensures var o := ParamOutcome(st, line);
      && (o.err.Some? <==> forall j :: 0 <= j <= |ParamString(line)| ==> MatchAt(ParamString(line), j).None?)
      && (o.err.Some? ==> o == Outcome(Some(ParamCommentError(ParamString(line))), st))
  {
    FindParamLeftmost(ParamString(line));
  }

  /** The parameter appended comes from a spelling of the expression inside the parameter text. */
  lemma ParamFound(st: OpState, line: string)
    requires |line| >= |ParamTag| + 1
    requires ParamOutcome(st, line).err.None?
    ensures exists pre, m, g, tail ::
      && WellFormed(m, g) && ParamString(line) == pre + Spell(m, g, tail)
      && ParamOutcome(st, line) == Outcome(None, st.(Parameters := st.Parameters + [ParameterOf(m)]))
  {
    var text := ParamString(line);
    var pre, g, tail := FindParamSpelled(text);
    var m := FindParam(text).value;
    assert ParamOutcome(st, line) == Outcome(None, st.(Parameters := st.Parameters + [ParameterOf(m)]));
  }

  /** What `FindParam` returns is spelled out somewhere in the text. */
  lemma FindParamSpelled(text: string) returns (pre: string, g: Gaps, tail: string)
    requires FindParam(text).Some?
    ensures WellFormed(FindParam(text).value, g) && text == pre + Spell(FindParam(text).value, g, tail)
  {
    var k := LeftmostMatch(text, 0).value;
    var u := text[k..];
    assert MatchPrefix(u) == FindParam(text);
    g, tail := SpelledOut(u, FindParam(text).value);
    pre := text[..k];
    assert text == pre + u;
  }

  lemma SpelledOut(u: string, m: ParamMatch) returns (g: Gaps, tail: string)
    requires MatchPrefix(u) == Some(m)
    ensures WellFormed(m, g) && u == Spell(m, g, tail)
  {
    MatchPrefixSound(u, m);
    g, tail :| WellFormed(m, g) && u == Spell(m, g, tail);
  }

  /** `Required` ignores the case of the fourth word. */
  lemma ParamRequiredAnyCase(m: ParamMatch)
    requires m.required == "True" || m.required == "TRUE" || m.required == "true"
    ensures ParameterOf(m).Required
  {
    assert ToLower(m.required) == "true";
  }

  // ---------------------------------------------------------------------
  // @Success
  // ---------------------------------------------------------------------

  /** Dropping the empty parts of two groups is dropping them from each, in order. */
  lemma {:induction false} NonEmptyAppend(a: seq<string>, b: seq<string>)
    ensures NonEmpty(a + b) == NonEmpty(a) + NonEmpty(b)
    decreases |b|
  {
    if b == [] {
      assert a + b == a;
    } else {
      var ab := a + b;
      var c := b[..|b| - 1];
      var last := b[|b| - 1];
      assert ab[..|ab| - 1] == a + c && ab[|ab| - 1] == last;
      NonEmptyAppend(a, c);
      AppendAssoc(NonEmpty(a), NonEmpty(c), if last != [] then [last] else []);
    }
  }

  /** Parts that are all non-empty are kept as they are. */
  lemma {:induction false} NonEmptyKeeps(parts: seq<string>)
    requires forall i :: 0 <= i < |parts| ==> parts[i] != []
    ensures NonEmpty(parts) == parts
    decreases |parts|
  {
    if parts != [] {
      var init := parts[..|parts| - 1];
      assert forall i :: 0 <= i < |init| ==> init[i] == parts[i];
      NonEmptyKeeps(init);
      assert init + [parts[|parts| - 1]] == parts;
    }
  }

  /** An empty part, as two adjacent spaces produce, disappears. */
  lemma NonEmptyDrops(a: seq<string>, b: seq<string>)
    ensures NonEmpty(a + [[]] + b) == NonEmpty(a) + NonEmpty(b)
  {
    var empty: seq<string> := [[]];
    assert empty[..0] == [];
    assert NonEmpty(empty) == [];
    NonEmptyAppend(a, empty);
    NonEmptyAppend(a + empty, b);
  }

  /**
   * The tokens of `@Success` followed by space-separated parts: the parts
   * that are not empty, so runs of spaces count as one separator.
   */
  lemma SuccessPartsOf(parts: seq<string>)
    requires |parts| >= 1 && NoneContains(parts, ' ') && Trimmed(Join(parts, ' '))
    ensures SuccessParts(SuccessTag + " " + Join(parts, ' ')) == NonEmpty(parts)
  {
    SuccessPartsCut(Join(parts, ' '));
    SplitJoin(parts, ' ');
  }

  /** After the tag and one space, a trimmed text is split as it stands. */
  lemma SuccessPartsCut(j: string)
    requires Trimmed(j)
    ensures SuccessParts(SuccessTag + " " + j) == NonEmpty(Split(j, ' '))
  {
    var line := SuccessTag + " " + j;
    assert line[|SuccessTag|..] == " " + j + [];
    TrimSpaceOf(" ", j, []);
  }

  /** The errors of `@Success` leave the operation unchanged, and they are the only errors. */
  lemma SuccessErrors(p: Parser, st: OpState, line: string)
    requires |line| >= |SuccessTag| && !SuccessPanics(line)
    ensures var parts := SuccessParts(line);
      var o := SuccessOutcome(p, st, line);
      && (o.err.Some? ==> o.state == st)
      && (Atoi(parts[0]).Err? ==> o.err == Some(SuccessCodeError))
      && (Atoi(parts[0]).Ok? && IsModelKind(parts[1]) && |parts| < 3 ==> o.err == Some(SuccessModelTypeError))
      && (Atoi(parts[0]).Ok? && IsModelKind(parts[1]) && |parts| >= 3 ==>
            var r := p.ParseModel(parts[2], p.CurrentPackage);
            r.ResolveFailed? ==> o.err == Some(ModelError(r.message)))
      && (o.err.None? <==>
            && Atoi(parts[0]).Ok?
            && (IsModelKind(parts[1]) ==> |parts| >= 3 && p.ParseModel(parts[2], p.CurrentPackage).Resolved?))
  {
  }

  /**
   * `@Success <code> {object} <type>` and `@Success <code> {array} <type>`:
   * one response carrying the code and the resolved model's id, the model
   * and the models it refers to appended in that order, and the operation's
   * type set to the id, or to `array` with the items pointing at the id.
   */
  lemma SuccessModel(p: Parser, st: OpState, line: string)
    requires |line| >= |SuccessTag| && !SuccessPanics(line)
    requires var parts := SuccessParts(line);
      Atoi(parts[0]).Ok? && IsModelKind(parts[1]) && |parts| >= 3
      && p.ParseModel(parts[2], p.CurrentPackage).Resolved?
    ensures var parts := SuccessParts(line);
      var r := p.ParseModel(parts[2], p.CurrentPackage);
      var o := SuccessOutcome(p, st, line);
      && o.err.None?
      && o.state.ResponseMessages == st.ResponseMessages + [ResponseMessage(Atoi(parts[0]).value, "", r.model.Id)]
      && o.state.models == st.models + [r.model] + r.inner
      && (parts[1] == "{array}" ==> o.state.Type == "array" && o.state.Items == ItemsFor(p, r.model.Id))
      && (parts[1] == "{object}" ==> o.state.Type == r.model.Id && o.state.Items == st.Items)
      && o.state == st.(Type := o.state.Type, Items := o.state.Items,
                        ResponseMessages := o.state.ResponseMessages, models := o.state.models)
  {
  }

  /** Any other second token: the response's message is the third token alone. */
  lemma SuccessPlain(p: Parser, st: OpState, line: string)
    requires |line| >= |SuccessTag| && !SuccessPanics(line)
    requires var parts := SuccessParts(line); Atoi(parts[0]).Ok? && !IsModelKind(parts[1])
    ensures var parts := SuccessParts(line);
      SuccessOutcome(p, st, line) == Outcome(None, st.(ResponseMessages :=
        st.ResponseMessages + [ResponseMessage(Atoi(parts[0]).value, parts[2], "")]))
  {
  }

  /** Three words separated by single spaces are the three tokens of `@Success`. */
  lemma SuccessThreeTokens(a: string, b: string, c: string)
    requires a != [] && NoSpace(a) && b != [] && NoSpace(b) && c != [] && NoSpace(c)
    ensures SuccessParts(SuccessTag + " " + (a + " " + b + " " + c)) == [a, b, c]
  {
    var parts := [a, b, c];
    var j := a + " " + b + " " + c;
    JoinThree(a, b, c);
    forall i | 0 <= i < 3 ensures ' ' !in parts[i] {
      NoSpaceFree(parts[i]);
    }
    assert j[0] == a[0] && j[|j| - 1] == c[|c| - 1];
    SuccessPartsOf(parts);
    NonEmptyKeeps(parts);
  }

  lemma JoinThree(a: string, b: string, c: string)
    ensures Join([a, b, c], ' ') == a + " " + b + " " + c
  {
    var parts := [a, b, c];
    assert parts[1..] == [b, c] && parts[1..][1..] == [c];
    assert Join([b, c], ' ') == b + " " + c;
    assert Join(parts, ' ') == a + " " + (b + " " + c);
    assert a + " " + (b + " " + c) == a + " " + b + " " + c;
  }

  lemma NoSpaceFree(s: string)
    requires NoSpace(s)
    ensures ' ' !in s
  {
    assert forall i | 0 <= i < |s| :: s[i] != ' ';
  }

  /**
   * The form of the comment above `ParseSuccessComment`,
   * `@Success <code> {object} <type>` (or `{array}`),
   * for a 64-bit code and a type the resolver knows: no error, one response
   * with the code and the model's id, the models appended, and the type set.
   */
  lemma SuccessModelLine(p: Parser, st: OpState, code: int, kind: string, name: string)
    requires MinInt <= code <= MaxInt && IsModelKind(kind) && name != [] && NoSpace(name)
    requires p.ParseModel(name, p.CurrentPackage).Resolved?
    ensures var line := SuccessTag + " " + (Itoa(code) + " " + kind + " " + name);
      var r := p.ParseModel(name, p.CurrentPackage);
      && !SuccessPanics(line)
      && var o := SuccessOutcome(p, st, line);
      && o.err.None?
      && o.state.ResponseMessages == st.ResponseMessages + [ResponseMessage(code, "", r.model.Id)]
      && o.state.models == st.models + [r.model] + r.inner
      && (kind == "{array}" ==> o.state.Type == "array" && o.state.Items == ItemsFor(p, r.model.Id))
      && (kind == "{object}" ==> o.state.Type == r.model.Id && o.state.Items == st.Items)
  {
    var line := SuccessTag + " " + (Itoa(code) + " " + kind + " " + name);
    SuccessThreeTokens(Itoa(code), kind, name);
    AtoiItoa(code);
    SuccessModel(p, st, line);
  }

  /**
   * `@Success <code> <word> <message>` with a word other than `{object}` or
   * `{array}`: one response with the code and the message, nothing else.
   */
  lemma SuccessPlainLine(p: Parser, st: OpState, code: int, word: string, message: string)
    requires MinInt <= code <= MaxInt && !IsModelKind(word)
    requires word != [] && NoSpace(word) && message != [] && NoSpace(message)
    ensures var line := SuccessTag + " " + (Itoa(code) + " " + word + " " + message);
      && !SuccessPanics(line)
      && SuccessOutcome(p, st, line) ==
         Outcome(None, st.(ResponseMessages := st.ResponseMessages + [ResponseMessage(code, message, "")]))
  {
    var line := SuccessTag + " " + (Itoa(code) + " " + word + " " + message);
    SuccessThreeTokens(Itoa(code), word, message);
    AtoiItoa(code);
    SuccessPlain(p, st, line);
  }
}
