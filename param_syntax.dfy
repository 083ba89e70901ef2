/**
 * The `@Param` grammar. The parser searches the parameter text with the
 * regular expression
 *   four `\w+` words separated by `\s+`, then `\s+`, then `"` `[^"]+` `"`
 * unanchored, and keeps the leftmost match (Go's `FindStringSubmatch`).
 * Word and space runs are disjoint and `[^"]+` must stop at the first
 * quote, so at a given start position at most one decomposition exists;
 * `MatchPrefix` computes it run by run and the lemmas below show that it is
 * exactly the set of spellings the expression describes.
 */
module ParamSyntax {
  import opened Wrappers
  import opened GoText

  /** RE2 `\w`: ASCII letters, digits and underscore. */
  predicate IsWordChar(c: char) {
    'a' <= c <= 'z' || 'A' <= c <= 'Z' || '0' <= c <= '9' || c == '_'
  }

  /** RE2 `\s`: tab, newline, form feed, carriage return and space (not vertical tab). */
  predicate IsRegexSpace(c: char) {
    c == '\t' || c == '\n' || c == '\U{C}' || c == '\r' || c == ' '
  }

  predicate NotQuote(c: char) { c != '"' }

  /** The five capture groups. */
  datatype ParamMatch = ParamMatch(
    name: string, paramType: string, dataType: string, required: string, description: string)

  /** The four whitespace runs between the groups. */
  datatype Gaps = Gaps(g1: string, g2: string, g3: string, g4: string)

  /** Splits off the longest prefix of `u` whose characters satisfy `p`. */
  function TakeRun(u: string, p: char -> bool): (r: (string, string))
    ensures u == r.0 + r.1
    ensures r.1 == [] || !p(r.1[0])
  {
    var k := RunEnd(u, 0, p);
    assert u == u[..k] + u[k..];
    (u[..k], u[k..])
  }

  /** Every character of the run `TakeRun` splits off satisfies `p`. */
  lemma TakeRunAll(u: string, p: char -> bool)
    ensures forall i :: 0 <= i < |TakeRun(u, p).0| ==> p(TakeRun(u, p).0[i])
  {
    var k := RunEnd(u, 0, p);
    RunEndAll(u, 0, p);
    forall i | 0 <= i < k ensures p(u[..k][i]) {
      assert u[..k][i] == u[i];
    }
  }

  lemma TakeRunOf(a: string, b: string, p: char -> bool)
    requires forall i :: 0 <= i < |a| ==> p(a[i])
    requires b == [] || !p(b[0])
    ensures TakeRun(a + b, p) == (a, b)
  {
    var u := a + b;
    if b != [] {
      assert u[|a|] == b[0];
    }
    RunEndIs(u, 0, |a|, p);
    assert u[..|a|] == a && u[|a|..] == b;
  }

  /** The eight runs before the description: word, gap, word, gap, word, gap, word, gap. */
  const Pattern: seq<char -> bool> := [
    IsWordChar, IsRegexSpace, IsWordChar, IsRegexSpace,
    IsWordChar, IsRegexSpace, IsWordChar, IsRegexSpace]

  function Concat(runs: seq<string>): string
    decreases |runs|
  {
    if runs == [] then [] else runs[0] + Concat(runs[1..])
  }

  lemma ConcatCons(x: string, rest: seq<string>)
    ensures Concat([x] + rest) == x + Concat(rest)
  {
    assert ([x] + rest)[1..] == rest;
  }

  /** Greedy matching of `p1+ p2+ ... pn+` at the start of `u`: the runs and what follows them. */
  function MatchRuns(u: string, ps: seq<char -> bool>): (r: Option<(seq<string>, string)>)
    ensures r.Some? ==> |r.value.0| == |ps| && u == Concat(r.value.0) + r.value.1
    decreases |ps|
  {
    if ps == [] then Some(([], u))
    else
      var a := TakeRun(u, ps[0]);
      if a.0 == [] then None
      else
        match MatchRuns(a.1, ps[1..])
        case None => None
        case Some(more) =>
          ConcatCons(a.0, more.0);
          AppendAssoc(a.0, Concat(more.0), more.1);
          Some(([a.0] + more.0, more.1))
  }

  /**
   * `runs` spells `p1+ ... pn+` followed by `rest`: each run is non-empty and
   * made of its class, and the character after each run is outside its class.
   */
  predicate RunsFit(runs: seq<string>, ps: seq<char -> bool>, rest: string) {
    && |runs| == |ps|
    && (forall i :: 0 <= i < |ps| ==> runs[i] != [])
    && (forall i, j :: 0 <= i < |ps| && 0 <= j < |runs[i]| ==> ps[i](runs[i][j]))
    && (forall i :: 0 <= i < |ps| - 1 ==> !ps[i](runs[i + 1][0]))
    && (|ps| > 0 && rest != [] ==> !ps[|ps| - 1](rest[0]))
  }

  lemma {:induction false} MatchRunsOf(runs: seq<string>, ps: seq<char -> bool>, rest: string)
    requires RunsFit(runs, ps, rest)
    ensures MatchRuns(Concat(runs) + rest, ps) == Some((runs, rest))
    decreases |ps|
  {
    if ps != [] {
      var next := Concat(runs[1..]) + rest;
      var u := Concat(runs) + rest;
      assert u == runs[0] + next;
      RunsFitTail(runs, ps, rest);
      if |ps| > 1 {
        assert next[0] == runs[1][0];
      }
      TakeRunOf(runs[0], next, ps[0]);
      var a := TakeRun(u, ps[0]);
      assert a == (runs[0], next);
      MatchRunsOf(runs[1..], ps[1..], rest);
      assert MatchRuns(a.1, ps[1..]) == Some((runs[1..], rest));
      assert [runs[0]] + runs[1..] == runs;
    } else {
      assert Concat(runs) + rest == rest;
    }
  }

  /** The runs after the first fit the sub-patterns after the first. */
  lemma RunsFitTail(runs: seq<string>, ps: seq<char -> bool>, rest: string)
    requires RunsFit(runs, ps, rest) && ps != []
    ensures RunsFit(runs[1..], ps[1..], rest)
    ensures runs[0] != [] && forall j :: 0 <= j < |runs[0]| ==> ps[0](runs[0][j])
  {
    assert forall i :: 0 <= i < |ps| - 1 ==> runs[1..][i] == runs[i + 1] && ps[1..][i] == ps[i + 1];
  }

  /** `RunsFit` for one more run in front. */
  lemma RunsFitCons(x: string, more: seq<string>, ps: seq<char -> bool>, rest: string)
    requires |ps| >= 1
    requires x != [] && forall j :: 0 <= j < |x| ==> ps[0](x[j])
    requires RunsFit(more, ps[1..], rest)
    requires |ps| > 1 ==> !ps[0](more[0][0])
    requires |ps| == 1 && rest != [] ==> !ps[0](rest[0])
    ensures RunsFit([x] + more, ps, rest)
  {
    var runs := [x] + more;
    var qs := ps[1..];
    forall i | 0 <= i < |ps| ensures runs[i] != [] {
      if i > 0 {
        assert runs[i] == more[i - 1];
      }
    }
    forall i, j | 0 <= i < |ps| && 0 <= j < |runs[i]| ensures ps[i](runs[i][j]) {
      if i > 0 {
        assert runs[i] == more[i - 1] && ps[i] == qs[i - 1];
      }
    }
    forall i | 0 <= i < |ps| - 1 ensures !ps[i](runs[i + 1][0]) {
      assert runs[i + 1] == more[i];
      if i > 0 {
        assert runs[i] == more[i - 1] && ps[i] == qs[i - 1];
      }
    }
    if |ps| > 1 {
      assert ps[|ps| - 1] == qs[|qs| - 1];
    }
  }

  lemma {:induction false} MatchRunsFit(u: string, ps: seq<char -> bool>)
    requires MatchRuns(u, ps).Some?
    ensures RunsFit(MatchRuns(u, ps).value.0, ps, MatchRuns(u, ps).value.1)
    decreases |ps|
  {
    if ps != [] {
      var a := TakeRun(u, ps[0]);
      TakeRunAll(u, ps[0]);
      MatchRunsFit(a.1, ps[1..]);
      var more := MatchRuns(a.1, ps[1..]).value;
      if |ps| > 1 {
        assert Concat(more.0) == more.0[0] + Concat(more.0[1..]);
        assert a.1[0] == more.0[0][0];
      } else {
        assert a.1 == more.1;
      }
      RunsFitCons(a.0, more.0, ps, more.1);
    }
  }

  /** The match, if any, of the expression anchored at the start of `u`. */
  function MatchPrefix(u: string): Option<ParamMatch> {
    match MatchRuns(u, Pattern)
    case None => None
    case Some(r) =>
      if r.1 != [] && r.1[0] == '"' then
        var q := TakeRun(r.1[1..], NotQuote);
        if q.0 != [] && q.1 != [] then Some(ParamMatch(r.0[0], r.0[2], r.0[4], r.0[6], q.0)) else None
      else
        None
  }

  predicate IsWord(w: string) {
    w != [] && forall i :: 0 <= i < |w| ==> IsWordChar(w[i])
  }

  predicate IsGap(w: string) {
    w != [] && forall i :: 0 <= i < |w| ==> IsRegexSpace(w[i])
  }

  /** The groups and gaps are what the expression's sub-patterns can match. */
  predicate WellFormed(m: ParamMatch, g: Gaps) {
    && IsWord(m.name) && IsWord(m.paramType) && IsWord(m.dataType) && IsWord(m.required)
    && IsGap(g.g1) && IsGap(g.g2) && IsGap(g.g3) && IsGap(g.g4)
    && m.description != [] && '"' !in m.description
  }

  function Runs(m: ParamMatch, g: Gaps): seq<string> {
    [m.name, g.g1, m.paramType, g.g2, m.dataType, g.g3, m.required, g.g4]
  }

  /** A text the expression matches from its start, followed by anything. */
  function Spell(m: ParamMatch, g: Gaps, tail: string): string {
    Concat(Runs(m, g)) + (['"'] + (m.description + (['"'] + tail)))
  }

  /** Well-formed groups and gaps fit `Pattern`, whatever follows the opening quote. */
  lemma PatternFit(m: ParamMatch, g: Gaps, rest: string)
    requires WellFormed(m, g)
    requires rest != [] && rest[0] == '"'
    ensures RunsFit(Runs(m, g), Pattern, rest)
  {
    var runs := Runs(m, g);
    forall i, j | 0 <= i < 8 && 0 <= j < |runs[i]| ensures Pattern[i](runs[i][j]) {
      PatternAt(i);
      RunAt(m, g, i);
    }
    forall i | 0 <= i < 7 ensures !Pattern[i](runs[i + 1][0]) {
      PatternAt(i);
      RunAt(m, g, i + 1);
    }
  }

  /** The sub-patterns alternate between word characters and white space. */
  lemma PatternAt(i: nat)
    requires i < 8
    ensures Pattern[i] == if i % 2 == 0 then IsWordChar else IsRegexSpace
  {
  }

  /** The runs of a well-formed spelling alternate between words and gaps. */
  lemma RunAt(m: ParamMatch, g: Gaps, i: nat)
    requires WellFormed(m, g) && i < 8
    ensures if i % 2 == 0 then IsWord(Runs(m, g)[i]) else IsGap(Runs(m, g)[i])
  {
  }

  /** Every spelling of the expression is recognised, with its own groups. */
  lemma MatchPrefixComplete(m: ParamMatch, g: Gaps, tail: string)
    requires WellFormed(m, g)
    ensures MatchPrefix(Spell(m, g, tail)) == Some(m)
  {
    var runs := Runs(m, g);
    var rest := ['"'] + (m.description + (['"'] + tail));
    PatternFit(m, g, rest);
    MatchRunsOf(runs, Pattern, rest);
    assert rest[1..] == m.description + (['"'] + tail);
    TakeRunOf(m.description, ['"'] + tail, NotQuote);
  }

  /** Runs that fit `Pattern` are words and gaps, alternately. */
  lemma PatternRuns(u: string, d: string)
    requires MatchRuns(u, Pattern).Some?
    requires d != [] && '"' !in d
    ensures var runs := MatchRuns(u, Pattern).value.0;
      WellFormed(ParamMatch(runs[0], runs[2], runs[4], runs[6], d), Gaps(runs[1], runs[3], runs[5], runs[7]))
  {
    var r := MatchRuns(u, Pattern).value;
    MatchRunsFit(u, Pattern);
    WordRun(r.0, r.1, 0);
    GapRun(r.0, r.1, 1);
    WordRun(r.0, r.1, 2);
    GapRun(r.0, r.1, 3);
    WordRun(r.0, r.1, 4);
    GapRun(r.0, r.1, 5);
    WordRun(r.0, r.1, 6);
    GapRun(r.0, r.1, 7);
  }

  lemma WordRun(runs: seq<string>, rest: string, i: nat)
    requires RunsFit(runs, Pattern, rest) && i < 8 && i % 2 == 0
    ensures IsWord(runs[i])
  {
    assert Pattern[i] == IsWordChar;
    assert forall j :: 0 <= j < |runs[i]| ==> Pattern[i](runs[i][j]);
  }

  lemma GapRun(runs: seq<string>, rest: string, i: nat)
    requires RunsFit(runs, Pattern, rest) && i < 8 && i % 2 == 1
    ensures IsGap(runs[i])
  {
    assert Pattern[i] == IsRegexSpace;
    assert forall j :: 0 <= j < |runs[i]| ==> Pattern[i](runs[i][j]);
  }

  /** A recognised text, cut at the boundaries of its runs. */
  lemma MatchPrefixSpelling(u: string) returns (g: Gaps, tail: string)
    requires MatchPrefix(u).Some?
    ensures var runs := MatchRuns(u, Pattern).value.0;
      g == Gaps(runs[1], runs[3], runs[5], runs[7])
    ensures u == Spell(MatchPrefix(u).value, g, tail)
  {
    var m := MatchPrefix(u).value;
    var r := MatchRuns(u, Pattern).value;
    var q := TakeRun(r.1[1..], NotQuote);
    g := Gaps(r.0[1], r.0[3], r.0[5], r.0[7]);
    tail := q.1[1..];
    assert r.0 == [r.0[0], r.0[1], r.0[2], r.0[3], r.0[4], r.0[5], r.0[6], r.0[7]];
    assert r.0 == Runs(m, g);
    assert r.1 == ['"'] + (q.0 + (['"'] + tail));
  }

  /** Everything recognised is a spelling of the expression with those groups. */
  lemma MatchPrefixSound(u: string, m: ParamMatch)
    requires MatchPrefix(u) == Some(m)
    ensures exists g, tail :: WellFormed(m, g) && u == Spell(m, g, tail)
  {
    var r := MatchRuns(u, Pattern).value;
    var q := TakeRun(r.1[1..], NotQuote);
    assert m == ParamMatch(r.0[0], r.0[2], r.0[4], r.0[6], q.0);
    TakeRunAll(r.1[1..], NotQuote);
    assert '"' !in q.0;
    PatternRuns(u, q.0);
    var g, tail := MatchPrefixSpelling(u);
    assert WellFormed(m, g) && u == Spell(m, g, tail);
  }

  // ---------------------------------------------------------------------
  // Unanchored leftmost search
  // ---------------------------------------------------------------------

  function MatchAt(s: string, i: nat): Option<ParamMatch>
    requires i <= |s|
  {
    MatchPrefix(s[i..])
  }

  /** The first position at or after `i` where a match starts. */
  function LeftmostMatch(s: string, i: nat): (k: Option<nat>)
    requires i <= |s|
    ensures k.Some? ==> i <= k.value <= |s| && MatchAt(s, k.value).Some?
    ensures k.Some? ==> forall j :: i <= j < k.value ==> MatchAt(s, j).None?
    ensures k.None? ==> forall j :: i <= j <= |s| ==> MatchAt(s, j).None?
    decreases |s| - i
  {
    if MatchAt(s, i).Some? then Some(i)
    else if i == |s| then None
    else LeftmostMatch(s, i + 1)
  }

  /** `FindStringSubmatch` with the `@Param` expression: the groups of the leftmost match. */
  function FindParam(s: string): Option<ParamMatch> {
    match LeftmostMatch(s, 0)
    case None => None
    case Some(k) => MatchAt(s, k)
  }

  /** A match found is a match at some position with no match before it. */
  lemma FindParamLeftmost(s: string)
    ensures FindParam(s).Some? <==> exists j :: 0 <= j <= |s| && MatchAt(s, j).Some?
    ensures FindParam(s).Some? ==>
      exists k :: 0 <= k <= |s| && FindParam(s) == MatchAt(s, k)
        && forall j :: 0 <= j < k ==> MatchAt(s, j).None?
  {
  }

  /** A spelling anywhere is found, provided no match starts before it. */
  lemma FindParamOf(pre: string, m: ParamMatch, g: Gaps, tail: string)
    requires WellFormed(m, g)
    requires forall j :: 0 <= j < |pre| ==> MatchAt(pre + Spell(m, g, tail), j).None?
    ensures FindParam(pre + Spell(m, g, tail)) == Some(m)
  {
    var s := pre + Spell(m, g, tail);
    assert s[|pre|..] == Spell(m, g, tail);
    MatchPrefixComplete(m, g, tail);
    assert MatchAt(s, |pre|) == Some(m);
  }
}
