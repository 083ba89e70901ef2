/**
 * The pieces of Go's `unicode`, `strings` and `strconv` packages that the
 * comment parser relies on, written out with the behaviour of the Go
 * library. Strings are sequences of characters; the parser's byte-offset
 * slicing is taken to be character slicing (ASCII comment text).
 */
module GoText {
  import opened Wrappers

  // ---------------------------------------------------------------------
  // Character classes
  // ---------------------------------------------------------------------

  /** `unicode.IsSpace`: the Latin-1 spaces plus the Unicode White_Space set. */
  predicate IsSpace(c: char) {
    c == '\t' || c == '\n' || c == '\U{B}' || c == '\U{C}' || c == '\r' || c == ' '
    || c == '\U{85}' || c == '\U{A0}' || c == '\U{1680}'
    || ('\U{2000}' <= c <= '\U{200A}')
    || c == '\U{2028}' || c == '\U{2029}' || c == '\U{202F}' || c == '\U{205F}'
    || c == '\U{3000}'
  }

  predicate IsNonSpace(c: char) { !IsSpace(c) }

  predicate IsSlash(c: char) { c == '/' }

  predicate IsBracket(c: char) { c == '[' || c == ']' }

  predicate IsDigit(c: char) { '0' <= c <= '9' }

  predicate AllSpace(s: string) {
    forall i :: 0 <= i < |s| ==> IsSpace(s[i])
  }

  /** A string that `strings.TrimSpace` leaves as it is. */
  predicate Trimmed(s: string) {
    s == [] || (!IsSpace(s[0]) && !IsSpace(s[|s| - 1]))
  }

  // ---------------------------------------------------------------------
  // Runs and trimming
  // ---------------------------------------------------------------------

  /** The end of the longest run of characters satisfying `p` that starts at `i`. */
  function RunEnd(s: string, i: nat, p: char -> bool): (k: nat)
    requires i <= |s|
    ensures i <= k <= |s|
    ensures k == |s| || !p(s[k])
    decreases |s| - i
  {
    if i < |s| && p(s[i]) then RunEnd(s, i + 1, p) else i
  }

  /** Every character of the run satisfies `p`. */
  lemma {:induction false} RunEndAll(s: string, i: nat, p: char -> bool)
    requires i <= |s|
    ensures forall j :: i <= j < RunEnd(s, i, p) ==> p(s[j])
    decreases |s| - i
  {
    if i < |s| && p(s[i]) {
      RunEndAll(s, i + 1, p);
    }
  }

  /** The start of the longest run of characters satisfying `p` that ends at `k`. */
  function RunStart(s: string, k: nat, p: char -> bool): (j: nat)
    requires k <= |s|
    ensures j <= k
    ensures j == 0 || !p(s[j - 1])
    decreases k
  {
    if k > 0 && p(s[k - 1]) then RunStart(s, k - 1, p) else k
  }

  /** Every character of the run satisfies `p`. */
  lemma {:induction false} RunStartAll(s: string, k: nat, p: char -> bool)
    requires k <= |s|
    ensures forall i :: RunStart(s, k, p) <= i < k ==> p(s[i])
    decreases k
  {
    if k > 0 && p(s[k - 1]) {
      RunStartAll(s, k - 1, p);
    }
  }

  /** `RunEnd` is determined by its contract: any run boundary it describes is the one it returns. */
  lemma RunEndIs(s: string, i: nat, k: nat, p: char -> bool)
    requires i <= k <= |s|
    requires forall j :: i <= j < k ==> p(s[j])
    requires k == |s| || !p(s[k])
    ensures RunEnd(s, i, p) == k
  {
    RunEndAll(s, i, p);
  }

  lemma RunStartIs(s: string, j: nat, k: nat, p: char -> bool)
    requires j <= k <= |s|
    requires forall i :: j <= i < k ==> p(s[i])
    requires j == 0 || !p(s[j - 1])
    ensures RunStart(s, k, p) == j
  {
    RunStartAll(s, k, p);
  }

  /** `strings.TrimLeftFunc(s, p)`. */
  function TrimLeftBy(s: string, p: char -> bool): (r: string)
    ensures |r| <= |s| && r == s[|s| - |r|..]
    ensures r == [] || !p(r[0])
  {
    s[RunEnd(s, 0, p)..]
  }

  /** `strings.TrimRightFunc(s, p)`. */
  function TrimRightBy(s: string, p: char -> bool): (r: string)
    ensures |r| <= |s| && r == s[..|r|]
    ensures r == [] || !p(r[|r| - 1])
  {
    s[..RunStart(s, |s|, p)]
  }

  /** `strings.TrimSpace`. */
  function TrimSpace(s: string): (r: string)
    ensures Trimmed(r)
    ensures |r| <= |s|
  {
    TrimRightBy(TrimLeftBy(s, IsSpace), IsSpace)
  }

  /** `strings.TrimLeft(s, "//")`: the cut set is the single character '/'. */
  function TrimLeftSlashes(s: string): (r: string)
    ensures r == [] || r[0] != '/'
    ensures exists n :: 0 <= n <= |s| && s == Repeat('/', n) + r
  {
    var k := RunEnd(s, 0, IsSlash);
    RunEndAll(s, 0, IsSlash);
    assert s == Repeat('/', k) + s[k..];
    s[k..]
  }

  function Repeat(c: char, n: nat): (r: string)
    ensures |r| == n && forall i :: 0 <= i < n ==> r[i] == c
  {
    seq(n, _ => c)
  }

  /** `strings.Trim(s, "[]")`. */
  function TrimBrackets(s: string): (r: string)
    ensures r == [] || (!IsBracket(r[0]) && !IsBracket(r[|r| - 1]))
  {
    TrimRightBy(TrimLeftBy(s, IsBracket), IsBracket)
  }

  /** `strings.Trim(s, "[]")` on a bracketed word that has no brackets at its ends. */
  lemma TrimBracketsOf(core: string)
    requires core != [] && !IsBracket(core[0]) && !IsBracket(core[|core| - 1])
    ensures TrimBrackets("[" + core + "]") == core
  {
    var s := "[" + core + "]";
    assert s[1] == core[0];
    RunEndIs(s, 0, 1, IsBracket);
    var l := s[1..];
    assert l == core + "]";
    assert l[|core| - 1] == core[|core| - 1];
    RunStartIs(l, |core|, |l|, IsBracket);
    assert l[..|core|] == core;
  }

  predicate AllBrackets(s: string) {
    forall i :: 0 <= i < |s| ==> IsBracket(s[i])
  }

  /** `strings.Trim(s, "[]")` drops brackets at the two ends and keeps everything between. */
  lemma TrimBracketsShape(s: string)
    ensures exists a, b :: AllBrackets(a) && AllBrackets(b) && s == a + TrimBrackets(s) + b
  {
    var k := RunEnd(s, 0, IsBracket);
    var l := TrimLeftBy(s, IsBracket);
    assert l == s[k..];
    var m := RunStart(l, |l|, IsBracket);
    assert TrimBrackets(s) == TrimRightBy(l, IsBracket) == l[..m];
    RunEndAll(s, 0, IsBracket);
    RunStartAll(l, |l|, IsBracket);
    var a, b := s[..k], l[m..];
    assert forall i | 0 <= i < |a| :: a[i] == s[i];
    assert forall i | 0 <= i < |b| :: b[i] == l[m + i];
    CutTwice(s, k, m);
    assert AllBrackets(a) && AllBrackets(b) && s == a + TrimBrackets(s) + b;
  }

  /** A text with no bracket at either end is left as it is. */
  lemma TrimBracketsKeeps(s: string)
    requires s == [] || (!IsBracket(s[0]) && !IsBracket(s[|s| - 1]))
    ensures TrimBrackets(s) == s
  {
    RunEndIs(s, 0, 0, IsBracket);
    assert s[0..] == s;
    RunStartIs(s, |s|, |s|, IsBracket);
    assert s[..|s|] == s;
  }

  /** The characters `TrimLeftBy(s, IsSpace)` drops are spaces. */
  lemma LeadingSpaces(s: string, k: nat)
    requires k == RunEnd(s, 0, IsSpace)
    ensures AllSpace(s[..k])
  {
    RunEndAll(s, 0, IsSpace);
    forall i | 0 <= i < k ensures IsSpace(s[..k][i]) {
      assert s[..k][i] == s[i];
    }
  }

  /** The characters `TrimRightBy(l, IsSpace)` drops are spaces. */
  lemma TrailingSpaces(l: string, m: nat)
    requires m == RunStart(l, |l|, IsSpace)
    ensures AllSpace(l[m..])
  {
    RunStartAll(l, |l|, IsSpace);
    forall i | 0 <= i < |l| - m ensures IsSpace(l[m..][i]) {
      assert l[m..][i] == l[m + i];
    }
  }

  /** Cutting at `k` and then at `k + m` and gluing back gives the string. */
  lemma CutTwice(s: string, k: nat, m: nat)
    requires k + m <= |s|
    ensures s == s[..k] + s[k..][..m] + s[k..][m..]
  {
    assert s == s[..k] + s[k..];
    assert s[k..] == s[k..][..m] + s[k..][m..];
  }

  /** Every string is some spaces, its trimmed core and some more spaces. */
  lemma TrimSpaceShape(s: string)
    ensures exists a, b :: AllSpace(a) && AllSpace(b) && s == a + TrimSpace(s) + b
  {
    var k := RunEnd(s, 0, IsSpace);
    var l := TrimLeftBy(s, IsSpace);
    assert l == s[k..];
    var m := RunStart(l, |l|, IsSpace);
    assert TrimSpace(s) == TrimRightBy(l, IsSpace) == l[..m];
    LeadingSpaces(s, k);
    TrailingSpaces(l, m);
    CutTwice(s, k, m);
    var a, b := s[..k], l[m..];
    assert AllSpace(a) && AllSpace(b) && s == a + TrimSpace(s) + b;
  }

  /** `TrimSpace` removes exactly the surrounding spaces and nothing of a trimmed core. */
  lemma TrimSpaceOf(a: string, core: string, b: string)
    requires AllSpace(a) && AllSpace(b) && Trimmed(core)
    ensures TrimSpace(a + core + b) == core
  {
    var s := a + core + b;
    if core == [] {
      assert AllSpace(s);
      RunEndIs(s, 0, |s|, IsSpace);
    } else {
      assert s[|a|] == core[0];
      RunEndIs(s, 0, |a|, IsSpace);
      var l := s[|a|..];
      assert l == core + b;
      assert l[|core| - 1] == core[|core| - 1];
      RunStartIs(l, |core|, |l|, IsSpace);
      assert l[..|core|] == core;
    }
  }

  lemma TrimSpaceIdempotent(s: string)
    ensures TrimSpace(TrimSpace(s)) == TrimSpace(s)
  {
    var r := TrimSpace(s);
    TrimSpaceOf([], r, []);
    assert [] + r + [] == r;
  }

  // ---------------------------------------------------------------------
  // Splitting and joining
  // ---------------------------------------------------------------------

  /** The index of the first `c` in `s`, or `|s|` when there is none. */
  function IndexOf(s: string, c: char): (k: nat)
    ensures k <= |s|
    ensures k < |s| ==> s[k] == c
  {
    RunEnd(s, 0, x => x != c)
  }

  /** No `c` comes before `IndexOf(s, c)`. */
  lemma IndexOfFirst(s: string, c: char)
    ensures c !in s[..IndexOf(s, c)]
  {
    RunEndAll(s, 0, x => x != c);
    var k := IndexOf(s, c);
    forall j | 0 <= j < k ensures s[..k][j] != c {
      assert s[..k][j] == s[j];
    }
  }

  /** `IndexOf` is determined by its contract: the first `c`, or the end. */
  lemma IndexOfIs(s: string, c: char, k: nat)
    requires k <= |s| && c !in s[..k] && (k == |s| || s[k] == c)
    ensures IndexOf(s, c) == k
  {
    var j := IndexOf(s, c);
    IndexOfFirst(s, c);
    assert forall i | 0 <= i < k :: s[..k][i] == s[i];
    assert forall i | 0 <= i < j :: s[..j][i] == s[i];
  }

  lemma AppendAssoc<T>(a: seq<T>, b: seq<T>, c: seq<T>)
    ensures (a + b) + c == a + (b + c)
  {
  }

  /** `strings.Join(parts, string(sep))`. */
  function Join(parts: seq<string>, sep: char): string
    requires |parts| >= 1
    decreases |parts|
  {
    if |parts| == 1 then parts[0] else parts[0] + [sep] + Join(parts[1..], sep)
  }

  predicate NoneContains(parts: seq<string>, sep: char) {
    forall i :: 0 <= i < |parts| ==> sep !in parts[i]
  }

  /** `strings.Split(s, string(sep))` for a one-character separator. */
  function Split(s: string, sep: char): (parts: seq<string>)
    ensures |parts| >= 1
    decreases |s|
  {
    var k := IndexOf(s, sep);
    if k == |s| then [s] else [s[..k]] + Split(s[k + 1..], sep)
  }

  /** `Join` of a piece in front of more pieces. */
  lemma JoinCons(x: string, rest: seq<string>, sep: char)
    requires |rest| >= 1
    ensures Join([x] + rest, sep) == x + [sep] + Join(rest, sep)
  {
    assert ([x] + rest)[1..] == rest;
  }

  /** A string is its text before `k`, the character at `k`, and the text after. */
  lemma CutAt(s: string, k: nat)
    requires k < |s|
    ensures s == s[..k] + [s[k]] + s[k + 1..]
  {
  }

  /** The pieces of `Split` join back to the string. */
  lemma {:induction false} SplitJoinBack(s: string, sep: char)
    ensures Join(Split(s, sep), sep) == s
    decreases |s|
  {
    var k := IndexOf(s, sep);
    if k < |s| {
      SplitJoinBack(s[k + 1..], sep);
      JoinCons(s[..k], Split(s[k + 1..], sep), sep);
      CutAt(s, k);
    }
  }

  /** No piece of `Split` contains the separator. */
  lemma {:induction false} SplitSeparators(s: string, sep: char)
    ensures NoneContains(Split(s, sep), sep)
    decreases |s|
  {
    var k := IndexOf(s, sep);
    IndexOfFirst(s, sep);
    if k == |s| {
      assert s[..k] == s;
    } else {
      var rest := Split(s[k + 1..], sep);
      SplitSeparators(s[k + 1..], sep);
      var parts := [s[..k]] + rest;
      forall i | 0 <= i < |parts| ensures sep !in parts[i] {
        if i > 0 {
          assert parts[i] == rest[i - 1];
        }
      }
    }
  }

  /** Splitting undoes joining pieces that do not contain the separator. */
  lemma {:induction false} SplitJoin(parts: seq<string>, sep: char)
    requires |parts| >= 1 && NoneContains(parts, sep)
    ensures Split(Join(parts, sep), sep) == parts
    decreases |parts|
  {
    var s := Join(parts, sep);
    if |parts| == 1 {
      assert s[..|s|] == s;
      IndexOfIs(s, sep, |s|);
    } else {
      JoinCut(parts, sep);
      SplitJoin(parts[1..], sep);
      assert parts == [parts[0]] + parts[1..];
    }
  }

  /** A joined string is cut at the end of its first piece. */
  lemma JoinCut(parts: seq<string>, sep: char)
    requires |parts| >= 2 && sep !in parts[0]
    ensures var s := Join(parts, sep);
      && IndexOf(s, sep) == |parts[0]|
      && s[..|parts[0]|] == parts[0]
      && s[|parts[0]| + 1..] == Join(parts[1..], sep)
  {
    var s := Join(parts, sep);
    assert s == parts[0] + [sep] + Join(parts[1..], sep);
    assert s[..|parts[0]|] == parts[0];
    IndexOfIs(s, sep, |parts[0]|);
    assert s[|parts[0]| + 1..] == Join(parts[1..], sep);
  }

  /** `strings.SplitN(s, string(sep), n)` for `n > 0`: at most `n` pieces, the last one unsplit. */
  function SplitN(s: string, sep: char, n: nat): (parts: seq<string>)
    requires n >= 1
    ensures 1 <= |parts| <= n
    decreases n
  {
    var k := IndexOf(s, sep);
    if n == 1 || k == |s| then [s] else [s[..k]] + SplitN(s[k + 1..], sep, n - 1)
  }

  /** The pieces of `SplitN` join back to the string. */
  lemma {:induction false} SplitNJoin(s: string, sep: char, n: nat)
    requires n >= 1
    ensures Join(SplitN(s, sep, n), sep) == s
    decreases n
  {
    var k := IndexOf(s, sep);
    if n > 1 && k < |s| {
      SplitNJoin(s[k + 1..], sep, n - 1);
      JoinCons(s[..k], SplitN(s[k + 1..], sep, n - 1), sep);
      CutAt(s, k);
    }
  }

  /** No piece but possibly the last contains the separator. */
  predicate InnerFree(parts: seq<string>, sep: char) {
    forall i :: 0 <= i < |parts| - 1 ==> sep !in parts[i]
  }

  /**
   * Only the last piece of `SplitN` can contain the separator, and only when
   * the piece budget is used up.
   */
  lemma {:induction false} SplitNSeparators(s: string, sep: char, n: nat)
    requires n >= 1
    ensures InnerFree(SplitN(s, sep, n), sep)
    ensures |SplitN(s, sep, n)| < n ==> sep !in SplitN(s, sep, n)[|SplitN(s, sep, n)| - 1]
    decreases n
  {
    var parts := SplitN(s, sep, n);
    var k := IndexOf(s, sep);
    IndexOfFirst(s, sep);
    if n == 1 || k == |s| {
      assert k == |s| ==> s[..k] == s;
    } else {
      var rest := SplitN(s[k + 1..], sep, n - 1);
      SplitNSeparators(s[k + 1..], sep, n - 1);
      InnerFreeCons(s[..k], rest, sep);
    }
  }

  /** A separator-free piece in front keeps only the last piece able to hold the separator. */
  lemma InnerFreeCons(x: string, rest: seq<string>, sep: char)
    requires sep !in x && rest != [] && InnerFree(rest, sep)
    ensures InnerFree([x] + rest, sep)
    ensures ([x] + rest)[|[x] + rest| - 1] == rest[|rest| - 1]
  {
    var parts := [x] + rest;
    forall i | 0 <= i < |parts| - 1 ensures sep !in parts[i] {
      if i > 0 {
        assert parts[i] == rest[i - 1];
      }
    }
  }

  /** With `n == 2` the string is cut at its first separator, if there is one. */
  lemma SplitInTwo(s: string, sep: char)
    ensures (IndexOf(s, sep) == |s|) == (sep !in s)
    ensures var k := IndexOf(s, sep);
      SplitN(s, sep, 2) == if k == |s| then [s] else [s[..k], s[k + 1..]]
  {
    IndexOfFirst(s, sep);
    assert s[..|s|] == s;
  }

  // ---------------------------------------------------------------------
  // Case mapping (ASCII letters)
  // ---------------------------------------------------------------------

  function UpperChar(c: char): char {
    if 'a' <= c <= 'z' then (c as int - 32) as char else c
  }

  function LowerChar(c: char): char {
    if 'A' <= c <= 'Z' then (c as int + 32) as char else c
  }

  /** `strings.ToUpper` on ASCII letters. */
  function ToUpper(s: string): (r: string)
    ensures |r| == |s| && forall i :: 0 <= i < |s| ==> r[i] == UpperChar(s[i])
  {
    seq(|s|, i requires 0 <= i < |s| => UpperChar(s[i]))
  }

  /** `strings.ToLower` on ASCII letters. */
  function ToLower(s: string): (r: string)
    ensures |r| == |s| && forall i :: 0 <= i < |s| ==> r[i] == LowerChar(s[i])
  {
    seq(|s|, i requires 0 <= i < |s| => LowerChar(s[i]))
  }

  // ---------------------------------------------------------------------
  // strconv.Atoi on a 64-bit platform
  // ---------------------------------------------------------------------

  const MinInt: int := -0x8000_0000_0000_0000
  const MaxInt: int := 0x7FFF_FFFF_FFFF_FFFF

  datatype NumError = ErrSyntax | ErrRange

  predicate AllDigits(s: string) {
    forall i :: 0 <= i < |s| ==> IsDigit(s[i])
  }

  /** The value of a run of decimal digits, most significant first. */
  function DigitsValue(s: string): nat
    requires AllDigits(s)
    decreases |s|
  {
    if s == [] then 0
    else DigitsValue(s[..|s| - 1]) * 10 + (s[|s| - 1] as int - '0' as int)
  }

  /** The digits after an optional sign. */
  function Unsigned(s: string): string {
    if s != [] && (s[0] == '+' || s[0] == '-') then s[1..] else s
  }

  /** The shape `strconv.Atoi` accepts: an optional sign and at least one digit. */
  predicate IsDecimal(s: string) {
    Unsigned(s) != [] && AllDigits(Unsigned(s))
  }

  function SignedValue(s: string): int
    requires IsDecimal(s)
  {
    var v: int := DigitsValue(Unsigned(s));
    if s[0] == '-' then -v else v
  }

  const MaxUint64: int := 0xFFFF_FFFF_FFFF_FFFF

  /** The longest run of digits at the start of `s`. */
  function LeadingDigits(s: string): (d: string)
    ensures |d| <= |s| && d == s[..|d|] && AllDigits(d)
    ensures |d| < |s| ==> !IsDigit(s[|d|])
    decreases |s|
  {
    if s == [] || !IsDigit(s[0]) then []
    else
      var d := [s[0]] + LeadingDigits(s[1..]);
      assert s[..|d|] == [s[0]] + s[1..][..|d| - 1];
      d
  }

  /**
   * `strconv.ParseUint`, which `strconv.Atoi` reaches for texts of 19 or
   * more characters, reads the digits one by one and reports a range error
   * as soon as the value read so far passes 2^64 - 1, before it looks at
   * any character after them.
   */
  predicate Overflows(s: string) {
    DigitsValue(LeadingDigits(Unsigned(s))) > MaxUint64
  }

  lemma LeadingDigitsAll(s: string)
    requires AllDigits(s)
    ensures LeadingDigits(s) == s
  {
    assert s[..|s|] == s;
  }

  /**
   * `strconv.Atoi`: a range error when the digits overflow 64 unsigned bits
   * or the value lies outside 64 signed bits, a syntax error for any other
   * text that is not an optional sign followed by digits. Texts shorter than
   * 19 characters take Go's fast path, where neither range error can occur
   * (`AtoiShort`), so one definition covers both paths.
   */
  function Atoi(s: string): (r: Result<int, NumError>)
    ensures r.Ok? <==> IsDecimal(s) && MinInt <= SignedValue(s) <= MaxInt
    ensures r.Ok? ==> r.value == SignedValue(s)
    ensures r == Err(ErrSyntax) <==> !IsDecimal(s) && !Overflows(s)
    ensures r == Err(ErrRange) <==> Overflows(s) || (IsDecimal(s) && !(MinInt <= SignedValue(s) <= MaxInt))
  {
    if IsDecimal(s) then LeadingDigitsAll(Unsigned(s)); AtoiDecimal(s)
    else if Overflows(s) then Err(ErrRange)
    else Err(ErrSyntax)
  }

  function AtoiDecimal(s: string): (r: Result<int, NumError>)
    requires IsDecimal(s)
  {
    var v := SignedValue(s);
    if v < MinInt || v > MaxInt then Err(ErrRange) else Ok(v)
  }

  /** The value of `n` digits is below 10^n. */
  function Pow10(n: nat): nat {
    if n == 0 then 1 else 10 * Pow10(n - 1)
  }

  lemma {:induction false} DigitsValueBound(s: string)
    requires AllDigits(s)
    ensures DigitsValue(s) < Pow10(|s|)
    decreases |s|
  {
    if s != [] {
      var init := s[..|s| - 1];
      assert AllDigits(init) by {
        assert forall i | 0 <= i < |init| :: init[i] == s[i];
      }
      DigitsValueBound(init);
    }
  }

  lemma Pow10Eighteen()
    ensures Pow10(18) == 1_000_000_000_000_000_000
  {
    assert Pow10(1) == 10;
    assert Pow10(2) == 100;
    assert Pow10(3) == 1_000;
    assert Pow10(4) == 10_000;
    assert Pow10(5) == 100_000;
    assert Pow10(6) == 1_000_000;
    assert Pow10(7) == 10_000_000;
    assert Pow10(8) == 100_000_000;
    assert Pow10(9) == 1_000_000_000;
    assert Pow10(10) == 10_000_000_000;
    assert Pow10(11) == 100_000_000_000;
    assert Pow10(12) == 1_000_000_000_000;
    assert Pow10(13) == 10_000_000_000_000;
    assert Pow10(14) == 100_000_000_000_000;
    assert Pow10(15) == 1_000_000_000_000_000;
    assert Pow10(16) == 10_000_000_000_000_000;
    assert Pow10(17) == 100_000_000_000_000_000;
  }

  lemma {:induction false} Pow10Monotone(m: nat, n: nat)
    requires m <= n
    ensures Pow10(m) <= Pow10(n)
    decreases n
  {
    if m < n {
      Pow10Monotone(m, n - 1);
    }
  }

  /**
   * Go's fast path: on a text of fewer than 19 characters `Atoi` never
   * reports a range error, so a syntax error there means exactly that the
   * text is not decimal.
   */
  lemma AtoiShort(s: string)
    requires |s| < 19
    ensures !Overflows(s)
    ensures Atoi(s).Err? <==> !IsDecimal(s)
    ensures Atoi(s).Err? ==> Atoi(s).error == ErrSyntax
  {
    var u := Unsigned(s);
    var d := LeadingDigits(u);
    DigitsValueBound(d);
    Pow10Monotone(|d|, 18);
    Pow10Eighteen();
    if IsDecimal(s) {
      LeadingDigitsAll(u);
    }
  }

  /**
   * The order of the checks: digits that overflow 64 unsigned bits give a
   * range error even when other characters follow them.
   */
  lemma AtoiOverflowFirst(digits: string, rest: string)
    requires AllDigits(digits) && DigitsValue(digits) > MaxUint64
    requires rest == [] || !IsDigit(rest[0])
    ensures Atoi(digits + rest) == Err(ErrRange)
  {
    var s := digits + rest;
    assert digits != [] && s[0] == digits[0];
    assert Unsigned(s) == s;
    LeadingDigitsOf(digits, rest);
  }

  /** Digits that fit, followed by another character: a syntax error. */
  lemma AtoiJunk(digits: string, rest: string)
    requires AllDigits(digits) && DigitsValue(digits) <= MaxUint64
    requires rest != [] && !IsDigit(rest[0]) && rest[0] != '+' && rest[0] != '-'
    ensures Atoi(digits + rest) == Err(ErrSyntax)
  {
    var s := digits + rest;
    if digits == [] {
      assert s == rest;
      assert LeadingDigits(s) == [];
    } else {
      assert s[0] == digits[0];
      LeadingDigitsOf(digits, rest);
      assert s[|digits|] == rest[0];
    }
    assert Unsigned(s) == s;
  }

  lemma LeadingDigitsOf(digits: string, rest: string)
    requires AllDigits(digits)
    requires rest == [] || !IsDigit(rest[0])
    ensures LeadingDigits(digits + rest) == digits
  {
    var s := digits + rest;
    var d := LeadingDigits(s);
    assert forall i | 0 <= i < |digits| :: s[i] == digits[i];
    assert forall i | 0 <= i < |d| :: d[i] == s[i];
    assert rest != [] ==> s[|digits|] == rest[0];
    assert |d| == |digits|;
    assert s[..|digits|] == digits;
  }

  /** Decimal digits of a natural number without leading zeros (`strconv.Itoa` for `n >= 0`). */
  function NatDigits(n: nat): (s: string)
    ensures s != [] && AllDigits(s)
    decreases n
  {
    var d := [('0' as int + n % 10) as char];
    if n < 10 then d else NatDigits(n / 10) + d
  }

  /** `strconv.Itoa`. */
  function Itoa(n: int): (s: string)
    ensures s != [] && forall i :: 0 <= i < |s| ==> !IsSpace(s[i])
  {
    if n < 0 then ['-'] + NatDigits(-n) else NatDigits(n)
  }

  lemma {:induction false} NatDigitsValue(n: nat)
    ensures DigitsValue(NatDigits(n)) == n
    decreases n
  {
    var s := NatDigits(n);
    if n >= 10 {
      NatDigitsValue(n / 10);
      assert s[..|s| - 1] == NatDigits(n / 10);
    }
  }

  /** Reading back a printed 64-bit integer gives the integer. */
  lemma AtoiItoa(n: int)
    requires MinInt <= n <= MaxInt
    ensures Atoi(Itoa(n)) == Ok(n)
  {
    var s := Itoa(n);
    if n < 0 {
      NatDigitsValue(-n);
      assert Unsigned(s) == NatDigits(-n);
    } else {
      NatDigitsValue(n);
      assert Unsigned(s) == NatDigits(n);
    }
    assert IsDecimal(s) && SignedValue(s) == n;
  }
}
