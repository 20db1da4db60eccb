/**
 * The line splitter: the split pattern of the lexer applied to one line,
 * followed by the filter that drops empty pieces.  The pattern is scanned
 * left to right; at each position its alternatives are tried in their
 * written order (whitespace, the two- and one-character symbols, a quoted
 * span), and text no alternative matches accumulates into a run.
 *
 * Character classes are ASCII: `\s` is space, tab, newline, vertical tab,
 * form feed or carriage return, and `.` is any character but a newline.
 */
module Splitter {
  import opened Wrappers

  predicate IsSpace(c: char)
  {
    c == ' ' || '\t' <= c <= '\r'
  }

  /** The characters that some alternative of the pattern always matches on their own. */
  predicate IsSymbolChar(c: char)
  {
    c == '+' || c == '-' || c == '<' || c == '>' || c == '*' || c == '/' || c == '%'
    || c == '!' || c == ';' || c == ',' || c == '}' || c == '{' || c == '(' || c == ')'
  }

  /** The symbols the pattern captures: its alternatives other than whitespace and the quoted span. */
  const SplitSymbols: set<string> := {
    "//", "||", "+", "-", "<=", "<", "&&", "==", "!=", ">=", ">",
    "*", "/", "%", "!", ";", ",", "}", "{", "(", ")"
  }

  /** The first newline at or after `q`, or the end of the line: where `.*` has to stop. */
  function LineEnd(s: string, q: nat): (e: nat)
    requires q <= |s|
    ensures q <= e <= |s|
    ensures forall k :: q <= k < e ==> s[k] != '\n'
    ensures e < |s| ==> s[e] == '\n'
    decreases |s| - q
  {
    if q == |s| || s[q] == '\n' then q else LineEnd(s, q + 1)
  }

  /** The last double quote in s[lo..hi], if any. */
  function LastQuote(s: string, lo: nat, hi: nat): (r: Option<nat>)
    requires lo <= hi <= |s|
    ensures r.Some? ==> lo <= r.value < hi && s[r.value] == '"'
    ensures r.Some? ==> forall k :: r.value < k < hi ==> s[k] != '"'
    ensures r.None? ==> forall k :: lo <= k < hi ==> s[k] != '"'
    decreases hi - lo
  {
    if hi == lo then None
    else if s[hi - 1] == '"' then Some(hi - 1)
    else LastQuote(s, lo, hi - 1)
  }

  /**
   * Where the greedy quoted span `".*"` that opens at p ends (exclusive):
   * just after the last double quote before the next newline, if there is one.
   */
  function QuoteClose(s: string, p: nat): (r: Option<nat>)
    requires p < |s|
    ensures r.Some? ==> p + 2 <= r.value <= LineEnd(s, p + 1) && s[r.value - 1] == '"'
    ensures r.Some? ==> forall k :: r.value <= k < LineEnd(s, p + 1) ==> s[k] != '"'
    ensures r.None? ==> forall k :: p < k < LineEnd(s, p + 1) ==> s[k] != '"'
  {
    match LastQuote(s, p + 1, LineEnd(s, p + 1))
    case None => None
    case Some(j) => Some(j + 1)
  }

  /** What the split pattern matches at one position. */
  datatype Match = NoMatch | Space | Symbol(len: nat)

  predicate At2(s: string, p: nat, a: char, b: char)
  {
    p + 1 < |s| && s[p] == a && s[p + 1] == b
  }

  /** The first alternative of the split pattern that matches at p, in written order. */
  function MatchAt(s: string, p: nat): (m: Match)
    requires p < |s|
    ensures m.Symbol? ==> 1 <= m.len && p + m.len <= |s|
  {
    var c := s[p];
    if IsSpace(c) then Space
    else if At2(s, p, '/', '/') then Symbol(2)
    else if At2(s, p, '|', '|') then Symbol(2)
    else if c == '+' then Symbol(1)
    else if c == '-' then Symbol(1)
    else if At2(s, p, '<', '=') then Symbol(2)
    else if c == '<' then Symbol(1)
    else if At2(s, p, '&', '&') then Symbol(2)
    else if At2(s, p, '=', '=') then Symbol(2)
    else if At2(s, p, '!', '=') then Symbol(2)
    else if At2(s, p, '>', '=') then Symbol(2)
    else if c == '>' then Symbol(1)
    else if c == '*' then Symbol(1)
    else if c == '/' then Symbol(1)
    else if c == '%' then Symbol(1)
    else if c == '!' then Symbol(1)
    else if c == ';' then Symbol(1)
    else if c == ',' then Symbol(1)
    else if c == '}' then Symbol(1)
    else if c == '{' then Symbol(1)
    else if c == '(' then Symbol(1)
    else if c == ')' then Symbol(1)
    else if c == '"' && QuoteClose(s, p).Some? then Symbol(QuoteClose(s, p).value - p)
    else NoMatch
  }

  /**
   * One piece of a split line: a whitespace separator, a run of unmatched
   * text between two matches (possibly empty), or the text a capturing
   * alternative matched.
   */
  datatype Piece = Gap(c: char) | Run(text: string) | Captured(text: string)

  /**
   * The scanner: `start` is where the pending run began, `p` the position
   * being tried.  Every match closes the pending run, as splitting does.
   */
  function PiecesFrom(s: string, start: nat, p: nat): seq<Piece>
    requires start <= p <= |s|
    decreases |s| - p
  {
    if p == |s| then [Run(s[start..])]
    else
      match MatchAt(s, p)
      case NoMatch => PiecesFrom(s, start, p + 1)
      case Space => [Run(s[start..p]), Gap(s[p])] + PiecesFrom(s, p + 1, p + 1)
      case Symbol(n) => [Run(s[start..p]), Captured(s[p..p + n])] + PiecesFrom(s, p + n, p + n)
  }

  function Pieces(s: string): seq<Piece>
  {
    PiecesFrom(s, 0, 0)
  }

  /** The text of a piece as it stands in the line. */
  function Show(pc: Piece): string
  {
    match pc
    case Gap(c) => [c]
    case Run(t) => t
    case Captured(t) => t
  }

  function Join(ps: seq<Piece>): string
  {
    if ps == [] then "" else Show(ps[0]) + Join(ps[1..])
  }

  /** The texts of the runs and captures, in order; separators leave nothing behind. */
  function Texts(ps: seq<Piece>): (r: seq<string>)
    ensures |r| <= |ps|
    ensures forall x :: x in r <==> exists i :: 0 <= i < |ps| && !ps[i].Gap? && ps[i].text == x
  {
    if ps == [] then []
    else if ps[0].Gap? then Texts(ps[1..])
    else [ps[0].text] + Texts(ps[1..])
  }

  /**
   * What splitting the line with the pattern returns, leaving out the `None`
   * slots of the capture groups that took no part in a match.
   */
  function Split(s: string): seq<string>
  {
    Texts(Pieces(s))
  }

  /** The empty-string filter applied to the split. */
  function NonEmpty(xs: seq<string>): (r: seq<string>)
    ensures |r| <= |xs|
    ensures forall x :: x in r <==> x in xs && x != ""
  {
    if xs == [] then []
    else if xs[0] == "" then NonEmpty(xs[1..])
    else [xs[0]] + NonEmpty(xs[1..])
  }

  /** The candidate lexemes of one line. */
  function Candidates(s: string): seq<string>
  {
    NonEmpty(Split(s))
  }

  // ---------------------------------------------------------------------
  // Shapes of the pieces

  /** A greedy quoted span: opening and closing quote, no newline inside. */
  predicate IsQuotedSpan(t: string)
  {
    |t| >= 2 && t[0] == '"' && t[|t| - 1] == '"' && forall k :: 0 <= k < |t| ==> t[k] != '\n'
  }

  /**
   * Text no alternative matched: no whitespace, no character that is a
   * symbol on its own, no two-character symbol such as `&&`, `||` or `==`,
   * and at most one double quote (one with no partner later on the line).
   */
  predicate IsPlainRun(t: string)
  {
    && (forall k :: 0 <= k < |t| ==> !IsSpace(t[k]) && !IsSymbolChar(t[k]))
    && (forall k :: 0 <= k && k + 1 < |t| ==> t[k..][..2] !in SplitSymbols)
    && (forall j, k :: 0 <= j < k < |t| && t[j] == '"' ==> t[k] != '"')
  }

  predicate WellShaped(pc: Piece)
  {
    match pc
    case Gap(c) => IsSpace(c)
    case Run(t) => IsPlainRun(t)
    case Captured(t) => t in SplitSymbols || IsQuotedSpan(t)
  }

  // ---------------------------------------------------------------------
  // Lemmas

  lemma {:induction false} JoinAppend(a: seq<Piece>, b: seq<Piece>)
    ensures Join(a + b) == Join(a) + Join(b)
    decreases |a|
  {
    if a == [] {
      assert a + b == b;
    } else {
      assert (a + b)[1..] == a[1..] + b;
      JoinAppend(a[1..], b);
    }
  }

  /** One step of the scanner keeps the join: run, then match, then the rest of the line. */
  lemma JoinStep(s: string, start: nat, p: nat, q: nat, matched: Piece, rest: seq<Piece>)
    requires start <= p < q <= |s|
    requires Show(matched) == s[p..q] && Join(rest) == s[q..]
    ensures Join([Run(s[start..p]), matched] + rest) == s[start..]
  {
    JoinCons(matched, rest);
    JoinCons(Run(s[start..p]), [matched] + rest);
    assert [Run(s[start..p])] + ([matched] + rest) == [Run(s[start..p]), matched] + rest;
    assert s[start..] == s[start..p] + (s[p..q] + s[q..]);
  }

  /** The join of a piece put in front. */
  lemma JoinCons(x: Piece, ps: seq<Piece>)
    ensures Join([x] + ps) == Show(x) + Join(ps)
  {
    assert ([x] + ps)[1..] == ps;
  }

  lemma {:induction false} JoinPiecesFrom(s: string, start: nat, p: nat)
    requires start <= p <= |s|
    ensures Join(PiecesFrom(s, start, p)) == s[start..]
    decreases |s| - p, 1
  {
    if p == |s| {
      assert Join([Run(s[start..])]) == s[start..] + Join([]);
    } else {
      match MatchAt(s, p)
      case NoMatch =>
        PiecesFromNoMatch(s, start, p);
        JoinNoMatchStep(s, start, p);
      case Space =>
        PiecesFromSpace(s, start, p);
        JoinMatchStep(s, start, p, 1, Gap(s[p]));
      case Symbol(n) =>
        PiecesFromSymbol(s, start, p, n);
        JoinMatchStep(s, start, p, n, Captured(s[p..p + n]));
    }
  }

  /** The scanner's step past a position where nothing matches. */
  lemma PiecesFromNoMatch(s: string, start: nat, p: nat)
    requires start <= p < |s| && MatchAt(s, p) == NoMatch
    ensures PiecesFrom(s, start, p) == PiecesFrom(s, start, p + 1)
  {
    ghost var m := MatchAt(s, p);
    assert m.NoMatch? && !m.Space? && !m.Symbol?;
  }

  /** The scanner's step at a whitespace match. */
  lemma PiecesFromSpace(s: string, start: nat, p: nat)
    requires start <= p < |s| && MatchAt(s, p) == Space
    ensures PiecesFrom(s, start, p) == [Run(s[start..p]), Gap(s[p])] + PiecesFrom(s, p + 1, p + 1)
    ensures Show(Gap(s[p])) == s[p..p + 1]
  {
    ghost var m := MatchAt(s, p);
    assert m.Space? && !m.NoMatch? && !m.Symbol?;
  }

  /** The scanner's step at a symbol or quoted-span match. */
  lemma PiecesFromSymbol(s: string, start: nat, p: nat, n: nat)
    requires start <= p < |s| && MatchAt(s, p) == Symbol(n)
    ensures 1 <= n && p + n <= |s|
    ensures PiecesFrom(s, start, p) == [Run(s[start..p]), Captured(s[p..p + n])] + PiecesFrom(s, p + n, p + n)
  {
    ghost var m := MatchAt(s, p);
    assert m.Symbol? && !m.NoMatch? && !m.Space? && m.len == n;
  }

  lemma {:induction false} JoinNoMatchStep(s: string, start: nat, p: nat)
    requires start <= p < |s| && PiecesFrom(s, start, p) == PiecesFrom(s, start, p + 1)
    ensures Join(PiecesFrom(s, start, p)) == s[start..]
    decreases |s| - p, 0
  {
    JoinPiecesFrom(s, start, p + 1);
  }

  lemma {:induction false} JoinMatchStep(s: string, start: nat, p: nat, n: nat, y: Piece)
    requires start <= p && 1 <= n && p + n <= |s| && Show(y) == s[p..p + n]
    requires PiecesFrom(s, start, p) == [Run(s[start..p]), y] + PiecesFrom(s, p + n, p + n)
    ensures Join(PiecesFrom(s, start, p)) == s[start..]
    decreases |s| - p, 0
  {
    ghost var rest := PiecesFrom(s, p + n, p + n);
    JoinPiecesFrom(s, p + n, p + n);
    assert Join(rest) == s[p + n..];
    JoinStep(s, start, p, p + n, y, rest);
  }

  /** Splitting loses nothing: the pieces, separators included, spell the line. */
  lemma SplitRoundTrip(s: string)
    ensures Join(Pieces(s)) == s
  {
    JoinPiecesFrom(s, 0, 0);
  }

  /** What a position that no alternative matches looks like. */
  lemma NoMatchChar(s: string, p: nat)
    requires p < |s| && MatchAt(s, p) == NoMatch
    ensures !IsSpace(s[p]) && !IsSymbolChar(s[p])
    ensures s[p] == '"' ==> forall k :: p < k < LineEnd(s, p + 1) ==> s[k] != '"'
  {
  }

  /** What a capturing alternative matches: a split symbol or a greedy quoted span. */
  lemma SymbolShape(s: string, p: nat)
    requires p < |s| && MatchAt(s, p).Symbol?
    ensures var t := s[p..p + MatchAt(s, p).len]; t in SplitSymbols || IsQuotedSpan(t)
  {
    var n := MatchAt(s, p).len;
    var t := s[p..p + n];
    if s[p] == '"' {
      var e := LineEnd(s, p + 1);
      forall k | 0 <= k < |t|
        ensures t[k] != '\n'
      {
        assert t[k] == s[p + k];
      }
    } else if n == 1 {
      assert t == [s[p]];
    } else {
      assert t == [s[p], s[p + 1]];
    }
  }

  /** Text that accumulated between two matches is a plain run. */
  lemma RunShape(s: string, start: nat, p: nat)
    requires start <= p <= |s|
    requires forall k :: start <= k < p ==> MatchAt(s, k) == NoMatch
    ensures IsPlainRun(s[start..p])
  {
    var t := s[start..p];
    forall k | 0 <= k < |t|
      ensures !IsSpace(t[k]) && !IsSymbolChar(t[k])
    {
      NoMatchChar(s, start + k);
    }
    forall k | 0 <= k && k + 1 < |t|
      ensures t[k..][..2] !in SplitSymbols
    {
      assert MatchAt(s, start + k) == NoMatch;
      assert t[k..][..2] == s[start + k..start + k + 2] == [s[start + k], s[start + k + 1]];
    }
    forall j, k | 0 <= j < k < |t| && t[j] == '"'
      ensures t[k] != '"'
    {
      NoMatchChar(s, start + j);
      var e := LineEnd(s, start + j + 1);
      if e <= start + k {
        NoMatchChar(s, e);
      }
    }
  }

  lemma {:induction false} PiecesFromShape(s: string, start: nat, p: nat)
    requires start <= p <= |s|
    requires forall k :: start <= k < p ==> MatchAt(s, k) == NoMatch
    ensures forall i :: 0 <= i < |PiecesFrom(s, start, p)| ==> WellShaped(PiecesFrom(s, start, p)[i])
    decreases |s| - p
  {
    if p == |s| {
      RunShape(s, start, p);
      assert s[start..] == s[start..p];
    } else {
      match MatchAt(s, p)
      case NoMatch =>
        PiecesFromShape(s, start, p + 1);
      case Space =>
        RunShape(s, start, p);
        PiecesFromShape(s, p + 1, p + 1);
      case Symbol(n) =>
        RunShape(s, start, p);
        SymbolShape(s, p);
        PiecesFromShape(s, p + n, p + n);
    }
  }

  /** The split symbols hold no whitespace and no double quote. */
  lemma SplitSymbolChars(t: string)
    requires t in SplitSymbols
    ensures forall k :: 0 <= k < |t| ==> !IsSpace(t[k]) && t[k] != '"'
  {
  }

  /**
   * Every candidate is non-empty and is a split symbol, a greedy quoted span
   * or a plain run; no candidate holds a newline, and only a quoted span can
   * hold other whitespace.
   */
  lemma CandidateShapes(s: string)
    ensures forall c :: c in Candidates(s) ==>
      c != "" && (c in SplitSymbols || IsQuotedSpan(c) || IsPlainRun(c))
    ensures forall c :: c in Candidates(s) ==> forall k :: 0 <= k < |c| ==> c[k] != '\n'
    ensures forall c :: c in Candidates(s) && !IsQuotedSpan(c) ==> forall k :: 0 <= k < |c| ==> !IsSpace(c[k])
  {
    PiecesFromShape(s, 0, 0);
    var ps := Pieces(s);
    forall c | c in Candidates(s)
      ensures c != "" && (c in SplitSymbols || IsQuotedSpan(c) || IsPlainRun(c))
      ensures forall k :: 0 <= k < |c| ==> c[k] != '\n'
      ensures !IsQuotedSpan(c) ==> forall k :: 0 <= k < |c| ==> !IsSpace(c[k])
    {
      var i :| 0 <= i < |ps| && !ps[i].Gap? && ps[i].text == c;
      assert WellShaped(ps[i]);
      if c in SplitSymbols {
        SplitSymbolChars(c);
      }
    }
  }

  /** At a match, no split symbol longer than the match starts there. */
  lemma MatchIsLongest(s: string, q: nat)
    requires q < |s| && MatchAt(s, q).Symbol?
    ensures forall m :: MatchAt(s, q).len < m <= |s| - q ==> s[q..][..m] !in SplitSymbols
  {
    forall m | MatchAt(s, q).len < m <= |s| - q
      ensures s[q..][..m] !in SplitSymbols
    {
      if m == 2 {
        assert s[q..][..m] == [s[q], s[q + 1]];
      }
    }
  }

  /** A quoted-span match reaches the last double quote before the next newline. */
  lemma QuoteMatchIsGreedy(s: string, q: nat)
    requires q < |s| && s[q] == '"' && MatchAt(s, q).Symbol?
    ensures q + MatchAt(s, q).len <= LineEnd(s, q + 1)
    ensures forall k :: q + MatchAt(s, q).len <= k < LineEnd(s, q + 1) ==> s[k] != '"'
  {
  }

  /**
   * Longest symbol first: no split symbol longer than the capture x starts
   * where x starts, so `<=`, `>=`, `!=` and `//` never come apart into
   * `<` `=`, `>` `=`, `!` `=` or `/` `/`.
   */
  predicate LongestFirst(x: string, rest: string)
  {
    forall m :: |x| < m <= |x| + |rest| ==> (x + rest)[..m] !in SplitSymbols
  }

  /**
   * A captured quoted span is greedy: what follows it holds no double quote
   * before the next newline.
   */
  predicate Greedy(x: string, rest: string)
  {
    x != "" && x[0] == '"' ==> forall k :: 0 <= k < LineEnd(rest, 0) ==> rest[k] != '"'
  }

  predicate FollowedWell(x: string, rest: string)
  {
    LongestFirst(x, rest) && Greedy(x, rest)
  }

  /** Every capture is followed well by the text of the pieces after it. */
  predicate CapturesFollowedWell(ps: seq<Piece>)
    decreases |ps|
  {
    ps == [] || ((ps[0].Captured? ==> FollowedWell(ps[0].text, Join(ps[1..]))) && CapturesFollowedWell(ps[1..]))
  }

  /** What a match leaves behind is followed well by the rest of the line. */
  lemma MatchFollowedWell(s: string, q: nat, n: nat, rest: string)
    requires q < |s| && MatchAt(s, q) == Symbol(n) && rest == s[q + n..]
    ensures FollowedWell(s[q..q + n], rest)
  {
    var x := s[q..q + n];
    MatchIsLongest(s, q);
    forall m | n < m <= n + |rest|
      ensures (x + rest)[..m] !in SplitSymbols
    {
      assert x + rest == s[q..];
    }
    if x[0] == '"' {
      QuoteMatchIsGreedy(s, q);
      LineEndShift(s, q + n);
    }
  }

  /** LineEnd is the first newline: any position with its two properties is it. */
  lemma LineEndUnique(s: string, q: nat, e: nat)
    requires q <= e <= |s|
    requires forall k :: q <= k < e ==> s[k] != '\n'
    requires e < |s| ==> s[e] == '\n'
    ensures LineEnd(s, q) == e
  {
  }

  /** The next newline of a suffix is the next newline of the line, shifted. */
  lemma LineEndShift(s: string, q: nat)
    requires q <= |s|
    ensures LineEnd(s[q..], 0) == LineEnd(s, q) - q
  {
    LineEndUnique(s[q..], 0, LineEnd(s, q) - q);
  }

  /** A scanner step keeps every capture followed well. */
  lemma StepFollowedWell(x: Piece, y: Piece, rest: seq<Piece>)
    requires !x.Captured? && CapturesFollowedWell(rest)
    requires y.Captured? ==> FollowedWell(y.text, Join(rest))
    ensures CapturesFollowedWell([x, y] + rest)
  {
    var ps := [x, y] + rest;
    assert ps[1..] == [y] + rest;
    assert ps[1..][1..] == rest;
  }

  lemma {:induction false} PiecesFollowedWell(s: string, start: nat, p: nat)
    requires start <= p <= |s|
    ensures CapturesFollowedWell(PiecesFrom(s, start, p))
    decreases |s| - p
  {
    if p < |s| {
      match MatchAt(s, p)
      case NoMatch =>
        PiecesFollowedWell(s, start, p + 1);
      case Space =>
        PiecesFollowedWell(s, p + 1, p + 1);
        StepFollowedWell(Run(s[start..p]), Gap(s[p]), PiecesFrom(s, p + 1, p + 1));
      case Symbol(n) =>
        PiecesFollowedWell(s, p + n, p + n);
        SymbolStepFollowedWell(s, start, p, n);
    }
  }

  /** The step of the scanner at a match. */
  lemma SymbolStepFollowedWell(s: string, start: nat, p: nat, n: nat)
    requires start <= p < |s| && MatchAt(s, p) == Symbol(n)
    requires CapturesFollowedWell(PiecesFrom(s, p + n, p + n))
    ensures CapturesFollowedWell([Run(s[start..p]), Captured(s[p..p + n])] + PiecesFrom(s, p + n, p + n))
  {
    JoinPiecesFrom(s, p + n, p + n);
    MatchFollowedWell(s, p, n, Join(PiecesFrom(s, p + n, p + n)));
    StepFollowedWell(Run(s[start..p]), Captured(s[p..p + n]), PiecesFrom(s, p + n, p + n));
  }

  /**
   * Each capture of the split is the longest symbol that starts there, and a
   * captured quoted span reaches the last double quote before the next newline.
   */
  lemma SplitCapturesFollowedWell(s: string)
    ensures CapturesFollowedWell(Pieces(s))
  {
    PiecesFollowedWell(s, 0, 0);
  }

  // ---------------------------------------------------------------------
  // Runs are maximal

  /**
   * No alternative of the pattern can match at position k of u: no
   * whitespace, no split symbol of one or two characters, and no double
   * quote with a partner before the next newline.
   */
  predicate UnmatchableAt(u: string, k: nat)
    requires k < |u|
  {
    && !IsSpace(u[k])
    && u[k..][..1] !in SplitSymbols
    && (k + 2 <= |u| ==> u[k..][..2] !in SplitSymbols)
    && (u[k] == '"' ==> forall j :: k < j < LineEnd(u, k + 1) ==> u[j] != '"')
  }

  /** No alternative of the pattern can match at any of the first n positions of u. */
  predicate Unmatchable(u: string, n: nat)
    requires n <= |u|
  {
    forall k :: 0 <= k < n ==> UnmatchableAt(u, k)
  }

  /** A run is maximal: given the text after it, no match could start anywhere in it. */
  predicate RunFollowedWell(t: string, rest: string)
  {
    Unmatchable(t + rest, |t|)
  }

  /** Every run is followed well by the text of the pieces after it. */
  predicate RunsFollowedWell(ps: seq<Piece>)
    decreases |ps|
  {
    ps == [] || ((ps[0].Run? ==> RunFollowedWell(ps[0].text, Join(ps[1..]))) && RunsFollowedWell(ps[1..]))
  }

  /** Runs and matches alternate, starting and ending with a run. */
  predicate Alternates(ps: seq<Piece>)
  {
    |ps| % 2 == 1 && forall i :: 0 <= i < |ps| ==> (ps[i].Run? <==> i % 2 == 0)
  }

  /** The next newline of a suffix, from any position, is the line's, shifted. */
  lemma LineEndOffset(s: string, start: nat, q: nat)
    requires start + q <= |s|
    ensures LineEnd(s[start..], q) == LineEnd(s, start + q) - start
  {
    LineEndUnique(s[start..], q, LineEnd(s, start + q) - start);
  }

  /** Where the scanner found no match, no alternative of the pattern could match. */
  lemma UnmatchedRun(s: string, start: nat, p: nat)
    requires start <= p <= |s|
    requires forall k :: start <= k < p ==> MatchAt(s, k) == NoMatch
    ensures Unmatchable(s[start..], p - start)
  {
    var u := s[start..];
    forall k | 0 <= k < p - start
      ensures UnmatchableAt(u, k)
    {
      var q := start + k;
      assert MatchAt(s, q) == NoMatch;
      NoMatchChar(s, q);
      assert u[k..][..1] == [s[q]];
      if k + 2 <= |u| {
        assert u[k..][..2] == [s[q], s[q + 1]];
      }
      LineEndOffset(s, start, k + 1);
    }
  }

  /** A scanner step puts a run before a separator or a capture. */
  lemma AlternatesStep(x: Piece, y: Piece, rest: seq<Piece>)
    requires x.Run? && !y.Run? && Alternates(rest)
    ensures Alternates([x, y] + rest)
  {
    var ps := [x, y] + rest;
    forall i | 0 <= i < |ps|
      ensures ps[i].Run? <==> i % 2 == 0
    {
      if i >= 2 {
        assert ps[i] == rest[i - 2];
      }
    }
  }

  lemma {:induction false} PiecesAlternate(s: string, start: nat, p: nat)
    requires start <= p <= |s|
    ensures Alternates(PiecesFrom(s, start, p))
    decreases |s| - p
  {
    if p < |s| {
      match MatchAt(s, p)
      case NoMatch =>
        PiecesAlternate(s, start, p + 1);
      case Space =>
        PiecesAlternate(s, p + 1, p + 1);
        AlternatesStep(Run(s[start..p]), Gap(s[p]), PiecesFrom(s, p + 1, p + 1));
      case Symbol(n) =>
        PiecesAlternate(s, p + n, p + n);
        AlternatesStep(Run(s[start..p]), Captured(s[p..p + n]), PiecesFrom(s, p + n, p + n));
    }
  }

  /** A run that no match could cut, before the rest of the line. */
  lemma UnmatchedRunFollowedWell(s: string, start: nat, p: nat)
    requires start <= p <= |s|
    requires forall k :: start <= k < p ==> MatchAt(s, k) == NoMatch
    ensures RunFollowedWell(s[start..p], s[p..])
  {
    UnmatchedRun(s, start, p);
    assert s[start..p] + s[p..] == s[start..];
  }

  /** The last run of the line reaches its end. */
  lemma LastRunFollowedWell(s: string, start: nat)
    requires start <= |s|
    requires forall k :: start <= k < |s| ==> MatchAt(s, k) == NoMatch
    ensures RunsFollowedWell([Run(s[start..])])
  {
    UnmatchedRunFollowedWell(s, start, |s|);
    var ps := [Run(s[start..])];
    assert s[start..|s|] == s[start..] && s[|s|..] == [];
    assert ps[1..] == [] && Join([]) == [];
    assert RunFollowedWell(ps[0].text, Join(ps[1..]));
  }

  /** Putting a run and a match before pieces whose runs are followed well. */
  lemma RunsConsStep(x: Piece, y: Piece, rest: seq<Piece>)
    requires x.Run? && !y.Run? && RunsFollowedWell(rest)
    requires RunFollowedWell(x.text, Show(y) + Join(rest))
    ensures RunsFollowedWell([x, y] + rest)
  {
    var ps := [x, y] + rest;
    assert ps[1..] == [y] + rest;
    assert ps[1..][1..] == rest;
    assert Join(ps[1..]) == Show(y) + Join(rest);
  }

  /** The step of the scanner at a match keeps every run followed well. */
  lemma RunStepFollowedWell(s: string, start: nat, p: nat, y: Piece, n: nat)
    requires start <= p && p + n <= |s|
    requires forall k :: start <= k < p ==> MatchAt(s, k) == NoMatch
    requires Show(y) == s[p..p + n] && !y.Run?
    requires RunsFollowedWell(PiecesFrom(s, p + n, p + n))
    ensures RunsFollowedWell([Run(s[start..p]), y] + PiecesFrom(s, p + n, p + n))
  {
    var rest := PiecesFrom(s, p + n, p + n);
    JoinPiecesFrom(s, p + n, p + n);
    assert Show(y) + Join(rest) == s[p..];
    UnmatchedRunFollowedWell(s, start, p);
    RunsConsStep(Run(s[start..p]), y, rest);
  }

  lemma {:induction false} NoMatchRunStep(s: string, start: nat, p: nat)
    requires start <= p < |s| && PiecesFrom(s, start, p) == PiecesFrom(s, start, p + 1)
    requires forall k :: start <= k < p + 1 ==> MatchAt(s, k) == NoMatch
    ensures RunsFollowedWell(PiecesFrom(s, start, p))
    decreases |s| - p, 0
  {
    PiecesRunsFollowedWell(s, start, p + 1);
  }

  lemma {:induction false} SpaceRunStep(s: string, start: nat, p: nat)
    requires start <= p < |s| && PiecesFrom(s, start, p) == [Run(s[start..p]), Gap(s[p])] + PiecesFrom(s, p + 1, p + 1)
    requires Show(Gap(s[p])) == s[p..p + 1]
    requires forall k :: start <= k < p ==> MatchAt(s, k) == NoMatch
    ensures RunsFollowedWell(PiecesFrom(s, start, p))
    decreases |s| - p, 0
  {
    PiecesRunsFollowedWell(s, p + 1, p + 1);
    RunStepFollowedWell(s, start, p, Gap(s[p]), 1);
  }

  lemma {:induction false} SymbolRunStep(s: string, start: nat, p: nat, n: nat)
    requires start <= p && 1 <= n && p + n <= |s|
    requires PiecesFrom(s, start, p) == [Run(s[start..p]), Captured(s[p..p + n])] + PiecesFrom(s, p + n, p + n)
    requires forall k :: start <= k < p ==> MatchAt(s, k) == NoMatch
    ensures RunsFollowedWell(PiecesFrom(s, start, p))
    decreases |s| - p, 0
  {
    PiecesRunsFollowedWell(s, p + n, p + n);
    RunStepFollowedWell(s, start, p, Captured(s[p..p + n]), n);
  }

  lemma {:induction false} PiecesRunsFollowedWell(s: string, start: nat, p: nat)
    requires start <= p <= |s|
    requires forall k :: start <= k < p ==> MatchAt(s, k) == NoMatch
    ensures RunsFollowedWell(PiecesFrom(s, start, p))
    decreases |s| - p, 1
  {
    if p == |s| {
      LastRunFollowedWell(s, start);
    } else {
      match MatchAt(s, p)
      case NoMatch =>
        PiecesFromNoMatch(s, start, p);
        NoMatchRunStep(s, start, p);
      case Space =>
        PiecesFromSpace(s, start, p);
        SpaceRunStep(s, start, p);
      case Symbol(n) =>
        PiecesFromSymbol(s, start, p, n);
        SymbolRunStep(s, start, p, n);
    }
  }

  /**
   * The split is maximal: runs and matches alternate, and no match could
   * start anywhere inside a run, so no run is cut where the pattern does not
   * match and `&&`, `==` and the double bar never stay inside one.
   */
  lemma SplitRunsAreMaximal(s: string)
    ensures Alternates(Pieces(s)) && RunsFollowedWell(Pieces(s))
  {
    PiecesAlternate(s, 0, 0);
    PiecesRunsFollowedWell(s, 0, 0);
  }

  /** An assignment written without spaces stays one candidate. */
  lemma AssignmentStaysWhole()
    ensures Candidates("x=1") == ["x=1"]
  {
    var s := "x=1";
    assert MatchAt(s, 0) == NoMatch;
    assert MatchAt(s, 1) == NoMatch;
    assert MatchAt(s, 2) == NoMatch;
    assert Pieces(s) == [Run(s)] by {
      assert s[0..] == s;
    }
    assert Split(s) == [s];
    assert NonEmpty([s]) == [s];
  }

  /** A real number stays one candidate. */
  lemma RealStaysWhole()
    ensures Candidates("2.5") == ["2.5"]
  {
    var s := "2.5";
    assert MatchAt(s, 0) == NoMatch;
    assert MatchAt(s, 1) == NoMatch;
    assert MatchAt(s, 2) == NoMatch;
    assert Pieces(s) == [Run(s)] by {
      assert s[0..] == s;
    }
    assert Split(s) == [s];
    assert NonEmpty([s]) == [s];
  }

  // ---------------------------------------------------------------------
  // What the candidates spell

  function Concat(xs: seq<string>): string
  {
    if xs == [] then "" else xs[0] + Concat(xs[1..])
  }

  /** The text with every whitespace character removed. */
  function RemoveSpace(t: string): (r: string)
    ensures |r| <= |t|
  {
    if t == "" then ""
    else (if IsSpace(t[0]) then "" else [t[0]]) + RemoveSpace(t[1..])
  }

  lemma {:induction false} ConcatAppend(xs: seq<string>, ys: seq<string>)
    ensures Concat(xs + ys) == Concat(xs) + Concat(ys)
    decreases |xs|
  {
    if xs == [] {
      assert xs + ys == ys;
    } else {
      assert (xs + ys)[1..] == xs[1..] + ys;
      ConcatAppend(xs[1..], ys);
    }
  }

  lemma {:induction false} RemoveSpaceAppend(t: string, u: string)
    ensures RemoveSpace(t + u) == RemoveSpace(t) + RemoveSpace(u)
    decreases |t|
  {
    if t == "" {
      assert t + u == u;
    } else {
      assert (t + u)[1..] == t[1..] + u;
      RemoveSpaceAppend(t[1..], u);
    }
  }

  /** Text without whitespace is left as it is. */
  lemma {:induction false} RemoveSpaceNone(t: string)
    requires forall k :: 0 <= k < |t| ==> !IsSpace(t[k])
    ensures RemoveSpace(t) == t
    decreases |t|
  {
    if t != "" {
      RemoveSpaceNone(t[1..]);
    }
  }

  /** Dropping the empty strings does not change what a list of strings spells. */
  lemma {:induction false} ConcatNonEmpty(xs: seq<string>)
    ensures Concat(NonEmpty(xs)) == Concat(xs)
    decreases |xs|
  {
    if xs != [] {
      ConcatNonEmpty(xs[1..]);
      if xs[0] != "" {
        assert ([xs[0]] + NonEmpty(xs[1..]))[1..] == NonEmpty(xs[1..]);
      }
    }
  }

  /** The texts of a scanner step: the run, then the match unless it is a separator. */
  lemma TextsStep(a: string, y: Piece, rest: seq<Piece>)
    ensures Texts([Run(a), y] + rest) == [a] + (if y.Gap? then [] else [y.text]) + Texts(rest)
  {
    var ps := [Run(a), y] + rest;
    assert ps[1..] == [y] + rest;
    assert ps[1..][1..] == rest;
  }

  /** What the texts of a scanner step spell, given what the rest spells. */
  lemma SpellStep(a: string, y: Piece, rest: seq<Piece>, c: string)
    requires forall k :: 0 <= k < |a| ==> !IsSpace(a[k])
    requires y.Gap? ==> IsSpace(y.c)
    requires !y.Gap? ==> forall k :: 0 <= k < |y.text| ==> !IsSpace(y.text[k])
    requires Concat(Texts(rest)) == RemoveSpace(c)
    ensures Concat(Texts([Run(a), y] + rest)) == RemoveSpace(a + Show(y) + c)
  {
    TextsStep(a, y, rest);
    var mid: seq<string> := if y.Gap? then [] else [y.text];
    ConcatAppend([a] + mid, Texts(rest));
    ConcatAppend([a], mid);
    assert Concat([a]) == a + Concat([]);
    assert Concat(mid) == RemoveSpace(Show(y)) by {
      if y.Gap? {
        assert RemoveSpace([y.c]) == "" + RemoveSpace([]);
      } else {
        RemoveSpaceNone(y.text);
        assert Concat(mid) == y.text + Concat([]);
      }
    }
    RemoveSpaceNone(a);
    RemoveSpaceAppend(a + Show(y), c);
    RemoveSpaceAppend(a, Show(y));
  }

  lemma {:induction false} PiecesSpell(s: string, start: nat, p: nat)
    requires start <= p <= |s|
    requires forall k :: 0 <= k < |s| ==> s[k] != '"'
    requires forall k :: start <= k < p ==> !IsSpace(s[k])
    ensures Concat(Texts(PiecesFrom(s, start, p))) == RemoveSpace(s[start..])
    decreases |s| - p, 1
  {
    if p == |s| {
      LastRunSpells(s[start..]);
    } else {
      match MatchAt(s, p)
      case NoMatch =>
        NoMatchChar(s, p);
        PiecesFromNoMatch(s, start, p);
        NoMatchSpells(s, start, p);
      case Space =>
        PiecesFromSpace(s, start, p);
        StepSpells(s, start, p, p + 1, Gap(s[p]));
      case Symbol(n) =>
        PiecesFromSymbol(s, start, p, n);
        UnquotedCaptureHasNoSpace(s, p, n, s[p..p + n]);
        StepSpells(s, start, p, p + n, Captured(s[p..p + n]));
    }
  }

  /** A capture that does not open with a double quote is a symbol, so it holds no whitespace. */
  lemma UnquotedCaptureHasNoSpace(s: string, p: nat, n: nat, t: string)
    requires p < |s| && MatchAt(s, p) == Symbol(n) && s[p] != '"' && t == s[p..p + n]
    ensures forall k :: 0 <= k < |t| ==> !IsSpace(t[k])
  {
    assert n <= 2;
    assert t[0] == s[p];
    if n == 2 {
      assert t[1] == s[p + 1];
    }
  }

  /** The scanner step past a position where nothing matches. */
  lemma {:induction false} NoMatchSpells(s: string, start: nat, p: nat)
    requires start <= p < |s| && PiecesFrom(s, start, p) == PiecesFrom(s, start, p + 1)
    requires forall k :: 0 <= k < |s| ==> s[k] != '"'
    requires forall k :: start <= k < p + 1 ==> !IsSpace(s[k])
    ensures Concat(Texts(PiecesFrom(s, start, p))) == RemoveSpace(s[start..])
    decreases |s| - p, 0
  {
    PiecesSpell(s, start, p + 1);
  }

  /** The scanner step at a match, on a line without double quotes. */
  lemma {:induction false} StepSpells(s: string, start: nat, p: nat, q: nat, y: Piece)
    requires start <= p < q <= |s| && Show(y) == s[p..q]
    requires PiecesFrom(s, start, p) == [Run(s[start..p]), y] + PiecesFrom(s, q, q)
    requires forall k :: 0 <= k < |s| ==> s[k] != '"'
    requires forall k :: start <= k < p ==> !IsSpace(s[k])
    requires y.Gap? ==> IsSpace(y.c)
    requires !y.Gap? ==> forall k :: 0 <= k < |y.text| ==> !IsSpace(y.text[k])
    ensures Concat(Texts(PiecesFrom(s, start, p))) == RemoveSpace(s[start..])
    decreases |s| - p, 0
  {
    ghost var rest := PiecesFrom(s, q, q);
    PiecesSpell(s, q, q);
    MatchSpells(s, start, p, q, y, rest);
  }

  /** The run that ends a line. */
  lemma LastRunSpells(a: string)
    requires forall k :: 0 <= k < |a| ==> !IsSpace(a[k])
    ensures Concat(Texts([Run(a)])) == RemoveSpace(a)
  {
    RemoveSpaceNone(a);
    assert Texts([Run(a)]) == [a];
    assert Concat([a]) == a + Concat([]);
  }

  /** The scanner step at a match, on a line without double quotes. */
  lemma MatchSpells(s: string, start: nat, p: nat, q: nat, y: Piece, rest: seq<Piece>)
    requires start <= p <= q <= |s| && Show(y) == s[p..q]
    requires forall k :: start <= k < p ==> !IsSpace(s[k])
    requires y.Gap? ==> IsSpace(y.c)
    requires !y.Gap? ==> forall k :: 0 <= k < |y.text| ==> !IsSpace(y.text[k])
    requires Concat(Texts(rest)) == RemoveSpace(s[q..])
    ensures Concat(Texts([Run(s[start..p]), y] + rest)) == RemoveSpace(s[start..])
  {
    NoSpaceSlice(s, start, p);
    SpellStep(s[start..p], y, rest, s[q..]);
    SliceThree(s, start, p, q);
  }

  lemma NoSpaceSlice(s: string, start: nat, p: nat)
    requires start <= p <= |s|
    requires forall k :: start <= k < p ==> !IsSpace(s[k])
    ensures forall k :: 0 <= k < |s[start..p]| ==> !IsSpace(s[start..p][k])
  {
  }

  lemma SliceThree(s: string, start: nat, p: nat, q: nat)
    requires start <= p <= q <= |s|
    ensures s[start..] == s[start..p] + s[p..q] + s[q..]
  {
  }

  /**
   * On a line without double quotes, the candidates spell the line with its
   * whitespace removed.
   */
  lemma CandidatesSpellLine(s: string)
    requires forall k :: 0 <= k < |s| ==> s[k] != '"'
    ensures Concat(Candidates(s)) == RemoveSpace(s)
  {
    PiecesSpell(s, 0, 0);
    ConcatNonEmpty(Split(s));
  }

  /** The pieces that are not separators, in their order. */
  function NoGaps(ps: seq<Piece>): (r: seq<Piece>)
    ensures |r| <= |ps|
    ensures forall i :: 0 <= i < |r| ==> !r[i].Gap?
  {
    if ps == [] then []
    else if ps[0].Gap? then NoGaps(ps[1..])
    else [ps[0]] + NoGaps(ps[1..])
  }

  /** The texts, in order, spell the pieces with the separators left out. */
  lemma {:induction false} ConcatTexts(ps: seq<Piece>)
    ensures Concat(Texts(ps)) == Join(NoGaps(ps))
    decreases |ps|
  {
    if ps != [] {
      ConcatTexts(ps[1..]);
      if !ps[0].Gap? {
        JoinCons(ps[0], NoGaps(ps[1..]));
        assert ([ps[0].text] + Texts(ps[1..]))[1..] == Texts(ps[1..]);
      }
    }
  }

  /**
   * On every line, quoted spans included, the candidates in order spell the
   * pieces of the split with the whitespace separators left out.
   */
  lemma CandidatesSpell(s: string)
    ensures Concat(Candidates(s)) == Join(NoGaps(Pieces(s)))
  {
    ConcatNonEmpty(Split(s));
    ConcatTexts(Pieces(s));
  }

  // ---------------------------------------------------------------------
  // A line of words separated by single spaces

  /** The words joined by single spaces. */
  function Unwords(ws: seq<string>): string
    decreases |ws|
  {
    if ws == [] then ""
    else if |ws| == 1 then ws[0]
    else ws[0] + " " + Unwords(ws[1..])
  }

  /** What follows the first word of a line of words: nothing, or a space and the other words. */
  function AfterWord(r: seq<string>): string
  {
    if r == [] then "" else " " + Unwords(r)
  }

  predicate IsLowerWord(w: string)
  {
    w != "" && forall k :: 0 <= k < |w| ==> 'a' <= w[k] <= 'z'
  }

  /** A word the lexer can be given: a split symbol or a word of lower-case letters. */
  predicate IsLexWord(w: string)
  {
    w in SplitSymbols || IsLowerWord(w)
  }

  predicate AllLexWords(ws: seq<string>)
  {
    forall i :: 0 <= i < |ws| ==> IsLexWord(ws[i])
  }

  lemma UnwordsHead(ws: seq<string>)
    requires ws != []
    ensures Unwords(ws) == ws[0] + AfterWord(ws[1..])
  {
  }

  /** Nothing matches at a lower-case letter. */
  lemma LetterNoMatch(s: string, k: nat)
    requires k < |s| && 'a' <= s[k] <= 'z'
    ensures MatchAt(s, k) == NoMatch
  {
  }

  /** Lower-case letters add to the pending run. */
  lemma {:induction false} LettersRun(s: string, start: nat, p: nat, q: nat)
    requires start <= p <= q <= |s|
    requires forall k :: p <= k < q ==> 'a' <= s[k] <= 'z'
    ensures PiecesFrom(s, start, p) == PiecesFrom(s, start, q)
    decreases q - p
  {
    if p < q {
      LetterNoMatch(s, p);
      PiecesFromNoMatch(s, start, p);
      LettersRun(s, start, p + 1, q);
    }
  }

  /** A split symbol followed by a space or the end of the line is matched whole. */
  lemma SymbolWordMatch(s: string, p: nat, w: string)
    requires w in SplitSymbols && p + |w| <= |s| && s[p..p + |w|] == w
    requires p + |w| == |s| || s[p + |w|] == ' '
    ensures MatchAt(s, p) == Symbol(|w|)
  {
    assert s[p] == w[0];
    if |w| == 2 {
      assert s[p + 1] == w[1];
      assert w in {"//", "||", "<=", "&&", "==", "!=", ">="};
    } else {
      assert !IsSymbolChar('=') && !IsSymbolChar('&') && !IsSymbolChar('|');
      assert w in {"+", "-", "<", ">", "*", "/", "%", "!", ";", ",", "}", "{", "(", ")"};
    }
  }

  /** The candidates of the pieces of a scanner step that closes a run at a separator. */
  lemma CandidatesAtGap(a: string, c: char, rest: seq<Piece>)
    ensures NonEmpty(Texts([Run(a), Gap(c)] + rest)) == (if a == "" then [] else [a]) + NonEmpty(Texts(rest))
  {
    TextsStep(a, Gap(c), rest);
    assert ([a] + Texts(rest))[1..] == Texts(rest);
  }

  /** The candidates of the pieces of a scanner step that captures a symbol right away. */
  lemma CandidatesAtCapture(w: string, rest: seq<Piece>)
    requires w != ""
    ensures NonEmpty(Texts([Run(""), Captured(w)] + rest)) == [w] + NonEmpty(Texts(rest))
  {
    TextsStep("", Captured(w), rest);
    var xs := [""] + [w] + Texts(rest);
    assert xs[1..] == [w] + Texts(rest);
    assert xs[1..][1..] == Texts(rest);
  }

  /** The run that ends a line yields itself unless it is empty. */
  lemma CandidatesAtEnd(a: string)
    ensures NonEmpty(Texts([Run(a)])) == (if a == "" then [] else [a])
  {
    assert Texts([Run(a)]) == [a];
  }

  /**
   * The candidates from the end of a word on: the pending run `s[start..q]`,
   * if not empty, and then the other words.
   */
  lemma {:induction false} CandidatesAfterWord(s: string, start: nat, q: nat, r: seq<string>)
    requires start <= q <= |s| && s[q..] == AfterWord(r)
    requires AllLexWords(r)
    ensures s[start..q] == "" ==> NonEmpty(Texts(PiecesFrom(s, start, q))) == r
    ensures s[start..q] != "" ==> NonEmpty(Texts(PiecesFrom(s, start, q))) == [s[start..q]] + r
    decreases |r|, 4
  {
    if r == [] {
      CandidatesAtLineEnd(s, start, q);
    } else {
      CandidatesAtSpace(s, start, q, r);
    }
  }

  /** The pending run ends the line. */
  lemma CandidatesAtLineEnd(s: string, start: nat, q: nat)
    requires start <= q == |s|
    ensures s[start..q] == "" ==> NonEmpty(Texts(PiecesFrom(s, start, q))) == []
    ensures s[start..q] != "" ==> NonEmpty(Texts(PiecesFrom(s, start, q))) == [s[start..q]]
  {
    assert s[start..] == s[start..q];
    CandidatesAtEnd(s[start..]);
  }

  /** The pending run ends at a space, and the other words follow it. */
  lemma {:induction false} CandidatesAtSpace(s: string, start: nat, q: nat, r: seq<string>)
    requires start <= q <= |s| && r != [] && s[q..] == AfterWord(r)
    requires AllLexWords(r)
    ensures s[start..q] == "" ==> NonEmpty(Texts(PiecesFrom(s, start, q))) == r
    ensures s[start..q] != "" ==> NonEmpty(Texts(PiecesFrom(s, start, q))) == [s[start..q]] + r
    decreases |r|, 3
  {
    var q1 := q + 1;
    SpaceHead(s, q, q1, r);
    SpacePieces(s, start, q, q1);
    ghost var rest := PiecesFrom(s, q1, q1);
    CandidatesOfWords(s, q1, r);
    CandidatesAtGap(s[start..q], ' ', rest);
  }

  lemma SpaceHead(s: string, q: nat, q1: nat, r: seq<string>)
    requires q <= |s| && r != [] && s[q..] == AfterWord(r) && q1 == q + 1
    ensures q1 <= |s| && s[q] == ' ' && s[q1..] == Unwords(r)
  {
    assert s[q..][0] == ' ';
    assert s[q1..] == s[q..][1..];
  }

  /** A space closes the pending run. */
  lemma SpacePieces(s: string, start: nat, q: nat, q1: nat)
    requires start <= q < |s| && s[q] == ' ' && q1 == q + 1
    ensures PiecesFrom(s, start, q) == [Run(s[start..q]), Gap(' ')] + PiecesFrom(s, q1, q1)
  {
    assert MatchAt(s, q) == Space;
    PiecesFromSpace(s, start, q);
  }

  /** The candidates of the words that a line holds from position p on. */
  lemma {:induction false} CandidatesOfWords(s: string, p: nat, ws: seq<string>)
    requires p <= |s| && s[p..] == Unwords(ws) && ws != []
    requires AllLexWords(ws)
    ensures NonEmpty(Texts(PiecesFrom(s, p, p))) == ws
    decreases |ws|, 2
  {
    if ws[0] in SplitSymbols {
      SymbolWordCandidates(s, p, ws);
    } else {
      LowerWordCandidates(s, p, ws);
    }
  }

  /** Where the first word of the words from position p on ends, and what follows it. */
  lemma WordHead(s: string, p: nat, q: nat, ws: seq<string>)
    requires p <= |s| && s[p..] == Unwords(ws) && ws != [] && q == p + |ws[0]|
    requires AllLexWords(ws)
    ensures q <= |s| && s[p..q] == ws[0] && s[q..] == AfterWord(ws[1..])
    ensures IsLexWord(ws[0]) && AllLexWords(ws[1..])
  {
    UnwordsHead(ws);
    assert forall i :: 0 <= i < |ws[1..]| ==> ws[1..][i] == ws[i + 1];
  }

  /** A symbol word followed by a space or the end of the line is captured with no run before it. */
  lemma SymbolWordPieces(s: string, p: nat, q: nat, w: string)
    requires w in SplitSymbols && q == p + |w| && q <= |s| && s[p..q] == w
    requires q == |s| || s[q] == ' '
    ensures PiecesFrom(s, p, p) == [Run(s[p..p]), Captured(s[p..q])] + PiecesFrom(s, q, q)
  {
    SymbolWordMatch(s, p, w);
    PiecesFromSymbol(s, p, p, |w|);
  }

  /** A lower-case word becomes the pending run. */
  lemma LowerWordPieces(s: string, p: nat, q: nat, w: string)
    requires IsLowerWord(w) && q == p + |w| && q <= |s| && s[p..q] == w
    ensures PiecesFrom(s, p, p) == PiecesFrom(s, p, q)
  {
    LowerWordLetters(s, p, q, w);
    LettersRun(s, p, p, q);
  }

  lemma LowerWordLetters(s: string, p: nat, q: nat, w: string)
    requires IsLowerWord(w) && q == p + |w| && q <= |s| && s[p..q] == w
    ensures forall k :: p <= k < q ==> 'a' <= s[k] <= 'z'
  {
    assert forall k :: p <= k < q ==> s[k] == w[k - p];
  }

  /** The candidates from a symbol word on: the symbol, then the other words. */
  lemma {:induction false} SymbolWordCandidates(s: string, p: nat, ws: seq<string>)
    requires p <= |s| && s[p..] == Unwords(ws) && ws != []
    requires AllLexWords(ws) && ws[0] in SplitSymbols
    ensures NonEmpty(Texts(PiecesFrom(s, p, p))) == ws
    decreases |ws|, 1
  {
    var q := p + |ws[0]|;
    WordHead(s, p, q, ws);
    SymbolWordPieces(s, p, q, ws[0]);
    ghost var rest := PiecesFrom(s, q, q);
    CandidatesAfterWord(s, q, q, ws[1..]);
    assert s[p..p] == "";
    CaptureThenWords(ws, s[p..p], s[p..q], rest);
  }

  /** The candidates from a lower-case word on: the word, then the other words. */
  lemma {:induction false} LowerWordCandidates(s: string, p: nat, ws: seq<string>)
    requires p <= |s| && s[p..] == Unwords(ws) && ws != []
    requires AllLexWords(ws) && ws[0] !in SplitSymbols
    ensures NonEmpty(Texts(PiecesFrom(s, p, p))) == ws
    decreases |ws|, 1
  {
    var q := p + |ws[0]|;
    WordHead(s, p, q, ws);
    LowerWordPieces(s, p, q, ws[0]);
    CandidatesAfterWord(s, p, q, ws[1..]);
    assert ws == [s[p..q]] + ws[1..];
  }

  /** A captured first word, then the candidates of the other words. */
  lemma CaptureThenWords(ws: seq<string>, a: string, x: string, rest: seq<Piece>)
    requires ws != [] && ws[0] != "" && NonEmpty(Texts(rest)) == ws[1..]
    requires a == "" && x == ws[0]
    ensures NonEmpty(Texts([Run(a), Captured(x)] + rest)) == ws
  {
    CandidatesAtCapture(ws[0], rest);
    assert ws == [ws[0]] + ws[1..];
  }

  /**
   * Words separated by single spaces, each a split symbol or a lower-case
   * word, split back into exactly those words: joining the candidates with
   * single spaces gives the line back.
   */
  lemma UnwordsRoundTrip(ws: seq<string>)
    requires forall i :: 0 <= i < |ws| ==> IsLexWord(ws[i])
    ensures Candidates(Unwords(ws)) == ws
    ensures Unwords(Candidates(Unwords(ws))) == Unwords(ws)
  {
    var s := Unwords(ws);
    if ws == [] {
      assert Pieces(s) == [Run("")];
      CandidatesAtEnd("");
    } else {
      assert s[0..] == s;
      CandidatesOfWords(s, 0, ws);
    }
  }

  /** `<=` comes out whole, and the text around it forms runs. */
  lemma LessEqualExample()
    ensures Candidates("a<=b") == ["a", "<=", "b"]
  {
    var s := "a<=b";
    assert MatchAt(s, 0) == NoMatch;
    assert MatchAt(s, 1) == Symbol(2);
    assert MatchAt(s, 3) == NoMatch;
    assert PiecesFrom(s, 3, 4) == [Run("b")] by {
      assert s[3..] == "b";
    }
    assert Pieces(s) == [Run("a"), Captured("<="), Run("b")] by {
      assert s[0..1] == "a" && s[1..3] == "<=";
      assert PiecesFrom(s, 0, 0) == PiecesFrom(s, 0, 1);
    }
    var ps := [Run("a"), Captured("<="), Run("b")];
    assert ps[1..] == [Captured("<="), Run("b")];
    assert ps[1..][1..] == [Run("b")];
    assert Split(s) == ["a", "<=", "b"];
    var xs := ["a", "<=", "b"];
    assert xs[1..] == ["<=", "b"];
    assert xs[1..][1..] == ["b"];
  }
}
