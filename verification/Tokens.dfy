/** The tokenizer of internal/catalog/search.go: where a name or phrase is cut, which pieces
    are dropped, and which tokens a query keeps. */
module Tokens {
  import opened Text

  const MAX_DISTINCT_QUERY_TOKENS: nat := 16

  /** Unicode categories and lower-casing, rune by rune. */
  datatype Unicode = Unicode(letter: char -> bool, digit: char -> bool, upper: char -> bool, lower: char -> bool,
                             space: char -> bool, toLower: char -> char)

  function Word(u: Unicode, c: char): bool { u.letter(c) || u.digit(c) }

  /** strings.ToLower on decoded runes. */
  function Lowered(u: Unicode, s: string): (r: string)
    ensures |r| == |s|
  {
    seq(|s|, i requires 0 <= i < |s| => u.toLower(s[i]))
  }

  /** strings.TrimSpace: how many runes the left and the right edge lose. */
  function LeftSpaces(u: Unicode, s: string): (n: nat)
    ensures n <= |s|
    ensures forall i :: 0 <= i < n ==> u.space(s[i])
    ensures n < |s| ==> !u.space(s[n])
  {
    if s == "" || !u.space(s[0]) then 0 else 1 + LeftSpaces(u, s[1..])
  }

  function TrimRight(u: Unicode, s: string): (r: string)
    ensures r <= s
    ensures forall i :: |r| <= i < |s| ==> u.space(s[i])
    ensures r != "" ==> !u.space(r[|r| - 1])
  {
    if s == "" || !u.space(s[|s| - 1]) then s else TrimRight(u, s[..|s| - 1])
  }

  function Trim(u: Unicode, s: string): string { TrimRight(u, s[LeftSpaces(u, s)..]) }

  /** A text without space at either edge is left alone. */
  lemma TrimKeeps(u: Unicode, s: string)
    requires s != "" ==> !u.space(s[0]) && !u.space(s[|s| - 1])
    ensures Trim(u, s) == s
  {}

  predicate IsConnector(token: string) {
    token == "a" || token == "an" || token == "and" || token == "by" || token == "for" || token == "from"
      || token == "in"
    || token == "of" || token == "on" || token == "or" || token == "the" || token == "to" || token == "with"
  }

  /** shouldSplitBefore: a camel, acronym or letter/number boundary before runes[i]. */
  predicate SplitBefore(u: Unicode, runes: string, i: nat, startedUpper: bool)
    requires 0 < i < |runes|
  {
    var previous, current := runes[i - 1], runes[i];
    if u.letter(previous) && u.digit(current) then true
    else if u.digit(previous) && u.letter(current) then true
    else if u.lower(previous) && u.upper(current) then !startedUpper
    else u.upper(previous) && u.upper(current) && i + 1 < |runes| && u.lower(runes[i + 1])
  }

  // ----- the pieces of a text -----

  datatype Span = Span(from: nat, to: nat)

  /** Nothing inside the span is a separator or a boundary. */
  predicate Whole(u: Unicode, runes: string, s: Span) {
    && s.from < s.to <= |runes|
    && (forall i :: s.from <= i < s.to ==> Word(u, runes[i]))
    && (forall i :: s.from < i < s.to ==> !SplitBefore(u, runes, i, u.upper(runes[s.from])))
  }

  /** The text cannot be continued past the span: it ends, or a separator or a boundary follows. */
  predicate Ends(u: Unicode, runes: string, s: Span)
    requires s.from < s.to <= |runes|
  {
    s.to == |runes| || !Word(u, runes[s.to]) || SplitBefore(u, runes, s.to, u.upper(runes[s.from]))
  }

  /** Only separators lie between from and to. */
  predicate Gap(u: Unicode, runes: string, from: nat, to: nat) {
    from <= to <= |runes| && forall i :: from <= i < to ==> !Word(u, runes[i])
  }

  /** Where the text not covered by the first k spans begins. */
  function Edge(spans: seq<Span>, k: nat): nat
    requires k <= |spans|
  {
    if k == 0 then 0 else spans[k - 1].to
  }

  predicate PieceAt(u: Unicode, runes: string, spans: seq<Span>, k: nat)
    requires k < |spans|
  {
    Gap(u, runes, Edge(spans, k), spans[k].from) && Whole(u, runes, spans[k]) && Ends(u, runes, spans[k])
  }

  ghost predicate Finished(u: Unicode, runes: string, spans: seq<Span>) {
    forall k :: 0 <= k < |spans| ==> PieceAt(u, runes, spans, k)
  }

  /** The spans are the maximal unbroken words of the text, in order, and nothing but separators
      is left out. */
  ghost predicate Pieces(u: Unicode, runes: string, spans: seq<Span>) {
    Finished(u, runes, spans) && Gap(u, runes, Edge(spans, |spans|), |runes|)
  }

  lemma SameStart(u: Unicode, runes: string, edge: nat, a: nat, b: nat)
    requires Gap(u, runes, edge, a) && Gap(u, runes, edge, b) && b < |runes| && Word(u, runes[b])
    ensures a <= b
  {}

  lemma NoSplit(u: Unicode, runes: string, s: Span, i: nat)
    requires Whole(u, runes, s) && s.from < i
    ensures i < s.to ==> Word(u, runes[i]) && !SplitBefore(u, runes, i, u.upper(runes[s.from]))
  {}

  lemma SamePiece(u: Unicode, runes: string, edge: nat, a: Span, b: Span)
    requires Gap(u, runes, edge, a.from) && Gap(u, runes, edge, b.from)
    requires Whole(u, runes, a) && Whole(u, runes, b) && Ends(u, runes, a) && Ends(u, runes, b)
    ensures a == b
  {
    SameStart(u, runes, edge, a.from, b.from);
    SameStart(u, runes, edge, b.from, a.from);
    NoSplit(u, runes, b, a.to);
    NoSplit(u, runes, a, b.to);
  }

  lemma {:induction false} PiecesAgree(u: Unicode, runes: string, a: seq<Span>, b: seq<Span>, k: nat)
    requires Pieces(u, runes, a) && Pieces(u, runes, b) && k <= |a| && k <= |b|
    ensures a[..k] == b[..k]
  {
    if k > 0 {
      PiecesAgree(u, runes, a, b, k - 1);
      assert PieceAt(u, runes, a, k - 1) && PieceAt(u, runes, b, k - 1);
      assert k > 1 ==> a[..k - 1][k - 2] == b[..k - 1][k - 2];
      SamePiece(u, runes, Edge(a, k - 1), a[k - 1], b[k - 1]);
      assert a[..k] == a[..k - 1] + [a[k - 1]] && b[..k] == b[..k - 1] + [b[k - 1]];
    }
  }

  /** A text has exactly one division into pieces. */
  lemma PiecesUnique(u: Unicode, runes: string, a: seq<Span>, b: seq<Span>)
    requires Pieces(u, runes, a) && Pieces(u, runes, b)
    ensures a == b
  {
    NoMorePieces(u, runes, a, b);
    NoMorePieces(u, runes, b, a);
    PiecesAgree(u, runes, a, b, |a|);
    assert a[..|a|] == a && b[..|b|] == b;
  }

  lemma NoMorePieces(u: Unicode, runes: string, a: seq<Span>, b: seq<Span>)
    requires Pieces(u, runes, a) && Pieces(u, runes, b)
    ensures |b| <= |a|
  {
    if |a| < |b| {
      PiecesAgree(u, runes, a, b, |a|);
      var n := |a|;
      assert n > 0 ==> a[..n][n - 1] == b[..n][n - 1];
      assert PieceAt(u, runes, b, n);
      SameStart(u, runes, Edge(a, n), |runes|, b[n].from);
    }
  }

  function Covered(runes: string, s: Span): string { if s.from <= s.to <= |runes| then runes[s.from..s.to] else "" }

  /** The tokens: every piece in lower case, connectors dropped. */
  ghost function Kept(u: Unicode, runes: string, spans: seq<Span>): seq<string> {
    if spans == [] then []
    else Kept(u, runes, spans[..|spans| - 1]) + KeptToken(Lowered(u, Covered(runes, spans[|spans| - 1])))
  }

  function KeptToken(lowered: string): seq<string> { if IsConnector(lowered) then [] else [lowered] }

  lemma KeptMore(u: Unicode, runes: string, spans: seq<Span>, s: Span)
    ensures Kept(u, runes, spans + [s]) == Kept(u, runes, spans) + KeptToken(Lowered(u, Covered(runes, s)))
  {
    assert (spans + [s])[..|spans|] == spans;
  }

  lemma PiecesMore(u: Unicode, runes: string, spans: seq<Span>, s: Span)
    requires Finished(u, runes, spans)
    requires Gap(u, runes, Edge(spans, |spans|), s.from) && Whole(u, runes, s) && Ends(u, runes, s)
    ensures Finished(u, runes, spans + [s])
  {
    var more := spans + [s];
    forall k | 0 <= k < |more| ensures PieceAt(u, runes, more, k) {
      assert Edge(more, k) == Edge(spans, k);
      if k < |spans| { assert PieceAt(u, runes, spans, k); }
    }
  }

  lemma WholeMore(u: Unicode, runes: string, from: nat, n: nat)
    requires from <= n < |runes| && Word(u, runes[n])
    requires from < n ==> Whole(u, runes, Span(from, n)) && !SplitBefore(u, runes, n, u.upper(runes[from]))
    ensures Whole(u, runes, Span(from, n + 1)) && runes[from..n + 1] == runes[from..n] + [runes[n]]
  {
    forall i | from < i < n + 1 ensures !SplitBefore(u, runes, i, u.upper(runes[from])) {
      if i < n { NoSplit(u, runes, Span(from, n), i); }
    }
  }

  /** What lies between the finished pieces and n: separators, then perhaps an open piece. */
  ghost predicate Open(u: Unicode, runes: string, edge: nat, current: string, startedUpper: bool, from: nat, n: nat) {
    if current == "" then Gap(u, runes, edge, n)
    else
      && from < n <= |runes| && Gap(u, runes, edge, from) && Whole(u, runes, Span(from, n))
      && current == runes[from..n] && startedUpper == u.upper(runes[from])
  }

  lemma Separator(u: Unicode, runes: string, edge: nat, startedUpper: bool, from: nat, n: nat)
    requires Open(u, runes, edge, "", startedUpper, from, n) && n < |runes| && !Word(u, runes[n])
    ensures Open(u, runes, edge, "", false, from, n + 1)
  {}

  /** tokenize's scan: tokens holds the finished pieces, current the open one. */
  class Scanner {
    const u: Unicode
    const runes: string
    var tokens: seq<string>
    var current: string
    var startedUpper: bool
    ghost var spans: seq<Span>
    ghost var from: nat

    constructor (u: Unicode, runes: string)
      ensures this.u == u && this.runes == runes && At(0)
    {
      this.u, this.runes, this.tokens, this.current, this.startedUpper, this.spans, this.from := u, runes, [], "",
        false, [], 0;
    }

    ghost predicate At(n: nat)
      reads this
    {
      Finished(u, runes, spans) && tokens == Kept(u, runes, spans)
        && Open(u, runes, Edge(spans, |spans|), current, startedUpper, from, n)
    }

    /** flush, where the open piece ends at n. */
    method Flush(n: nat)
      requires At(n) && (current != "" ==> Ends(u, runes, Span(from, n)))
      modifies this
      ensures At(n) && current == ""
    {
      if current == "" {
        return;
      }
      var token := Lowered(u, current);
      current := "";
      ghost var s := Span(from, n);
      PiecesMore(u, runes, spans, s);
      KeptMore(u, runes, spans, s);
      spans := spans + [s];
      if IsConnector(token) {
        return;
      }
      tokens := tokens + [token];
    }

    /** One rune. */
    method Step(n: nat)
      requires At(n) && n < |runes|
      modifies this
      ensures At(n + 1)
    {
      if !Word(u, runes[n]) {
        Flush(n);
        Separator(u, runes, Edge(spans, |spans|), startedUpper, from, n);
        startedUpper := false;
        return;
      }
      if |current| > 0 && SplitBefore(u, runes, n, startedUpper) {
        Flush(n);
      }
      Extend(n);
    }

    /** The rune at n joins the open piece or opens one. */
    method Extend(n: nat)
      requires At(n) && n < |runes| && Word(u, runes[n])
      requires current != "" ==> !SplitBefore(u, runes, n, startedUpper)
      modifies this
      ensures At(n + 1)
    {
      if current == "" {
        startedUpper := u.upper(runes[n]);
        from := n;
      }
      WholeMore(u, runes, from, n);
      current := current + [runes[n]];
    }

    method Scan()
      requires At(0)
      modifies this
      ensures Pieces(u, runes, spans) && tokens == Kept(u, runes, spans)
    {
      for n := 0 to |runes|
        invariant At(n)
      {
        Step(n);
      }
      Flush(|runes|);
    }
  }

  /** tokenize: the lower-cased pieces of the trimmed text, in order, without connectors. */
  method Tokenize(u: Unicode, value: string) returns (tokens: seq<string>)
    ensures TokensOf(u, value, tokens)
  {
    var runes := Trim(u, value);
    var scan := new Scanner(u, runes);
    scan.Scan();
    ghost var spans := scan.spans;
    assert Pieces(u, runes, spans);
    return scan.tokens;
  }

  /** The tokens of a text, independent of how they are found. */
  ghost predicate TokensOf(u: Unicode, value: string, tokens: seq<string>) {
    exists spans :: Pieces(u, Trim(u, value), spans) && tokens == Kept(u, Trim(u, value), spans)
  }

  lemma TokensUnique(u: Unicode, value: string, a: seq<string>, b: seq<string>)
    requires TokensOf(u, value, a) && TokensOf(u, value, b)
    ensures a == b
  {
    var x :| Pieces(u, Trim(u, value), x) && a == Kept(u, Trim(u, value), x);
    var y :| Pieces(u, Trim(u, value), y) && b == Kept(u, Trim(u, value), y);
    PiecesUnique(u, Trim(u, value), x, y);
  }

  // ----- distinct tokens -----

  predicate Distinct(tokens: seq<string>) { forall i, j :: 0 <= i < j < |tokens| ==> tokens[i] != tokens[j] }

  /** The first occurrence of every token, in order. */
  ghost function FirstSeen(tokens: seq<string>): (r: seq<string>)
    ensures Distinct(r)
    ensures forall t :: t in r <==> t in tokens
    ensures |r| <= |tokens|
  {
    if tokens == [] then []
    else
      var front, t := tokens[..|tokens| - 1], tokens[|tokens| - 1];
      assert tokens == front + [t];
      if t in FirstSeen(front) then FirstSeen(front) else FirstSeen(front) + [t]
  }

  lemma {:induction false} FirstSeenOfDistinct(tokens: seq<string>)
    requires Distinct(tokens)
    ensures FirstSeen(tokens) == tokens
  {
    if tokens != [] {
      var front, t := tokens[..|tokens| - 1], tokens[|tokens| - 1];
      FirstSeenOfDistinct(front);
      assert t !in front;
      assert tokens == front + [t];
    }
  }

  /** A longer list has at least the distinct tokens of its prefix. */
  lemma {:induction false} FirstSeenGrows(tokens: seq<string>, n: nat)
    requires n <= |tokens|
    ensures FirstSeen(tokens[..n]) <= FirstSeen(tokens)
    decreases |tokens| - n
  {
    if n == |tokens| {
      assert tokens[..n] == tokens;
    } else {
      assert tokens[..n + 1][..n] == tokens[..n];
      FirstSeenGrows(tokens, n + 1);
    }
  }

  /** uniqueTokens. */
  method UniqueTokens(tokens: seq<string>) returns (unique: seq<string>)
    ensures unique == FirstSeen(tokens)
  {
    var seen: set<string> := {};
    unique := [];
    for n := 0 to |tokens|
      invariant unique == FirstSeen(tokens[..n]) && seen == (set t | t in unique)
    {
      assert tokens[..n + 1][..n] == tokens[..n];
      if tokens[n] in seen {
        continue;
      }
      seen := seen + {tokens[n]};
      unique := unique + [tokens[n]];
    }
    assert tokens[..|tokens|] == tokens;
  }

  ghost function DistinctWithin(tokens: seq<string>): Option<seq<string>> {
    if |FirstSeen(tokens)| <= MAX_DISTINCT_QUERY_TOKENS then Some(FirstSeen(tokens)) else None
  }

  /** tokenizeQuery after tokenize: the distinct tokens, or nothing where there are more than sixteen. */
  method DistinctTokens(tokens: seq<string>) returns (r: Option<seq<string>>)
    ensures r == DistinctWithin(tokens)
  {
    var unique: seq<string> := [];
    for n := 0 to |tokens|
      invariant unique == FirstSeen(tokens[..n]) && |unique| <= MAX_DISTINCT_QUERY_TOKENS
    {
      assert tokens[..n + 1][..n] == tokens[..n];
      FirstSeenGrows(tokens, n + 1);
      if tokens[n] in unique {
        continue;
      }
      unique := unique + [tokens[n]];
      if |unique| > MAX_DISTINCT_QUERY_TOKENS {
        return None;
      }
    }
    assert tokens[..|tokens|] == tokens;
    return Some(unique);
  }
}
