/** internal/catalog/search.go: integer scoring, eligibility, a strict total ranking and
    byte-exact packing, against a plain specification of the response. */
module Search {
  import opened Text
  import opened Tokens
  import opened Index

  const MIN_PREFIX_LENGTH: nat := 3
  const NAME_WEIGHT: nat := 12
  const TERMS_WEIGHT: nat := 10
  const SUMMARY_WEIGHT: nat := 5
  const DESCRIPTION_WEIGHT: nat := 2
  const EXACT_QUALITY: nat := 100
  const PREFIX_QUALITY: nat := 72
  const MAX_UINT64: nat := 0xFFFF_FFFF_FFFF_FFFF

  // ----- one query token -----

  /** tokenMatchQuality. */
  function Quality(query: string, text: string): nat {
    if query == text then EXACT_QUALITY
    else if |query| < MIN_PREFIX_LENGTH then 0
    else if query <= text then PREFIX_QUALITY
    else 0
  }

  /** Exact beats prefix; among equal quality the rarer token wins. */
  predicate AtMostAsGood(query: string, a: Token, b: Token) {
    Quality(query, a.text) < Quality(query, b.text)
      || (Quality(query, a.text) == Quality(query, b.text) && a.idf <= b.idf)
  }

  predicate Matches(query: string, t: Token) { Quality(query, t.text) > 0 }

  /** The best match in a field: its quality and its rarity; (0, 0) where nothing matches. */
  ghost function Best(tokens: seq<Token>, query: string): (nat, nat) {
    if tokens == [] then (0, 0)
    else
      var before, t := Best(tokens[..|tokens| - 1], query), tokens[|tokens| - 1];
      var quality := Quality(query, t.text);
      if quality > before.0 || (quality != 0 && quality == before.0 && t.idf > before.1) then (quality, t.idf)
      else before
  }

  ghost predicate NoneMatches(tokens: seq<Token>, query: string) { forall t :: t in tokens ==> !Matches(query, t) }

  /** A matching token of the field that no token of the field surpasses. */
  ghost predicate Unsurpassed(tokens: seq<Token>, query: string, best: Token) {
    best in tokens && Matches(query, best) && forall t :: t in tokens ==> AtMostAsGood(query, t, best)
  }

  lemma UnsurpassedMore(front: seq<Token>, last: Token, query: string, best: Token)
    requires Unsurpassed(front, query, best)
    ensures Unsurpassed(front + [last], query, if AtMostAsGood(query, last, best) then best else last)
  {}

  lemma FirstMatch(front: seq<Token>, last: Token, query: string)
    requires NoneMatches(front, query)
    ensures if Matches(query, last) then Unsurpassed(front + [last], query, last)
            else NoneMatches(front + [last], query)
  {
    assert last in front + [last];
  }

  /** Best is the quality and rarity of some matching token that no token surpasses. */
  lemma {:induction false} BestIsBest(tokens: seq<Token>, query: string)
    ensures if NoneMatches(tokens, query) then Best(tokens, query) == (0, 0)
            else exists best :: Unsurpassed(tokens, query, best)
                   && Best(tokens, query) == (Quality(query, best.text), best.idf)
  {
    if tokens != [] {
      var front, last := tokens[..|tokens| - 1], tokens[|tokens| - 1];
      BestIsBest(front, query);
      assert tokens == front + [last];
      if NoneMatches(front, query) {
        FirstMatch(front, last, query);
      } else {
        var best :| Unsurpassed(front, query, best) && Best(front, query) == (Quality(query, best.text), best.idf);
        UnsurpassedMore(front, last, query, best);
      }
    }
  }

  /** An exact match dominates: where a token equals the query, the rarest such token decides, even
      though a rarer token that the query only begins would have scored more. */
  lemma ExactDominates(tokens: seq<Token>, query: string, exact: Token)
    requires exact in tokens && exact.text == query
    ensures Best(tokens, query).0 == EXACT_QUALITY && Token(query, Best(tokens, query).1) in tokens
    ensures forall t :: t in tokens && t.text == query ==> t.idf <= Best(tokens, query).1
  {
    BestIsBest(tokens, query);
    assert Matches(query, exact);
    var best :| Unsurpassed(tokens, query, best) && Best(tokens, query) == (Quality(query, best.text), best.idf);
    assert AtMostAsGood(query, exact, best);
    assert best == Token(query, best.idf);
  }

  ghost function Contribution(tokens: seq<Token>, query: string, weight: nat): nat {
    weight * Best(tokens, query).1 * Best(tokens, query).0
  }

  lemma {:induction false} BestBounds(tokens: seq<Token>, query: string)
    requires Rated(tokens)
    ensures Best(tokens, query).0 <= EXACT_QUALITY && Best(tokens, query).1 <= IDF_BUCKETS
    ensures Best(tokens, query).0 == 0 <==> Best(tokens, query).1 == 0
  {
    if tokens != [] { BestBounds(tokens[..|tokens| - 1], query); }
  }

  /** tokenFieldContribution. */
  method FieldContribution(tokens: seq<Token>, query: string, weight: nat) returns (c: nat)
    ensures c == Contribution(tokens, query, weight)
  {
    var bestQuality, bestIdf := 0, 0;
    for n := 0 to |tokens|
      invariant (bestQuality, bestIdf) == Best(tokens[..n], query)
    {
      assert tokens[..n + 1][..n] == tokens[..n];
      var quality := Quality(query, tokens[n].text);
      if quality == 0 {
        continue;
      }
      if quality > bestQuality || (quality == bestQuality && tokens[n].idf > bestIdf) {
        bestQuality, bestIdf := quality, tokens[n].idf;
      }
    }
    assert tokens[..|tokens|] == tokens;
    if bestQuality == 0 { return 0; }
    return weight * bestIdf * bestQuality;
  }

  lemma ProductBound(weight: nat, idf: nat, quality: nat)
    requires idf <= IDF_BUCKETS && quality <= EXACT_QUALITY
    ensures weight * idf * quality <= weight * (IDF_BUCKETS * EXACT_QUALITY)
  {
    assert idf * quality <= IDF_BUCKETS * EXACT_QUALITY by {
      MulMonotone(idf, IDF_BUCKETS, quality);
      MulMonotone(quality, EXACT_QUALITY, IDF_BUCKETS);
    }
    MulMonotone(idf * quality, IDF_BUCKETS * EXACT_QUALITY, weight);
    assert weight * idf * quality == weight * (idf * quality);
  }

  // ----- one document -----

  function Max(a: nat, b: nat): nat { if a >= b then a else b }

  /** bestTokenContribution, as the largest of the four fields. */
  ghost function TokenScore(d: Document, query: string): nat {
    Max(Max(Contribution(d.nameTokens, query, NAME_WEIGHT), Contribution(d.termTokens, query, TERMS_WEIGHT)),
        Max(Contribution(d.summaryTokens, query, SUMMARY_WEIGHT),
            Contribution(d.descriptionTokens, query, DESCRIPTION_WEIGHT)))
  }

  const MAX_TOKEN_SCORE: nat := 9600

  ghost predicate MatchesDocument(d: Document, query: string) {
    exists t :: t in d.nameTokens + d.termTokens + d.summaryTokens + d.descriptionTokens && Matches(query, t)
  }

  lemma ContributionBounds(tokens: seq<Token>, query: string, weight: nat)
    requires Rated(tokens) && 0 < weight <= NAME_WEIGHT
    ensures Contribution(tokens, query, weight) <= MAX_TOKEN_SCORE
    ensures Contribution(tokens, query, weight) > 0 <==> exists t :: t in tokens && Matches(query, t)
  {
    BestBounds(tokens, query);
    BestIsBest(tokens, query);
    var b := Best(tokens, query);
    ProductBound(weight, b.1, b.0);
    MulMonotone(weight, NAME_WEIGHT, IDF_BUCKETS * EXACT_QUALITY);
    if b.0 > 0 { Positive(weight, b.1, b.0); }
  }

  lemma Positive(a: nat, b: nat, c: nat)
    requires a > 0 && b > 0 && c > 0
    ensures a * b * c > 0
  {
    MulMonotone(1, a, b);
    MulMonotone(1, a * b, c);
  }

  /** A token scores exactly when some token of some field matches it, and never more than
      12 * 8 * 100. */
  lemma TokenScoreMeans(d: Document, query: string)
    requires DocumentOk(d)
    ensures TokenScore(d, query) <= MAX_TOKEN_SCORE
    ensures TokenScore(d, query) > 0 <==> MatchesDocument(d, query)
  {
    ContributionBounds(d.nameTokens, query, NAME_WEIGHT);
    ContributionBounds(d.termTokens, query, TERMS_WEIGHT);
    ContributionBounds(d.summaryTokens, query, SUMMARY_WEIGHT);
    ContributionBounds(d.descriptionTokens, query, DESCRIPTION_WEIGHT);
    var all := d.nameTokens + d.termTokens + d.summaryTokens + d.descriptionTokens;
    assert forall t :: t in all <==> t in d.nameTokens || t in d.termTokens || t in d.summaryTokens
                                     || t in d.descriptionTokens;
  }

  method BestContribution(d: Document, query: string) returns (best: nat)
    ensures best == TokenScore(d, query)
  {
    best := FieldContribution(d.nameTokens, query, NAME_WEIGHT);
    var c := FieldContribution(d.termTokens, query, TERMS_WEIGHT);
    if c > best { best := c; }
    c := FieldContribution(d.summaryTokens, query, SUMMARY_WEIGHT);
    if c > best { best := c; }
    c := FieldContribution(d.descriptionTokens, query, DESCRIPTION_WEIGHT);
    if c > best { best := c; }
  }

  ghost function Score(d: Document, queries: seq<string>): nat {
    if queries == [] then 0 else Score(d, queries[..|queries| - 1]) + TokenScore(d, queries[|queries| - 1])
  }

  /** How many query tokens match the document. */
  ghost function Matched(d: Document, queries: seq<string>): nat {
    if queries == [] then 0
    else Matched(d, queries[..|queries| - 1]) + if MatchesDocument(d, queries[|queries| - 1]) then 1 else 0
  }

  lemma {:induction false} ScoreBounds(d: Document, queries: seq<string>)
    requires DocumentOk(d)
    ensures Score(d, queries) <= MAX_TOKEN_SCORE * |queries| && Matched(d, queries) <= |queries|
  {
    if queries != [] {
      ScoreBounds(d, queries[..|queries| - 1]);
      TokenScoreMeans(d, queries[|queries| - 1]);
    }
  }

  /** scoreDocument. */
  method ScoreDocument(d: Document, queries: seq<string>) returns (score: nat, matched: nat)
    requires DocumentOk(d)
    ensures score == Score(d, queries) && matched == Matched(d, queries)
  {
    score, matched := 0, 0;
    for n := 0 to |queries|
      invariant score == Score(d, queries[..n]) && matched == Matched(d, queries[..n])
    {
      assert queries[..n + 1][..n] == queries[..n];
      var contribution := BestContribution(d, queries[n]);
      TokenScoreMeans(d, queries[n]);
      if contribution == 0 {
        continue;
      }
      matched := matched + 1;
      score := score + contribution;
    }
    assert queries[..|queries|] == queries;
  }

  // ----- eligibility -----

  /** requiredMatches. */
  function RequiredMatches(q: nat): nat {
    if q <= 1 then q else if q == 2 then 2 else (2 * q + 2) / 3
  }

  /** The threshold is two thirds of the query tokens, rounded up. */
  lemma RequiredIsCeiling(q: nat)
    ensures 3 * RequiredMatches(q) >= 2 * q && 3 * RequiredMatches(q) < 2 * q + 3
  {}

  ghost predicate Eligible(d: Document, queries: seq<string>) { Matched(d, queries) >= RequiredMatches(|queries|) }

  /** The ranking score, scaled by coverage. It never needs more than 64 bits. */
  ghost function Rank(d: Document, queries: seq<string>): nat
    requires queries != []
  {
    Scaled(Score(d, queries), Matched(d, queries), |queries|)
  }

  /** A score scaled by the part of the query that matched. */
  function Scaled(score: nat, matched: nat, queries: nat): nat
    requires queries > 0
  {
    score * matched / queries
  }

  predicate FitsUint64(score: nat, matched: nat) { score <= MAX_UINT64 && score * matched <= MAX_UINT64 }

  lemma RankFits(d: Document, queries: seq<string>)
    requires DocumentOk(d) && |queries| <= MAX_DISTINCT_QUERY_TOKENS
    ensures FitsUint64(Score(d, queries), Matched(d, queries))
  {
    ScoreBounds(d, queries);
    SmallProduct(Score(d, queries), Matched(d, queries));
  }

  lemma SmallProduct(score: nat, matched: nat)
    requires score <= MAX_TOKEN_SCORE * 16 && matched <= 16
    ensures score * matched <= MAX_TOKEN_SCORE * 256
  {
    MulMonotone(score, MAX_TOKEN_SCORE * 16, matched);
    MulMonotone(matched, 16, MAX_TOKEN_SCORE * 16);
  }

  // ----- ranking -----

  /** searchCandidate: a document by number, its score, and whether the query is its name. */
  datatype Candidate = Candidate(document: nat, score: nat, exact: bool)

  /** compareSearchCandidates, then strings.Compare on the names. */
  predicate Before(documents: seq<Document>, a: Candidate, b: Candidate)
    requires a.document < |documents| && b.document < |documents|
  {
    if a.exact != b.exact then a.exact
    else if a.score != b.score then a.score > b.score
    else Below(documents[a.document].name, documents[b.document].name)
  }

  ghost predicate Numbered(documents: seq<Document>, cs: seq<Candidate>) {
    forall i :: 0 <= i < |cs| ==> cs[i].document < |documents|
  }

  ghost predicate DistinctNames(documents: seq<Document>) {
    forall i, j :: 0 <= i < j < |documents| ==> documents[i].name != documents[j].name
  }

  /** With distinct names the ranking is a strict total order. */
  lemma BeforeTotal(documents: seq<Document>, a: Candidate, b: Candidate)
    requires DistinctNames(documents) && a.document < |documents| && b.document < |documents|
             && a.document != b.document
    ensures Before(documents, a, b) <==> !Before(documents, b, a)
  {
    var x, y := documents[a.document].name, documents[b.document].name;
    assert x != y by { if a.document < b.document {} else { assert b.document < a.document; } }
    AtMostTotal(x, y);
    if AtMost(x, y) && AtMost(y, x) { AtMostAntisymmetric(x, y); }
  }

  lemma BeforeTransitive(documents: seq<Document>, a: Candidate, b: Candidate, c: Candidate)
    requires a.document < |documents| && b.document < |documents| && c.document < |documents|
    requires Before(documents, a, b) && Before(documents, b, c)
    ensures Before(documents, a, c)
  {
    if a.exact == b.exact == c.exact && a.score == b.score == c.score {
      BelowTransitive(documents[a.document].name, documents[b.document].name, documents[c.document].name);
    }
  }

  ghost predicate Ranked(documents: seq<Document>, cs: seq<Candidate>) {
    Numbered(documents, cs) && forall i, j :: 0 <= i < j < |cs| ==> Before(documents, cs[i], cs[j])
  }

  /** The candidate of a document, if it is eligible. */
  ghost predicate CandidateOf(documents: seq<Document>, queries: seq<string>, name: string, c: Candidate) {
    && queries != [] && c.document < |documents| && Eligible(documents[c.document], queries)
    && c.score == Rank(documents[c.document], queries) && c.exact == (documents[c.document].normalizedName == name)
  }

  /** The whole ranking: exactly the eligible documents, in rank order. */
  ghost predicate IsRanking(documents: seq<Document>, queries: seq<string>, name: string, cs: seq<Candidate>) {
    && Ranked(documents, cs)
    && (forall i :: 0 <= i < |cs| ==> CandidateOf(documents, queries, name, cs[i]))
    && (forall d :: 0 <= d < |documents| && queries != [] && Eligible(documents[d], queries)
          ==> exists i :: 0 <= i < |cs| && cs[i].document == d)
  }

  lemma BeforeAsymmetric(documents: seq<Document>, a: Candidate, b: Candidate)
    requires a.document < |documents| && b.document < |documents| && Before(documents, a, b)
    ensures !Before(documents, b, a)
  {
    var x, y := documents[a.document].name, documents[b.document].name;
    if AtMost(x, y) && AtMost(y, x) { AtMostAntisymmetric(x, y); }
  }

  ghost function Members(cs: seq<Candidate>): set<Candidate> { set c | c in cs }

  lemma TailMembers(documents: seq<Document>, cs: seq<Candidate>)
    requires Ranked(documents, cs) && cs != []
    ensures Members(cs[1..]) == Members(cs) - {cs[0]} && Ranked(documents, cs[1..])
  {
    assert cs == [cs[0]] + cs[1..];
    forall c | c in Members(cs[1..]) ensures c != cs[0] {
      var i :| 0 <= i < |cs[1..]| && cs[1..][i] == c;
      assert Before(documents, cs[0], cs[i + 1]);
      BeforeAsymmetric(documents, cs[0], c);
    }
  }

  lemma NoMembers(cs: seq<Candidate>)
    ensures cs == [] <==> Members(cs) == {}
  {
    if cs != [] { assert cs[0] in Members(cs); }
  }

  lemma {:induction false} RankedUnique(documents: seq<Document>, a: seq<Candidate>, b: seq<Candidate>)
    requires Ranked(documents, a) && Ranked(documents, b) && Members(a) == Members(b)
    ensures a == b
  {
    NoMembers(a);
    NoMembers(b);
    if a != [] {
      assert a[0] in Members(a) && a[0] in b;
      assert b[0] in Members(b) && b[0] in a;
      var i :| 0 <= i < |a| && a[i] == b[0];
      var j :| 0 <= j < |b| && b[j] == a[0];
      if i > 0 { BeforeAsymmetric(documents, a[0], a[i]); }
      assert a[0] == b[0];
      TailMembers(documents, a);
      TailMembers(documents, b);
      RankedUnique(documents, a[1..], b[1..]);
      assert a == [a[0]] + a[1..] && b == [b[0]] + b[1..];
    }
  }

  lemma RankingMember(documents: seq<Document>, queries: seq<string>, name: string, a: seq<Candidate>,
                      b: seq<Candidate>, c: Candidate)
    requires IsRanking(documents, queries, name, a) && IsRanking(documents, queries, name, b) && c in a
    ensures c in b
  {
    var i :| 0 <= i < |a| && a[i] == c;
    assert CandidateOf(documents, queries, name, a[i]);
    var j :| 0 <= j < |b| && b[j].document == c.document;
    assert CandidateOf(documents, queries, name, b[j]);
  }

  /** A query has exactly one ranking. */
  lemma RankingUnique(documents: seq<Document>, queries: seq<string>, name: string, a: seq<Candidate>,
                      b: seq<Candidate>)
    requires IsRanking(documents, queries, name, a) && IsRanking(documents, queries, name, b)
    ensures a == b
  {
    forall c | c in Members(a) + Members(b) ensures c in a && c in b {
      if c in a {
        RankingMember(documents, queries, name, a, b, c);
      } else {
        RankingMember(documents, queries, name, b, a, c);
      }
    }
    assert Members(a) == Members(b);
    RankedUnique(documents, a, b);
  }

  /** A ranked document whose name is the query has only such documents ahead of it. */
  lemma ExactHead(documents: seq<Document>, queries: seq<string>, name: string, cs: seq<Candidate>, d: nat)
    requires IsRanking(documents, queries, name, cs) && queries != []
    requires d < |documents| && documents[d].normalizedName == name && Eligible(documents[d], queries)
    ensures cs != [] && cs[0].exact && CandidateOf(documents, queries, name, cs[0])
  {
    var i :| 0 <= i < |cs| && cs[i].document == d;
    assert CandidateOf(documents, queries, name, cs[i]) && CandidateOf(documents, queries, name, cs[0]);
    if i > 0 { assert Before(documents, cs[0], cs[i]); }
  }

  // ----- collecting and sorting -----

  /** The eligible documents among the first n, in document order. */
  ghost predicate Collected(documents: seq<Document>, queries: seq<string>, name: string, cs: seq<Candidate>, n: nat) {
    && n <= |documents|
    && (forall i :: 0 <= i < |cs| ==> CandidateOf(documents, queries, name, cs[i]) && cs[i].document < n)
    && (forall i, j :: 0 <= i < j < |cs| ==> cs[i].document < cs[j].document)
    && (forall d :: 0 <= d < n && Eligible(documents[d], queries) ==> exists i :: 0 <= i < |cs| && cs[i].document == d)
  }

  lemma CollectMore(documents: seq<Document>, queries: seq<string>, name: string, cs: seq<Candidate>, n: nat,
                    c: Candidate)
    requires Collected(documents, queries, name, cs, n) && n < |documents| && c.document == n
             && CandidateOf(documents, queries, name, c)
    ensures Collected(documents, queries, name, cs + [c], n + 1)
  {
    var more := cs + [c];
    forall d | 0 <= d < n + 1 && Eligible(documents[d], queries)
      ensures exists i :: 0 <= i < |more| && more[i].document == d {
      if d < n {
        var i :| 0 <= i < |cs| && cs[i].document == d;
        assert more[i].document == d;
      } else {
        assert more[|cs|].document == d;
      }
    }
  }

  /** One document: its candidate when enough of the query matches. */
  method Consider(documents: seq<Document>, n: nat, queries: seq<string>, name: string) returns (r: Option<Candidate>)
    requires n < |documents| && DocumentOk(documents[n])
    requires queries != [] && |queries| <= MAX_DISTINCT_QUERY_TOKENS
    ensures r.Some? <==> Eligible(documents[n], queries)
    ensures r.Some? ==> r.value.document == n && CandidateOf(documents, queries, name, r.value)
  {
    var score, matched := ScoreDocument(documents[n], queries);
    assert FitsUint64(score, matched) by { RankFits(documents[n], queries); }
    if matched < RequiredMatches(|queries|) {
      return None;
    }
    return Some(Candidate(n, Scaled(score, matched, |queries|), documents[n].normalizedName == name));
  }

  method CollectCandidates(documents: seq<Document>, queries: seq<string>, name: string) returns (cs: seq<Candidate>)
    requires forall d :: 0 <= d < |documents| ==> DocumentOk(documents[d])
    requires queries != [] && |queries| <= MAX_DISTINCT_QUERY_TOKENS
    ensures Collected(documents, queries, name, cs, |documents|)
  {
    cs := [];
    for n := 0 to |documents|
      invariant Collected(documents, queries, name, cs, n)
    {
      var c := Consider(documents, n, queries, name);
      if c.Some? {
        CollectMore(documents, queries, name, cs, n, c.value);
        cs := cs + [c.value];
      }
    }
  }

  ghost predicate Comparable(documents: seq<Document>, c: Candidate, cs: seq<Candidate>) {
    && c.document < |documents| && Numbered(documents, cs)
    && forall i :: 0 <= i < |cs| ==> (Before(documents, c, cs[i]) <==> !Before(documents, cs[i], c))
  }

  lemma InsertRanked(documents: seq<Document>, c: Candidate, cs: seq<Candidate>, at: nat)
    requires Ranked(documents, cs) && Comparable(documents, c, cs) && at <= |cs|
    requires forall i :: 0 <= i < at ==> Before(documents, cs[i], c)
    requires at < |cs| ==> Before(documents, c, cs[at])
    ensures Ranked(documents, cs[..at] + [c] + cs[at..])
  {
    forall i | at <= i < |cs| ensures Before(documents, c, cs[i]) {
      if i > at { BeforeTransitive(documents, c, cs[at], cs[i]); }
    }
  }

  method InsertCandidate(documents: seq<Document>, c: Candidate, cs: seq<Candidate>) returns (r: seq<Candidate>)
    requires Ranked(documents, cs) && Comparable(documents, c, cs)
    ensures Ranked(documents, r) && Members(r) == Members(cs) + {c}
  {
    var at := 0;
    while at < |cs| && Before(documents, cs[at], c)
      invariant at <= |cs| && forall i :: 0 <= i < at ==> Before(documents, cs[i], c)
    {
      at := at + 1;
    }
    InsertRanked(documents, c, cs, at);
    assert cs == cs[..at] + cs[at..];
    return cs[..at] + [c] + cs[at..];
  }

  lemma CollectedComparable(documents: seq<Document>, cs: seq<Candidate>, n: nat, sorted: seq<Candidate>)
    requires DistinctNames(documents) && Numbered(documents, cs) && n < |cs| && Ranked(documents, sorted)
    requires forall i, j :: 0 <= i < j < |cs| ==> cs[i].document < cs[j].document
    requires Members(sorted) == Members(cs[..n])
    ensures Comparable(documents, cs[n], sorted)
  {
    forall i | 0 <= i < |sorted| ensures Before(documents, cs[n], sorted[i]) <==> !Before(documents, sorted[i], cs[n]) {
      assert sorted[i] in Members(sorted);
      var j :| 0 <= j < n && cs[..n][j] == sorted[i];
      BeforeTotal(documents, cs[n], cs[j]);
    }
  }

  /** slices.SortFunc by rank: the same candidates, in rank order. */
  method SortCandidates(documents: seq<Document>, cs: seq<Candidate>) returns (sorted: seq<Candidate>)
    requires DistinctNames(documents) && Numbered(documents, cs)
    requires forall i, j :: 0 <= i < j < |cs| ==> cs[i].document < cs[j].document
    ensures Ranked(documents, sorted) && Members(sorted) == Members(cs)
  {
    sorted := [];
    for n := 0 to |cs|
      invariant Ranked(documents, sorted) && Members(sorted) == Members(cs[..n])
    {
      CollectedComparable(documents, cs, n, sorted);
      sorted := InsertCandidate(documents, cs[n], sorted);
      assert cs[..n + 1] == cs[..n] + [cs[n]];
    }
    assert cs[..|cs|] == cs;
  }

  lemma SortedIsRanking(documents: seq<Document>, queries: seq<string>, name: string, cs: seq<Candidate>,
                        sorted: seq<Candidate>)
    requires Collected(documents, queries, name, cs, |documents|) && Ranked(documents, sorted)
             && Members(sorted) == Members(cs)
    ensures IsRanking(documents, queries, name, sorted)
  {
    forall i | 0 <= i < |sorted| ensures CandidateOf(documents, queries, name, sorted[i]) {
      assert sorted[i] in Members(cs);
      var j :| 0 <= j < |cs| && cs[j] == sorted[i];
      assert CandidateOf(documents, queries, name, cs[j]);
    }
    forall d | 0 <= d < |documents| && Eligible(documents[d], queries)
      ensures exists i :: 0 <= i < |sorted| && sorted[i].document == d {
      var j :| 0 <= j < |cs| && cs[j].document == d;
      assert cs[j] in Members(sorted);
      var i :| 0 <= i < |sorted| && sorted[i] == cs[j];
      assert sorted[i].document == d;
    }
  }

  // ----- packing -----

  /** The results as they stand between the brackets, comma-separated. */
  ghost function Listed(documents: seq<Document>, cs: seq<Candidate>): Bytes
    requires Numbered(documents, cs)
  {
    if cs == [] then []
    else
      var n := |cs| - 1;
      Listed(documents, cs[..n]) + (if n > 0 then COMMA else []) + documents[cs[n].document].result
  }

  /** The compact JSON of a response. */
  ghost function ResponseText(documents: seq<Document>, cs: seq<Candidate>, truncated: bool): Bytes
    requires Numbered(documents, cs)
  {
    OPENING + Listed(documents, cs) + CLOSING + if truncated then TRUE_END else FALSE_END
  }

  ghost predicate Fits(documents: seq<Document>, cs: seq<Candidate>) {
    Numbered(documents, cs) && |ResponseText(documents, cs, false)| <= MAX_SEARCH_RESPONSE_BYTES
  }

  /** A longer list never needs fewer bytes. */
  lemma {:induction false} FitsPrefix(documents: seq<Document>, cs: seq<Candidate>, n: nat)
    requires Numbered(documents, cs) && Fits(documents, cs) && n <= |cs|
    ensures Fits(documents, cs[..n])
  {
    if n < |cs| {
      var front := cs[..|cs| - 1];
      assert Fits(documents, front);
      FitsPrefix(documents, front, n);
      assert front[..n] == cs[..n];
    } else {
      assert cs[..n] == cs;
    }
  }

  /** The longest prefix of the ranking within both bounds. */
  ghost predicate IsPacked(documents: seq<Document>, ranking: seq<Candidate>, maxResults: nat, n: nat) {
    && n <= |ranking| && n <= maxResults && Fits(documents, ranking[..n])
    && forall m :: n < m <= |ranking| ==> m > maxResults || !Fits(documents, ranking[..m])
  }

  lemma PackedStops(documents: seq<Document>, ranking: seq<Candidate>, maxResults: nat, n: nat)
    requires Numbered(documents, ranking) && n < |ranking| && n <= maxResults && Fits(documents, ranking[..n])
    requires n == maxResults || !Fits(documents, ranking[..n + 1])
    ensures IsPacked(documents, ranking, maxResults, n)
  {
    forall m | n < m <= |ranking| ensures m > maxResults || !Fits(documents, ranking[..m]) {
      assert ranking[..m][..n + 1] == ranking[..n + 1];
      if Fits(documents, ranking[..m]) && n < maxResults { FitsPrefix(documents, ranking[..m], n + 1); }
    }
  }

  lemma ListedMore(documents: seq<Document>, ranking: seq<Candidate>, n: nat)
    requires Numbered(documents, ranking) && n < |ranking|
    ensures |Listed(documents, ranking[..n + 1])|
         == |Listed(documents, ranking[..n])| + (if n > 0 then COMMA_BYTES else 0)
           + |documents[ranking[n].document].result|
  {
    assert ranking[..n + 1][..n] == ranking[..n];
  }

  /** packSearchResponse, for at least one candidate. */
  method Pack(documents: seq<Document>, ranking: seq<Candidate>, maxResults: nat) returns (results: seq<Candidate>,
              truncated: bool)
    requires Numbered(documents, ranking)
    ensures |results| <= |ranking| && results == ranking[..|results|]
            && IsPacked(documents, ranking, maxResults, |results|)
    ensures truncated <==> |results| < |ranking|
  {
    results := [];
    var used := PREFIX_BYTES;
    for n := 0 to |ranking|
      invariant results == ranking[..n] && n <= maxResults
      invariant used == PREFIX_BYTES + |Listed(documents, ranking[..n])| && Fits(documents, ranking[..n])
    {
      if |results| == maxResults {
        PackedStops(documents, ranking, maxResults, n);
        return results, true;
      }
      var resultBytes := |documents[ranking[n].document].result|;
      var separator := if |results| > 0 then COMMA_BYTES else 0;
      ListedMore(documents, ranking, n);
      if used + separator + resultBytes + SUFFIX_BYTES > MAX_SEARCH_RESPONSE_BYTES {
        PackedStops(documents, ranking, maxResults, n);
        return results, true;
      }
      results := results + [ranking[n]];
      used := used + separator + resultBytes;
    }
    return results, false;
  }

  // ----- the whole answer -----

  /** A query limit error, or the packed results by document number. */
  datatype Answer = QueryLimit | Answer(results: seq<Candidate>, truncated: bool)

  ghost predicate IsAnswerTo(documents: seq<Document>, maxResults: nat, queries: seq<string>, name: string, r: Answer) {
    exists ranking :: IsRanking(documents, queries, name, ranking) && Prefixed(documents, ranking, maxResults, r)
  }

  ghost predicate Prefixed(documents: seq<Document>, ranking: seq<Candidate>, maxResults: nat, r: Answer) {
    && r.Answer? && IsPacked(documents, ranking, maxResults, |r.results|) && r.results == ranking[..|r.results|]
    && (r.truncated <==> |r.results| < |ranking|)
  }

  /** The specification of Search, without reference to how it is computed. */
  ghost predicate IsAnswer(u: Unicode, documents: seq<Document>, maxQueryBytes: nat, maxResults: nat, query: Bytes,
                           r: Answer) {
    if |query| > maxQueryBytes then r == QueryLimit
    else
      exists tokens :: TokensOf(u, Runes(query), tokens)
        && if DistinctWithin(tokens).None? then r == QueryLimit
           else if DistinctWithin(tokens).value == [] then r == Answer([], false)
           else IsAnswerTo(documents, maxResults, DistinctWithin(tokens).value, Lowered(u, Trim(u, Runes(query))), r)
  }

  /** Search. */
  method Search(u: Unicode, documents: seq<Document>, maxQueryBytes: nat, maxResults: nat,
                query: Bytes) returns (r: Answer)
    requires DistinctNames(documents) && forall d :: 0 <= d < |documents| ==> DocumentOk(documents[d])
    ensures IsAnswer(u, documents, maxQueryBytes, maxResults, query, r)
  {
    if |query| > maxQueryBytes {
      return QueryLimit;
    }
    var tokens := Tokenize(u, Runes(query));
    var distinct := DistinctTokens(tokens);
    if distinct.None? {
      return QueryLimit;
    }
    if |distinct.value| == 0 {
      return Answer([], false);
    }
    r := Ask(documents, maxResults, distinct.value, Lowered(u, Trim(u, Runes(query))));
  }

  method Ask(documents: seq<Document>, maxResults: nat, queries: seq<string>, name: string) returns (r: Answer)
    requires DistinctNames(documents) && forall d :: 0 <= d < |documents| ==> DocumentOk(documents[d])
    requires queries != [] && |queries| <= MAX_DISTINCT_QUERY_TOKENS
    ensures IsAnswerTo(documents, maxResults, queries, name, r)
  {
    var candidates := CollectCandidates(documents, queries, name);
    var ranking := SortCandidates(documents, candidates);
    SortedIsRanking(documents, queries, name, candidates, ranking);
    var results, truncated := Pack(documents, ranking, maxResults);
    return Answer(results, truncated);
  }

  /** The specification leaves nothing open. */
  lemma AnswerUnique(u: Unicode, documents: seq<Document>, maxQueryBytes: nat, maxResults: nat, query: Bytes,
                     a: Answer, b: Answer)
    requires IsAnswer(u, documents, maxQueryBytes, maxResults, query, a)
             && IsAnswer(u, documents, maxQueryBytes, maxResults, query, b)
    ensures a == b
  {
    if |query| <= maxQueryBytes {
      var s := Runes(query);
      var x :| TokensOf(u, s, x)
               && if DistinctWithin(x).None? then a == QueryLimit
                  else if DistinctWithin(x).value == [] then a == Answer([], false)
                  else IsAnswerTo(documents, maxResults, DistinctWithin(x).value, Lowered(u, Trim(u, s)), a);
      var y :| TokensOf(u, s, y)
               && if DistinctWithin(y).None? then b == QueryLimit
                  else if DistinctWithin(y).value == [] then b == Answer([], false)
                  else IsAnswerTo(documents, maxResults, DistinctWithin(y).value, Lowered(u, Trim(u, s)), b);
      TokensUnique(u, s, x, y);
      if DistinctWithin(x).Some? && DistinctWithin(x).value != [] {
        SameAnswer(documents, maxResults, DistinctWithin(x).value, Lowered(u, Trim(u, s)), a, b);
      }
    }
  }

  lemma SameAnswer(documents: seq<Document>, maxResults: nat, queries: seq<string>, name: string, a: Answer, b: Answer)
    requires IsAnswerTo(documents, maxResults, queries, name, a) && IsAnswerTo(documents, maxResults, queries, name, b)
    ensures a == b
  {
    var x :| IsRanking(documents, queries, name, x) && Prefixed(documents, x, maxResults, a);
    var y :| IsRanking(documents, queries, name, y) && Prefixed(documents, y, maxResults, b);
    RankingUnique(documents, queries, name, x, y);
  }

  /** What a caller may rely on: the response never exceeds 64 KiB of compact JSON nor the result
      count, it lists only eligible documents, at least one where there is one, and it says it
      is truncated exactly when an eligible document is missing. */
  lemma AnswerMeans(documents: seq<Document>, maxResults: nat, queries: seq<string>, name: string, r: Answer)
    requires IsAnswerTo(documents, maxResults, queries, name, r) && queries != []
    requires maxResults > 0 && forall d :: 0 <= d < |documents| ==> DocumentOk(documents[d])
    ensures r.Answer? && |r.results| <= maxResults && Ranked(documents, r.results)
    ensures |ResponseText(documents, r.results, r.truncated)| <= MAX_SEARCH_RESPONSE_BYTES
    ensures forall i :: 0 <= i < |r.results| ==> Eligible(documents[r.results[i].document], queries)
    ensures r.results == [] <==> forall d :: 0 <= d < |documents| ==> !Eligible(documents[d], queries)
    ensures r.truncated <==> exists d :: 0 <= d < |documents| && Eligible(documents[d], queries)
                                         && forall i :: 0 <= i < |r.results| ==> r.results[i].document != d
  {
    var ranking: seq<Candidate> :| IsRanking(documents, queries, name, ranking)
      && Prefixed(documents, ranking, maxResults, r);
    var n := |r.results|;
    forall i | 0 <= i < n ensures Eligible(documents[r.results[i].document], queries) {
      assert CandidateOf(documents, queries, name, ranking[i]);
    }
    if ranking != [] {
      assert CandidateOf(documents, queries, name, ranking[0]);
      OneFits(documents, ranking);
    }
    if n < |ranking| {
      var d := ranking[n].document;
      assert CandidateOf(documents, queries, name, ranking[n]);
      forall i | 0 <= i < n ensures r.results[i].document != d {
        DistinctRanked(documents, queries, name, ranking, i, n);
      }
    } else {
      assert r.results == ranking;
    }
  }

  // ----- the order of an answer -----

  /** Document a is the better answer to the query: the named one before all others, then the
      higher rank, then the smaller name. */
  ghost predicate Better(documents: seq<Document>, queries: seq<string>, name: string, a: nat, b: nat)
    requires queries != [] && a < |documents| && b < |documents|
  {
    var namedA, namedB := documents[a].normalizedName == name, documents[b].normalizedName == name;
    var rankA, rankB := Rank(documents[a], queries), Rank(documents[b], queries);
    || (namedA && !namedB)
    || (namedA == namedB && rankA > rankB)
    || (namedA == namedB && rankA == rankB && exists n: nat :: DiffersAt(documents[a].name, documents[b].name, n))
  }

  lemma BeforeIsBetter(documents: seq<Document>, queries: seq<string>, name: string, a: Candidate, b: Candidate)
    requires CandidateOf(documents, queries, name, a) && CandidateOf(documents, queries, name, b)
    ensures Before(documents, a, b) <==> Better(documents, queries, name, a.document, b.document)
  {
    BelowIff(documents[a.document].name, documents[b.document].name);
  }

  /** Every answer lists better documents first, each with its rank, and leaves out no document
      that is better than one it lists. */
  lemma AnswerIsOrdered(documents: seq<Document>, maxResults: nat, queries: seq<string>, name: string, r: Answer)
    requires IsAnswerTo(documents, maxResults, queries, name, r) && queries != []
    ensures r.Answer?
    ensures forall i :: 0 <= i < |r.results| ==>
              && r.results[i].document < |documents|
              && r.results[i].score == Rank(documents[r.results[i].document], queries)
              && (r.results[i].exact <==> documents[r.results[i].document].normalizedName == name)
    ensures forall i, j :: 0 <= i < j < |r.results| ==>
              Better(documents, queries, name, r.results[i].document, r.results[j].document)
    ensures forall i, d :: 0 <= i < |r.results| && 0 <= d < |documents| && Eligible(documents[d], queries)
                           && (forall j :: 0 <= j < |r.results| ==> r.results[j].document != d) ==>
              Better(documents, queries, name, r.results[i].document, d)
  {
    var ranking: seq<Candidate> :|
      IsRanking(documents, queries, name, ranking) && Prefixed(documents, ranking, maxResults, r);
    forall i, j | 0 <= i < j < |ranking|
      ensures Better(documents, queries, name, ranking[i].document, ranking[j].document) {
      assert CandidateOf(documents, queries, name, ranking[i]) && CandidateOf(documents, queries, name, ranking[j]);
      BeforeIsBetter(documents, queries, name, ranking[i], ranking[j]);
    }
    forall i | 0 <= i < |r.results|
      ensures r.results[i] == ranking[i] && CandidateOf(documents, queries, name, ranking[i]) {}
    forall i, d | 0 <= i < |r.results| && 0 <= d < |documents| && Eligible(documents[d], queries)
                  && (forall j :: 0 <= j < |r.results| ==> r.results[j].document != d)
      ensures Better(documents, queries, name, r.results[i].document, d)
    {
      var k :| 0 <= k < |ranking| && ranking[k].document == d;
      assert k >= |r.results|;
    }
  }

  // ----- what a rank rewards -----

  /** Covering the whole query is worth something: a rank is the full score exactly when every
      query token matched, or nothing scored. */
  lemma RankRewardsCoverage(d: Document, queries: seq<string>)
    requires DocumentOk(d) && queries != []
    ensures Rank(d, queries) <= Score(d, queries)
    ensures Rank(d, queries) == Score(d, queries) <==> Matched(d, queries) == |queries| || Score(d, queries) == 0
  {
    ScoreBounds(d, queries);
    ScaledBounds(Score(d, queries), Matched(d, queries), |queries|);
  }

  lemma ScaledBounds(score: nat, matched: nat, queries: nat)
    requires matched <= queries && queries > 0
    ensures Scaled(score, matched, queries) <= score
    ensures Scaled(score, matched, queries) == score <==> matched == queries || score == 0
  {
    QuotientParts(score * matched, queries);
    MulMonotone(matched, queries, score);
    var q := Scaled(score, matched, queries);
    if q > score { MulMonotone(score + 1, q, queries); Distribute(score, queries); }
    if matched < queries && score > 0 && q == score {
      MulMonotone(matched + 1, queries, score);
      Distribute(matched, score);
    }
    if matched == queries && q < score { MulMonotone(q + 1, score, queries); Distribute(q, queries); }
  }

  /** Where a token is found matters: a whole word of the name is worth more than the same word, or
      a commoner one, anywhere else. */
  lemma NameOutweighs(d: Document, e: Document, query: string, t: Token)
    requires DocumentOk(d) && DocumentOk(e) && t in d.nameTokens && t.text == query
    requires NoneMatches(e.nameTokens, query)
    requires forall x :: x in e.termTokens + e.summaryTokens + e.descriptionTokens && Matches(query, x)
               ==> x.idf <= t.idf
    ensures TokenScore(e, query) < TokenScore(d, query)
  {
    ExactDominates(d.nameTokens, query, t);
    BestBounds(d.nameTokens, query);
    var best := Best(d.nameTokens, query).1;
    assert t.idf <= best;
    assert t.idf >= 1 by { var i :| 0 <= i < |d.nameTokens| && d.nameTokens[i] == t; }
    BestIsBest(e.nameTokens, query);
    FieldAtMost(e.termTokens, query, TERMS_WEIGHT, t.idf);
    FieldAtMost(e.summaryTokens, query, SUMMARY_WEIGHT, t.idf);
    FieldAtMost(e.descriptionTokens, query, DESCRIPTION_WEIGHT, t.idf);
  }

  lemma FieldAtMost(tokens: seq<Token>, query: string, weight: nat, idf: nat)
    requires weight <= TERMS_WEIGHT && forall x :: x in tokens && Matches(query, x) ==> x.idf <= idf
    ensures Contribution(tokens, query, weight) <= TERMS_WEIGHT * idf * EXACT_QUALITY
  {
    BestIsBest(tokens, query);
    var b := Best(tokens, query);
    if !NoneMatches(tokens, query) {
      MulMonotone(weight, TERMS_WEIGHT, b.1);
      MulMonotone(b.1, idf, TERMS_WEIGHT);
      MulMonotone(weight * b.1, TERMS_WEIGHT * idf, b.0);
      MulMonotone(b.0, EXACT_QUALITY, TERMS_WEIGHT * idf);
    }
  }

  lemma OneFits(documents: seq<Document>, ranking: seq<Candidate>)
    requires Numbered(documents, ranking) && ranking != [] && DocumentOk(documents[ranking[0].document])
    ensures Fits(documents, ranking[..1])
  {
    ListedMore(documents, ranking, 0);
  }

  /** A document is ranked at most once. */
  lemma DistinctRanked(documents: seq<Document>, queries: seq<string>, name: string, ranking: seq<Candidate>, i: nat,
                       j: nat)
    requires IsRanking(documents, queries, name, ranking) && i < j < |ranking|
    ensures ranking[i].document != ranking[j].document
  {
    assert CandidateOf(documents, queries, name, ranking[i]) && CandidateOf(documents, queries, name, ranking[j]);
    assert Before(documents, ranking[i], ranking[j]);
  }

  // ----- a query that is a capability's name -----

  lemma TextMatches(d: Document, query: string)
    requires query in Texts(d.nameTokens)
    ensures MatchesDocument(d, query)
  {
    var i :| 0 <= i < |d.nameTokens| && Texts(d.nameTokens)[i] == query;
    var t := d.nameTokens[i];
    assert t in d.nameTokens + d.termTokens + d.summaryTokens + d.descriptionTokens && Matches(query, t);
  }

  lemma {:induction false} AllMatched(d: Document, queries: seq<string>)
    requires forall q :: q in queries ==> q in Texts(d.nameTokens)
    ensures Matched(d, queries) == |queries|
  {
    if queries != [] {
      AllMatched(d, queries[..|queries| - 1]);
      TextMatches(d, queries[|queries| - 1]);
    }
  }

  /** A query that is the capability's name, up to space at the edges, matches it with every
      token it keeps; so the document is eligible. */
  lemma OwnNameIsEligible(u: Unicode, encode: Entry -> Bytes, e: Entry, terms: seq<Bytes>, d: Document, query: Bytes,
                          tokens: seq<string>)
    requires DocumentOf(u, encode, e, terms, d) && Trim(u, Runes(query)) == Trim(u, Runes(e.name))
    requires TokensOf(u, Runes(query), tokens) && DistinctWithin(tokens).Some?
    ensures Matched(d, DistinctWithin(tokens).value) == |DistinctWithin(tokens).value|
    ensures Eligible(d, DistinctWithin(tokens).value)
  {
    var named :| TokensOf(u, Runes(e.name), named) && Texts(d.nameTokens) == FirstSeen(named);
    var spans :| Pieces(u, Trim(u, Runes(query)), spans) && tokens == Kept(u, Trim(u, Runes(query)), spans);
    assert TokensOf(u, Runes(e.name), tokens);
    TokensUnique(u, Runes(e.name), named, tokens);
    AllMatched(d, FirstSeen(tokens));
  }

  /** The priority of an exact name: a query whose trimmed text is the name of a capability,
      with 1 to 16 distinct tokens, is answered with a capability of that name up to case
      first, and with that very one if no other shares its name up to case. */
  lemma ExactComesFirst(u: Unicode, encode: Entry -> Bytes, entries: seq<Entry>, terms: seq<seq<Bytes>>,
                        documents: seq<Document>, maxQueryBytes: nat, maxResults: nat, query: Bytes,
                        tokens: seq<string>, r: Answer, d: nat)
    requires IsIndex(u, encode, entries, terms, documents) && d < |documents|
    requires Trim(u, Runes(query)) == Runes(entries[d].name) && |query| <= maxQueryBytes && maxResults > 0
    requires TokensOf(u, Runes(query), tokens) && DistinctWithin(tokens).Some? && tokens != []
    requires IsAnswer(u, documents, maxQueryBytes, maxResults, query, r)
    ensures r.Answer? && r.results != [] && r.results[0].exact && r.results[0].document < |documents|
    ensures documents[r.results[0].document].normalizedName == Lowered(u, Runes(entries[d].name))
    ensures (forall i :: 0 <= i < |documents| && i != d ==> documents[i].normalizedName != documents[d].normalizedName)
            ==> r.results[0].document == d
  {
    var name, queries := Lowered(u, Trim(u, Runes(query))), DistinctWithin(tokens).value;
    assert tokens[0] in queries;
    TrimTwice(u, Runes(query));
    assert DocumentOf(u, encode, entries[d], terms[d], documents[d]);
    OwnNameIsEligible(u, encode, entries[d], terms[d], documents[d], query, tokens);
    AnswerTo(u, documents, maxQueryBytes, maxResults, query, tokens, r);
    var ranking: seq<Candidate> :|
      IsRanking(documents, queries, name, ranking) && Prefixed(documents, ranking, maxResults, r);
    ExactHead(documents, queries, name, ranking, d);
    IndexIsOk(u, encode, entries, terms, documents, ranking[0].document);
    OneFits(documents, ranking);
    assert r.results[0] == ranking[0];
  }

  lemma AnswerTo(u: Unicode, documents: seq<Document>, maxQueryBytes: nat, maxResults: nat, query: Bytes,
                 tokens: seq<string>, r: Answer)
    requires IsAnswer(u, documents, maxQueryBytes, maxResults, query, r) && |query| <= maxQueryBytes
    requires TokensOf(u, Runes(query), tokens) && DistinctWithin(tokens).Some? && DistinctWithin(tokens).value != []
    ensures IsAnswerTo(documents, maxResults, DistinctWithin(tokens).value, Lowered(u, Trim(u, Runes(query))), r)
  {
    var x :| TokensOf(u, Runes(query), x)
             && if DistinctWithin(x).None? then r == QueryLimit
                else if DistinctWithin(x).value == [] then r == Answer([], false)
                else IsAnswerTo(documents, maxResults, DistinctWithin(x).value, Lowered(u, Trim(u, Runes(query))), r);
    TokensUnique(u, Runes(query), x, tokens);
  }

  lemma TrimTwice(u: Unicode, s: string)
    ensures Trim(u, Trim(u, s)) == Trim(u, s)
  {
    TrimKeeps(u, Trim(u, s));
  }

  // ----- exact-name priority needs eligibility -----

  function AsciiLower(c: char): char { if 'A' <= c <= 'Z' then (c as int + 32) as char else c }

  /** Unicode restricted to ASCII letters, digits and the space. */
  const ASCII: Unicode := Unicode(c => 'a' <= c <= 'z'
                                  || 'A' <= c <= 'Z', c => '0' <= c <= '9', c => 'A' <= c <= 'Z', c => 'a' <= c <= 'z',
                                  c => c == ' ', AsciiLower)

  /** The name bC.d and the query bc.d. */
  predicate Camel(s: string) { |s| == 4 && s[0] == 'b' && s[1] == 'C' && s[2] == '.' && s[3] == 'd' }
  predicate Flat(s: string) { |s| == 4 && s[0] == 'b' && s[1] == 'c' && s[2] == '.' && s[3] == 'd' }

  lemma NoConnector(w: string)
    requires w != "" && (w[0] == 'b' || w[0] == 'c' || w[0] == 'd') && (|w| > 1 ==> w[1] == 'c')
    ensures KeptToken(w) == [w]
  {}

  function Piece(runes: string, s: Span): string { Lowered(ASCII, Covered(runes, s)) }

  lemma CamelPieces(s: string)
    requires Camel(s)
    ensures Pieces(ASCII, s, [Span(0, 1), Span(1, 2), Span(3, 4)])
  {
    var spans := [Span(0, 1), Span(1, 2), Span(3, 4)];
    assert SplitBefore(ASCII, s, 1, false);
    assert PieceAt(ASCII, s, spans, 0) && PieceAt(ASCII, s, spans, 1) && PieceAt(ASCII, s, spans, 2);
  }

  lemma CamelTokens(s: string)
    requires Camel(s)
    ensures TokensOf(ASCII, s, [Piece(s, Span(0, 1)), Piece(s, Span(1, 2)), Piece(s, Span(3, 4))])
  {
    CamelPieces(s);
    TrimKeeps(ASCII, s);
    var a, b, c := Span(0, 1), Span(1, 2), Span(3, 4);
    NoConnector(Piece(s, a));
    NoConnector(Piece(s, b));
    NoConnector(Piece(s, c));
    KeptMore(ASCII, s, [], a);
    KeptMore(ASCII, s, [a], b);
    KeptMore(ASCII, s, [a, b], c);
    assert [a, b] + [c] == [a, b, c] && [a] + [b] == [a, b] && [] + [a] == [a];
  }

  lemma FlatPieces(s: string)
    requires Flat(s)
    ensures Pieces(ASCII, s, [Span(0, 2), Span(3, 4)])
  {
    var spans := [Span(0, 2), Span(3, 4)];
    assert PieceAt(ASCII, s, spans, 0) && PieceAt(ASCII, s, spans, 1);
  }

  lemma FlatTokens(s: string)
    requires Flat(s)
    ensures TokensOf(ASCII, s, [Piece(s, Span(0, 2)), Piece(s, Span(3, 4))])
  {
    FlatPieces(s);
    TrimKeeps(ASCII, s);
    var a, b := Span(0, 2), Span(3, 4);
    NoConnector(Piece(s, a));
    NoConnector(Piece(s, b));
    KeptMore(ASCII, s, [], a);
    KeptMore(ASCII, s, [a], b);
    assert [a] + [b] == [a, b] && [] + [a] == [a];
  }

  /** A first token that nothing in the name field matches cannot be made up for. */
  lemma OneOfTwo(d: Document, first: string, second: string)
    requires d.termTokens == d.summaryTokens == d.descriptionTokens == []
    requires forall t :: t in Texts(d.nameTokens) ==> Quality(first, t) == 0
    ensures !Eligible(d, [first, second])
  {
    assert !MatchesDocument(d, first) by {
      forall t | t in d.nameTokens ensures !Matches(first, t) {
        var i :| 0 <= i < |d.nameTokens| && d.nameTokens[i] == t;
        assert Texts(d.nameTokens)[i] == t.text;
      }
    }
    var both := [first, second];
    assert both[..1] == [first] && both[..1][..0] == [];
    assert Matched(d, [first]) == 0;
  }

  /** A capability named bC.d is not eligible for the query bc.d, though the query is its name in
      lower case: it is cut into b, c, d while the query is cut into bc, d. So ExactComesFirst needs
      the query to be the name itself, and equality up to case is not enough. */
  lemma ExactNameCanBeIneligible(name: string, query: string, d: Document, tokens: seq<string>)
    requires Camel(name) && Flat(query) && TokensOf(ASCII, query, tokens)
    requires TokensOf(ASCII, name, Texts(d.nameTokens)) && d.termTokens == d.summaryTokens == d.descriptionTokens == []
    ensures Lowered(ASCII, name) == Lowered(ASCII, Trim(ASCII, query))
    ensures DistinctWithin(tokens) == Some(tokens) && tokens != [] && !Eligible(d, tokens)
  {
    CamelTokens(name);
    FlatTokens(query);
    var first, second := Piece(query, Span(0, 2)), Piece(query, Span(3, 4));
    TokensUnique(ASCII, name, Texts(d.nameTokens),
                 [Piece(name, Span(0, 1)), Piece(name, Span(1, 2)), Piece(name, Span(3, 4))]);
    TokensUnique(ASCII, query, tokens, [first, second]);
    NoQuality(first, Piece(name, Span(0, 1)), Piece(name, Span(1, 2)), Piece(name, Span(3, 4)));
    OneOfTwo(d, first, second);
    TwoTokens(first, second);
    SameInLowerCase(name, query);
  }

  lemma NoQuality(first: string, a: string, b: string, c: string)
    requires |first| == 2 && |a| == |b| == |c| == 1
    ensures forall t :: t in [a, b, c] ==> Quality(first, t) == 0
  {}

  lemma TwoTokens(first: string, second: string)
    requires |first| == 2 && |second| == 1
    ensures DistinctWithin([first, second]) == Some([first, second])
  {
    FirstSeenOfDistinct([first, second]);
  }

  lemma SameInLowerCase(name: string, query: string)
    requires Camel(name) && Flat(query)
    ensures Lowered(ASCII, name) == Lowered(ASCII, Trim(ASCII, query))
  {
    TrimKeeps(ASCII, query);
    forall i | 0 <= i < 4 ensures AsciiLower(name[i]) == AsciiLower(query[i]) {
      if i == 0 {} else if i == 1 {} else if i == 2 {} else {}
    }
  }
}
