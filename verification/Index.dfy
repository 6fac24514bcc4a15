/** compileSearchIndex of internal/catalog/search.go: one document per enabled entry, and a
    rarity factor on every token from the number of documents that mention it. */
module Index {
  import opened Text
  import opened Tokens

  const MAX_SEARCH_RESPONSE_BYTES: nat := 65536
  const IDF_BUCKETS: nat := 8
  const IDF_MIN: nat := 1

  /** The bytes of `{"results":[`. */
  const OPENING: Bytes := [0x7B, 0x22, 0x72, 0x65, 0x73, 0x75, 0x6C, 0x74, 0x73, 0x22, 0x3A, 0x5B]

  /** The bytes of `],"truncated":` and of the two values it can take, with the final brace. */
  const CLOSING: Bytes := [0x5D, 0x2C, 0x22, 0x74, 0x72, 0x75, 0x6E, 0x63, 0x61, 0x74, 0x65, 0x64, 0x22, 0x3A]
  const TRUE_END: Bytes := [0x74, 0x72, 0x75, 0x65, 0x7D]
  const FALSE_END: Bytes := [0x66, 0x61, 0x6C, 0x73, 0x65, 0x7D]
  const COMMA: Bytes := [0x2C]

  /** searchResponsePrefixJSONBytes, searchResponseTruncatedFalse and searchResponseCommaJSONBytes. */
  const PREFIX_BYTES: nat := 12
  const SUFFIX_BYTES: nat := 20
  const COMMA_BYTES: nat := 1

  /** An enabled capability. The plan and the handler are known by number. */
  datatype Entry = Entry(id: Bytes, name: Bytes, summary: Bytes, description: Bytes, plan: nat, handler: nat,
                         signature: Bytes)

  /** A normalized token with its rarity factor. */
  datatype Token = Token(text: string, idf: nat)

  /** result is the compact JSON of the entry's search result. */
  datatype Document = Document(name: Bytes, normalizedName: string, nameTokens: seq<Token>, termTokens: seq<Token>,
                               summaryTokens: seq<Token>, descriptionTokens: seq<Token>, result: Bytes)

  /** resultFitsResponseCap. */
  predicate ResultFits(result: Bytes) { PREFIX_BYTES + |result| + SUFFIX_BYTES <= MAX_SEARCH_RESPONSE_BYTES }

  ghost predicate Rated(tokens: seq<Token>) {
    forall i :: 0 <= i < |tokens| ==> IDF_MIN <= tokens[i].idf <= IDF_BUCKETS
  }

  /** What the compiled index guarantees of every document. */
  ghost predicate DocumentOk(d: Document) {
    Rated(d.nameTokens) && Rated(d.termTokens) && Rated(d.summaryTokens) && Rated(d.descriptionTokens)
      && ResultFits(d.result)
  }

  // ----- rarity -----

  /** idfFactor. */
  function IdfFactor(frequency: int, documents: int): (f: nat)
    ensures 0 <= frequency <= documents ==> IDF_MIN <= f <= IDF_BUCKETS
  {
    if frequency <= 0 || documents <= 0 then IDF_MIN
    else if frequency > documents then IDF_MIN
    else IDF_MIN + (documents - frequency) * (IDF_BUCKETS - IDF_MIN) / documents
  }

  lemma Distribute(q: nat, d: nat)
    ensures (q + 1) * d == q * d + d
  {}

  lemma QuotientParts(a: nat, d: nat)
    requires d > 0
    ensures a == a / d * d + a % d
  {}

  lemma DivideMonotone(a: nat, b: nat, d: nat)
    requires a <= b && d > 0
    ensures a / d <= b / d
  {
    var p, q := a / d, b / d;
    QuotientParts(a, d);
    QuotientParts(b, d);
    Distribute(q, d);
    if p > q { MulMonotone(q + 1, p, d); }
  }

  /** A rarer token never has a smaller factor. */
  lemma RarerScoresMore(rare: nat, common: nat, documents: nat)
    requires 0 < rare <= common <= documents
    ensures IdfFactor(rare, documents) >= IdfFactor(common, documents)
  {
    DivideMonotone((documents - common) * (IDF_BUCKETS - IDF_MIN), (documents - rare) * (IDF_BUCKETS - IDF_MIN),
                   documents);
  }

  lemma MulMonotone(a: nat, b: nat, k: nat)
    requires a <= b
    ensures a * k <= b * k && k * a <= k * b
  {}

  // ----- tokens of one entry -----

  function Texts(tokens: seq<Token>): (r: seq<string>)
    ensures |r| == |tokens|
  {
    seq(|tokens|, i requires 0 <= i < |tokens| => tokens[i].text)
  }

  /** The tokens of every phrase, one phrase after another. */
  ghost predicate JoinedTokens(u: Unicode, phrases: seq<Bytes>, tokens: seq<string>) {
    if phrases == [] then tokens == []
    else exists front, last :: JoinedTokens(u, phrases[..|phrases| - 1], front)
           && TokensOf(u, Runes(phrases[|phrases| - 1]), last)
                               && tokens == front + last
  }

  lemma {:induction false} JoinedUnique(u: Unicode, phrases: seq<Bytes>, a: seq<string>, b: seq<string>)
    requires JoinedTokens(u, phrases, a) && JoinedTokens(u, phrases, b)
    ensures a == b
  {
    if phrases != [] {
      var front, last := phrases[..|phrases| - 1], Runes(phrases[|phrases| - 1]);
      var p, q :| JoinedTokens(u, front, p) && TokensOf(u, last, q) && a == p + q;
      var x, y :| JoinedTokens(u, front, x) && TokensOf(u, last, y) && b == x + y;
      JoinedUnique(u, front, p, x);
      TokensUnique(u, last, q, y);
    }
  }

  /** tokenizeJoined. */
  method TokenizeJoined(u: Unicode, phrases: seq<Bytes>) returns (tokens: seq<string>)
    ensures JoinedTokens(u, phrases, tokens)
  {
    tokens := [];
    for n := 0 to |phrases|
      invariant JoinedTokens(u, phrases[..n], tokens)
    {
      assert phrases[..n + 1][..n] == phrases[..n];
      var more := Tokenize(u, Runes(phrases[n]));
      tokens := tokens + more;
    }
    assert phrases[..|phrases|] == phrases;
  }

  ghost predicate FieldOf(u: Unicode, value: Bytes, field: seq<Token>) {
    exists tokens :: TokensOf(u, Runes(value), tokens) && Texts(field) == FirstSeen(tokens)
  }

  ghost predicate TermsOf(u: Unicode, phrases: seq<Bytes>, field: seq<Token>) {
    exists tokens :: JoinedTokens(u, phrases, tokens) && Texts(field) == FirstSeen(tokens)
  }

  /** The document of one entry, whatever the rarity factors. */
  ghost predicate DocumentOf(u: Unicode, encode: Entry -> Bytes, e: Entry, terms: seq<Bytes>, d: Document) {
    && d.name == e.name && d.normalizedName == Lowered(u, Runes(e.name)) && d.result == encode(e)
    && FieldOf(u, e.name, d.nameTokens) && TermsOf(u, terms, d.termTokens)
    && FieldOf(u, e.summary, d.summaryTokens) && FieldOf(u, e.description, d.descriptionTokens)
  }

  // ----- document frequency -----

  predicate Mentions(d: Document, t: string) {
    t in Texts(d.nameTokens) || t in Texts(d.termTokens) || t in Texts(d.summaryTokens)
      || t in Texts(d.descriptionTokens)
  }

  /** How many documents mention a token. */
  ghost function Frequency(documents: seq<Document>, t: string): (n: nat)
    ensures n <= |documents|
  {
    if documents == [] then 0
    else Frequency(documents[..|documents| - 1], t) + if Mentions(documents[|documents| - 1], t) then 1 else 0
  }

  lemma {:induction false} MentionedCounts(documents: seq<Document>, i: nat, t: string)
    requires i < |documents| && Mentions(documents[i], t)
    ensures Frequency(documents, t) >= 1
  {
    if i < |documents| - 1 { MentionedCounts(documents[..|documents| - 1], i, t); }
  }

  ghost predicate SameTexts(a: seq<Document>, b: seq<Document>) {
    |a| == |b| && forall i, t :: 0 <= i < |a| ==> (Mentions(a[i], t) <==> Mentions(b[i], t))
  }

  lemma {:induction false} SameFrequency(a: seq<Document>, b: seq<Document>, t: string)
    requires SameTexts(a, b)
    ensures Frequency(a, t) == Frequency(b, t)
  {
    if a != [] {
      var n := |a| - 1;
      assert SameTexts(a[..n], b[..n]) by {
        forall i, s | 0 <= i < n ensures Mentions(a[..n][i], s) <==> Mentions(b[..n][i], s) {
          assert Mentions(a[i], s) <==> Mentions(b[i], s);
        }
      }
      SameFrequency(a[..n], b[..n], t);
      assert Mentions(a[n], t) <==> Mentions(b[n], t);
    }
  }

  /** A field whose every token carries the factor its document frequency earns. */
  ghost predicate RatedBy(documents: seq<Document>, tokens: seq<Token>) {
    forall j :: 0 <= j < |tokens| ==> tokens[j].idf == IdfFactor(Frequency(documents, tokens[j].text), |documents|)
  }

  ghost predicate AllRatedBy(documents: seq<Document>, d: Document) {
    RatedBy(documents, d.nameTokens) && RatedBy(documents, d.termTokens) && RatedBy(documents, d.summaryTokens)
    && RatedBy(documents, d.descriptionTokens)
  }

  /** The compiled index, without reference to how it is built. */
  ghost predicate IsIndex(u: Unicode, encode: Entry -> Bytes, entries: seq<Entry>, terms: seq<seq<Bytes>>,
                          documents: seq<Document>) {
    && |terms| == |entries| == |documents|
    && (forall i :: 0 <= i < |documents|
          ==> DocumentOf(u, encode, entries[i], terms[i], documents[i]) && ResultFits(documents[i].result))
    && (forall i :: 0 <= i < |documents| ==> AllRatedBy(documents, documents[i]))
  }

  lemma FieldTexts(u: Unicode, value: Bytes, a: seq<Token>, b: seq<Token>)
    requires FieldOf(u, value, a) && FieldOf(u, value, b)
    ensures Texts(a) == Texts(b)
  {
    var x :| TokensOf(u, Runes(value), x) && Texts(a) == FirstSeen(x);
    var y :| TokensOf(u, Runes(value), y) && Texts(b) == FirstSeen(y);
    TokensUnique(u, Runes(value), x, y);
  }

  lemma TermTexts(u: Unicode, phrases: seq<Bytes>, a: seq<Token>, b: seq<Token>)
    requires TermsOf(u, phrases, a) && TermsOf(u, phrases, b)
    ensures Texts(a) == Texts(b)
  {
    var x :| JoinedTokens(u, phrases, x) && Texts(a) == FirstSeen(x);
    var y :| JoinedTokens(u, phrases, y) && Texts(b) == FirstSeen(y);
    JoinedUnique(u, phrases, x, y);
  }

  ghost predicate TextsAgree(a: Document, b: Document) {
    && Texts(a.nameTokens) == Texts(b.nameTokens) && Texts(a.termTokens) == Texts(b.termTokens)
    && Texts(a.summaryTokens) == Texts(b.summaryTokens) && Texts(a.descriptionTokens) == Texts(b.descriptionTokens)
  }

  lemma DocumentTexts(u: Unicode, encode: Entry -> Bytes, e: Entry, terms: seq<Bytes>, a: Document, b: Document)
    requires DocumentOf(u, encode, e, terms, a) && DocumentOf(u, encode, e, terms, b)
    ensures TextsAgree(a, b)
  {
    FieldTexts(u, e.name, a.nameTokens, b.nameTokens);
    TermTexts(u, terms, a.termTokens, b.termTokens);
    FieldTexts(u, e.summary, a.summaryTokens, b.summaryTokens);
    FieldTexts(u, e.description, a.descriptionTokens, b.descriptionTokens);
  }

  lemma SameTokens(a: seq<Document>, b: seq<Document>, x: seq<Token>, y: seq<Token>)
    requires SameTexts(a, b) && RatedBy(a, x) && RatedBy(b, y) && Texts(x) == Texts(y)
    ensures x == y
  {
    assert |x| == |Texts(x)| == |y|;
    forall j | 0 <= j < |x| ensures x[j] == y[j] {
      assert Texts(x)[j] == Texts(y)[j];
      SameFrequency(a, b, x[j].text);
    }
  }

  /** The entries and their terms determine the whole index, rarity factors included. */
  lemma IndexUnique(u: Unicode, encode: Entry -> Bytes, entries: seq<Entry>, terms: seq<seq<Bytes>>,
                    a: seq<Document>, b: seq<Document>)
    requires IsIndex(u, encode, entries, terms, a) && IsIndex(u, encode, entries, terms, b)
    ensures a == b
  {
    forall i | 0 <= i < |a| ensures TextsAgree(a[i], b[i]) {
      DocumentTexts(u, encode, entries[i], terms[i], a[i], b[i]);
    }
    assert SameTexts(a, b) by {
      forall i, t | 0 <= i < |a| ensures Mentions(a[i], t) <==> Mentions(b[i], t) { assert TextsAgree(a[i], b[i]); }
    }
    forall i | 0 <= i < |a| ensures a[i] == b[i] {
      assert TextsAgree(a[i], b[i]) && AllRatedBy(a, a[i]) && AllRatedBy(b, b[i]);
      SameTokens(a, b, a[i].nameTokens, b[i].nameTokens);
      SameTokens(a, b, a[i].termTokens, b[i].termTokens);
      SameTokens(a, b, a[i].summaryTokens, b[i].summaryTokens);
      SameTokens(a, b, a[i].descriptionTokens, b[i].descriptionTokens);
    }
  }

  lemma FieldRated(documents: seq<Document>, i: nat, tokens: seq<Token>)
    requires i < |documents| && RatedBy(documents, tokens)
             && forall j :: 0 <= j < |tokens| ==> Mentions(documents[i], tokens[j].text)
    ensures Rated(tokens)
  {
    forall j | 0 <= j < |tokens| ensures IDF_MIN <= tokens[j].idf <= IDF_BUCKETS {
      MentionedCounts(documents, i, tokens[j].text);
    }
  }

  lemma Mentioned(tokens: seq<Token>, j: nat)
    requires j < |tokens|
    ensures tokens[j].text in Texts(tokens)
  {
    assert Texts(tokens)[j] == tokens[j].text;
  }

  /** Every token of a compiled index carries a factor from 1 to 8. */
  lemma IndexIsOk(u: Unicode, encode: Entry -> Bytes, entries: seq<Entry>, terms: seq<seq<Bytes>>,
                  documents: seq<Document>, i: nat)
    requires IsIndex(u, encode, entries, terms, documents) && i < |documents|
    ensures DocumentOk(documents[i])
  {
    var d := documents[i];
    assert AllRatedBy(documents, d);
    forall j | 0 <= j < |d.nameTokens| ensures Mentions(d, d.nameTokens[j].text) { Mentioned(d.nameTokens, j); }
    forall j | 0 <= j < |d.termTokens| ensures Mentions(d, d.termTokens[j].text) { Mentioned(d.termTokens, j); }
    forall j | 0 <= j < |d.summaryTokens| ensures Mentions(d, d.summaryTokens[j].text) {
      Mentioned(d.summaryTokens, j);
    }
    forall j | 0 <= j < |d.descriptionTokens| ensures Mentions(d, d.descriptionTokens[j].text) {
      Mentioned(d.descriptionTokens, j);
    }
    FieldRated(documents, i, d.nameTokens);
    FieldRated(documents, i, d.termTokens);
    FieldRated(documents, i, d.summaryTokens);
    FieldRated(documents, i, d.descriptionTokens);
  }

  // ----- building -----

  function Unrated(texts: seq<string>): (tokens: seq<Token>)
    ensures Texts(tokens) == texts
  {
    var tokens := seq(|texts|, i requires 0 <= i < |texts| => Token(texts[i], 0));
    assert Texts(tokens) == texts;
    tokens
  }

  /** uniqueTokens and tokensWithoutIDF. */
  method NewField(u: Unicode, value: Bytes) returns (field: seq<Token>)
    ensures FieldOf(u, value, field)
  {
    var tokens := Tokenize(u, Runes(value));
    var unique := UniqueTokens(tokens);
    return Unrated(unique);
  }

  method NewDocument(u: Unicode, encode: Entry -> Bytes, e: Entry, terms: seq<Bytes>) returns (d: Document)
    ensures DocumentOf(u, encode, e, terms, d)
  {
    var names := NewField(u, e.name);
    var joined := TokenizeJoined(u, terms);
    var unique := UniqueTokens(joined);
    var summaries := NewField(u, e.summary);
    var descriptions := NewField(u, e.description);
    return Document(e.name, Lowered(u, Runes(e.name)), names, Unrated(unique), summaries, descriptions, encode(e));
  }

  function SeenBy(d: Document): (seen: set<string>)
    ensures forall t :: t in seen <==> Mentions(d, t)
  {
    (set t | t in Texts(d.nameTokens)) + (set t | t in Texts(d.termTokens)) + (set t | t in Texts(d.summaryTokens))
    + (set t | t in Texts(d.descriptionTokens))
  }

  function CountIn(counts: map<string, nat>, t: string): nat { if t in counts then counts[t] else 0 }

  ghost predicate Counts(counts: map<string, nat>, documents: seq<Document>) {
    forall t :: CountIn(counts, t) == Frequency(documents, t)
  }

  /** One document's tokens are counted once each, in any order. */
  method CountDocument(counts: map<string, nat>, ghost before: seq<Document>, d: Document) returns (r: map<string, nat>)
    requires Counts(counts, before)
    ensures Counts(r, before + [d])
  {
    var left := SeenBy(d);
    r := counts;
    while left != {}
      invariant left <= SeenBy(d)
      invariant forall t :: CountIn(r, t) == CountIn(counts, t) + if t in SeenBy(d) - left then 1 else 0
      decreases |left|
    {
      var t :| t in left;
      r := r[t := CountIn(r, t) + 1];
      left := left - {t};
    }
    assert (before + [d])[..|before|] == before;
  }

  /** The rarity factor assignIDF stores with a token. */
  function RatedField(counts: map<string, nat>, documents: nat, tokens: seq<Token>): (r: seq<Token>)
    ensures |r| == |tokens|
  {
    seq(|tokens|, j requires 0 <= j < |tokens| =>
        Token(tokens[j].text, IdfFactor(CountIn(counts, tokens[j].text), documents)))
  }

  lemma RatedFieldOk(counts: map<string, nat>, documents: seq<Document>, tokens: seq<Token>)
    requires Counts(counts, documents)
    ensures RatedBy(documents, RatedField(counts, |documents|, tokens))
            && Texts(RatedField(counts, |documents|, tokens)) == Texts(tokens)
  {
    var r := RatedField(counts, |documents|, tokens);
    assert Texts(r) == Texts(tokens);
    forall j | 0 <= j < |r| ensures r[j].idf == IdfFactor(Frequency(documents, r[j].text), |documents|) {
      assert CountIn(counts, tokens[j].text) == Frequency(documents, tokens[j].text);
    }
  }

  function RatedDocument(counts: map<string, nat>, documents: nat, d: Document): Document {
    d.(nameTokens := RatedField(counts, documents, d.nameTokens),
       termTokens := RatedField(counts, documents, d.termTokens),
       summaryTokens := RatedField(counts, documents, d.summaryTokens),
       descriptionTokens := RatedField(counts, documents, d.descriptionTokens))
  }

  lemma RatedDocumentOk(counts: map<string, nat>, documents: seq<Document>, d: Document)
    requires Counts(counts, documents)
    ensures TextsAgree(d, RatedDocument(counts, |documents|, d))
            && AllRatedBy(documents, RatedDocument(counts, |documents|, d))
  {
    RatedFieldOk(counts, documents, d.nameTokens);
    RatedFieldOk(counts, documents, d.termTokens);
    RatedFieldOk(counts, documents, d.summaryTokens);
    RatedFieldOk(counts, documents, d.descriptionTokens);
  }

  lemma SameTextsSameRating(a: seq<Document>, b: seq<Document>, tokens: seq<Token>)
    requires SameTexts(a, b) && RatedBy(a, tokens)
    ensures RatedBy(b, tokens)
  {
    forall j | 0 <= j < |tokens| ensures tokens[j].idf == IdfFactor(Frequency(b, tokens[j].text), |b|) {
      SameFrequency(a, b, tokens[j].text);
    }
  }

  lemma FieldKept(u: Unicode, value: Bytes, a: seq<Token>, b: seq<Token>)
    requires FieldOf(u, value, a) && Texts(a) == Texts(b)
    ensures FieldOf(u, value, b)
  {
    var x :| TokensOf(u, Runes(value), x) && Texts(a) == FirstSeen(x);
    assert Texts(b) == FirstSeen(x);
  }

  lemma TermsKept(u: Unicode, phrases: seq<Bytes>, a: seq<Token>, b: seq<Token>)
    requires TermsOf(u, phrases, a) && Texts(a) == Texts(b)
    ensures TermsOf(u, phrases, b)
  {
    var x :| JoinedTokens(u, phrases, x) && Texts(a) == FirstSeen(x);
    assert Texts(b) == FirstSeen(x);
  }

  lemma DocumentKept(u: Unicode, encode: Entry -> Bytes, e: Entry, terms: seq<Bytes>, counts: map<string, nat>,
                     n: nat, d: Document)
    requires DocumentOf(u, encode, e, terms, d) && TextsAgree(d, RatedDocument(counts, n, d))
    ensures DocumentOf(u, encode, e, terms, RatedDocument(counts, n, d))
  {
    var r := RatedDocument(counts, n, d);
    FieldKept(u, e.name, d.nameTokens, r.nameTokens);
    TermsKept(u, terms, d.termTokens, r.termTokens);
    FieldKept(u, e.summary, d.summaryTokens, r.summaryTokens);
    FieldKept(u, e.description, d.descriptionTokens, r.descriptionTokens);
  }

  ghost predicate Drafted(u: Unicode, encode: Entry -> Bytes, entries: seq<Entry>, terms: seq<seq<Bytes>>,
                          documents: seq<Document>) {
    && |documents| <= |entries| == |terms|
    && forall i :: 0 <= i < |documents|
         ==> DocumentOf(u, encode, entries[i], terms[i], documents[i]) && ResultFits(documents[i].result)
  }

  lemma DraftMore(u: Unicode, encode: Entry -> Bytes, entries: seq<Entry>, terms: seq<seq<Bytes>>,
                  documents: seq<Document>, d: Document)
    requires Drafted(u, encode, entries, terms, documents) && |documents| < |entries|
    requires DocumentOf(u, encode, entries[|documents|], terms[|documents|], d) && ResultFits(d.result)
    ensures Drafted(u, encode, entries, terms, documents + [d])
  {}

  /** Every result could occupy a response alone. */
  ghost predicate AllFit(encode: Entry -> Bytes, entries: seq<Entry>) {
    forall i :: 0 <= i < |entries| ==> ResultFits(encode(entries[i]))
  }

  lemma DraftedFit(u: Unicode, encode: Entry -> Bytes, entries: seq<Entry>, terms: seq<seq<Bytes>>,
                   documents: seq<Document>)
    requires Drafted(u, encode, entries, terms, documents) && |documents| == |entries|
    ensures AllFit(encode, entries)
  {
    forall i | 0 <= i < |entries| ensures ResultFits(encode(entries[i])) {
      assert DocumentOf(u, encode, entries[i], terms[i], documents[i]);
    }
  }

  /** assignIDF. */
  method AssignIdf(counts: map<string, nat>, documents: seq<Document>) returns (r: seq<Document>)
    requires Counts(counts, documents)
    ensures |r| == |documents| && forall i :: 0 <= i < |r| ==> r[i] == RatedDocument(counts, |documents|, documents[i])
  {
    r := [];
    for i := 0 to |documents|
      invariant |r| == i && forall k :: 0 <= k < i ==> r[k] == RatedDocument(counts, |documents|, documents[k])
    {
      r := r + [RatedDocument(counts, |documents|, documents[i])];
    }
  }

  lemma AssignedIsIndex(u: Unicode, encode: Entry -> Bytes, entries: seq<Entry>, terms: seq<seq<Bytes>>,
                        counts: map<string, nat>,
                        drafts: seq<Document>, r: seq<Document>)
    requires Drafted(u, encode, entries, terms, drafts) && |drafts| == |entries| && Counts(counts, drafts)
    requires |r| == |drafts| && forall i :: 0 <= i < |r| ==> r[i] == RatedDocument(counts, |drafts|, drafts[i])
    ensures IsIndex(u, encode, entries, terms, r)
  {
    forall i | 0 <= i < |r| ensures TextsAgree(drafts[i], r[i]) && AllRatedBy(drafts, r[i])
      && DocumentOf(u, encode, entries[i], terms[i], r[i]) {
      RatedDocumentOk(counts, drafts, drafts[i]);
      DocumentKept(u, encode, entries[i], terms[i], counts, |drafts|, drafts[i]);
    }
    assert SameTexts(drafts, r) by {
      forall i, t | 0 <= i < |r| ensures Mentions(drafts[i], t) <==> Mentions(r[i], t) {
        assert TextsAgree(drafts[i], r[i]);
      }
    }
    forall i | 0 <= i < |r| ensures AllRatedBy(r, r[i]) {
      SameTextsSameRating(drafts, r, r[i].nameTokens);
      SameTextsSameRating(drafts, r, r[i].termTokens);
      SameTextsSameRating(drafts, r, r[i].summaryTokens);
      SameTextsSameRating(drafts, r, r[i].descriptionTokens);
    }
  }

  /** compileSearchIndex succeeds exactly when every result could occupy a response alone, and
      then yields the index. */
  method CompileIndex(u: Unicode, encode: Entry -> Bytes, entries: seq<Entry>,
                      terms: seq<seq<Bytes>>) returns (r: Option<seq<Document>>)
    requires |terms| == |entries|
    ensures r.Some? <==> AllFit(encode, entries)
    ensures r.Some? ==> IsIndex(u, encode, entries, terms, r.value)
  {
    var drafts: seq<Document> := [];
    var counts: map<string, nat> := map[];
    for i := 0 to |entries|
      invariant Drafted(u, encode, entries, terms, drafts) && |drafts| == i && Counts(counts, drafts)
    {
      var d := NewDocument(u, encode, entries[i], terms[i]);
      counts := CountDocument(counts, drafts, d);
      if !ResultFits(d.result) {
        return None;
      }
      DraftMore(u, encode, entries, terms, drafts, d);
      drafts := drafts + [d];
    }
    DraftedFit(u, encode, entries, terms, drafts);
    var rated := AssignIdf(counts, drafts);
    AssignedIsIndex(u, encode, entries, terms, counts, drafts, rated);
    return Some(rated);
  }
}
