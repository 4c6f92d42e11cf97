/** Retrieval over an incremental index answers like retrieval over a rebuilt one. */
module SameAnswers {
  import opened Ordering
  import opened Hits
  import opened Fusion
  import opened Retrieval
  import opened RankedScores
  import opened Renaming
  import opened Index
  import opened Freshness
  import opened History
  import opened Agreement

  /** What scores may depend on: the document and the passage, but not the version or ordinal. */
  datatype Offer = Offer(docId: string, passage: Passage)

  function OfferOf(cfg: Settings, c: Chunk): Offer {
    Offer(c.docId, PassageOf(cfg, c))
  }

  function OffersTo(cfg: Settings, rows: seq<Chunk>, n: nat): (offers: seq<Offer>)
    requires n <= |rows|
    ensures |offers| == n && forall i :: 0 <= i < n ==> offers[i] == OfferOf(cfg, rows[i])
  {
    if n == 0 then [] else OffersTo(cfg, rows, n - 1) + [OfferOf(cfg, rows[n - 1])]
  }

  function Rows(data: IndexData): seq<Chunk> {
    Candidates(data, map[], |data.chunks|)
  }

  function Offers(cfg: Settings, data: IndexData): seq<Offer> {
    OffersTo(cfg, Rows(data), |Rows(data)|)
  }

  // ----- the same passages are offered -----

  lemma OneMorePassage(cfg: Settings, mine: seq<Chunk>, c: Chunk, x: Passage)
    ensures multiset(PassagesOf(cfg, mine + [c], |mine| + 1))[x]
         == multiset(PassagesOf(cfg, mine, |mine|))[x] + if PassageOf(cfg, c) == x then 1 else 0
  {
    PassagesPrefix(cfg, mine, c, |mine|);
    CountSnoc(PassagesOf(cfg, mine, |mine|), PassageOf(cfg, c), x);
  }

  /** What one more row adds to the count of an offer, and to that of its passage. */
  lemma OneMoreRow(cfg: Settings, offers: seq<Offer>, mine: seq<Chunk>, c: Chunk, o: Offer)
    requires multiset(offers)[o] == multiset(PassagesOf(cfg, mine, |mine|))[o.passage]
    ensures var more := if c.docId == o.docId then mine + [c] else mine;
            multiset(offers + [OfferOf(cfg, c)])[o] == multiset(PassagesOf(cfg, more, |more|))[o.passage]
  {
    CountSnoc(offers, OfferOf(cfg, c), o);
    OneMorePassage(cfg, mine, c, o.passage);
  }

  lemma {:induction false} CountOffers(cfg: Settings, rows: seq<Chunk>, n: nat, o: Offer)
    requires n <= |rows|
    ensures var mine := ChunksOf(rows, o.docId, n);
            multiset(OffersTo(cfg, rows, n))[o] == multiset(PassagesOf(cfg, mine, |mine|))[o.passage]
  {
    if n > 0 {
      CountOffers(cfg, rows, n - 1, o);
      OneMoreRow(cfg, OffersTo(cfg, rows, n - 1), ChunksOf(rows, o.docId, n - 1), rows[n - 1], o);
    }
  }

  /** Two indexes of one corpus offer the same passages of the same documents, as often. */
  lemma OffersAgree(cfg: Settings, corpus: seq<File>, a: IndexData, b: IndexData)
    requires IsIndexOf(cfg, corpus, a) && IsIndexOf(cfg, corpus, b)
    ensures multiset(Offers(cfg, a)) == multiset(Offers(cfg, b))
  {
    forall o ensures multiset(Offers(cfg, a))[o] == multiset(Offers(cfg, b))[o] {
      CountOffers(cfg, Rows(a), |Rows(a)|, o);
      CountOffers(cfg, Rows(b), |Rows(b)|, o);
      IndexesAgree(cfg, corpus, a, b, o.docId);
    }
  }

  // ----- matching the chunks -----

  /** `m` pairs the elements of `s` with equal elements of `t`, one to one. */
  ghost predicate Matches<T>(s: seq<T>, t: seq<T>, m: seq<nat>) {
    && |m| == |s| == |t|
    && (forall i :: 0 <= i < |m| ==> m[i] < |t| && t[m[i]] == s[i])
    && (forall i, j :: 0 <= i < j < |m| ==> m[i] != m[j])
    && (forall k :: 0 <= k < |t| ==> k in m)
  }

  function Past(j: nat, k: nat): nat {
    if k < j then k else k + 1
  }

  function Shifted(m: seq<nat>, j: nat, n: nat): (r: seq<nat>)
    requires n <= |m|
    ensures |r| == n && forall i :: 0 <= i < n ==> r[i] == Past(j, m[i])
  {
    if n == 0 then [] else Shifted(m, j, n - 1) + [Past(j, m[n - 1])]
  }

  lemma {:induction false} Matching<T>(s: seq<T>, t: seq<T>) returns (m: seq<nat>)
    requires multiset(s) == multiset(t)
    ensures Matches(s, t, m)
  {
    SameLength(s, t);
    if s == [] {
      m := [];
    } else {
      var n := |s| - 1;
      assert s[n] in multiset(s);
      assert s[n] in multiset(t);
      var j :| 0 <= j < |t| && t[j] == s[n];
      WithoutLast(s);
      OneLess(t, j);
      var before := Matching(s[..n], t[..j] + t[j + 1..]);
      m := Shifted(before, j, n) + [j];
      MatchesOneMore(s, t, before, j, m);
    }
  }

  lemma RestAt<T>(t: seq<T>, j: nat, k: nat)
    requires j < |t| && k < |t| - 1
    ensures (t[..j] + t[j + 1..])[k] == t[Past(j, k)]
  {
  }

  lemma AllPast(before: seq<nat>, j: nat, m: seq<nat>, k: nat)
    requires m == Shifted(before, j, |before|) + [j] && (k < j ==> k in before) && (k > j ==> k - 1 in before)
    ensures k in m
  {
    if k == j {
      assert m[|before|] == k;
    } else {
      var i :| 0 <= i < |before| && before[i] == if k < j then k else k - 1;
      assert m[i] == k;
    }
  }

  lemma MatchesOneMore<T>(s: seq<T>, t: seq<T>, before: seq<nat>, j: nat, m: seq<nat>)
    requires |s| == |t| > 0 && j < |t| && t[j] == s[|s| - 1]
    requires Matches(s[..|s| - 1], t[..j] + t[j + 1..], before) && m == Shifted(before, j, |before|) + [j]
    ensures Matches(s, t, m)
  {
    var n := |s| - 1;
    forall i | 0 <= i < n ensures m[i] < |t| && t[m[i]] == s[i] && m[i] == Past(j, before[i]) {
      RestAt(t, j, before[i]);
      assert s[..n][i] == s[i];
    }
    forall k | 0 <= k < |t| ensures k in m {
      AllPast(before, j, m, k);
    }
  }

  // ----- scored lists -----

  /** The scores of the first `n` rows, by the names of their ids. */
  function ScoredTo(cfg: Settings, rows: seq<Chunk>, name: ChunkId -> string, score: Offer -> real, n: nat): (hits: seq<Hit>)
    requires n <= |rows|
    ensures |hits| == n && forall i :: 0 <= i < n ==> hits[i] == Hit(name(rows[i].id), score(OfferOf(cfg, rows[i])))
  {
    if n == 0 then []
    else ScoredTo(cfg, rows, name, score, n - 1) + [Hit(name(rows[n - 1].id), score(OfferOf(cfg, rows[n - 1])))]
  }

  function Scored(cfg: Settings, rows: seq<Chunk>, name: ChunkId -> string, score: Offer -> real): (hits: seq<Hit>)
    ensures |hits| == |rows|
    ensures forall i :: 0 <= i < |rows| ==> hits[i] == Hit(name(rows[i].id), score(OfferOf(cfg, rows[i])))
  {
    ScoredTo(cfg, rows, name, score, |rows|)
  }

  ghost predicate TellsApart(name: ChunkId -> string) {
    forall x, y :: name(x) == name(y) ==> x == y
  }

  ghost predicate DistinctIds(rows: seq<Chunk>) {
    forall i, j :: 0 <= i < j < |rows| ==> rows[i].id != rows[j].id
  }

  lemma ScoredIsDict(cfg: Settings, rows: seq<Chunk>, name: ChunkId -> string, score: Offer -> real)
    requires DistinctIds(rows) && TellsApart(name)
    ensures IsDict(Scored(cfg, rows, name, score))
  {
    var hits := Scored(cfg, rows, name, score);
    forall i, j | 0 <= i < j < |hits| ensures hits[i].id != hits[j].id {
      assert rows[i].id != rows[j].id;
    }
  }

  // ----- the renaming -----

  /** `m` pairs the rows with rows that offer the same, one to one, and `r` takes the names along. */
  ghost predicate Pairs(cfg: Settings, rows: seq<Chunk>, others: seq<Chunk>, name: ChunkId -> string, m: seq<nat>, r: string -> string) {
    && |m| == |rows| == |others|
    && (forall i :: 0 <= i < |m| ==> m[i] < |others| && IsPartner(cfg, rows[i], others[m[i]], name, r))
    && (forall i, j :: 0 <= i < j < |m| ==> m[i] != m[j])
    && (forall k :: 0 <= k < |others| ==> k in m)
  }

  predicate IsPartner(cfg: Settings, c: Chunk, d: Chunk, name: ChunkId -> string, r: string -> string) {
    r(name(c.id)) == name(d.id) && OfferOf(cfg, d) == OfferOf(cfg, c)
  }

  function Names(rows: seq<Chunk>, name: ChunkId -> string): set<string> {
    set c | c in rows :: name(c.id)
  }

  /** The name of the row that is paired with the one named `x`. */
  function NewName(a: seq<Hit>, others: seq<Chunk>, name: ChunkId -> string, m: seq<nat>, x: string): string
    requires |m| == |a| && forall i :: 0 <= i < |m| ==> m[i] < |others|
  {
    var p := Position(a, x, |a|);
    if p < |a| then name(others[m[p]].id) else x
  }

  lemma Pairing(cfg: Settings, rows: seq<Chunk>, others: seq<Chunk>, name: ChunkId -> string) returns (m: seq<nat>, r: string -> string)
    requires DistinctIds(rows) && TellsApart(name)
    requires multiset(OffersTo(cfg, rows, |rows|)) == multiset(OffersTo(cfg, others, |others|))
    ensures Pairs(cfg, rows, others, name, m, r)
  {
    m := Matching(OffersTo(cfg, rows, |rows|), OffersTo(cfg, others, |others|));
    var a := Scored(cfg, rows, name, o => 0.0);
    ScoredIsDict(cfg, rows, name, o => 0.0);
    r := x => NewName(a, others, name, m, x);
    forall i | 0 <= i < |m| ensures IsPartner(cfg, rows[i], others[m[i]], name, r) {
      Found(a, i);
      assert OffersTo(cfg, others, |others|)[m[i]] == OffersTo(cfg, rows, |rows|)[i];
    }
  }

  /** Rows whose partners have one name are the same row. */
  lemma SamePartner(cfg: Settings, rows: seq<Chunk>, others: seq<Chunk>, name: ChunkId -> string, m: seq<nat>, r: string -> string,
                    i: nat, j: nat)
    requires Pairs(cfg, rows, others, name, m, r) && DistinctIds(others) && TellsApart(name) && i < |rows| && j < |rows|
    requires r(name(rows[i].id)) == r(name(rows[j].id))
    ensures i == j
  {
    assert IsPartner(cfg, rows[i], others[m[i]], name, r) && IsPartner(cfg, rows[j], others[m[j]], name, r);
    SameId(others, name, m[i], m[j]);
  }

  lemma SameId(others: seq<Chunk>, name: ChunkId -> string, k: nat, l: nat)
    requires DistinctIds(others) && TellsApart(name) && k < |others| && l < |others| && name(others[k].id) == name(others[l].id)
    ensures k == l
  {
    assert others[k].id == others[l].id;
  }

  lemma NamesOneToOne(cfg: Settings, rows: seq<Chunk>, others: seq<Chunk>, name: ChunkId -> string, m: seq<nat>, r: string -> string)
    requires Pairs(cfg, rows, others, name, m, r) && DistinctIds(others) && TellsApart(name)
    ensures OneToOne(r, Names(rows, name))
  {
    forall x, y | x in Names(rows, name) && y in Names(rows, name) && r(x) == r(y) ensures x == y {
      var i :| 0 <= i < |rows| && name(rows[i].id) == x;
      var j :| 0 <= j < |rows| && name(rows[j].id) == y;
      SamePartner(cfg, rows, others, name, m, r, i, j);
    }
  }

  lemma ScoredWithin(cfg: Settings, rows: seq<Chunk>, name: ChunkId -> string, score: Offer -> real)
    ensures Within(Scored(cfg, rows, name, score), Names(rows, name))
  {
    forall i | 0 <= i < |rows| ensures Scored(cfg, rows, name, score)[i].id in Names(rows, name) {
      assert rows[i] in rows;
    }
  }

  /** Under the new names, the scores of the rows are those of their partners. */
  lemma PartnersScore(cfg: Settings, rows: seq<Chunk>, others: seq<Chunk>, name: ChunkId -> string, score: Offer -> real,
                      m: seq<nat>, r: string -> string, e: seq<Hit>, b: seq<Hit>)
    requires Pairs(cfg, rows, others, name, m, r)
    requires e == Renamed(Scored(cfg, rows, name, score), r) && b == Scored(cfg, others, name, score)
    requires IsDict(e) && IsDict(b)
    ensures multiset(e) == multiset(b)
  {
    forall i | 0 <= i < |e| ensures e[i] == b[m[i]] {
      assert IsPartner(cfg, rows[i], others[m[i]], name, r);
    }
    SameThrough(e, b, m);
    DictIsDistinct(e);
    DictIsDistinct(b);
    SameMultiset(e, b);
  }

  lemma SameThrough(e: seq<Hit>, b: seq<Hit>, m: seq<nat>)
    requires |m| == |e| == |b| && forall i :: 0 <= i < |e| ==> m[i] < |b| && e[i] == b[m[i]]
    requires forall k :: 0 <= k < |b| ==> k in m
    ensures forall h :: h in e <==> h in b
  {
    forall h ensures h in e <==> h in b {
      if h in e {
        var i :| 0 <= i < |e| && e[i] == h;
        assert b[m[i]] == h;
      }
      if h in b {
        var k :| 0 <= k < |b| && b[k] == h;
        assert k in m;
        var i :| 0 <= i < |m| && m[i] == k;
        assert e[i] == h;
      }
    }
  }

  /** The ranking depends on the entries alone. */
  lemma TopRankOfEntries(d: seq<Hit>, e: seq<Hit>, topK: int)
    requires IsDict(d) && IsDict(e) && multiset(d) == multiset(e)
    ensures TopRank(d, topK) == TopRank(e, topK)
  {
    var p, q := Positive(d, |d|), Positive(e, |e|);
    PositiveIsDict(d, |d|);
    PositiveIsDict(e, |e|);
    forall h ensures h in p <==> h in q {
      InPositive(d, |d|, h);
      InPositive(e, |e|, h);
      SameMembers(d, e, h);
    }
    DictIsDistinct(p);
    DictIsDistinct(q);
    SameMultiset(p, q);
    HitsAreOrdered();
    SortSorts(p, HitBefore());
    SortOfSorted(Sort(p, HitBefore()), q, HitBefore());
  }

  // ----- the answers -----

  lemma {:induction false} RowsDistinct(data: IndexData, n: nat)
    requires DistinctIds(data.chunks) && n <= |data.chunks|
    ensures DistinctIds(Candidates(data, map[], n))
    ensures forall c :: c in Candidates(data, map[], n) ==> exists k :: 0 <= k < n && data.chunks[k] == c
  {
    if n > 0 {
      RowsDistinct(data, n - 1);
      var before, rows := Candidates(data, map[], n - 1), Candidates(data, map[], n);
      forall i, j | 0 <= i < j < |rows| ensures rows[i].id != rows[j].id {
        assert rows[i] == before[i] && before[i] in before;
        if j < |before| {
          assert rows[j] == before[j];
        }
      }
    }
  }

  lemma RunRowsDistinct(cfg: Settings, corpus: seq<File>, steps: seq<Step>)
    requires IsRun(corpus, steps)
    ensures DistinctIds(Rows(Run(cfg, corpus, steps, |steps|)))
  {
    var data := Run(cfg, corpus, steps, |steps|);
    forall i, j | 0 <= i < j < |data.chunks| ensures data.chunks[i].id != data.chunks[j].id {
      ChunkIdsAreUnique(cfg, corpus, steps, i, j);
    }
    RowsDistinct(data, |data.chunks|);
  }

  /** `rerank` scores the rows of an index by what they offer. */
  ghost predicate Reranks(cfg: Settings, rows: seq<Chunk>, name: ChunkId -> string, score: Offer -> real, rerank: string -> real) {
    forall i :: 0 <= i < |rows| ==> rerank(name(rows[i].id)) == score(OfferOf(cfg, rows[i]))
  }

  /** Both rows show the same passage of the same document, with equal rank and scores. */
  ghost predicate ShowsAlike(cfg: Settings, rows: seq<Chunk>, others: seq<Chunk>, name: ChunkId -> string, x: Row, y: Row) {
    && y == x.(id := y.id)
    && exists i, j :: 0 <= i < |rows| && 0 <= j < |others| && name(rows[i].id) == x.id && name(others[j].id) == y.id
                      && OfferOf(cfg, rows[i]) == OfferOf(cfg, others[j])
  }

  ghost predicate AnswersAlike(cfg: Settings, rows: seq<Chunk>, others: seq<Chunk>, name: ChunkId -> string, a: Answer, b: Answer) {
    if a.ZeroDivision? then b.ZeroDivision?
    else
      && b.Answer? && |a.rows| == |b.rows|
      && forall i :: 0 <= i < |a.rows| ==> ShowsAlike(cfg, rows, others, name, a.rows[i], b.rows[i])
  }

  /** How both rankers, the reranker and the limits score and cut the rows of an index. */
  datatype Query = Query(dense: Offer -> real, bm25: Offer -> real, rerank: Offer -> real, knobs: Knobs, mode: string)

  function Asked(cfg: Settings, rows: seq<Chunk>, name: ChunkId -> string, q: Query, rerank: string -> real): Answer {
    AnswerOf(Scored(cfg, rows, name, q.dense), Scored(cfg, rows, name, q.bm25), q.knobs, q.mode, rerank)
  }

  ghost predicate AskedUntied(cfg: Settings, rows: seq<Chunk>, name: ChunkId -> string, q: Query, rerank: string -> real) {
    Untied(Scored(cfg, rows, name, q.dense), Scored(cfg, rows, name, q.bm25), q.knobs, q.mode, rerank)
  }

  /** One list: its scores are told apart, and renamed they rank like those of the partners. */
  lemma PartnersRank(cfg: Settings, rows: seq<Chunk>, others: seq<Chunk>, name: ChunkId -> string, score: Offer -> real,
                     m: seq<nat>, r: string -> string, topK: int)
    requires Pairs(cfg, rows, others, name, m, r) && DistinctIds(rows) && DistinctIds(others) && TellsApart(name)
    ensures IsDict(Scored(cfg, rows, name, score)) && Within(Scored(cfg, rows, name, score), Names(rows, name))
    ensures TopRank(Renamed(Scored(cfg, rows, name, score), r), topK) == TopRank(Scored(cfg, others, name, score), topK)
  {
    var a, b := Scored(cfg, rows, name, score), Scored(cfg, others, name, score);
    ScoredIsDict(cfg, rows, name, score);
    ScoredIsDict(cfg, others, name, score);
    ScoredWithin(cfg, rows, name, score);
    NamesOneToOne(cfg, rows, others, name, m, r);
    RenamedIsDict(a, r, Names(rows, name));
    PartnersScore(cfg, rows, others, name, score, m, r, Renamed(a, r), b);
    TopRankOfEntries(Renamed(a, r), b, topK);
  }

  lemma PartnersRerank(cfg: Settings, rows: seq<Chunk>, others: seq<Chunk>, name: ChunkId -> string, score: Offer -> real,
                       m: seq<nat>, r: string -> string, rerank: string -> real, other: string -> real)
    requires Pairs(cfg, rows, others, name, m, r)
    requires Reranks(cfg, rows, name, score, rerank) && Reranks(cfg, others, name, score, other)
    ensures RerankedAlike(Names(rows, name), r, rerank, other)
  {
    forall x | x in Names(rows, name) ensures other(r(x)) == rerank(x) {
      var i :| 0 <= i < |rows| && name(rows[i].id) == x;
      assert IsPartner(cfg, rows[i], others[m[i]], name, r);
      assert other(name(others[m[i]].id)) == score(OfferOf(cfg, others[m[i]]));
    }
  }

  lemma RenamedShowsAlike(cfg: Settings, rows: seq<Chunk>, others: seq<Chunk>, name: ChunkId -> string, m: seq<nat>,
                          r: string -> string, x: Row, y: Row)
    requires Pairs(cfg, rows, others, name, m, r) && x.id in Names(rows, name) && y == RenamedRow(x, r)
    ensures ShowsAlike(cfg, rows, others, name, x, y)
  {
    var i :| 0 <= i < |rows| && name(rows[i].id) == x.id;
    assert IsPartner(cfg, rows[i], others[m[i]], name, r);
    assert name(others[m[i]].id) == y.id && OfferOf(cfg, rows[i]) == OfferOf(cfg, others[m[i]]);
  }

  lemma RenamedAnswersAlike(cfg: Settings, rows: seq<Chunk>, others: seq<Chunk>, name: ChunkId -> string, m: seq<nat>,
                            r: string -> string, a: Answer, b: Answer)
    requires Pairs(cfg, rows, others, name, m, r) && AnswerRenamed(a, b, r, Names(rows, name))
    ensures AnswersAlike(cfg, rows, others, name, a, b)
  {
    if a.Answer? {
      forall i | 0 <= i < |a.rows| ensures ShowsAlike(cfg, rows, others, name, a.rows[i], b.rows[i]) {
        RenamedShowsAlike(cfg, rows, others, name, m, r, a.rows[i], b.rows[i]);
      }
    }
  }

  lemma SameRanksSameAnswer(dense: seq<Hit>, bm25: seq<Hit>, dense': seq<Hit>, bm25': seq<Hit>, knobs: Knobs, mode: string,
                            rerank: string -> real)
    requires TopRank(dense, knobs.denseTopK) == TopRank(dense', knobs.denseTopK)
    requires TopRank(bm25, knobs.bm25TopK) == TopRank(bm25', knobs.bm25TopK)
    ensures AnswerOf(dense, bm25, knobs, mode, rerank) == AnswerOf(dense', bm25', knobs, mode, rerank)
  {
  }

  /** Rows that offer the same are answered from alike. */
  lemma RowsAnswerAlike(cfg: Settings, rows: seq<Chunk>, others: seq<Chunk>, name: ChunkId -> string, q: Query,
                        rerank: string -> real, other: string -> real)
    requires DistinctIds(rows) && DistinctIds(others) && TellsApart(name)
    requires multiset(OffersTo(cfg, rows, |rows|)) == multiset(OffersTo(cfg, others, |others|))
    requires Reranks(cfg, rows, name, q.rerank, rerank) && Reranks(cfg, others, name, q.rerank, other)
    requires AskedUntied(cfg, rows, name, q, rerank)
    ensures AnswersAlike(cfg, rows, others, name, Asked(cfg, rows, name, q, rerank), Asked(cfg, others, name, q, other))
  {
    var m, r := Pairing(cfg, rows, others, name);
    var dense, bm25 := Scored(cfg, rows, name, q.dense), Scored(cfg, rows, name, q.bm25);
    PartnersRank(cfg, rows, others, name, q.dense, m, r, q.knobs.denseTopK);
    PartnersRank(cfg, rows, others, name, q.bm25, m, r, q.knobs.bm25TopK);
    NamesOneToOne(cfg, rows, others, name, m, r);
    PartnersRerank(cfg, rows, others, name, q.rerank, m, r, rerank, other);
    RenamingIsInvisible(dense, bm25, r, Names(rows, name), q.knobs, q.mode, rerank, other);
    SameRanksSameAnswer(Renamed(dense, r), Renamed(bm25, r), Scored(cfg, others, name, q.dense), Scored(cfg, others, name, q.bm25),
                        q.knobs, q.mode, other);
    RenamedAnswersAlike(cfg, rows, others, name, m, r, Asked(cfg, rows, name, q, rerank), Asked(cfg, others, name, q, other));
  }

  /** After any history retrieval answers as after a full build of the current corpus: the same
      passages of the same documents at the same ranks with the same scores, if no two scores tie.
      Scores may depend on the document, the passage and all that is offered. */
  lemma RunAnswersLikeRebuild(cfg: Settings, corpus: seq<File>, steps: seq<Step>, name: ChunkId -> string,
                              queryOf: multiset<Offer> -> Query, rerank: string -> real, other: string -> real)
    requires IsRun(corpus, steps) && TellsApart(name)
    requires var a, b := Run(cfg, corpus, steps, |steps|), FullBuild(cfg, CorpusAfter(corpus, steps, |steps|));
             && Reranks(cfg, Rows(a), name, queryOf(multiset(Offers(cfg, a))).rerank, rerank)
             && Reranks(cfg, Rows(b), name, queryOf(multiset(Offers(cfg, b))).rerank, other)
             && AskedUntied(cfg, Rows(a), name, queryOf(multiset(Offers(cfg, a))), rerank)
    ensures var a, b := Run(cfg, corpus, steps, |steps|), FullBuild(cfg, CorpusAfter(corpus, steps, |steps|));
            AnswersAlike(cfg, Rows(a), Rows(b), name,
                         Asked(cfg, Rows(a), name, queryOf(multiset(Offers(cfg, a))), rerank),
                         Asked(cfg, Rows(b), name, queryOf(multiset(Offers(cfg, b))), other))
  {
    var now := CorpusAfter(corpus, steps, |steps|);
    var a, b := Run(cfg, corpus, steps, |steps|), FullBuild(cfg, now);
    RunKeepsIndex(cfg, corpus, steps, |steps|);
    FullIsIndex(cfg, now);
    OffersAgree(cfg, now, a, b);
    RunRowsDistinct(cfg, corpus, steps);
    assert b == Run(cfg, now, [], 0);
    RunRowsDistinct(cfg, now, []);
    RowsAnswerAlike(cfg, Rows(a), Rows(b), name, queryOf(multiset(Offers(cfg, a))), rerank, other);
  }

  // ----- ties or not -----

  lemma ScoredAlike(cfg: Settings, rows: seq<Chunk>, others: seq<Chunk>, name: ChunkId -> string, score: Offer -> real)
    requires multiset(OffersTo(cfg, rows, |rows|)) == multiset(OffersTo(cfg, others, |others|))
    ensures multiset(Scores(Scored(cfg, rows, name, score))) == multiset(Scores(Scored(cfg, others, name, score)))
  {
    var s, t := OffersTo(cfg, rows, |rows|), OffersTo(cfg, others, |others|);
    assert Scores(Scored(cfg, rows, name, score)) == Mapped(s, score);
    assert Scores(Scored(cfg, others, name, score)) == Mapped(t, score);
    MappedKeeps(s, t, score);
  }

  /** Even where scores tie, each of the two rankers lists as many chunks as after a full build, and
      at every rank the same score. */
  lemma RunScoresLikeRebuild(cfg: Settings, corpus: seq<File>, steps: seq<Step>, name: ChunkId -> string,
                             scoreOf: multiset<Offer> -> (Offer -> real), topK: int)
    requires IsRun(corpus, steps)
    ensures var a, b := Run(cfg, corpus, steps, |steps|), FullBuild(cfg, CorpusAfter(corpus, steps, |steps|));
            && multiset(Offers(cfg, a)) == multiset(Offers(cfg, b))
            && Scores(TopRank(Scored(cfg, Rows(a), name, scoreOf(multiset(Offers(cfg, a)))), topK))
               == Scores(TopRank(Scored(cfg, Rows(b), name, scoreOf(multiset(Offers(cfg, b)))), topK))
  {
    var now := CorpusAfter(corpus, steps, |steps|);
    var a, b := Run(cfg, corpus, steps, |steps|), FullBuild(cfg, now);
    RunKeepsIndex(cfg, corpus, steps, |steps|);
    FullIsIndex(cfg, now);
    OffersAgree(cfg, now, a, b);
    var score := scoreOf(multiset(Offers(cfg, a)));
    ScoredAlike(cfg, Rows(a), Rows(b), name, score);
    TopScoresAgree(Scored(cfg, Rows(a), name, score), Scored(cfg, Rows(b), name, score), topK);
  }
}
