/**
  `find_best_matches`: score the rows whose names the approximate matcher
  proposes, add the rows whose names contain the query at a fixed score,
  sort by score (stably, best first), keep the first entry per name and cut
  the list to `limit`. The two `difflib` routines are parameters: nothing is
  assumed of them except, for the score bounds, that the ratio lies in [0, 1].
 */
module Matcher {
  import opened Text
  import opened Records

  /** The similarity cutoff handed to the approximate matcher. */
  const Cutoff: real := 0.6
  /** The score of a row found by case-insensitive substring search. */
  const SubstringScore: real := 0.99
  /** The number of matches the bot asks for. */
  const DefaultLimit: nat := 3

  datatype Match = Match(score: real, record: PlayerRecord)

  /** `difflib.get_close_matches(word, possibilities, n, cutoff)`. */
  type CloseMatcher = (string, seq<string>, nat, real) -> seq<string>
  /** `difflib.SequenceMatcher(None, a, b).ratio()`. */
  type Ratio = (string, string) -> real

  function Names(rows: seq<PlayerRecord>): seq<string> {
    seq(|rows|, i requires 0 <= i < |rows| => rows[i].name)
  }

  /** The names the approximate matcher proposes for `query`. */
  function Candidates(query: string, rows: seq<PlayerRecord>, limit: nat, closeMatches: CloseMatcher): seq<string> {
    closeMatches(query, Names(rows), limit, Cutoff)
  }

  /** The lower-cased query occurs in the lower-cased name. */
  predicate IsHit(query: string, r: PlayerRecord) {
    Contains(Lower(r.name), Lower(query))
  }

  /** Some entry of `ms` holds a record equal to `r`. */
  predicate HasRecord(ms: seq<Match>, r: PlayerRecord) {
    exists i :: 0 <= i < |ms| && ms[i].record == r
  }

  lemma HasRecordAppend(ms: seq<Match>, extra: seq<Match>, r: PlayerRecord)
    ensures HasRecord(ms + extra, r) <==> HasRecord(ms, r) || HasRecord(extra, r)
  {
    if HasRecord(ms + extra, r) {
      var i :| 0 <= i < |ms + extra| && (ms + extra)[i].record == r;
      if i < |ms| {
        assert ms[i].record == r;
      } else {
        assert extra[i - |ms|].record == r;
      }
    }
    if HasRecord(ms, r) {
      var i :| 0 <= i < |ms| && ms[i].record == r;
      assert (ms + extra)[i].record == r;
    }
    if HasRecord(extra, r) {
      var i :| 0 <= i < |extra| && extra[i].record == r;
      assert (ms + extra)[|ms| + i].record == r;
    }
  }

  /** The fuzzy pass over `rows`: one entry, scored by the ratio, per row whose name is a candidate. */
  function Fuzzy(query: string, rows: seq<PlayerRecord>, candidates: seq<string>, ratio: Ratio): seq<Match> {
    if rows == [] then []
    else
      var r := rows[|rows| - 1];
      Fuzzy(query, rows[..|rows| - 1], candidates, ratio)
        + (if r.name in candidates then [Match(ratio(Lower(query), Lower(r.name)), r)] else [])
  }

  /** The fuzzy pass scores exactly the candidates' rows, each by its ratio. */
  lemma {:induction false} FuzzyEntries(query: string, rows: seq<PlayerRecord>, candidates: seq<string>, ratio: Ratio)
    ensures var ms := Fuzzy(query, rows, candidates, ratio);
      && (forall m :: m in ms ==> m.record in rows && m.record.name in candidates
                                  && m.score == ratio(Lower(query), Lower(m.record.name)))
      && (forall r :: r in rows && r.name in candidates ==> HasRecord(ms, r))
  {
    if rows != [] {
      var r := rows[|rows| - 1];
      var init := rows[..|rows| - 1];
      var prev := Fuzzy(query, init, candidates, ratio);
      var extra := if r.name in candidates then [Match(ratio(Lower(query), Lower(r.name)), r)] else [];
      FuzzyEntries(query, init, candidates, ratio);
      assert rows == init + [r];
      forall r' | r' in rows && r'.name in candidates
        ensures HasRecord(prev + extra, r')
      {
        HasRecordAppend(prev, extra, r');
        if r' == r {
          assert extra[0].record == r;
        }
      }
    }
  }

  /** The fuzzy pass handles each row on its own: it distributes over concatenation of rows. */
  lemma {:induction false} FuzzyAppend(query: string, a: seq<PlayerRecord>, b: seq<PlayerRecord>,
                                       candidates: seq<string>, ratio: Ratio)
    ensures Fuzzy(query, a + b, candidates, ratio)
            == Fuzzy(query, a, candidates, ratio) + Fuzzy(query, b, candidates, ratio)
  {
    if b != [] {
      assert (a + b)[..|a + b| - 1] == a + b[..|b| - 1];
      FuzzyAppend(query, a, b[..|b| - 1], candidates, ratio);
    } else {
      assert a + b == a;
    }
  }

  /** A single row gets one entry, scored by the ratio, when its name is a candidate, and none otherwise. */
  lemma FuzzyOfRow(query: string, r: PlayerRecord, candidates: seq<string>, ratio: Ratio)
    ensures r.name in candidates ==> Fuzzy(query, [r], candidates, ratio) == [Match(ratio(Lower(query), Lower(r.name)), r)]
    ensures r.name !in candidates ==> Fuzzy(query, [r], candidates, ratio) == []
  {
    assert [r][..0] == [];
  }

  /**
    The substring pass over `rows`, appended to `base`: each row whose name
    contains the query is added at SubstringScore unless an equal record is
    already in the list, counting the entries this pass has added itself.
   */
  function Rescued(query: string, rows: seq<PlayerRecord>, base: seq<Match>): seq<Match> {
    if rows == [] then base
    else
      var r := rows[|rows| - 1];
      var prev := Rescued(query, rows[..|rows| - 1], base);
      prev + (if IsHit(query, r) && !HasRecord(prev, r) then [Match(SubstringScore, r)] else [])
  }

  /** The substring pass keeps `base` in front and adds only hits not yet scored, at SubstringScore. */
  lemma {:induction false} RescuedAdds(query: string, rows: seq<PlayerRecord>, base: seq<Match>)
    ensures var ms := Rescued(query, rows, base);
      && |base| <= |ms| && ms[..|base|] == base
      && (forall i :: |base| <= i < |ms| ==>
            ms[i].score == SubstringScore && IsHit(query, ms[i].record)
            && ms[i].record in rows && !HasRecord(base, ms[i].record))
  {
    if rows != [] {
      var r := rows[|rows| - 1];
      var init := rows[..|rows| - 1];
      var prev := Rescued(query, init, base);
      RescuedAdds(query, init, base);
      if IsHit(query, r) && !HasRecord(prev, r) {
        HasRecordAppend(base, prev[|base|..], r);
        assert base + prev[|base|..] == prev;
        assert (prev + [Match(SubstringScore, r)])[..|base|] == prev[..|base|];
      }
    }
  }

  /** After the substring pass, every row whose name contains the query has an entry. */
  lemma {:induction false} RescuedCovers(query: string, rows: seq<PlayerRecord>, base: seq<Match>)
    ensures forall r :: r in rows && IsHit(query, r) ==> HasRecord(Rescued(query, rows, base), r)
  {
    if rows != [] {
      var r := rows[|rows| - 1];
      var init := rows[..|rows| - 1];
      var prev := Rescued(query, init, base);
      var extra := if IsHit(query, r) && !HasRecord(prev, r) then [Match(SubstringScore, r)] else [];
      RescuedCovers(query, init, base);
      assert rows == init + [r];
      forall r' | r' in rows && IsHit(query, r')
        ensures HasRecord(prev + extra, r')
      {
        HasRecordAppend(prev, extra, r');
        if r' == r && extra != [] {
          assert extra[0].record == r;
        }
      }
    }
  }

  /**
    Reference for what the substring pass appends: in row order, each row whose
    name contains the query, that has no entry in `base` and that is not equal
    to an earlier row, at SubstringScore. Each row is judged by the input alone.
   */
  function FreshHits(query: string, rows: seq<PlayerRecord>, base: seq<Match>): seq<Match> {
    if rows == [] then []
    else
      var r := rows[|rows| - 1];
      var init := rows[..|rows| - 1];
      FreshHits(query, init, base)
        + (if IsHit(query, r) && !HasRecord(base, r) && r !in init then [Match(SubstringScore, r)] else [])
  }

  /** The fresh hits hold exactly the unscored hits among the rows, each at SubstringScore. */
  lemma {:induction false} FreshHitsRecords(query: string, rows: seq<PlayerRecord>, base: seq<Match>)
    ensures forall x :: HasRecord(FreshHits(query, rows, base), x)
                        <==> x in rows && IsHit(query, x) && !HasRecord(base, x)
    ensures forall k :: 0 <= k < |FreshHits(query, rows, base)| ==> FreshHits(query, rows, base)[k].score == SubstringScore
  {
    if rows != [] {
      var r := rows[|rows| - 1];
      var init := rows[..|rows| - 1];
      var prev := FreshHits(query, init, base);
      var extra := if IsHit(query, r) && !HasRecord(base, r) && r !in init then [Match(SubstringScore, r)] else [];
      FreshHitsRecords(query, init, base);
      assert rows == init + [r];
      forall x
        ensures HasRecord(prev + extra, x) <==> x in rows && IsHit(query, x) && !HasRecord(base, x)
      {
        HasRecordAppend(prev, extra, x);
        if extra != [] && x == r {
          assert extra[0].record == r;
        }
      }
    }
  }

  /** No record appears twice among the fresh hits. */
  lemma {:induction false} FreshHitsDistinct(query: string, rows: seq<PlayerRecord>, base: seq<Match>)
    ensures forall i, j :: 0 <= i < j < |FreshHits(query, rows, base)|
              ==> FreshHits(query, rows, base)[i].record != FreshHits(query, rows, base)[j].record
  {
    if rows != [] {
      var r := rows[|rows| - 1];
      var init := rows[..|rows| - 1];
      var prev := FreshHits(query, init, base);
      FreshHitsDistinct(query, init, base);
      FreshHitsRecords(query, init, base);
      if IsHit(query, r) && !HasRecord(base, r) && r !in init {
        var f := prev + [Match(SubstringScore, r)];
        forall i | 0 <= i < |prev|
          ensures prev[i].record != r
        {
          assert HasRecord(prev, prev[i].record);
        }
        forall i, j | 0 <= i < j < |f|
          ensures f[i].record != f[j].record
        {
          assert f[i] == prev[i];
          if j < |prev| {
            assert f[j] == prev[j];
          } else {
            assert f[j].record == r;
          }
        }
        assert FreshHits(query, rows, base) == f;
      }
    }
  }

  /** The substring pass appends to `base` exactly the fresh hits, in row order. */
  lemma {:induction false} RescuedInRowOrder(query: string, rows: seq<PlayerRecord>, base: seq<Match>)
    ensures Rescued(query, rows, base) == base + FreshHits(query, rows, base)
  {
    if rows != [] {
      var r := rows[|rows| - 1];
      var init := rows[..|rows| - 1];
      RescuedInRowOrder(query, init, base);
      FreshHitsRecords(query, init, base);
      HasRecordAppend(base, FreshHits(query, init, base), r);
    }
  }

  /** Both passes of `find_best_matches`, before sorting. */
  function Scored(query: string, rows: seq<PlayerRecord>, candidates: seq<string>, ratio: Ratio): seq<Match> {
    Rescued(query, rows, Fuzzy(query, rows, candidates, ratio))
  }

  /** Where every score comes from: the ratio for a candidate's row, SubstringScore for a rescued hit. */
  predicate Explained(query: string, candidates: seq<string>, ratio: Ratio, m: Match) {
    if m.record.name in candidates then m.score == ratio(Lower(query), Lower(m.record.name))
    else m.score == SubstringScore && IsHit(query, m.record)
  }

  /** Every scored entry is a row, scored by the rule for its kind; every hit and every candidate's row is among them. */
  lemma ScoredEntries(query: string, rows: seq<PlayerRecord>, candidates: seq<string>, ratio: Ratio)
    ensures forall m :: m in Scored(query, rows, candidates, ratio) ==>
              m.record in rows && Explained(query, candidates, ratio, m)
    ensures forall r :: r in rows && (IsHit(query, r) || r.name in candidates) ==>
              HasRecord(Scored(query, rows, candidates, ratio), r)
  {
    var base := Fuzzy(query, rows, candidates, ratio);
    var ms := Scored(query, rows, candidates, ratio);
    FuzzyEntries(query, rows, candidates, ratio);
    RescuedAdds(query, rows, base);
    RescuedCovers(query, rows, base);
    forall m | m in ms
      ensures m.record in rows && Explained(query, candidates, ratio, m)
    {
      var i :| 0 <= i < |ms| && ms[i] == m;
      if i < |base| {
        assert ms[..|base|][i] == m;
      }
    }
    forall r | r in rows && r.name in candidates
      ensures HasRecord(ms, r)
    {
      var i :| 0 <= i < |base| && base[i].record == r;
      assert ms[..|base|][i] == base[i];
    }
  }

  predicate SortedByScore(ms: seq<Match>) {
    forall i, j :: 0 <= i < j < |ms| ==> ms[i].score >= ms[j].score
  }

  /** Puts `m` before the first entry that does not score higher than it. */
  function Insert(m: Match, ms: seq<Match>): seq<Match> {
    if ms == [] || m.score >= ms[0].score then [m] + ms
    else [ms[0]] + Insert(m, ms[1..])
  }

  /** Insertion adds `m` and nothing else, and puts `m` or the old head in front. */
  lemma {:induction false} InsertAdds(m: Match, ms: seq<Match>)
    ensures multiset(Insert(m, ms)) == multiset(ms) + multiset{m}
    ensures |Insert(m, ms)| == |ms| + 1
    ensures Insert(m, ms)[0] == m || (ms != [] && Insert(m, ms)[0] == ms[0])
  {
    if ms != [] && m.score < ms[0].score {
      InsertAdds(m, ms[1..]);
      assert ms == [ms[0]] + ms[1..];
    }
  }

  /** Insertion keeps a sorted list sorted. */
  lemma {:induction false} InsertSorted(m: Match, ms: seq<Match>)
    requires SortedByScore(ms)
    ensures SortedByScore(Insert(m, ms))
  {
    if ms != [] && m.score < ms[0].score {
      var rest := Insert(m, ms[1..]);
      InsertSorted(m, ms[1..]);
      InsertAdds(m, ms[1..]);
      assert |ms| > 1 ==> ms[0].score >= ms[1].score;
      assert ms[0].score >= rest[0].score;
      forall i, j | 0 <= i < j < |rest| + 1
        ensures ([ms[0]] + rest)[i].score >= ([ms[0]] + rest)[j].score
      {
        if i == 0 {
          assert rest[0].score >= rest[j - 1].score;
        }
      }
    }
  }

  /** Insertion adds `m` and nothing else, and keeps a sorted list sorted. */
  lemma InsertProps(m: Match, ms: seq<Match>)
    ensures multiset(Insert(m, ms)) == multiset(ms) + multiset{m}
    ensures SortedByScore(ms) ==> SortedByScore(Insert(m, ms))
  {
    InsertAdds(m, ms);
    if SortedByScore(ms) {
      InsertSorted(m, ms);
    }
  }

  /** Python's `sort(key=score, reverse=True)`, as a stable insertion sort. */
  function SortByScore(ms: seq<Match>): seq<Match> {
    if ms == [] then [] else Insert(ms[0], SortByScore(ms[1..]))
  }

  /** Sorting only reorders the entries, and orders them by score, best first. */
  lemma {:induction false} SortProps(ms: seq<Match>)
    ensures multiset(SortByScore(ms)) == multiset(ms)
    ensures SortedByScore(SortByScore(ms))
  {
    if ms != [] {
      SortProps(ms[1..]);
      InsertProps(ms[0], SortByScore(ms[1..]));
      assert ms == [ms[0]] + ms[1..];
    }
  }

  /** The entries of `ms` with score `v`, in their order. */
  function WithScore(ms: seq<Match>, v: real): seq<Match> {
    if ms == [] then []
    else (if ms[0].score == v then [ms[0]] else []) + WithScore(ms[1..], v)
  }

  lemma {:induction false} InsertWithScore(m: Match, ms: seq<Match>, v: real)
    ensures WithScore(Insert(m, ms), v) == (if m.score == v then [m] else []) + WithScore(ms, v)
  {
    if ms == [] || m.score >= ms[0].score {
      assert Insert(m, ms) == [m] + ms;
      assert ([m] + ms)[1..] == ms;
    } else {
      var rest := Insert(m, ms[1..]);
      assert Insert(m, ms) == [ms[0]] + rest;
      assert ([ms[0]] + rest)[1..] == rest;
      assert WithScore(Insert(m, ms), v) == (if ms[0].score == v then [ms[0]] else []) + WithScore(rest, v);
      InsertWithScore(m, ms[1..], v);
      assert WithScore(ms, v) == (if ms[0].score == v then [ms[0]] else []) + WithScore(ms[1..], v);
    }
  }

  /** The sort is stable: entries of equal score keep their relative order. */
  lemma {:induction false} SortStable(ms: seq<Match>, v: real)
    ensures WithScore(SortByScore(ms), v) == WithScore(ms, v)
  {
    if ms != [] {
      SortStable(ms[1..], v);
      InsertWithScore(ms[0], SortByScore(ms[1..]), v);
    }
  }

  function NameSet(ms: seq<Match>): set<string> {
    set m | m in ms :: m.record.name
  }

  predicate DistinctNames(ms: seq<Match>) {
    forall i, j :: 0 <= i < j < |ms| ==> ms[i].record.name != ms[j].record.name
  }

  /** No entry before index `i` has the name of entry `i`. */
  predicate FirstOfName(ms: seq<Match>, i: int)
    requires 0 <= i < |ms|
  {
    forall j :: 0 <= j < i ==> ms[j].record.name != ms[i].record.name
  }

  lemma NameSetAppend(ms: seq<Match>, m: Match)
    ensures NameSet(ms + [m]) == NameSet(ms) + {m.record.name}
  {
    assert forall x :: x in ms + [m] <==> x in ms || x == m;
  }

  /** The loop over the sorted list with its `seen` set: the first entry of each name, in order. */
  function Dedup(ms: seq<Match>): seq<Match> {
    if ms == [] then []
    else
      var m := ms[|ms| - 1];
      var prev := Dedup(ms[..|ms| - 1]);
      if m.record.name in NameSet(prev) then prev else prev + [m]
  }

  /** Reference for deduplication: the entries of `ms`, in order, that are first of their name. */
  function FirstsOfNames(ms: seq<Match>): seq<Match> {
    if ms == [] then []
    else FirstsOfNames(ms[..|ms| - 1]) + (if FirstOfName(ms, |ms| - 1) then [ms[|ms| - 1]] else [])
  }

  /** Deduplication keeps entries of the list only, and the names of all of them. */
  lemma {:induction false} DedupContents(ms: seq<Match>)
    ensures forall m :: m in Dedup(ms) ==> m in ms
    ensures NameSet(Dedup(ms)) == NameSet(ms)
  {
    if ms != [] {
      var m := ms[|ms| - 1];
      var init := ms[..|ms| - 1];
      DedupContents(init);
      assert ms == init + [m];
      NameSetAppend(init, m);
      if m.record.name !in NameSet(Dedup(init)) {
        NameSetAppend(Dedup(init), m);
      }
    }
  }

  /** Deduplication keeps the input's order: it is the filter of the entries that are first of their name. */
  lemma {:induction false} DedupIsFilter(ms: seq<Match>)
    ensures Dedup(ms) == FirstsOfNames(ms)
  {
    if ms != [] {
      var init := ms[..|ms| - 1];
      var m := ms[|ms| - 1];
      DedupIsFilter(init);
      DedupContents(init);
      if m.record.name in NameSet(init) {
        var x :| x in init && x.record.name == m.record.name;
        var j :| 0 <= j < |init| && init[j] == x;
        assert ms[j] == x;
      } else {
        forall j | 0 <= j < |ms| - 1
          ensures ms[j].record.name != m.record.name
        {
          assert ms[j] == init[j];
        }
      }
    }
  }

  /** Deduplication leaves no name twice. */
  lemma {:induction false} DedupDistinct(ms: seq<Match>)
    ensures DistinctNames(Dedup(ms))
  {
    if ms != [] {
      var init := ms[..|ms| - 1];
      var prev := Dedup(init);
      DedupDistinct(init);
      assert forall x :: x in prev ==> x.record.name in NameSet(prev);
    }
  }

  /** Deduplication keeps the first entry of every name. */
  lemma {:induction false} DedupKeepsFirst(ms: seq<Match>)
    ensures forall i :: 0 <= i < |ms| && FirstOfName(ms, i) ==> ms[i] in Dedup(ms)
  {
    if ms != [] {
      var m := ms[|ms| - 1];
      var init := ms[..|ms| - 1];
      var prev := Dedup(init);
      DedupKeepsFirst(init);
      DedupContents(init);
      forall i | 0 <= i < |ms| - 1 && FirstOfName(ms, i)
        ensures ms[i] in Dedup(ms)
      {
        assert FirstOfName(init, i);
      }
      if m.record.name in NameSet(prev) {
        var x :| x in init && x.record.name == m.record.name;
        var k :| 0 <= k < |init| && init[k] == x;
        assert !FirstOfName(ms, |ms| - 1) by {
          assert ms[k].record.name == m.record.name;
        }
      }
    }
  }

  /** Deduplication keeps entries of the list only, one per name, and the first entry of every name. */
  lemma DedupProps(ms: seq<Match>)
    ensures var u := Dedup(ms);
      && (forall m :: m in u ==> m in ms)
      && DistinctNames(u)
      && NameSet(u) == NameSet(ms)
      && (forall i :: 0 <= i < |ms| && FirstOfName(ms, i) ==> ms[i] in u)
  {
    DedupContents(ms);
    DedupDistinct(ms);
    DedupKeepsFirst(ms);
  }

  /** Keeping the first entry per name keeps a list sorted by score sorted. */
  lemma {:induction false} DedupSorted(ms: seq<Match>)
    requires SortedByScore(ms)
    ensures SortedByScore(Dedup(ms))
  {
    if ms != [] {
      var init := ms[..|ms| - 1];
      DedupSorted(init);
      DedupProps(init);
      var prev := Dedup(init);
      forall x | x in prev
        ensures x.score >= ms[|ms| - 1].score
      {
        var k :| 0 <= k < |init| && init[k] == x;
      }
    }
  }

  /** With distinct names, the list is as long as its set of names. */
  lemma {:induction false} DistinctNamesCount(ms: seq<Match>)
    requires DistinctNames(ms)
    ensures |NameSet(ms)| == |ms|
  {
    if ms != [] {
      var init := ms[..|ms| - 1];
      var m := ms[|ms| - 1];
      assert ms == init + [m];
      DistinctNamesCount(init);
      NameSetAppend(init, m);
      assert m.record.name !in NameSet(init);
    }
  }

  function Min(a: nat, b: nat): nat {
    if a < b then a else b
  }

  /** Both passes, stably sorted by score, best first. */
  function Ranked(query: string, rows: seq<PlayerRecord>, limit: nat,
                  closeMatches: CloseMatcher, ratio: Ratio): seq<Match>
  {
    SortByScore(Scored(query, rows, Candidates(query, rows, limit, closeMatches), ratio))
  }

  /** The whole of `find_best_matches` as a pipeline of functions. */
  function BestMatches(query: string, rows: seq<PlayerRecord>, limit: nat,
                       closeMatches: CloseMatcher, ratio: Ratio): seq<Match>
  {
    var unique := Dedup(Ranked(query, rows, limit, closeMatches, ratio));
    unique[..Min(limit, |unique|)]
  }

  /** The sorted list holds the scored entries, and nothing else. */
  lemma SortedHoldsScored(ms: seq<Match>)
    ensures forall m :: m in SortByScore(ms) <==> m in ms
    ensures SortedByScore(SortByScore(ms))
    ensures NameSet(SortByScore(ms)) == NameSet(ms)
  {
    SortProps(ms);
    var sorted := SortByScore(ms);
    assert forall m :: m in sorted <==> m in multiset(sorted);
    assert forall m :: m in ms <==> m in multiset(ms);
  }

  /**
    `limit` entries, or one per ranked name when there are fewer; no name
    twice; best score first; each entry one of the rows, its score the ratio of
    a candidate or the substring score of a hit.
   */
  lemma BestMatchesShape(query: string, rows: seq<PlayerRecord>, limit: nat,
                         closeMatches: CloseMatcher, ratio: Ratio)
    ensures var r := BestMatches(query, rows, limit, closeMatches, ratio);
      && |r| == Min(limit, |NameSet(Ranked(query, rows, limit, closeMatches, ratio))|)
      && DistinctNames(r)
      && SortedByScore(r)
      && forall m :: m in r ==> m.record in rows
                                && Explained(query, Candidates(query, rows, limit, closeMatches), ratio, m)
  {
    var candidates := Candidates(query, rows, limit, closeMatches);
    var scored := Scored(query, rows, candidates, ratio);
    var sorted := SortByScore(scored);
    var unique := Dedup(sorted);
    var r := unique[..Min(limit, |unique|)];
    ScoredEntries(query, rows, candidates, ratio);
    SortedHoldsScored(scored);
    DedupProps(sorted);
    DedupSorted(sorted);
    BestMatchesLength(query, rows, limit, closeMatches, ratio);
    forall m | m in r
      ensures m.record in rows && Explained(query, candidates, ratio, m)
    {
      assert m in unique;
    }
  }

  /** Every entry deduplication keeps is the first entry of its name. */
  lemma DedupOnlyFirst(ms: seq<Match>)
    ensures forall m :: m in Dedup(ms) ==> exists i :: 0 <= i < |ms| && ms[i] == m && FirstOfName(ms, i)
  {
    var unique := Dedup(ms);
    DedupProps(ms);
    forall m | m in unique
      ensures exists i :: 0 <= i < |ms| && ms[i] == m && FirstOfName(ms, i)
    {
      var k :| 0 <= k < |ms| && ms[k] == m;
      var i := FirstIndexOfName(ms, k);
      assert ms[i] in unique;
      var p :| 0 <= p < |unique| && unique[p] == m;
      var q :| 0 <= q < |unique| && unique[q] == ms[i];
      assert unique[p].record.name == unique[q].record.name;
      assert p == q;
    }
  }

  /** Each entry is the first entry of its name in the stably sorted list. */
  lemma BestMatchesFirstOfName(query: string, rows: seq<PlayerRecord>, limit: nat,
                               closeMatches: CloseMatcher, ratio: Ratio)
    ensures forall m :: m in BestMatches(query, rows, limit, closeMatches, ratio) ==>
      exists i :: 0 <= i < |Ranked(query, rows, limit, closeMatches, ratio)|
                  && Ranked(query, rows, limit, closeMatches, ratio)[i] == m
                  && FirstOfName(Ranked(query, rows, limit, closeMatches, ratio), i)
  {
    var sorted := Ranked(query, rows, limit, closeMatches, ratio);
    var unique := Dedup(sorted);
    DedupOnlyFirst(sorted);
    forall m | m in BestMatches(query, rows, limit, closeMatches, ratio)
      ensures exists i :: 0 <= i < |sorted| && sorted[i] == m && FirstOfName(sorted, i)
    {
      assert m in unique;
    }
  }

  /** The index of the first entry that has the name of entry `k`. */
  function FirstIndexOfName(ms: seq<Match>, k: nat): (i: nat)
    requires k < |ms|
    ensures i <= k && ms[i].record.name == ms[k].record.name && FirstOfName(ms, i)
  {
    if exists j :: 0 <= j < k && ms[j].record.name == ms[k].record.name then
      var j :| 0 <= j < k && ms[j].record.name == ms[k].record.name;
      FirstIndexOfName(ms, j)
    else k
  }

  /** With no rows there is nothing to match. */
  lemma NoRowsNoMatches(query: string, limit: nat, closeMatches: CloseMatcher, ratio: Ratio)
    ensures BestMatches(query, [], limit, closeMatches, ratio) == []
  {
  }

  /** The result holds `limit` matches, or one per distinct name among the ranked entries when there are fewer. */
  lemma BestMatchesLength(query: string, rows: seq<PlayerRecord>, limit: nat,
                          closeMatches: CloseMatcher, ratio: Ratio)
    ensures |BestMatches(query, rows, limit, closeMatches, ratio)|
            == Min(limit, |NameSet(Ranked(query, rows, limit, closeMatches, ratio))|)
  {
    var ranked := Ranked(query, rows, limit, closeMatches, ratio);
    DedupProps(ranked);
    DistinctNamesCount(Dedup(ranked));
  }

  /**
    A scored row (its name contains the query, or is a fuzzy candidate) has a
    ranked entry that is first for its name; that entry is reported, or else the
    result is full and every reported score is at least its score.
   */
  lemma HitReported(query: string, rows: seq<PlayerRecord>, limit: nat,
                    closeMatches: CloseMatcher, ratio: Ratio, r: PlayerRecord)
    requires r in rows && (IsHit(query, r) || r.name in Candidates(query, rows, limit, closeMatches))
    ensures var ranked := Ranked(query, rows, limit, closeMatches, ratio);
      var result := BestMatches(query, rows, limit, closeMatches, ratio);
      exists i :: 0 <= i < |ranked| && ranked[i].record.name == r.name && FirstOfName(ranked, i)
        && (ranked[i] in result
            || (|result| == limit && forall j :: 0 <= j < |result| ==> result[j].score >= ranked[i].score))
  {
    var candidates := Candidates(query, rows, limit, closeMatches);
    var scored := Scored(query, rows, candidates, ratio);
    var ranked := SortByScore(scored);
    var unique := Dedup(ranked);
    ScoredEntries(query, rows, candidates, ratio);
    var i := FirstEntryKept(scored, r);
    TruncatedOrOutranked(unique, limit, ranked[i]);
    assert ranked == Ranked(query, rows, limit, closeMatches, ratio);
    assert unique[..Min(limit, |unique|)] == BestMatches(query, rows, limit, closeMatches, ratio);
    assert ranked[i].record.name == r.name && FirstOfName(ranked, i);
  }

  /** A record with an entry has a first entry of its name in the sorted list, and deduplication keeps it. */
  lemma FirstEntryKept(scored: seq<Match>, r: PlayerRecord) returns (i: nat)
    requires HasRecord(scored, r)
    ensures var ranked := SortByScore(scored);
      && i < |ranked| && ranked[i].record.name == r.name && FirstOfName(ranked, i)
      && ranked[i] in Dedup(ranked) && SortedByScore(Dedup(ranked))
  {
    var ranked := SortByScore(scored);
    var k0 :| 0 <= k0 < |scored| && scored[k0].record == r;
    SortedHoldsScored(scored);
    assert scored[k0] in ranked;
    var k :| 0 <= k < |ranked| && ranked[k] == scored[k0];
    i := FirstIndexOfName(ranked, k);
    DedupKeepsFirst(ranked);
    DedupSorted(ranked);
  }

  /** Cutting a best-first list to `limit` keeps an entry, or keeps `limit` entries scoring at least as much. */
  lemma TruncatedOrOutranked(unique: seq<Match>, limit: nat, m: Match)
    requires SortedByScore(unique) && m in unique
    ensures var result := unique[..Min(limit, |unique|)];
      m in result || (|result| == limit && forall j :: 0 <= j < |result| ==> result[j].score >= m.score)
  {
    var result := unique[..Min(limit, |unique|)];
    var p :| 0 <= p < |unique| && unique[p] == m;
    if p < Min(limit, |unique|) {
      assert result[p] == m;
    } else {
      assert forall j :: 0 <= j < |result| ==> result[j] == unique[j];
    }
  }

  /** A scored row is reported under its name, unless `limit` matches outrank it. */
  lemma HitReportedOrFull(query: string, rows: seq<PlayerRecord>, limit: nat,
                          closeMatches: CloseMatcher, ratio: Ratio, r: PlayerRecord)
    requires r in rows && (IsHit(query, r) || r.name in Candidates(query, rows, limit, closeMatches))
    ensures var result := BestMatches(query, rows, limit, closeMatches, ratio);
      (exists m :: m in result && m.record.name == r.name) || |result| == limit
  {
    HitReported(query, rows, limit, closeMatches, ratio, r);
  }

  /** Without candidates the fuzzy pass scores nothing. */
  lemma {:induction false} FuzzyWithoutCandidates(query: string, rows: seq<PlayerRecord>, ratio: Ratio)
    ensures Fuzzy(query, rows, [], ratio) == []
  {
    if rows != [] {
      FuzzyWithoutCandidates(query, rows[..|rows| - 1], ratio);
    }
  }

  /** A list whose entries all score `v` is its own `v`-filter. */
  lemma {:induction false} WithScoreAll(ms: seq<Match>, v: real)
    requires forall k :: 0 <= k < |ms| ==> ms[k].score == v
    ensures WithScore(ms, v) == ms
  {
    if ms != [] {
      WithScoreAll(ms[1..], v);
      assert ms == [ms[0]] + ms[1..];
    }
  }

  /**
    With no fuzzy candidates, the ranked list is the substring hits in row
    order: the stable sort of equal scores changes nothing.
   */
  lemma SubstringHitsInRowOrder(query: string, rows: seq<PlayerRecord>, limit: nat,
                                closeMatches: CloseMatcher, ratio: Ratio)
    requires Candidates(query, rows, limit, closeMatches) == []
    ensures Ranked(query, rows, limit, closeMatches, ratio) == FreshHits(query, rows, [])
  {
    FuzzyWithoutCandidates(query, rows, ratio);
    var hits := FreshHits(query, rows, []);
    RescuedInRowOrder(query, rows, []);
    assert Scored(query, rows, [], ratio) == hits;
    FreshHitsRecords(query, rows, []);
    var sorted := SortByScore(hits);
    SortedHoldsScored(hits);
    assert forall k :: 0 <= k < |sorted| ==> sorted[k] in hits;
    WithScoreAll(hits, SubstringScore);
    WithScoreAll(sorted, SubstringScore);
    SortStable(hits, SubstringScore);
  }

  lemma OneRowScored(query: string, r: PlayerRecord, candidates: seq<string>, ratio: Ratio)
    requires IsHit(query, r)
    requires r.name !in candidates
    ensures Scored(query, [r], candidates, ratio) == [Match(SubstringScore, r)]
  {
    assert [r][..0] == [];
    assert Fuzzy(query, [r], candidates, ratio) == [];
    assert Rescued(query, [r][..0], []) == [];
    assert !HasRecord([], r);
    assert Rescued(query, [r], []) == [] + [Match(SubstringScore, r)];
  }

  lemma OneEntryRanked(x: Match)
    ensures Dedup(SortByScore([x])) == [x]
  {
    assert [x][1..] == [];
    assert SortByScore([x]) == [x];
    assert [x][..0] == [];
    assert NameSet([]) == {};
  }

  /** A one-row table whose row contains the query but is no fuzzy candidate yields that row alone, at 0.99. */
  lemma SingleSubstringRow(query: string, r: PlayerRecord, limit: nat, closeMatches: CloseMatcher, ratio: Ratio)
    requires limit >= 1
    requires IsHit(query, r)
    requires r.name !in Candidates(query, [r], limit, closeMatches)
    ensures BestMatches(query, [r], limit, closeMatches, ratio) == [Match(SubstringScore, r)]
  {
    OneRowScored(query, r, Candidates(query, [r], limit, closeMatches), ratio);
    OneEntryRanked(Match(SubstringScore, r));
  }

  /** With a ratio that stays in [0, 1], every reported score does too. */
  lemma ScoresInUnitInterval(query: string, rows: seq<PlayerRecord>, limit: nat,
                             closeMatches: CloseMatcher, ratio: Ratio)
    requires forall a, b :: 0.0 <= ratio(a, b) <= 1.0
    ensures forall m :: m in BestMatches(query, rows, limit, closeMatches, ratio) ==> 0.0 <= m.score <= 1.0
  {
    BestMatchesShape(query, rows, limit, closeMatches, ratio);
  }

  /** The fuzzy pass: every row whose name `difflib` offered, scored by the similarity ratio. */
  method ScoreCandidates(query: string, rows: seq<PlayerRecord>, candidates: seq<string>, ratio: Ratio)
    returns (scored: seq<Match>)
    ensures scored == Fuzzy(query, rows, candidates, ratio)
  {
    scored := [];
    for i := 0 to |rows|
      invariant scored == Fuzzy(query, rows[..i], candidates, ratio)
    {
      assert rows[..i + 1][..i] == rows[..i];
      var r := rows[i];
      if r.name in candidates {
        var score := ratio(Lower(query), Lower(r.name));
        scored := scored + [Match(score, r)];
      }
    }
    assert rows[..|rows|] == rows;
  }

  /** The substring pass: rows whose name contains the query and that are not yet scored, at SubstringScore. */
  method RescueSubstrings(query: string, rows: seq<PlayerRecord>, base: seq<Match>)
    returns (scored: seq<Match>)
    ensures scored == Rescued(query, rows, base)
  {
    scored := base;
    for i := 0 to |rows|
      invariant scored == Rescued(query, rows[..i], base)
    {
      assert rows[..i + 1][..i] == rows[..i];
      var r := rows[i];
      if Contains(Lower(r.name), Lower(query)) && !HasRecord(scored, r) {
        scored := scored + [Match(SubstringScore, r)];
      }
    }
    assert rows[..|rows|] == rows;
  }

  /** The deduplication pass: the first entry for each name, in order, tracked with a set of seen names. */
  method DropRepeatedNames(ranked: seq<Match>) returns (unique: seq<Match>)
    ensures unique == Dedup(ranked)
  {
    unique := [];
    var seen: set<string> := {};
    for i := 0 to |ranked|
      invariant unique == Dedup(ranked[..i])
      invariant seen == NameSet(unique)
    {
      assert ranked[..i + 1][..i] == ranked[..i];
      var entry := ranked[i];
      if entry.record.name !in seen {
        NameSetAppend(unique, entry);
        seen := seen + {entry.record.name};
        unique := unique + [entry];
      }
    }
    assert ranked[..|ranked|] == ranked;
  }

  /** `find_best_matches(query, rows, limit)` with the two `difflib` routines as parameters. */
  method FindBestMatches(query: string, rows: seq<PlayerRecord>,
                         closeMatches: CloseMatcher, ratio: Ratio, limit: nat := DefaultLimit)
    returns (matches: seq<Match>)
    requires limit >= 1
    ensures matches == BestMatches(query, rows, limit, closeMatches, ratio)
    ensures |matches| == Min(limit, |NameSet(Ranked(query, rows, limit, closeMatches, ratio))|)
    ensures DistinctNames(matches) && SortedByScore(matches)
    ensures forall m :: m in matches ==> m.record in rows
                                         && Explained(query, Candidates(query, rows, limit, closeMatches), ratio, m)
  {
    var names := Names(rows);
    var candidates := closeMatches(query, names, limit, Cutoff);
    var scored := ScoreCandidates(query, rows, candidates, ratio);
    scored := RescueSubstrings(query, rows, scored);
    scored := SortByScore(scored);
    var unique := DropRepeatedNames(scored);
    matches := unique[..Min(limit, |unique|)];
    BestMatchesShape(query, rows, limit, closeMatches, ratio);
  }
}
