/**
 * `filter_duplicates`: every record of a JSON-LD `@graph` is compared with
 * the items of a Europeana search result and goes either to the duplicates
 * or to the new records. A record is a duplicate when some Europeana item
 * has a title similarity and a creator similarity both strictly above the
 * threshold. The similarity of two strings (a ratio computed by a foreign
 * library) is a parameter of the model, about which nothing is assumed.
 */
module Duplicates {
  import opened Wrappers
  import opened Sequences

  /** The similarity score of two strings. */
  type Similarity = (string, string) -> real

  /** A JSON value, as the other keys of an input record hold them. */
  datatype JsonValue =
    | JNull
    | JBool(b: bool)
    | JNumber(n: real)
    | JString(s: string)
    | JArray(elements: seq<JsonValue>)
    | JObject(members: map<string, JsonValue>)

  /**
   * A record of the input `@graph`. Only `dc:title` and `dc:creator` are
   * read; `others` stands for every other key, carried along unchanged.
   */
  datatype InputRecord = InputRecord(
    title: Option<string>,          // dc:title
    creators: Option<seq<string>>,  // dc:creator
    others: map<string, JsonValue>)

  /** An item of the Europeana search result (`items`). */
  datatype CorpusItem = CorpusItem(
    dcTitle: Option<string>,
    dcCreator: Option<seq<string>>)

  /** A JSON-LD document: its `@context` and its `@graph`. */
  datatype JsonLd = JsonLd(context: map<string, string>, graph: seq<InputRecord>)

  /** The title and creators of an input record; a missing key reads as `""` or `[]`. */
  function InputTitle(r: InputRecord): string { r.title.GetOr("") }
  function InputCreators(r: InputRecord): seq<string> { r.creators.GetOr([]) }

  /** The title and creators of a Europeana item; a missing key reads as `""` or `[]`. */
  function CorpusTitle(c: CorpusItem): string { c.dcTitle.GetOr("") }
  function CorpusCreators(c: CorpusItem): seq<string> { c.dcCreator.GetOr([]) }

  /** The scores of `x` against every string of `ys`, in order. */
  function Row(sim: Similarity, x: string, ys: seq<string>): (row: seq<real>)
    ensures |row| == |ys| && forall j :: 0 <= j < |ys| ==> row[j] == sim(x, ys[j])
  {
    seq(|ys|, j requires 0 <= j < |ys| => sim(x, ys[j]))
  }

  /**
   * The scores the generator expression yields: every pair
   * (input creator, Europeana creator), the input creator varying slowest.
   */
  function PairScores(sim: Similarity, xs: seq<string>, ys: seq<string>): seq<real> {
    if xs == [] then [] else Row(sim, xs[0], ys) + PairScores(sim, xs[1..], ys)
  }

  /** The score of every pair is among the pair scores. */
  lemma {:induction false} PairScoresCover(sim: Similarity, xs: seq<string>, ys: seq<string>, i: nat, j: nat)
    requires i < |xs| && j < |ys|
    ensures sim(xs[i], ys[j]) in PairScores(sim, xs, ys)
    decreases i
  {
    if i == 0 {
      assert Row(sim, xs[0], ys)[j] == sim(xs[i], ys[j]);
    } else {
      PairScoresCover(sim, xs[1..], ys, i - 1, j);
      assert xs[1..][i - 1] == xs[i];
    }
  }

  /** Every pair score is the score of some pair. */
  lemma {:induction false} PairScoresOnly(sim: Similarity, xs: seq<string>, ys: seq<string>, v: real)
    requires v in PairScores(sim, xs, ys)
    ensures exists i, j :: 0 <= i < |xs| && 0 <= j < |ys| && v == sim(xs[i], ys[j])
  {
    if v in Row(sim, xs[0], ys) {
      var j :| 0 <= j < |ys| && Row(sim, xs[0], ys)[j] == v;
      assert v == sim(xs[0], ys[j]);
    } else {
      PairScoresOnly(sim, xs[1..], ys, v);
      var i, j :| 0 <= i < |xs[1..]| && 0 <= j < |ys| && v == sim(xs[1..][i], ys[j]);
      assert v == sim(xs[i + 1], ys[j]);
    }
  }

  /** Python's `max(scores)` on a non-empty sequence. */
  function Max(scores: seq<real>): (m: real)
    requires scores != []
    ensures m in scores
    ensures forall k :: 0 <= k < |scores| ==> scores[k] <= m
  {
    if |scores| == 1 then scores[0]
    else
      var rest := Max(scores[1..]);
      assert forall k :: 1 <= k < |scores| ==> scores[k] == scores[1..][k - 1];
      if scores[0] >= rest then scores[0] else rest
  }

  /** The largest pair score, or 0 when there is no pair (Python's `max` with `default=0`). */
  function CreatorSimilarity(sim: Similarity, xs: seq<string>, ys: seq<string>): real {
    var scores := PairScores(sim, xs, ys);
    if scores == [] then 0.0 else Max(scores)
  }

  /**
   * The creator similarity is 0 when either list is empty, and otherwise the
   * score of some pair that no other pair exceeds.
   */
  lemma CreatorSimilarityIsMaximum(sim: Similarity, xs: seq<string>, ys: seq<string>)
    ensures xs == [] || ys == [] ==> CreatorSimilarity(sim, xs, ys) == 0.0
    ensures xs != [] && ys != [] ==>
      (exists i, j :: 0 <= i < |xs| && 0 <= j < |ys| && CreatorSimilarity(sim, xs, ys) == sim(xs[i], ys[j])) &&
      (forall i, j :: 0 <= i < |xs| && 0 <= j < |ys| ==> sim(xs[i], ys[j]) <= CreatorSimilarity(sim, xs, ys))
  {
    var scores := PairScores(sim, xs, ys);
    if xs != [] && ys != [] {
      PairScoresCover(sim, xs, ys, 0, 0);
      var m := Max(scores);
      PairScoresOnly(sim, xs, ys, m);
      forall i, j | 0 <= i < |xs| && 0 <= j < |ys| ensures sim(xs[i], ys[j]) <= m {
        PairScoresCover(sim, xs, ys, i, j);
      }
    } else if xs != [] {
      PairScoresEmpty(sim, xs, ys);
    }
  }

  /** No creator on the Europeana side means no pair scores. */
  lemma {:induction false} PairScoresEmpty(sim: Similarity, xs: seq<string>, ys: seq<string>)
    requires ys == []
    ensures PairScores(sim, xs, ys) == []
  {
    if xs != [] {
      PairScoresEmpty(sim, xs[1..], ys);
    }
  }

  /** The condition checked against one Europeana item (both scores strictly above the threshold). */
  predicate Matches(sim: Similarity, threshold: real, r: InputRecord, c: CorpusItem) {
    sim(InputTitle(r), CorpusTitle(c)) > threshold &&
    CreatorSimilarity(sim, InputCreators(r), CorpusCreators(c)) > threshold
  }

  /** A record is a duplicate when it matches some item of the corpus. */
  predicate IsDuplicate(sim: Similarity, threshold: real, corpus: seq<CorpusItem>, r: InputRecord) {
    exists j :: 0 <= j < |corpus| && Matches(sim, threshold, r, corpus[j])
  }

  /** `IsDuplicate` for fixed similarity, threshold and corpus, as a predicate on records. */
  function DuplicateTest(sim: Similarity, threshold: real, corpus: seq<CorpusItem>): InputRecord -> bool {
    r => IsDuplicate(sim, threshold, corpus, r)
  }

  /**
   * The scan of the corpus for one input record: stops at the first item
   * that matches, and says whether there was one.
   */
  method ScanCorpus(record: InputRecord, corpus: seq<CorpusItem>, sim: Similarity, threshold: real)
    returns (isDuplicate: bool)
    ensures isDuplicate == IsDuplicate(sim, threshold, corpus, record)
  {
    var inputTitle := InputTitle(record);
    var inputCreators := InputCreators(record);
    isDuplicate := false;
    var j := 0;
    while j < |corpus|
      invariant j <= |corpus|
      invariant forall k :: 0 <= k < j ==> !Matches(sim, threshold, record, corpus[k])
    {
      var titleSimilarity := sim(inputTitle, CorpusTitle(corpus[j]));
      var creatorSimilarity := CreatorSimilarity(sim, inputCreators, CorpusCreators(corpus[j]));
      if titleSimilarity > threshold && creatorSimilarity > threshold {
        assert Matches(sim, threshold, record, corpus[j]);
        isDuplicate := true;
        break;
      }
      j := j + 1;
    }
  }

  /**
   * `filter_duplicates` without its file writes: the new records and the
   * duplicates, each with the `@context` of the input.
   */
  method FilterDuplicates(input: JsonLd, corpus: seq<CorpusItem>, sim: Similarity, threshold: real)
    returns (nonDuplicates: JsonLd, duplicates: JsonLd)
    ensures nonDuplicates == JsonLd(input.context,
      Filter(input.graph, Negate(DuplicateTest(sim, threshold, corpus))))
    ensures duplicates == JsonLd(input.context, Filter(input.graph, DuplicateTest(sim, threshold, corpus)))
  {
    var records := input.graph;
    ghost var dup := DuplicateTest(sim, threshold, corpus);
    var newRecords: seq<InputRecord> := [];
    var found: seq<InputRecord> := [];
    var i := 0;
    while i < |records|
      invariant i <= |records|
      invariant newRecords == Filter(records[..i], Negate(dup))
      invariant found == Filter(records[..i], dup)
    {
      var record := records[i];
      var isDuplicate := ScanCorpus(record, corpus, sim, threshold);
      assert dup(record) == isDuplicate;
      FilterSnoc(records, i, dup);
      FilterSnoc(records, i, Negate(dup));
      if isDuplicate {
        found := found + [record];
      } else {
        newRecords := newRecords + [record];
      }
      i := i + 1;
    }
    assert records[..i] == records;
    nonDuplicates := JsonLd(input.context, newRecords);
    duplicates := JsonLd(input.context, found);
  }

  /**
   * Every input record lands in exactly one of the two outputs: the outputs
   * hold the input's records between them, each in input order, and a record
   * is among the duplicates exactly when it is a duplicate.
   */
  lemma Partition(records: seq<InputRecord>, corpus: seq<CorpusItem>, sim: Similarity, threshold: real)
    ensures var dup := DuplicateTest(sim, threshold, corpus);
      var newRecords := Filter(records, Negate(dup));
      var found := Filter(records, dup);
      |newRecords| + |found| == |records| &&
      multiset(newRecords) + multiset(found) == multiset(records) &&
      Subsequence(newRecords, records) && Subsequence(found, records) &&
      (forall r :: r in found <==> r in records && IsDuplicate(sim, threshold, corpus, r)) &&
      (forall r :: r in newRecords <==> r in records && !IsDuplicate(sim, threshold, corpus, r))
  {
    var dup := DuplicateTest(sim, threshold, corpus);
    FilterPartition(records, dup);
    FilterSubsequence(records, dup);
    FilterSubsequence(records, Negate(dup));
    FilterMembership(records, dup);
    FilterMembership(records, Negate(dup));
  }

  /** With an empty corpus every record is new. */
  lemma EmptyCorpus(records: seq<InputRecord>, sim: Similarity, threshold: real)
    ensures Filter(records, DuplicateTest(sim, threshold, [])) == []
    ensures Filter(records, Negate(DuplicateTest(sim, threshold, []))) == records
  {
    FilterNone(records, DuplicateTest(sim, threshold, []));
    FilterAll(records, Negate(DuplicateTest(sim, threshold, [])));
  }

  /** With a non-negative threshold, an empty creator list on either side never matches. */
  lemma EmptyCreatorsNeverMatch(sim: Similarity, threshold: real, r: InputRecord, c: CorpusItem)
    requires threshold >= 0.0
    requires InputCreators(r) == [] || CorpusCreators(c) == []
    ensures !Matches(sim, threshold, r, c)
  {
    CreatorSimilarityIsMaximum(sim, InputCreators(r), CorpusCreators(c));
  }

  /** Scores equal to the threshold do not match: the comparisons are strict. */
  lemma ThresholdIsStrict(sim: Similarity, threshold: real, r: InputRecord, c: CorpusItem)
    requires sim(InputTitle(r), CorpusTitle(c)) == threshold ||
             CreatorSimilarity(sim, InputCreators(r), CorpusCreators(c)) == threshold
    ensures !Matches(sim, threshold, r, c)
  {
  }

  /** A duplicate at some threshold is a duplicate at every lower one. */
  lemma ThresholdMonotonic(sim: Similarity, low: real, high: real, corpus: seq<CorpusItem>, r: InputRecord)
    requires low <= high && IsDuplicate(sim, high, corpus, r)
    ensures IsDuplicate(sim, low, corpus, r)
  {
    var j :| 0 <= j < |corpus| && Matches(sim, high, r, corpus[j]);
    assert Matches(sim, low, r, corpus[j]);
  }

  /**
   * A record matches an item with non-empty creator lists exactly when the
   * titles and some pair of creators both score above the threshold.
   */
  lemma MatchesByPair(sim: Similarity, threshold: real, r: InputRecord, c: CorpusItem)
    requires InputCreators(r) != [] && CorpusCreators(c) != []
    ensures Matches(sim, threshold, r, c) <==>
      sim(InputTitle(r), CorpusTitle(c)) > threshold &&
      exists i, j :: 0 <= i < |InputCreators(r)| && 0 <= j < |CorpusCreators(c)| &&
        sim(InputCreators(r)[i], CorpusCreators(c)[j]) > threshold
  {
    CreatorSimilarityIsMaximum(sim, InputCreators(r), CorpusCreators(c));
  }
}
