/**
 * The worker's chunk loop (hansard/worker.py:59-183): the per-worker match
 * cache, the hit counter and the missed / ambiguous index lists, updated
 * row by row and reset after every chunk. A chunk arrives as a sequence of
 * rows and the input queue as a sequence of optional chunks, `None` being
 * the stop signal.
 */
module WorkerLoop {
  import opened Wrappers
  import opened Text
  import opened Tables
  import opened Normalizer
  import opened Cascade

  /** One row of a chunk: its index, its sitting date and its raw speaker label. */
  datatype ChunkRow = ChunkRow(index: int, date: int, speaker: string)

  /** What the worker emits per chunk: the hit count and the indexes of the missed and of the ambiguous rows. */
  datatype ChunkReport = ChunkReport(hitcount: nat, missed: seq<int>, ambiguous: seq<int>)

  /** `MATCH_CACHE`, keyed by (normalised label, date). */
  type Cache = map<(string, int), MatchValue>

  /** `MATCH_CACHE.get(key, None)`. */
  function Lookup(cache: Cache, key: (string, int)): (r: Option<MatchValue>)
    ensures r.Some? <==> key in cache
    ensures r.Some? ==> r.value == cache[key]
  {
    if key in cache then Some(cache[key]) else None
  }

  /** The normalised label of a row (`chunk['speaker'].map(preprocess)`). */
  function Target(ref: Reference, cleanse: string -> string, row: ChunkRow): string {
    Preprocess(row.speaker, cleanse, ref.corrections)
  }

  /** One row's bookkeeping: a hit is counted and cached, anything else is listed by index. */
  function Record(cache: Cache, report: ChunkReport, key: (string, int), index: int, o: Outcome)
    : (r: (Cache, ChunkReport))
    ensures o.Hit? ==> r.0 == cache[key := o.value] && r.1.hitcount == report.hitcount + 1
    ensures !o.Hit? ==> r.0 == cache && r.1.hitcount == report.hitcount
    ensures o.Hit? ==> r.1.missed == report.missed && r.1.ambiguous == report.ambiguous
    ensures o.Ambiguous? ==> r.1 == report.(ambiguous := report.ambiguous + [index])
    ensures o.Missed? ==> r.1 == report.(missed := report.missed + [index])
    ensures r.1.hitcount + |r.1.missed| + |r.1.ambiguous| == report.hitcount + |report.missed| + |report.ambiguous| + 1
  {
    match o
    case Hit(v) => (cache[key := v], report.(hitcount := report.hitcount + 1))
    case Ambiguous => (cache, report.(ambiguous := report.ambiguous + [index]))
    case Missed => (cache, report.(missed := report.missed + [index]))
  }

  /** The classification of a row with normalised label `target` against the cache as it stands. */
  function RowOutcome(ref: Reference, cache: Cache, row: ChunkRow, target: string): Outcome {
    Classify(ref, target, row.date, Lookup(cache, (target, row.date)))
  }

  /** One row processed: classified, then recorded. */
  function Step(ref: Reference, cache: Cache, report: ChunkReport, row: ChunkRow, target: string)
    : (Cache, ChunkReport)
  {
    Record(cache, report, (target, row.date), row.index, RowOutcome(ref, cache, row, target))
  }

  /**
   * A chunk processed from a given cache: the cache afterwards and the
   * chunk's report. Every row is counted exactly once, as a hit, a miss or
   * an ambiguity, and the cache only gains entries.
   */
  function RunChunk(ref: Reference, cleanse: string -> string, cache: Cache, rows: seq<ChunkRow>)
    : (r: (Cache, ChunkReport))
    ensures r.1.hitcount + |r.1.missed| + |r.1.ambiguous| == |rows|
    ensures cache.Keys <= r.0.Keys
    decreases |rows|
  {
    if rows == [] then (cache, ChunkReport(0, [], []))
    else
      var before := RunChunk(ref, cleanse, cache, rows[..|rows| - 1]);
      Step(ref, before.0, before.1, rows[|rows| - 1], Target(ref, cleanse, rows[|rows| - 1]))
  }

  lemma RunChunkSnoc(ref: Reference, cleanse: string -> string, cache: Cache, rows: seq<ChunkRow>, i: nat)
    requires i < |rows|
    ensures var before := RunChunk(ref, cleanse, cache, rows[..i]);
            RunChunk(ref, cleanse, cache, rows[..i + 1])
            == Step(ref, before.0, before.1, rows[i], Target(ref, cleanse, rows[i]))
  {
    assert rows[..i + 1][..i] == rows[..i];
  }

  /** The cache keys of a chunk's rows. */
  function RowKeys(ref: Reference, cleanse: string -> string, rows: seq<ChunkRow>): set<(string, int)> {
    set row | row in rows :: (Target(ref, cleanse, row), row.date)
  }

  /** Only the rows of the chunk add cache entries, and only hits write them. */
  lemma {:induction false} CacheGrowsByRows(ref: Reference, cleanse: string -> string, cache: Cache, rows: seq<ChunkRow>)
    ensures RunChunk(ref, cleanse, cache, rows).0.Keys <= cache.Keys + RowKeys(ref, cleanse, rows)
    decreases |rows|
  {
    if rows != [] {
      var init := rows[..|rows| - 1];
      CacheGrowsByRows(ref, cleanse, cache, init);
      assert forall row :: row in init ==> row in rows;
      assert rows[|rows| - 1] in rows;
    }
  }

  lemma SubsetCardinality<T>(a: set<T>, b: set<T>)
    requires a <= b
    ensures |a| <= |b|
  {
    assert b == a + (b - a);
  }

  /** Only hits write to the cache: a chunk adds at most as many keys as it has hits. */
  lemma {:induction false} OnlyHitsAddKeys(ref: Reference, cleanse: string -> string, cache: Cache, rows: seq<ChunkRow>)
    ensures var r := RunChunk(ref, cleanse, cache, rows);
            |r.0.Keys - cache.Keys| <= r.1.hitcount
    decreases |rows|
  {
    if rows != [] {
      var init := rows[..|rows| - 1];
      OnlyHitsAddKeys(ref, cleanse, cache, init);
      var before := RunChunk(ref, cleanse, cache, init);
      var row := rows[|rows| - 1];
      var key := (Target(ref, cleanse, row), row.date);
      var o := RowOutcome(ref, before.0, row, key.0);
      var r := RunChunk(ref, cleanse, cache, rows);
      assert r == Record(before.0, before.1, key, row.index, o);
      if o.Hit? {
        var added := before.0.Keys - cache.Keys;
        SubsetCardinality(r.0.Keys - cache.Keys, added + {key});
        assert |added + {key}| <= |added| + 1;
      }
    }
  }

  /** A cached truthy match is never overwritten: a row that finds it is a hit with that very value. */
  lemma {:induction false} TruthyEntriesKept(ref: Reference, cleanse: string -> string, cache: Cache,
                                             rows: seq<ChunkRow>, key: (string, int))
    requires key in cache && Truthy(Some(cache[key]))
    ensures key in RunChunk(ref, cleanse, cache, rows).0
    ensures RunChunk(ref, cleanse, cache, rows).0[key] == cache[key]
    decreases |rows|
  {
    if rows != [] {
      TruthyEntriesKept(ref, cleanse, cache, rows[..|rows| - 1], key);
      var before := RunChunk(ref, cleanse, cache, rows[..|rows| - 1]);
      var row := rows[|rows| - 1];
      var t := Target(ref, cleanse, row);
      if (t, row.date) == key {
        assert Lookup(before.0, key) == Some(cache[key]);
        assert RowOutcome(ref, before.0, row, t) == Hit(cache[key]);
      }
    }
  }

  /** The chunks the worker processes: those before the first `None`. */
  function Pending(chunks: seq<Option<seq<ChunkRow>>>): (r: seq<seq<ChunkRow>>)
    ensures |r| <= |chunks|
    ensures forall j :: 0 <= j < |r| ==> chunks[j] == Some(r[j])
    ensures |r| < |chunks| ==> chunks[|r|].None?
    decreases |chunks|
  {
    if chunks == [] || chunks[0].None? then [] else [chunks[0].value] + Pending(chunks[1..])
  }

  /** Nothing after the stop signal is ever read. */
  lemma {:induction false} StopSignalEndsInput(before: seq<seq<ChunkRow>>, after: seq<Option<seq<ChunkRow>>>)
    ensures Pending(Wrap(before) + [None] + after) == before
    decreases |before|
  {
    if before == [] {
      assert Wrap(before) + [None] + after == [None] + after;
    } else {
      var rest := Wrap(before[1..]) + [None] + after;
      assert Wrap(before) + [None] + after == [Some(before[0])] + rest;
      assert ([Some(before[0])] + rest)[1..] == rest;
      StopSignalEndsInput(before[1..], after);
      assert before == [before[0]] + before[1..];
    }
  }

  /** A sequence of chunks as queue items. */
  function Wrap(cs: seq<seq<ChunkRow>>): (r: seq<Option<seq<ChunkRow>>>)
    ensures |r| == |cs|
    ensures forall j :: 0 <= j < |cs| ==> r[j] == Some(cs[j])
  {
    seq(|cs|, j requires 0 <= j < |cs| => Some(cs[j]))
  }

  /** Chunks processed one after another, the cache carried over; one report per chunk. */
  function RunChunks(ref: Reference, cleanse: string -> string, cache: Cache, cs: seq<seq<ChunkRow>>)
    : (r: (Cache, seq<ChunkReport>))
    ensures |r.1| == |cs|
    ensures cache.Keys <= r.0.Keys
    decreases |cs|
  {
    if cs == [] then (cache, [])
    else
      var before := RunChunks(ref, cleanse, cache, cs[..|cs| - 1]);
      var last := RunChunk(ref, cleanse, before.0, cs[|cs| - 1]);
      (last.0, before.1 + [last.1])
  }

  lemma RunChunksSnoc(ref: Reference, cleanse: string -> string, cache: Cache, cs: seq<seq<ChunkRow>>, i: nat)
    requires i < |cs|
    ensures var before := RunChunks(ref, cleanse, cache, cs[..i]);
            var last := RunChunk(ref, cleanse, before.0, cs[i]);
            RunChunks(ref, cleanse, cache, cs[..i + 1]) == (last.0, before.1 + [last.1])
  {
    assert cs[..i + 1][..i] == cs[..i];
  }

  /** Each report accounts for every row of its chunk. */
  lemma {:induction false} ReportsAccountForRows(ref: Reference, cleanse: string -> string, cache: Cache,
                                                 cs: seq<seq<ChunkRow>>, j: nat)
    requires j < |cs|
    ensures var r := RunChunks(ref, cleanse, cache, cs).1[j];
            r.hitcount + |r.missed| + |r.ambiguous| == |cs[j]|
    decreases |cs|
  {
    if j < |cs| - 1 {
      ReportsAccountForRows(ref, cleanse, cache, cs[..|cs| - 1], j);
    }
  }

  /**
   * `worker_function`'s state. `matchCache` lives as long as the worker;
   * `hitcount` and the two index lists belong to the chunk being processed.
   */
  class Worker {
    const ref: Reference
    const cleanse: string -> string
    var matchCache: Cache
    var hitcount: nat
    var missedIndexes: seq<int>
    var ambiguitiesIndexes: seq<int>

    /** Between chunks the counter and the index lists are empty. */
    ghost predicate Idle()
      reads this
    {
      hitcount == 0 && missedIndexes == [] && ambiguitiesIndexes == []
    }

    function Report(): ChunkReport
      reads this
    {
      ChunkReport(hitcount, missedIndexes, ambiguitiesIndexes)
    }

    constructor(ref: Reference, cleanse: string -> string)
      ensures this.ref == ref && this.cleanse == cleanse
      ensures matchCache == map[] && Idle()
    {
      this.ref := ref;
      this.cleanse := cleanse;
      matchCache := map[];
      hitcount := 0;
      missedIndexes := [];
      ambiguitiesIndexes := [];
    }

    /** The position loop of stage 1: the index of the first position named in the label. */
    method FindPosition(target: string) returns (p: Option<nat>)
      ensures p == FirstPosition(ref.officePositions, target)
    {
      var positions := ref.officePositions;
      var i := 0;
      while i < |positions|
        invariant 0 <= i <= |positions|
        invariant forall j :: 0 <= j < i ==> !Contains(target, positions[j].0)
      {
        if Contains(target, positions[i].0) {
          p := Some(i);
          return;
        }
        i := i + 1;
      }
      p := None;
    }

    /** The holding loop: the index of the first holding that accepts the label at the date. */
    method FindHolding(target: string, date: int) returns (k: Option<nat>)
      ensures k == FirstHolding(ref.holdings, ref.holdingMatches, target, date)
    {
      var holdings := ref.holdings;
      var i := 0;
      while i < |holdings|
        invariant 0 <= i <= |holdings|
        invariant forall j :: 0 <= j < i ==> !ref.holdingMatches(holdings[j], target, date)
      {
        if ref.holdingMatches(holdings[i], target, date) {
          k := Some(i);
          return;
        }
        i := i + 1;
      }
      k := None;
    }

    /** Stages 1-4: the title rows, reassigning `query` as the source does. */
    method TitleRows(target: string, date: int, cached: Option<MatchValue>) returns (query: seq<TitleRow>)
      ensures query == RowQuery(ref, target, date, cached)
    {
      query := [];
      if !Truthy(cached) {
        var p := FindPosition(target);
        if p.Some? {
          query := MatchTerm(ref.officePositions[p.value].1, date);
        }
      }
      if !Truthy(cached) && |query| == 0 {
        query := ContainingRows(ref.honoraryTitles, target, date);
      }
      if !Truthy(cached) && |query| == 0 {
        query := ContainingRows(ref.lordTitles, target, date);
      }
    }

    /** The cascade for one row, from the cache probe to the term narrowing; it changes nothing. */
    method Resolve(target: string, date: int) returns (m: Option<MatchValue>, ambiguity: bool)
      ensures Decide(RowState(m, ambiguity, None)) == Classify(ref, target, date, Lookup(matchCache, (target, date)))
    {
      var cached := Lookup(matchCache, (target, date));
      m := cached;
      ambiguity := false;
      var possibles: Option<seq<Speaker>> := Some([]);
      var query := TitleRows(target, date, cached);

      if !Truthy(m) {
        if |query| == 1 {
          var speakerId := query[0].correspondingId;
          if speakerId != "N/A" {
            m := Some(SpeakerId(speakerId));
          }
        } else if |query| > 1 {
          ambiguity := true;
        }
      }
      ghost var afterTitles := RowState(m, ambiguity, possibles);
      assert afterTitles == TitleStage(query, RowState(cached, false, Some([])));

      if !Truthy(m) {
        var k := FindHolding(target, date);
        if k.Some? {
          m := Some(Holding(ref.holdings[k.value]));
        }
      }
      assert RowState(m, ambiguity, possibles) == HoldingStage(ref, target, date, afterTitles);
      m, ambiguity := ResolveAlias(target, date, m, ambiguity);
    }

    /** Stages 7-8: the alias dictionary and the term narrowing, with `possibles` still the empty list. */
    method ResolveAlias(target: string, date: int, m0: Option<MatchValue>, ambiguity0: bool)
      returns (m: Option<MatchValue>, ambiguity: bool)
      ensures Decide(RowState(m, ambiguity, None))
           == Decide(TermStage(ref, date, AliasStage(ref, target, date, RowState(m0, ambiguity0, Some([])))))
    {
      m, ambiguity := m0, ambiguity0;
      var possibles: Option<seq<Speaker>> := Some([]);
      if !Truthy(m) {
        if target !in ref.aliasDict {
          possibles := None;
        } else {
          var ps := Candidates(ref, target, date);
          possibles := Some(ps);
          if |ps| == 1 {
            m := Some(Member(ps[0]));
          } else {
            ambiguity := true;
          }
        }
      }
      ghost var afterAliases := RowState(m, ambiguity, possibles);
      assert afterAliases == AliasStage(ref, target, date, RowState(m0, ambiguity0, Some([])));

      if ambiguity && possibles.Some? && |possibles.value| > 0 {
        var speakerIds := MemberIds(possibles.value);
        var terms := TermsOn(ref.terms, speakerIds, date);
        if |terms| == 1 {
          ambiguity := false;
          m := Some(TermName(Lower(terms[0].fullName)));
        }
      }
      assert RowState(m, ambiguity, possibles) == TermStage(ref, date, afterAliases);
    }

    /** One row: classify it, then count and cache a hit or list a miss or an ambiguity. */
    method ProcessRow(row: ChunkRow, target: string)
      modifies this
      ensures (matchCache, Report()) == Step(ref, old(matchCache), old(Report()), row, target)
    {
      var index, date := row.index, row.date;
      ghost var o := RowOutcome(ref, matchCache, row, target);
      var m, ambiguity := Resolve(target, date);
      assert Decide(RowState(m, ambiguity, None)) == o;
      if m.Some? {
        hitcount := hitcount + 1;
        matchCache := matchCache[(target, date) := m.value];
      } else if ambiguity {
        ambiguitiesIndexes := ambiguitiesIndexes + [index];
      } else {
        missedIndexes := missedIndexes + [index];
      }
    }

    /** One chunk: normalise every label, process the rows in order, emit the report and reset the counters. */
    method ProcessChunk(rows: seq<ChunkRow>) returns (report: ChunkReport)
      requires Idle()
      modifies this
      ensures (matchCache, report) == RunChunk(ref, cleanse, old(matchCache), rows)
      ensures Idle()
    {
      var targets := seq(|rows|, j requires 0 <= j < |rows| => Preprocess(rows[j].speaker, cleanse, ref.corrections));
      var i := 0;
      while i < |rows|
        invariant 0 <= i <= |rows|
        invariant (matchCache, Report()) == RunChunk(ref, cleanse, old(matchCache), rows[..i])
      {
        ProcessRow(rows[i], targets[i]);
        RunChunkSnoc(ref, cleanse, old(matchCache), rows, i);
        i := i + 1;
      }
      assert rows[..|rows|] == rows;
      report := Report();
      hitcount := 0;
      missedIndexes := [];
      ambiguitiesIndexes := [];
    }

    /** The `while True` loop: process chunks until the stop signal (or the end of the input). */
    method Run(chunks: seq<Option<seq<ChunkRow>>>) returns (reports: seq<ChunkReport>)
      requires Idle()
      modifies this
      ensures (matchCache, reports) == RunChunks(ref, cleanse, old(matchCache), Pending(chunks))
      ensures Idle()
    {
      ghost var pending := Pending(chunks);
      reports := [];
      var i := 0;
      while i < |chunks| && chunks[i].Some?
        invariant 0 <= i <= |pending|
        invariant Idle()
        invariant (matchCache, reports) == RunChunks(ref, cleanse, old(matchCache), pending[..i])
      {
        assert i < |pending| && chunks[i].value == pending[i];
        var report := ProcessChunk(chunks[i].value);
        RunChunksSnoc(ref, cleanse, old(matchCache), pending, i);
        reports := reports + [report];
        i := i + 1;
      }
      assert i == |pending| && pending[..i] == pending;
    }
  }
}
