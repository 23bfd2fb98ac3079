/**
 * The result tally of run.py's main loop (run.py:215-264): per chunk, each
 * worker result is counted as a hit, an ambiguity or a miss; the missed and
 * ambiguous indexes of the chunk are appended to the accumulated output and
 * the per-chunk lists are cleared.
 */
module Tally {

  /** A worker result as the main loop reads it: `(is_hit, is_ambig, missed_i)`. */
  datatype Flags = Flags(isHit: bool, isAmbig: bool, index: int)

  /** The counts and index lists of a sequence of results. */
  datatype Counts = Counts(hit: nat, ambiguities: nat, missed: seq<int>, ambiguous: seq<int>)

  /** `if is_hit: ... elif is_ambig: ... else: ...` for one result. */
  function Tick(c: Counts, f: Flags): (r: Counts)
    ensures r.hit + r.ambiguities + |r.missed| == c.hit + c.ambiguities + |c.missed| + 1
    ensures r.ambiguities - |r.ambiguous| == c.ambiguities - |c.ambiguous|
    ensures r.hit == c.hit + (if f.isHit then 1 else 0)
    ensures f.isHit ==> r == c.(hit := c.hit + 1)
    ensures !f.isHit && f.isAmbig ==> r == c.(ambiguities := c.ambiguities + 1, ambiguous := c.ambiguous + [f.index])
    ensures !f.isHit && !f.isAmbig ==> r == c.(missed := c.missed + [f.index])
  {
    if f.isHit then c.(hit := c.hit + 1)
    else if f.isAmbig then c.(ambiguities := c.ambiguities + 1, ambiguous := c.ambiguous + [f.index])
    else c.(missed := c.missed + [f.index])
  }

  /** The branch above over the results in order. */
  function CountResults(results: seq<Flags>): (c: Counts)
    ensures c.hit + c.ambiguities + |c.missed| == |results|
    ensures c.ambiguities == |c.ambiguous|
    decreases |results|
  {
    if results == [] then Counts(0, 0, [], [])
    else
      Tick(CountResults(results[..|results| - 1]), results[|results| - 1])
  }

  lemma CountResultsSnoc(results: seq<Flags>, i: nat)
    requires i < |results|
    ensures CountResults(results[..i + 1]) == Tick(CountResults(results[..i]), results[i])
  {
    assert results[..i + 1][..i] == results[..i];
  }

  /** The number of results with `is_hit` set. */
  function HitsIn(results: seq<Flags>): nat
    decreases |results|
  {
    if results == [] then 0
    else HitsIn(results[..|results| - 1]) + (if results[|results| - 1].isHit then 1 else 0)
  }

  /** The indexes of the results for which `keep` holds, in order. */
  function IndexesWhere(results: seq<Flags>, keep: Flags -> bool): seq<int>
    decreases |results|
  {
    if results == [] then []
    else
      var last := results[|results| - 1];
      IndexesWhere(results[..|results| - 1], keep) + (if keep(last) then [last.index] else [])
  }

  /**
   * `is_hit` takes precedence: hits are the results with `is_hit`, the
   * ambiguous ones have `is_ambig` without `is_hit`, and the missed ones
   * have neither.
   */
  lemma {:induction false} HitTakesPrecedence(results: seq<Flags>)
    ensures CountResults(results).hit == HitsIn(results)
    ensures CountResults(results).ambiguous == IndexesWhere(results, (f: Flags) => !f.isHit && f.isAmbig)
    ensures CountResults(results).missed == IndexesWhere(results, (f: Flags) => !f.isHit && !f.isAmbig)
    decreases |results|
  {
    if results != [] {
      HitTakesPrecedence(results[..|results| - 1]);
    }
  }

  /** The main loop's accumulators. */
  class Tally {
    var hit: nat
    var ambiguities: nat
    var numrows: nat
    var missedIndexes: seq<int>
    var ambiguitiesIndexes: seq<int>
    /** The rows of `missed_df` and `ambiguities_df`, by index. */
    var missedRows: seq<int>
    var ambiguousRows: seq<int>

    /** Between chunks: the per-chunk lists are empty and every row read so far is accounted for. */
    ghost predicate Valid()
      reads this
    {
      missedIndexes == [] && ambiguitiesIndexes == []
      && hit + ambiguities + |missedRows| == numrows
      && ambiguities == |ambiguousRows|
    }

    constructor()
      ensures Valid() && hit == 0 && numrows == 0 && missedRows == [] && ambiguousRows == []
    {
      hit := 0;
      ambiguities := 0;
      numrows := 0;
      missedIndexes := [];
      ambiguitiesIndexes := [];
      missedRows := [];
      ambiguousRows := [];
    }

    /** The per-result loop: count hits, collect the ambiguous and missed indexes of the chunk. */
    method ReadResults(results: seq<Flags>)
      requires missedIndexes == [] && ambiguitiesIndexes == []
      modifies this
      ensures hit == old(hit) + CountResults(results).hit
      ensures ambiguities == old(ambiguities) + CountResults(results).ambiguities
      ensures missedIndexes == CountResults(results).missed
      ensures ambiguitiesIndexes == CountResults(results).ambiguous
      ensures missedRows == old(missedRows) && ambiguousRows == old(ambiguousRows) && numrows == old(numrows)
    {
      var i := 0;
      while i < |results|
        invariant 0 <= i <= |results|
        invariant hit == old(hit) + CountResults(results[..i]).hit
        invariant ambiguities == old(ambiguities) + CountResults(results[..i]).ambiguities
        invariant missedIndexes == CountResults(results[..i]).missed
        invariant ambiguitiesIndexes == CountResults(results[..i]).ambiguous
        invariant missedRows == old(missedRows) && ambiguousRows == old(ambiguousRows) && numrows == old(numrows)
      {
        var f := results[i];
        if f.isHit {
          hit := hit + 1;
        } else if f.isAmbig {
          ambiguities := ambiguities + 1;
          ambiguitiesIndexes := ambiguitiesIndexes + [f.index];
        } else {
          missedIndexes := missedIndexes + [f.index];
        }
        CountResultsSnoc(results, i);
        i := i + 1;
      }
      assert results[..|results|] == results;
    }

    /** One chunk: read one result per row, then move the index lists to the output and clear them. */
    method TallyChunk(results: seq<Flags>)
      requires Valid()
      modifies this
      ensures Valid()
      ensures var c := CountResults(results);
              hit == old(hit) + c.hit && ambiguities == old(ambiguities) + c.ambiguities
              && missedRows == old(missedRows) + c.missed && ambiguousRows == old(ambiguousRows) + c.ambiguous
              && numrows == old(numrows) + |results|
    {
      ReadResults(results);
      missedRows := missedRows + missedIndexes;
      missedIndexes := [];
      ambiguousRows := ambiguousRows + ambiguitiesIndexes;
      ambiguitiesIndexes := [];
      numrows := numrows + |results|;
    }
  }
}
