/**
 * The classification of one normalised speaker label at one sitting date
 * (hansard/worker.py:107-178), written as a pipeline of pure stages over the
 * row's local state `match`, `ambiguity` and `possibles`. The worker's
 * imperative row loop is proved equal to `Classify`.
 */
module Cascade {
  import opened Wrappers
  import opened Text
  import opened Tables
  import opened Normalizer

  /**
   * What `match` can hold: a `corresponding_id` string from a title table,
   * an office holding, a speaker from the alias dictionary, or the
   * lower-cased full name of a parliamentary term.
   */
  datatype MatchValue =
    | SpeakerId(id: string)
    | Holding(holding: OfficeHolding)
    | Member(speaker: Speaker)
    | TermName(name: string)

  /** Python truthiness of `match`: `None` and the empty string are false, objects are true. */
  predicate Truthy(m: Option<MatchValue>) {
    match m
    case None => false
    case Some(SpeakerId(id)) => id != ""
    case Some(TermName(name)) => name != ""
    case Some(_) => true
  }

  /** The three ways a row can end. */
  datatype Outcome = Hit(value: MatchValue) | Ambiguous | Missed

  /**
   * The reference data a worker consults (the misspelling dictionary and the
   * tables). `officePositions` lists the
   * office-position tables in the dictionary's iteration order, keyed by
   * position name. The two `Matches` predicates stand for
   * `OfficeHolding.matches` and `SpeakerReplacement.matches`, whose code is
   * not part of this model.
   */
  datatype Reference = Reference(
    corrections: Corrections,
    officePositions: seq<(string, seq<TitleRow>)>,
    honoraryTitles: seq<TitleRow>,
    lordTitles: seq<TitleRow>,
    holdings: seq<OfficeHolding>,
    aliasDict: map<string, seq<Speaker>>,
    terms: seq<TermRow>,
    holdingMatches: (OfficeHolding, string, int) -> bool,
    speakerMatches: (Speaker, string, int) -> bool)

  /** The local state one row carries from stage to stage; `possibles` is `None` or a list. */
  datatype RowState = RowState(m: Option<MatchValue>, ambiguity: bool, possibles: Option<seq<Speaker>>)

  /** `for position in office_title_dfs: if position in target: ... break`: the first position named in the label. */
  function FirstPosition(positions: seq<(string, seq<TitleRow>)>, target: string): (r: Option<nat>)
    ensures r.Some? ==> r.value < |positions| && Contains(target, positions[r.value].0)
    ensures forall j :: 0 <= j < |positions| && (r.None? || j < r.value) ==> !Contains(target, positions[j].0)
    decreases |positions|
  {
    if positions == [] then None
    else if Contains(target, positions[0].0) then Some(0)
    else
      match FirstPosition(positions[1..], target)
      case None => None
      case Some(k) => Some(k + 1)
  }

  /** The first office holding that accepts the label at the date. */
  function FirstHolding(holdings: seq<OfficeHolding>, matches: (OfficeHolding, string, int) -> bool,
                        target: string, date: int): (r: Option<nat>)
    ensures r.Some? ==> r.value < |holdings| && matches(holdings[r.value], target, date)
    ensures forall j :: 0 <= j < |holdings| && (r.None? || j < r.value) ==> !matches(holdings[j], target, date)
    decreases |holdings|
  {
    if holdings == [] then None
    else if matches(holdings[0], target, date) then Some(0)
    else
      match FirstHolding(holdings[1..], matches, target, date)
      case None => None
      case Some(k) => Some(k + 1)
  }

  /** Stage 1: `match_term` on the table of the first position named in the label, or no rows. */
  function OfficeQuery(ref: Reference, target: string, date: int): seq<TitleRow> {
    match FirstPosition(ref.officePositions, target)
    case Some(p) => MatchTerm(ref.officePositions[p].1, date)
    case None => []
  }

  /**
   * Stages 1-3 for a row without a cached match: the office rows, else the
   * honorary-title rows, else the lord-title rows. Every row it returns is
   * in service at the date.
   */
  function TitleQuery(ref: Reference, target: string, date: int): (q: seq<TitleRow>)
    ensures forall x :: x in q ==> x.start <= date < x.end
  {
    var office := OfficeQuery(ref, target, date);
    if |office| > 0 then office
    else
      var honorary := ContainingRows(ref.honoraryTitles, target, date);
      if |honorary| > 0 then honorary else ContainingRows(ref.lordTitles, target, date)
  }

  /** The single-row / multi-row decision over the title rows (hansard/worker.py:134-144). */
  function TitleStage(q: seq<TitleRow>, st: RowState): RowState {
    if Truthy(st.m) then st
    else if |q| == 1 then
      if q[0].correspondingId != "N/A" then st.(m := Some(SpeakerId(q[0].correspondingId))) else st
    else if |q| > 1 then st.(ambiguity := true)
    else st
  }

  /** The first matching office holding becomes the match (hansard/worker.py:147-151). */
  function HoldingStage(ref: Reference, target: string, date: int, st: RowState): RowState {
    if Truthy(st.m) then st
    else
      match FirstHolding(ref.holdings, ref.holdingMatches, target, date)
      case Some(k) => st.(m := Some(Holding(ref.holdings[k])))
      case None => st
  }

  /** The speakers listed under the label in the alias dictionary that accept the label at the date. */
  function Candidates(ref: Reference, target: string, date: int): (r: seq<Speaker>)
    requires target in ref.aliasDict
    ensures forall s :: s in r <==> s in ref.aliasDict[target] && ref.speakerMatches(s, target, date)
  {
    Filter(ref.aliasDict[target], (s: Speaker) => ref.speakerMatches(s, target, date))
  }

  /** The alias-dictionary lookup (hansard/worker.py:153-160). */
  function AliasStage(ref: Reference, target: string, date: int, st: RowState): RowState {
    if Truthy(st.m) then st
    else if target !in ref.aliasDict then st.(possibles := None)
    else
      var ps := Candidates(ref, target, date);
      if |ps| == 1 then st.(m := Some(Member(ps[0])), possibles := Some(ps))
      else st.(ambiguity := true, possibles := Some(ps))
  }

  /** The member ids of a candidate list. */
  function MemberIds(ps: seq<Speaker>): set<int> {
    set s | s in ps :: s.memberId
  }

  /** Narrowing an ambiguity by parliamentary term (hansard/worker.py:162-170). */
  function TermStage(ref: Reference, date: int, st: RowState): RowState {
    if st.ambiguity && st.possibles.Some? && |st.possibles.value| > 0 then
      var q := TermsOn(ref.terms, MemberIds(st.possibles.value), date);
      if |q| == 1 then st.(ambiguity := false, m := Some(TermName(Lower(q[0].fullName)))) else st
    else st
  }

  /** Stages 5-8, after the title rows are known. */
  function AfterTitles(ref: Reference, target: string, date: int, st: RowState): RowState {
    TermStage(ref, date, AliasStage(ref, target, date, HoldingStage(ref, target, date, st)))
  }

  /**
   * The bookkeeping decision (hansard/worker.py:172-178): a row with a match
   * (`match is not None`, even a falsy one) is a hit whatever `ambiguity`
   * says; otherwise `ambiguity` decides between ambiguous and missed.
   */
  function Decide(st: RowState): (o: Outcome)
    ensures o.Hit? <==> st.m.Some?
    ensures o.Hit? ==> o.value == st.m.value
    ensures o.Ambiguous? <==> st.m.None? && st.ambiguity
  {
    match st.m
    case Some(v) => Hit(v)
    case None => if st.ambiguity then Ambiguous else Missed
  }

  /** The title rows the cascade looks at, given what the cache returned. */
  function RowQuery(ref: Reference, target: string, date: int, cached: Option<MatchValue>): seq<TitleRow> {
    if Truthy(cached) then [] else TitleQuery(ref, target, date)
  }

  /**
   * The whole cascade for one row, starting from what the cache holds for
   * `(target, date)`. A truthy cached match is returned as it is.
   */
  function Classify(ref: Reference, target: string, date: int, cached: Option<MatchValue>): (o: Outcome)
    ensures Truthy(cached) ==> o == Hit(cached.value)
  {
    var start := RowState(cached, false, Some([]));
    Decide(AfterTitles(ref, target, date, TitleStage(RowQuery(ref, target, date, cached), start)))
  }

  // ---------------------------------------------------------------------
  // Stage precedence
  // ---------------------------------------------------------------------

  lemma {:induction false} FirstPositionAppend(positions: seq<(string, seq<TitleRow>)>,
                                               extra: seq<(string, seq<TitleRow>)>, target: string)
    requires FirstPosition(positions, target).Some?
    ensures FirstPosition(positions + extra, target) == FirstPosition(positions, target)
    decreases |positions|
  {
    assert (positions + extra)[0] == positions[0];
    if !Contains(target, positions[0].0) {
      assert (positions + extra)[1..] == positions[1..] + extra;
      FirstPositionAppend(positions[1..], extra, target);
    }
  }

  /** The stages after the title rows see none of the title tables. */
  lemma SameLaterTables(ref: Reference, ref': Reference, target: string, date: int, cached: Option<MatchValue>)
    requires ref'.holdings == ref.holdings && ref'.holdingMatches == ref.holdingMatches
    requires ref'.aliasDict == ref.aliasDict && ref'.speakerMatches == ref.speakerMatches
    requires ref'.terms == ref.terms
    requires TitleQuery(ref', target, date) == TitleQuery(ref, target, date)
    ensures Classify(ref', target, date, cached) == Classify(ref, target, date, cached)
  {
    var st := TitleStage(RowQuery(ref, target, date, cached), RowState(cached, false, Some([])));
    assert RowQuery(ref', target, date, cached) == RowQuery(ref, target, date, cached);
    assert HoldingStage(ref', target, date, st) == HoldingStage(ref, target, date, st);
    var h := HoldingStage(ref, target, date, st);
    assert AliasStage(ref', target, date, h) == AliasStage(ref, target, date, h);
  }

  /** Only the first office position named in the label is queried: positions listed after it never matter. */
  lemma LaterPositionsIgnored(ref: Reference, extra: seq<(string, seq<TitleRow>)>, target: string, date: int,
                              cached: Option<MatchValue>)
    requires FirstPosition(ref.officePositions, target).Some?
    ensures Classify(ref.(officePositions := ref.officePositions + extra), target, date, cached)
         == Classify(ref, target, date, cached)
  {
    var ref' := ref.(officePositions := ref.officePositions + extra);
    FirstPositionAppend(ref.officePositions, extra, target);
    var p := FirstPosition(ref.officePositions, target).value;
    assert ref'.officePositions[p] == ref.officePositions[p];
    assert OfficeQuery(ref', target, date) == OfficeQuery(ref, target, date);
    SameLaterTables(ref, ref', target, date, cached);
  }

  /** When the office stage yields rows, the honorary- and lord-title tables are never consulted. */
  lemma OfficeRowsShadowTitles(ref: Reference, honorary: seq<TitleRow>, lord: seq<TitleRow>,
                               target: string, date: int, cached: Option<MatchValue>)
    requires |OfficeQuery(ref, target, date)| > 0
    ensures Classify(ref.(honoraryTitles := honorary, lordTitles := lord), target, date, cached)
         == Classify(ref, target, date, cached)
  {
    var ref' := ref.(honoraryTitles := honorary, lordTitles := lord);
    assert OfficeQuery(ref', target, date) == OfficeQuery(ref, target, date);
    SameLaterTables(ref, ref', target, date, cached);
  }

  /** When the office stage yields nothing and the honorary titles yield rows, the lord titles are never consulted. */
  lemma HonoraryRowsShadowLordTitles(ref: Reference, lord: seq<TitleRow>, target: string, date: int,
                                     cached: Option<MatchValue>)
    requires |OfficeQuery(ref, target, date)| == 0
    requires |ContainingRows(ref.honoraryTitles, target, date)| > 0
    ensures Classify(ref.(lordTitles := lord), target, date, cached) == Classify(ref, target, date, cached)
  {
    var ref' := ref.(lordTitles := lord);
    assert OfficeQuery(ref', target, date) == OfficeQuery(ref, target, date);
    SameLaterTables(ref, ref', target, date, cached);
  }

  /** Once `match` is truthy no later stage changes the row's state. */
  lemma TruthyMatchIsFinal(ref: Reference, target: string, date: int, st: RowState)
    requires Truthy(st.m) && !st.ambiguity
    ensures AfterTitles(ref, target, date, st) == st
  {
  }

  // ---------------------------------------------------------------------
  // Title-stage and alias-stage outcomes
  // ---------------------------------------------------------------------

  /** The state of a row without a cached match after the title rows are known. */
  function FreshAfterTitles(ref: Reference, target: string, date: int): RowState {
    TitleStage(TitleQuery(ref, target, date), RowState(None, false, Some([])))
  }

  /** The title rows leave the row open: no row, or one row whose id is 'N/A'. */
  predicate NoTitleMatch(q: seq<TitleRow>) {
    |q| == 0 || (|q| == 1 && q[0].correspondingId == "N/A")
  }

  /**
   * A row without a cached match ends as the id of a title row exactly when
   * the title stages leave one row and its id is not 'N/A'.
   */
  lemma TitleIdHit(ref: Reference, target: string, date: int, id: string)
    requires id != ""
    ensures Classify(ref, target, date, None) == Hit(SpeakerId(id))
        <==> var q := TitleQuery(ref, target, date); |q| == 1 && q[0].correspondingId == id && id != "N/A"
  {
    var q := TitleQuery(ref, target, date);
    var st := FreshAfterTitles(ref, target, date);
    if |q| == 1 && q[0].correspondingId == id && id != "N/A" {
      assert st.m == Some(SpeakerId(id)) && !st.ambiguity;
      TruthyMatchIsFinal(ref, target, date, st);
    } else if st.m.Some? {
      assert st.m.value.SpeakerId? && st.m.value.id != id;
    }
  }

  /**
   * Several title rows make the row ambiguous, whatever their ids, unless a
   * holding or the alias dictionary resolves the label.
   */
  lemma SeveralTitleRowsAmbiguous(ref: Reference, target: string, date: int)
    requires |TitleQuery(ref, target, date)| > 1
    requires FirstHolding(ref.holdings, ref.holdingMatches, target, date).None?
    requires target !in ref.aliasDict
    ensures Classify(ref, target, date, None) == Ambiguous
  {
  }

  /** Two rows of one member are still ambiguous. */
  lemma SameIdRowsAmbiguous(ref: Reference, target: string, date: int, a: TitleRow, b: TitleRow)
    requires TitleQuery(ref, target, date) == [a, b] && a.correspondingId == b.correspondingId
    requires FirstHolding(ref.holdings, ref.holdingMatches, target, date).None?
    requires target !in ref.aliasDict
    ensures Classify(ref, target, date, None) == Ambiguous
  {
    SeveralTitleRowsAmbiguous(ref, target, date);
  }

  /**
   * A holding that accepts the label is the match whenever the title rows
   * left no truthy id, even after several title rows set `ambiguity`: the
   * alias stage then skips and the term narrowing finds no candidates.
   */
  lemma HoldingHit(ref: Reference, target: string, date: int)
    requires var q := TitleQuery(ref, target, date);
             !(|q| == 1 && q[0].correspondingId != "N/A" && q[0].correspondingId != "")
    requires FirstHolding(ref.holdings, ref.holdingMatches, target, date).Some?
    ensures Classify(ref, target, date, None)
         == Hit(Holding(ref.holdings[FirstHolding(ref.holdings, ref.holdingMatches, target, date).value]))
  {
    assert !Truthy(FreshAfterTitles(ref, target, date).m);
  }

  /** A label the alias dictionary resolves to exactly one date-valid speaker matches that speaker. */
  lemma SingleCandidateHit(ref: Reference, target: string, date: int)
    requires NoTitleMatch(TitleQuery(ref, target, date))
    requires FirstHolding(ref.holdings, ref.holdingMatches, target, date).None?
    requires target in ref.aliasDict && |Candidates(ref, target, date)| == 1
    ensures Classify(ref, target, date, None) == Hit(Member(Candidates(ref, target, date)[0]))
  {
  }

  /**
   * After several title rows, with no holding, the alias dictionary decides:
   * one term row at the date names the match whenever there is a candidate;
   * otherwise a single candidate matches and anything else is ambiguous.
   */
  lemma SeveralRowsAliasOutcome(ref: Reference, target: string, date: int)
    requires |TitleQuery(ref, target, date)| > 1
    requires FirstHolding(ref.holdings, ref.holdingMatches, target, date).None?
    requires target in ref.aliasDict
    ensures var ps := Candidates(ref, target, date);
            var q := TermsOn(ref.terms, MemberIds(ps), date);
            Classify(ref, target, date, None)
            == if |ps| > 0 && |q| == 1 then Hit(TermName(Lower(q[0].fullName)))
               else if |ps| == 1 then Hit(Member(ps[0]))
               else Ambiguous
  {
    var st := FreshAfterTitles(ref, target, date);
    assert st.ambiguity && st.m.None?;
  }

  /**
   * The one place a truthy match is overwritten: when several title rows set
   * `ambiguity`, a single alias candidate becomes the match, but the term
   * narrowing still runs and replaces it with the lower-cased full name of
   * the one term row that holds the date.
   */
  lemma TermNameReplacesAliasMatch(ref: Reference, target: string, date: int)
    requires |TitleQuery(ref, target, date)| > 1
    requires FirstHolding(ref.holdings, ref.holdingMatches, target, date).None?
    requires target in ref.aliasDict && |Candidates(ref, target, date)| == 1
    requires |TermsOn(ref.terms, MemberIds(Candidates(ref, target, date)), date)| == 1
    ensures Classify(ref, target, date, None)
         == Hit(TermName(Lower(TermsOn(ref.terms, MemberIds(Candidates(ref, target, date)), date)[0].fullName)))
  {
    var st := FreshAfterTitles(ref, target, date);
    assert st.ambiguity && st.m.None?;
  }

  /**
   * A label in the alias dictionary whose date-valid speaker list does not
   * have exactly one element is ambiguous, unless the candidates' terms
   * leave exactly one row at the date, whose full name then matches; with
   * no candidate at all it is ambiguous.
   */
  lemma CandidatesNotOne(ref: Reference, target: string, date: int)
    requires NoTitleMatch(TitleQuery(ref, target, date))
    requires FirstHolding(ref.holdings, ref.holdingMatches, target, date).None?
    requires target in ref.aliasDict && |Candidates(ref, target, date)| != 1
    ensures var ps := Candidates(ref, target, date);
            var q := TermsOn(ref.terms, MemberIds(ps), date);
            Classify(ref, target, date, None)
            == if |ps| > 0 && |q| == 1 then Hit(TermName(Lower(q[0].fullName))) else Ambiguous
    ensures |Candidates(ref, target, date)| == 0 ==> Classify(ref, target, date, None) == Ambiguous
  {
  }

  /**
   * Alias lists are not deduplicated: a speaker listed twice under the label
   * is two candidates, so the row is ambiguous unless one term row narrows it.
   */
  lemma DuplicateAliasAmbiguous(ref: Reference, target: string, date: int, s: Speaker)
    requires NoTitleMatch(TitleQuery(ref, target, date))
    requires FirstHolding(ref.holdings, ref.holdingMatches, target, date).None?
    requires target in ref.aliasDict && ref.aliasDict[target] == [s, s] && ref.speakerMatches(s, target, date)
    requires |TermsOn(ref.terms, {s.memberId}, date)| != 1
    ensures Classify(ref, target, date, None) == Ambiguous
  {
    PairCandidates(ref, target, date, s);
    CandidatesNotOne(ref, target, date);
  }

  lemma PairCandidates(ref: Reference, target: string, date: int, s: Speaker)
    requires target in ref.aliasDict && ref.aliasDict[target] == [s, s] && ref.speakerMatches(s, target, date)
    ensures Candidates(ref, target, date) == [s, s]
    ensures MemberIds(Candidates(ref, target, date)) == {s.memberId}
  {
    assert [s, s][1..] == [s] && [s][1..] == [];
  }

  /**
   * A row without a cached match is missed exactly when the title stages
   * leave no row or one 'N/A' row, no holding accepts it and the label is
   * not in the alias dictionary.
   */
  lemma MissedExactly(ref: Reference, target: string, date: int)
    ensures Classify(ref, target, date, None) == Missed
        <==> var q := TitleQuery(ref, target, date);
             (|q| == 0 || (|q| == 1 && q[0].correspondingId == "N/A"))
             && FirstHolding(ref.holdings, ref.holdingMatches, target, date).None?
             && target !in ref.aliasDict
  {
    var st := FreshAfterTitles(ref, target, date);
    var h := HoldingStage(ref, target, date, st);
    if target in ref.aliasDict && !Truthy(h.m) {
      assert AliasStage(ref, target, date, h).m.Some? || AliasStage(ref, target, date, h).ambiguity;
    }
  }

  /**
   * The term narrowing only ever clears an ambiguity by setting a match,
   * and it does so only on a single term row in the closed interval.
   */
  lemma NarrowingNeedsOneTerm(ref: Reference, date: int, st: RowState)
    requires st.ambiguity
    ensures var st' := TermStage(ref, date, st);
            !st'.ambiguity <==> st.possibles.Some? && |st.possibles.value| > 0
                                && |TermsOn(ref.terms, MemberIds(st.possibles.value), date)| == 1
    ensures !TermStage(ref, date, st).ambiguity ==> TermStage(ref, date, st).m.Some?
  {
  }
}
