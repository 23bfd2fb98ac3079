/**
 * The start-up code of run.py that decides what the workers get to see:
 * the core-count check (run.py:29-36), the member loader that fills the
 * speaker list, the speaker dictionary and the alias dictionary
 * (run.py:70-138), and the office and office-holding loader (run.py:141-182).
 * CSV rows arrive already read, as records; "now" is a parameter.
 */
module Loader {
  import opened Wrappers
  import opened Tables

  // ---------------------------------------------------------------------
  // parse_config (run.py:29-36)
  // ---------------------------------------------------------------------

  /** The `--cores` check: a negative count or one above the machine's core count is refused. */
  function CheckCores(requested: int, cpuCount: nat): (r: Result<nat, string>)
    ensures r.Ok? <==> 0 <= requested <= cpuCount
    ensures r.Ok? ==> r.value == requested
  {
    if requested < 0 || requested > cpuCount then Err("Invalid core number specified.") else Ok(requested)
  }

  /** Zero workers pass the check, on any machine. */
  lemma ZeroCoresAccepted(cpuCount: nat)
    ensures CheckCores(0, cpuCount) == Ok(0)
  {
  }

  // ---------------------------------------------------------------------
  // parse_mps (run.py:70-138)
  // ---------------------------------------------------------------------

  /**
   * A row of the members file. A missing (`NaT`) date is `None`; a first
   * name or surname that is not a string (a `NaN` cell) is `None`.
   */
  datatype MpRow = MpRow(fullName: string, firstName: Option<string>, surname: Option<string>,
                         memberId: int, dob: Option<int>, dod: Option<int>)

  /**
   * The external speaker constructor: `None` when it raises
   * `FirstNameMissingError` or `LastNameMissingError`.
   */
  type Construct = (string, string, string, int, int, int) -> Option<Speaker>

  /** What the member loader has built so far. */
  datatype Members = Members(speakers: seq<Speaker>, speakerDict: map<int, Speaker>,
                             aliasDict: map<string, seq<Speaker>>,
                             missingFirstNames: nat, missingSurnames: nat)

  /** `d.get(k, [])`. */
  function Entry(d: map<string, seq<Speaker>>, k: string): seq<Speaker> {
    if k in d then d[k] else []
  }

  /** `for alias in aliases: d.setdefault(alias, []).append(s)`. */
  function WithAliases(d: map<string, seq<Speaker>>, aliases: seq<string>, s: Speaker): map<string, seq<Speaker>>
    decreases |aliases|
  {
    if aliases == [] then d
    else
      var before := WithAliases(d, aliases[..|aliases| - 1], s);
      var k := aliases[|aliases| - 1];
      before[k := Entry(before, k) + [s]]
  }

  /** The number of times `k` occurs in `aliases`. */
  function Count(aliases: seq<string>, k: string): nat
    decreases |aliases|
  {
    if aliases == [] then 0
    else Count(aliases[..|aliases| - 1], k) + (if aliases[|aliases| - 1] == k then 1 else 0)
  }

  /** `n` copies of `s`. */
  function Copies(s: Speaker, n: nat): (r: seq<Speaker>)
    ensures |r| == n
    ensures forall x :: x in r ==> x == s
  {
    seq(n, _ => s)
  }

  /**
   * Appending a speaker under a list of aliases leaves every existing list
   * in place as a prefix and adds the speaker once per occurrence of the
   * key in the list; keys outside the list are untouched.
   */
  lemma {:induction false} AliasEntries(d: map<string, seq<Speaker>>, aliases: seq<string>, s: Speaker, k: string)
    ensures k in WithAliases(d, aliases, s) <==> k in d || k in aliases
    ensures Entry(WithAliases(d, aliases, s), k) == Entry(d, k) + Copies(s, Count(aliases, k))
    decreases |aliases|
  {
    if aliases != [] {
      var init := aliases[..|aliases| - 1];
      AliasEntries(d, init, s, k);
      assert forall a :: a in aliases <==> a in init || a == aliases[|aliases| - 1];
      if aliases[|aliases| - 1] == k {
        assert Copies(s, Count(init, k)) + [s] == Copies(s, Count(init, k) + 1);
      }
    }
  }

  /** One row of the members file. */
  function MpStep(st: Members, row: MpRow, now: int, construct: Construct, captures: string -> seq<string>)
    : (r: Members)
    ensures |r.speakers| + r.missingFirstNames + r.missingSurnames
            <= |st.speakers| + st.missingFirstNames + st.missingSurnames + 1
    ensures st.speakers <= r.speakers && |r.speakers| <= |st.speakers| + 1
    ensures r.missingFirstNames >= st.missingFirstNames && r.missingSurnames >= st.missingSurnames
  {
    if row.dob.None? then st
    else if row.firstName.None? then st.(missingFirstNames := st.missingFirstNames + 1)
    else if row.surname.None? then st.(missingSurnames := st.missingSurnames + 1)
    else
      var dod := row.dod.GetOr(now);
      match construct(row.fullName, row.firstName.value, row.surname.value, row.memberId, row.dob.value, dod)
      case None => st
      case Some(s) =>
        Members(st.speakers + [s], st.speakerDict[s.memberId := s],
                WithAliases(WithAliases(st.aliasDict, s.aliases, s), captures(row.fullName), s),
                st.missingFirstNames, st.missingSurnames)
  }

  /** The member loader over a whole file. */
  function MpFold(st: Members, rows: seq<MpRow>, now: int, construct: Construct, captures: string -> seq<string>)
    : (r: Members)
    ensures |r.speakers| + r.missingFirstNames + r.missingSurnames
            <= |st.speakers| + st.missingFirstNames + st.missingSurnames + |rows|
    ensures st.speakers <= r.speakers
    decreases |rows|
  {
    if rows == [] then st
    else MpStep(MpFold(st, rows[..|rows| - 1], now, construct, captures), rows[|rows| - 1], now, construct, captures)
  }

  /** A row without a date of birth adds nothing anywhere. */
  lemma NoBirthDateSkipped(st: Members, row: MpRow, now: int, construct: Construct, captures: string -> seq<string>)
    requires row.dob.None?
    ensures MpStep(st, row, now, construct, captures) == st
  {
  }

  /** The first-name check comes before the surname check; each skipped row counts in exactly one counter. */
  lemma MissingNamesCounted(st: Members, row: MpRow, now: int, construct: Construct, captures: string -> seq<string>)
    requires row.dob.Some?
    ensures row.firstName.None? ==>
              MpStep(st, row, now, construct, captures) == st.(missingFirstNames := st.missingFirstNames + 1)
    ensures row.firstName.Some? && row.surname.None? ==>
              MpStep(st, row, now, construct, captures) == st.(missingSurnames := st.missingSurnames + 1)
  {
  }

  /** A member with no date of death is built as alive now. */
  lemma MissingDeathIsNow(st: Members, row: MpRow, now: int, construct: Construct, captures: string -> seq<string>,
                          s: Speaker)
    requires row.dob.Some? && row.dod.None? && row.firstName.Some? && row.surname.Some?
    requires construct(row.fullName, row.firstName.value, row.surname.value, row.memberId, row.dob.value, now) == Some(s)
    ensures MpStep(st, row, now, construct, captures).speakers == st.speakers + [s]
  {
  }

  /** A speaker the constructor refuses is added nowhere. */
  lemma RefusedSpeakerSkipped(st: Members, row: MpRow, now: int, construct: Construct, captures: string -> seq<string>)
    requires row.dob.Some? && row.firstName.Some? && row.surname.Some?
    requires construct(row.fullName, row.firstName.value, row.surname.value, row.memberId, row.dob.value,
                       row.dod.GetOr(now)).None?
    ensures MpStep(st, row, now, construct, captures) == st
  {
  }

  /**
   * A built speaker is appended to the speaker list, stored under its member
   * id (replacing an earlier one) and appended under each generated alias and
   * then each alias written in its full name; every other alias list and both
   * skip counters are unchanged.
   */
  lemma BuiltSpeakerIndexed(st: Members, row: MpRow, now: int, construct: Construct, captures: string -> seq<string>,
                            s: Speaker, k: string)
    requires row.dob.Some? && row.firstName.Some? && row.surname.Some?
    requires construct(row.fullName, row.firstName.value, row.surname.value, row.memberId, row.dob.value,
                       row.dod.GetOr(now)) == Some(s)
    ensures var r := MpStep(st, row, now, construct, captures);
            r.speakers == st.speakers + [s]
            && r.speakerDict.Keys == st.speakerDict.Keys + {s.memberId}
            && r.missingFirstNames == st.missingFirstNames && r.missingSurnames == st.missingSurnames
            && r.speakerDict[s.memberId] == s
            && (forall id :: id in st.speakerDict && id != s.memberId ==> r.speakerDict[id] == st.speakerDict[id])
            && Entry(r.aliasDict, k)
               == Entry(st.aliasDict, k) + Copies(s, Count(s.aliases, k)) + Copies(s, Count(captures(row.fullName), k))
  {
    var once := WithAliases(st.aliasDict, s.aliases, s);
    AliasEntries(st.aliasDict, s.aliases, s, k);
    AliasEntries(once, captures(row.fullName), s, k);
  }

  /** The loader's invariants: the dictionary is keyed by member id and every listed speaker was loaded. */
  ghost predicate Consistent(st: Members) {
    (forall id :: id in st.speakerDict ==> st.speakerDict[id].memberId == id && st.speakerDict[id] in st.speakers)
    && (forall k, s :: k in st.aliasDict && s in st.aliasDict[k] ==> s in st.speakers)
  }

  lemma {:induction false} WithAliasesLists(d: map<string, seq<Speaker>>, aliases: seq<string>, s: Speaker,
                                            speakers: seq<Speaker>)
    requires forall k, x :: k in d && x in d[k] ==> x in speakers
    requires s in speakers
    ensures forall k, x :: k in WithAliases(d, aliases, s) && x in WithAliases(d, aliases, s)[k] ==> x in speakers
    decreases |aliases|
  {
    if aliases != [] {
      WithAliasesLists(d, aliases[..|aliases| - 1], s, speakers);
    }
  }

  lemma MpStepConsistent(st: Members, row: MpRow, now: int, construct: Construct, captures: string -> seq<string>)
    requires Consistent(st)
    ensures Consistent(MpStep(st, row, now, construct, captures))
  {
    var r := MpStep(st, row, now, construct, captures);
    if r != st && r.speakers != st.speakers {
      var s := r.speakers[|r.speakers| - 1];
      assert r.speakers == st.speakers + [s];
      WithAliasesLists(st.aliasDict, s.aliases, s, r.speakers);
      WithAliasesLists(WithAliases(st.aliasDict, s.aliases, s), captures(row.fullName), s, r.speakers);
    }
  }

  /** Loading a whole file keeps the loader's invariants. */
  lemma {:induction false} MpFoldConsistent(st: Members, rows: seq<MpRow>, now: int, construct: Construct,
                                            captures: string -> seq<string>)
    requires Consistent(st)
    ensures Consistent(MpFold(st, rows, now, construct, captures))
    decreases |rows|
  {
    if rows != [] {
      MpFoldConsistent(st, rows[..|rows| - 1], now, construct, captures);
      MpStepConsistent(MpFold(st, rows[..|rows| - 1], now, construct, captures), rows[|rows| - 1], now, construct, captures);
    }
  }

  // ---------------------------------------------------------------------
  // parse_offices (run.py:141-182)
  // ---------------------------------------------------------------------

  /**
   * A date cell of the office-holdings file: a string `strptime` parses,
   * a float (pandas' `NaN` for an empty cell), or any other value, on which
   * `strptime` raises `TypeError`.
   */
  datatype DateCell = DateText(date: int) | FloatCell | OtherCell

  datatype HoldingRow = HoldingRow(holdingId: int, memberId: int, officeId: int, start: DateCell, end: DateCell)

  /** Why a holding row is refused; each has its own counter. */
  datatype Rejection = InvalidDate | UnknownMember | UnknownOffice

  /** `OFFICE_DICT[office.id] = office` for each office row in turn. */
  function WithOffices(d: map<int, Office>, offices: seq<Office>): (r: map<int, Office>)
    ensures forall id :: id in r <==> id in d || exists o :: o in offices && o.id == id
    ensures offices != [] ==> r[offices[|offices| - 1].id] == offices[|offices| - 1]
    decreases |offices|
  {
    if offices == [] then d
    else
      var last := offices[|offices| - 1];
      WithOffices(d, offices[..|offices| - 1])[last.id := last]
  }

  /** Each office id maps to the last office listed under it. */
  lemma {:induction false} WithOfficesLastWins(d: map<int, Office>, offices: seq<Office>, j: nat)
    requires j < |offices|
    requires forall k :: j < k < |offices| ==> offices[k].id != offices[j].id
    ensures offices[j].id in WithOffices(d, offices) && WithOffices(d, offices)[offices[j].id] == offices[j]
    decreases |offices|
  {
    if j < |offices| - 1 {
      var init := offices[..|offices| - 1];
      assert forall k :: j < k < |init| ==> init[k] == offices[k];
      WithOfficesLastWins(d, init, j);
      assert init[j] == offices[j];
    }
  }

  /** An id that no listed office carries keeps the office it had. */
  lemma {:induction false} WithOfficesKeepsUnlisted(d: map<int, Office>, offices: seq<Office>, id: int)
    requires id in d && forall o :: o in offices ==> o.id != id
    ensures WithOffices(d, offices)[id] == d[id]
    decreases |offices|
  {
    if offices != [] {
      var init := offices[..|offices| - 1];
      assert forall o :: o in init ==> o in offices;
      WithOfficesKeepsUnlisted(d, init, id);
      assert offices[|offices| - 1] in offices;
    }
  }

  /**
   * The checks of one holding row, in the source's order: both dates
   * (the end defaulting to `now` when it is a float), then the member, then
   * the office.
   */
  function Admit(row: HoldingRow, now: int, speakerDict: map<int, Speaker>, officeDict: map<int, Office>)
    : (r: Result<OfficeHolding, Rejection>)
    ensures r == Err(InvalidDate) <==> !row.start.DateText? || row.end.OtherCell?
    ensures r == Err(UnknownMember) <==> row.start.DateText? && !row.end.OtherCell? && row.memberId !in speakerDict
    ensures r == Err(UnknownOffice) <==>
              row.start.DateText? && !row.end.OtherCell? && row.memberId in speakerDict && row.officeId !in officeDict
    ensures r.Ok? ==> r.value.office == officeDict[row.officeId] && r.value.start == row.start.date
                      && r.value.end == (if row.end.FloatCell? then now else row.end.date)
                      && r.value.memberId == row.memberId && r.value.officeId == row.officeId
                      && r.value.id == row.holdingId
  {
    if !row.start.DateText? || row.end.OtherCell? then Err(InvalidDate)
    else
      var end := if row.end.FloatCell? then now else row.end.date;
      if row.memberId !in speakerDict then Err(UnknownMember)
      else if row.officeId !in officeDict then Err(UnknownOffice)
      else Ok(OfficeHolding(row.holdingId, row.memberId, row.officeId, row.start.date, end, officeDict[row.officeId]))
  }

  /** The holdings loaded so far and the three rejection counters. */
  datatype HoldingsLoad = HoldingsLoad(holdings: seq<OfficeHolding>, invalidDates: nat, unknownMembers: nat,
                                       unknownOffices: nat)

  /** One holding row: kept, or counted in the counter of the first check it fails. */
  function HoldingStep(st: HoldingsLoad, row: HoldingRow, now: int, speakerDict: map<int, Speaker>,
                       officeDict: map<int, Office>): (r: HoldingsLoad)
    ensures Total(r) == Total(st) + 1
    ensures st.holdings <= r.holdings && |r.holdings| <= |st.holdings| + 1
    ensures |r.holdings| == |st.holdings| + 1 <==> Admit(row, now, speakerDict, officeDict).Ok?
    ensures Admit(row, now, speakerDict, officeDict).Ok? ==>
              r == st.(holdings := st.holdings + [Admit(row, now, speakerDict, officeDict).value])
    ensures Admit(row, now, speakerDict, officeDict) == Err(InvalidDate) ==>
              r == st.(invalidDates := st.invalidDates + 1)
    ensures Admit(row, now, speakerDict, officeDict) == Err(UnknownMember) ==>
              r == st.(unknownMembers := st.unknownMembers + 1)
    ensures Admit(row, now, speakerDict, officeDict) == Err(UnknownOffice) ==>
              r == st.(unknownOffices := st.unknownOffices + 1)
  {
    match Admit(row, now, speakerDict, officeDict)
    case Ok(h) => st.(holdings := st.holdings + [h])
    case Err(InvalidDate) => st.(invalidDates := st.invalidDates + 1)
    case Err(UnknownMember) => st.(unknownMembers := st.unknownMembers + 1)
    case Err(UnknownOffice) => st.(unknownOffices := st.unknownOffices + 1)
  }

  function Total(st: HoldingsLoad): nat {
    |st.holdings| + st.invalidDates + st.unknownMembers + st.unknownOffices
  }

  /**
   * The holding loader over a whole file: every row is either kept or
   * counted in exactly one counter, and every kept holding belongs to a
   * known member and a known office.
   */
  function HoldingFold(st: HoldingsLoad, rows: seq<HoldingRow>, now: int, speakerDict: map<int, Speaker>,
                       officeDict: map<int, Office>): (r: HoldingsLoad)
    ensures Total(r) == Total(st) + |rows|
    ensures st.holdings <= r.holdings
    ensures forall j :: |st.holdings| <= j < |r.holdings| ==>
              r.holdings[j].memberId in speakerDict && r.holdings[j].officeId in officeDict
    decreases |rows|
  {
    if rows == [] then st
    else HoldingStep(HoldingFold(st, rows[..|rows| - 1], now, speakerDict, officeDict), rows[|rows| - 1], now,
                     speakerDict, officeDict)
  }

  // ---------------------------------------------------------------------
  // The loader's state, updated in place
  // ---------------------------------------------------------------------

  /** The module-level tables run.py fills at start-up. */
  class Registry {
    var speakers: seq<Speaker>
    var speakerDict: map<int, Speaker>
    var aliasDict: map<string, seq<Speaker>>
    var missingFirstNames: nat
    var missingSurnames: nat
    var officeDict: map<int, Office>
    var holdings: seq<OfficeHolding>
    var invalidDates: nat
    var unknownMembers: nat
    var unknownOffices: nat

    function MembersState(): Members
      reads this
    {
      Members(speakers, speakerDict, aliasDict, missingFirstNames, missingSurnames)
    }

    function HoldingsState(): HoldingsLoad
      reads this
    {
      HoldingsLoad(holdings, invalidDates, unknownMembers, unknownOffices)
    }

    constructor()
      ensures MembersState() == Members([], map[], map[], 0, 0)
      ensures officeDict == map[] && HoldingsState() == HoldingsLoad([], 0, 0, 0)
    {
      speakers := [];
      speakerDict := map[];
      aliasDict := map[];
      missingFirstNames := 0;
      missingSurnames := 0;
      officeDict := map[];
      holdings := [];
      invalidDates := 0;
      unknownMembers := 0;
      unknownOffices := 0;
    }

    /** `for alias in aliases: FULL_ALIAS_DICT.setdefault(alias, []).append(s)`. */
    method AppendAliases(aliases: seq<string>, s: Speaker)
      modifies this
      ensures aliasDict == WithAliases(old(aliasDict), aliases, s)
      ensures MembersState() == old(MembersState()).(aliasDict := aliasDict)
      ensures officeDict == old(officeDict) && HoldingsState() == old(HoldingsState())
    {
      var i := 0;
      while i < |aliases|
        invariant 0 <= i <= |aliases|
        invariant aliasDict == WithAliases(old(aliasDict), aliases[..i], s)
        invariant MembersState() == old(MembersState()).(aliasDict := aliasDict)
        invariant officeDict == old(officeDict) && HoldingsState() == old(HoldingsState())
      {
        var alias := aliases[i];
        var entry := if alias in aliasDict then aliasDict[alias] else [];
        aliasDict := aliasDict[alias := entry + [s]];
        assert aliases[..i + 1][..i] == aliases[..i];
        i := i + 1;
      }
      assert aliases[..|aliases|] == aliases;
    }

    /** One row of the members file. */
    method AddMember(row: MpRow, now: int, construct: Construct, captures: string -> seq<string>)
      modifies this
      ensures MembersState() == MpStep(old(MembersState()), row, now, construct, captures)
      ensures officeDict == old(officeDict) && HoldingsState() == old(HoldingsState())
    {
      if row.dob.None? {
        return;
      }
      var dod := if row.dod.None? then now else row.dod.value;
      if row.firstName.None? {
        missingFirstNames := missingFirstNames + 1;
        return;
      } else if row.surname.None? {
        missingSurnames := missingSurnames + 1;
        return;
      }
      var definedAliases := captures(row.fullName);
      var built := construct(row.fullName, row.firstName.value, row.surname.value, row.memberId, row.dob.value, dod);
      if built.None? {
        return;
      }
      var speaker := built.value;
      speakers := speakers + [speaker];
      speakerDict := speakerDict[speaker.memberId := speaker];
      AppendAliases(speaker.aliases, speaker);
      AppendAliases(definedAliases, speaker);
    }

    /** `parse_mps`: every row of the members file in order. */
    method ParseMps(rows: seq<MpRow>, now: int, construct: Construct, captures: string -> seq<string>)
      modifies this
      ensures MembersState() == MpFold(old(MembersState()), rows, now, construct, captures)
      ensures officeDict == old(officeDict) && HoldingsState() == old(HoldingsState())
    {
      var i := 0;
      while i < |rows|
        invariant 0 <= i <= |rows|
        invariant MembersState() == MpFold(old(MembersState()), rows[..i], now, construct, captures)
        invariant officeDict == old(officeDict) && HoldingsState() == old(HoldingsState())
      {
        AddMember(rows[i], now, construct, captures);
        assert rows[..i + 1][..i] == rows[..i];
        i := i + 1;
      }
      assert rows[..|rows|] == rows;
    }

    /** The office loop of `parse_offices`. */
    method LoadOffices(offices: seq<Office>)
      modifies this
      ensures officeDict == WithOffices(old(officeDict), offices)
      ensures MembersState() == old(MembersState()) && HoldingsState() == old(HoldingsState())
    {
      var i := 0;
      while i < |offices|
        invariant 0 <= i <= |offices|
        invariant officeDict == WithOffices(old(officeDict), offices[..i])
        invariant MembersState() == old(MembersState()) && HoldingsState() == old(HoldingsState())
      {
        officeDict := officeDict[offices[i].id := offices[i]];
        assert offices[..i + 1][..i] == offices[..i];
        i := i + 1;
      }
      assert offices[..|offices|] == offices;
    }

    /** One row of the office-holdings file: kept, or counted under the first check it fails. */
    method AddHolding(row: HoldingRow, now: int)
      modifies this
      ensures HoldingsState() == HoldingStep(old(HoldingsState()), row, now, speakerDict, officeDict)
      ensures MembersState() == old(MembersState()) && officeDict == old(officeDict)
    {
      var start: int, end: int;
      match row.start {
        case DateText(d) => start := d;
        case _ =>
          invalidDates := invalidDates + 1;
          return;
      }
      match row.end {
        case FloatCell => end := now;
        case DateText(d) => end := d;
        case OtherCell =>
          invalidDates := invalidDates + 1;
          return;
      }
      if row.memberId !in speakerDict {
        unknownMembers := unknownMembers + 1;
        return;
      }
      if row.officeId !in officeDict {
        unknownOffices := unknownOffices + 1;
        return;
      }
      var holding := OfficeHolding(row.holdingId, row.memberId, row.officeId, start, end, officeDict[row.officeId]);
      holdings := holdings + [holding];
    }

    /** The holdings loop of `parse_offices`. */
    method LoadHoldings(rows: seq<HoldingRow>, now: int)
      modifies this
      ensures HoldingsState() == HoldingFold(old(HoldingsState()), rows, now, speakerDict, officeDict)
      ensures MembersState() == old(MembersState()) && officeDict == old(officeDict)
    {
      var i := 0;
      while i < |rows|
        invariant 0 <= i <= |rows|
        invariant HoldingsState() == HoldingFold(old(HoldingsState()), rows[..i], now, speakerDict, officeDict)
        invariant MembersState() == old(MembersState()) && officeDict == old(officeDict)
      {
        AddHolding(rows[i], now);
        assert rows[..i + 1][..i] == rows[..i];
        i := i + 1;
      }
      assert rows[..|rows|] == rows;
    }
  }
}
