/**
 * The reference tables the matcher consults, as sequences of records with
 * integer dates, and the interval filters over them: `match_term`
 * (hansard/worker.py:54-55), the honorary- and lord-title conditions
 * (hansard/worker.py:122-132) and the parliamentary-term condition
 * (hansard/worker.py:165-167).
 */
module Tables {
  import opened Text

  /**
   * A row of an office-position table, of the honorary-title table or of
   * the lord-title table: its validity interval [start, end), its title or
   * alias text, and the id of the member it stands for ("N/A" when unknown).
   */
  datatype TitleRow = TitleRow(start: int, end: int, text: string, correspondingId: string)

  /** A row of the parliamentary-terms table: `member.id`, `start_term`, `end_term`, `fullname`. */
  datatype TermRow = TermRow(memberId: int, startTerm: int, endTerm: int, fullName: string)

  /**
   * A member as the loader builds it. `aliases` is the list of name
   * variants the external speaker constructor generates.
   */
  datatype Speaker = Speaker(fullName: string, firstName: string, surname: string,
                             memberId: int, dob: int, dod: int, aliases: seq<string>)

  datatype Office = Office(id: int, name: string)

  /** An office holding: who held which office from `start` until `end`. */
  datatype OfficeHolding = OfficeHolding(id: int, memberId: int, officeId: int,
                                         start: int, end: int, office: Office)

  /** The elements of `s` that satisfy `p`, in their original order. */
  function Filter<T(!new)>(s: seq<T>, p: T -> bool): (r: seq<T>)
    ensures |r| <= |s|
    ensures forall x :: x in r <==> x in s && p(x)
    decreases |s|
  {
    if s == [] then [] else (if p(s[0]) then [s[0]] else []) + Filter(s[1..], p)
  }

  /** Filtering a concatenation filters each part and keeps them in order. */
  lemma {:induction false} FilterAppend<T(!new)>(a: seq<T>, b: seq<T>, p: T -> bool)
    ensures Filter(a + b, p) == Filter(a, p) + Filter(b, p)
    decreases |a|
  {
    if a == [] {
      assert a + b == b;
    } else {
      assert (a + b)[0] == a[0] && (a + b)[1..] == a[1..] + b;
      FilterAppend(a[1..], b, p);
    }
  }

  /** A filter that keeps every element returns the sequence itself. */
  lemma {:induction false} FilterKeepsAll<T(!new)>(s: seq<T>, p: T -> bool)
    requires forall x :: x in s ==> p(x)
    ensures Filter(s, p) == s
    decreases |s|
  {
    if s != [] {
      FilterKeepsAll(s[1..], p);
      assert s == [s[0]] + s[1..];
    }
  }

  /** The half-open validity interval of the title tables. */
  predicate InService(row: TitleRow, date: int) {
    row.start <= date < row.end
  }

  /** `match_term`: the rows whose interval [start, end) holds `date`, in their original order. */
  function MatchTerm(rows: seq<TitleRow>, date: int): (r: seq<TitleRow>)
    ensures forall x :: x in r <==> x in rows && x.start <= date < x.end
  {
    Filter(rows, (row: TitleRow) => InService(row, date))
  }

  /** `match_term` keeps the table order: it filters the two halves of a table separately. */
  lemma MatchTermInOrder(a: seq<TitleRow>, b: seq<TitleRow>, date: int)
    ensures MatchTerm(a + b, date) == MatchTerm(a, date) + MatchTerm(b, date)
  {
    FilterAppend(a, b, (row: TitleRow) => InService(row, date));
  }

  /** A row is in service on its start date and no longer on its end date. */
  lemma MatchTermBoundaries(row: TitleRow)
    requires row.start < row.end
    ensures MatchTerm([row], row.start) == [row]
    ensures MatchTerm([row], row.end) == []
  {
    assert [row][1..] == [];
  }

  /**
   * The honorary- and lord-title conditions: rows valid at `date` whose
   * text contains the label (`str.contains(target, regex=False)`).
   */
  function ContainingRows(rows: seq<TitleRow>, target: string, date: int): (r: seq<TitleRow>)
    ensures forall x :: x in r <==> x in rows && x.start <= date < x.end && Contains(x.text, target)
  {
    Filter(rows, (row: TitleRow) => InService(row, date) && Contains(row.text, target))
  }

  /** The parliamentary-term condition: rows of the given members whose CLOSED interval holds `date`. */
  function TermsOn(terms: seq<TermRow>, ids: set<int>, date: int): (r: seq<TermRow>)
    ensures forall x :: x in r <==> x in terms && x.memberId in ids && x.startTerm <= date <= x.endTerm
  {
    Filter(terms, (row: TermRow) => row.memberId in ids && row.startTerm <= date <= row.endTerm)
  }

  /** Unlike the title tables, a term still counts on its last day. */
  lemma TermsOnLastDay(row: TermRow)
    requires row.startTerm <= row.endTerm
    ensures TermsOn([row], {row.memberId}, row.endTerm) == [row]
  {
    assert [row][1..] == [];
  }
}
