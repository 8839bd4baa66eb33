/** The search box of the "View Evidence" page: an empty term keeps every
    joined row; otherwise a row stays when the lowercased term occurs in
    its lowercased reference number, exhibit number or investigator name.
    Rows keep their order. */
module Search {
  import opened Text
  import opened Intake

  /** Whether a row matches an already lowercased term on any of the three
      searched columns: the term occurs at some position of one of them.
      A NULL exhibit number matches nothing; the empty term matches every
      row. */
  predicate Matches(row: JoinedRow, loweredTerm: string): (b: bool)
    ensures loweredTerm == [] ==> b
    ensures b <==>
      || IsSubstring(loweredTerm, Lower(row.device.referenceNumber))
      || (row.device.exhibitNumber.Some? && IsSubstring(loweredTerm, Lower(row.device.exhibitNumber.value)))
      || IsSubstring(loweredTerm, Lower(row.request.investigatorName))
  {
    var exhibit := if row.device.exhibitNumber.Some? then row.device.exhibitNumber.value else "";
    ContainsIff(Lower(row.device.referenceNumber), loweredTerm);
    ContainsIff(Lower(exhibit), loweredTerm);
    ContainsIff(Lower(row.request.investigatorName), loweredTerm);
    || Contains(Lower(row.device.referenceNumber), loweredTerm)
    || (row.device.exhibitNumber.Some? && Contains(Lower(row.device.exhibitNumber.value), loweredTerm))
    || Contains(Lower(row.request.investigatorName), loweredTerm)
  }

  /** The boolean-mask selection: the matching rows, in input order. */
  function FilterRows(rows: seq<JoinedRow>, loweredTerm: string): (r: seq<JoinedRow>)
    ensures |r| <= |rows|
    ensures forall i :: 0 <= i < |r| ==> Matches(r[i], loweredTerm)
  {
    if rows == [] then []
    else (if Matches(rows[0], loweredTerm) then [rows[0]] else []) + FilterRows(rows[1..], loweredTerm)
  }

  /** The search as the page runs it: an empty term returns every row;
      otherwise the result is drawn from the rows in order, and every row
      in it matches the lowercased term. */
  function SearchEvidence(rows: seq<JoinedRow>, searchTerm: string): (r: seq<JoinedRow>)
    ensures searchTerm == [] ==> r == rows
    ensures searchTerm != [] ==> IsSubsequence(r, rows)
    ensures forall i :: 0 <= i < |r| ==> Matches(r[i], Lower(searchTerm))
  {
    if searchTerm == [] then rows
    else
      FilterIsSubsequence(rows, Lower(searchTerm));
      FilterRows(rows, Lower(searchTerm))
  }

  /** a is b with some elements dropped, the rest in the same order. */
  predicate IsSubsequence<T(==)>(a: seq<T>, b: seq<T>)
    decreases |b|
  {
    if a == [] then true
    else if b == [] then false
    else (a[0] == b[0] && IsSubsequence(a[1..], b[1..])) || IsSubsequence(a, b[1..])
  }

  /** The filter only drops rows: its result is a subsequence of its input. */
  lemma {:induction false} FilterIsSubsequence(rows: seq<JoinedRow>, loweredTerm: string)
    ensures IsSubsequence(FilterRows(rows, loweredTerm), rows)
    decreases |rows|
  {
    if rows != [] {
      var r := FilterRows(rows, loweredTerm);
      var rest := FilterRows(rows[1..], loweredTerm);
      FilterIsSubsequence(rows[1..], loweredTerm);
      if Matches(rows[0], loweredTerm) {
        assert r == [rows[0]] + rest && r[1..] == rest;
      } else {
        assert r == rest;
        if r != [] {
          assert IsSubsequence(r, rows[1..]);
        }
      }
    }
  }

  /** The filter keeps exactly the matching rows, with their multiplicity:
      each row occurs in the result as often as in the input when it
      matches, and not at all otherwise. */
  lemma {:induction false} FilterCount(rows: seq<JoinedRow>, loweredTerm: string, x: JoinedRow)
    ensures multiset(FilterRows(rows, loweredTerm))[x]
         == if Matches(x, loweredTerm) then multiset(rows)[x] else 0
    decreases |rows|
  {
    if rows != [] {
      FilterCount(rows[1..], loweredTerm, x);
      assert rows == [rows[0]] + rows[1..];
    }
  }

  /** A row is in the result if and only if it is in the input and matches. */
  lemma FilterMembership(rows: seq<JoinedRow>, loweredTerm: string, x: JoinedRow)
    ensures x in FilterRows(rows, loweredTerm) <==> x in rows && Matches(x, loweredTerm)
  {
  }

  /** An empty search returns every row unchanged; and the special case
      agrees with the general rule, since every row contains "". */
  lemma {:induction false} EmptyTermKeepsAll(rows: seq<JoinedRow>)
    ensures SearchEvidence(rows, "") == rows
    ensures FilterRows(rows, "") == rows
    decreases |rows|
  {
    if rows != [] {
      EmptyTermKeepsAll(rows[1..]);
    }
  }

  /** The search ignores the case of the term. */
  lemma SearchIgnoresTermCase(rows: seq<JoinedRow>, searchTerm: string)
    ensures SearchEvidence(rows, searchTerm) == SearchEvidence(rows, Lower(searchTerm))
  {
    LowerEmpty(searchTerm);
    LowerIdempotent(searchTerm);
  }

  /** Everything a non-empty search returns came from the input and holds
      the lowercased term at some position of one of the three lowercased
      columns; everything it leaves out holds it in none of them. */
  lemma SearchResultsContainTerm(rows: seq<JoinedRow>, searchTerm: string, x: JoinedRow)
    requires searchTerm != []
    requires x in rows
    ensures x in SearchEvidence(rows, searchTerm) <==>
      || IsSubstring(Lower(searchTerm), Lower(x.device.referenceNumber))
      || (x.device.exhibitNumber.Some? && IsSubstring(Lower(searchTerm), Lower(x.device.exhibitNumber.value)))
      || IsSubstring(Lower(searchTerm), Lower(x.request.investigatorName))
  {
    FilterMembership(rows, Lower(searchTerm), x);
  }

  /** Searching again with the same term changes nothing. */
  lemma {:induction false} FilterIdempotent(rows: seq<JoinedRow>, loweredTerm: string)
    ensures FilterRows(FilterRows(rows, loweredTerm), loweredTerm) == FilterRows(rows, loweredTerm)
    decreases |rows|
  {
    if rows != [] {
      FilterIdempotent(rows[1..], loweredTerm);
      var rest := FilterRows(rows[1..], loweredTerm);
      if Matches(rows[0], loweredTerm) {
        var r := [rows[0]] + rest;
        assert FilterRows(rows, loweredTerm) == r;
        assert r[0] == rows[0] && r[1..] == rest;
        assert FilterRows(r, loweredTerm) == [rows[0]] + FilterRows(rest, loweredTerm);
      } else {
        assert FilterRows(rows, loweredTerm) == rest;
      }
    }
  }
}
