/** The search-result rows of the FNS register and the two decisions taken
    on them before any field is read: which rows are still active
    (`_acting_records`) and which row `info` goes on to read. */
module FnsRecords {
  import opened PyStr

  /** One row of the search result: short keys ('k', 'n', 'i', 'e', ...)
      to their text. */
  type Record = map<string, string>

  /** Python `rec.get(key, '')`. */
  function Get(rec: Record, key: string): (v: string)
  {
    if key in rec then rec[key] else ""
  }

  /** A row without an end date ('e') and without an invalid-from date
      ('v') describes an organisation that is still operating. */
  predicate IsActive(rec: Record)
  {
    "e" !in rec && "v" !in rec
  }

  /** The register's answer "nothing found": a single row whose 'tot' is "0". */
  predicate IsNothingFound(records: seq<Record>)
  {
    |records| == 1 && "tot" in records[0] && records[0]["tot"] == "0"
  }

  /** The active rows, in their original order. */
  function ActiveRows(records: seq<Record>): (kept: seq<Record>)
  {
    if records == [] then []
    else (if IsActive(records[0]) then [records[0]] else []) + ActiveRows(records[1..])
  }

  /** `_acting_records(list)`: no rows for the "nothing found" answer,
      otherwise the active rows. */
  function Acting(records: seq<Record>): (kept: seq<Record>)
  {
    if IsNothingFound(records) then [] else ActiveRows(records)
  }

  /** `a` is `b` with some rows left out and the rest kept in order. */
  predicate IsSubsequence(a: seq<Record>, b: seq<Record>)
    decreases |b|
  {
    if a == [] then true
    else if b == [] then false
    else (a[0] == b[0] && IsSubsequence(a[1..], b[1..])) || IsSubsequence(a, b[1..])
  }

  /** The row `info` reads (`self._response`), or `None` where it returns
      before reading one: several rows and `selecte_one` false, or no row.
      With several rows it is the first active row if there is one, else
      the first row; a single row is taken as it is. */
  function Chosen(records: seq<Record>, selectOne: bool): (row: Option<Record>)
  {
    if |records| > 1 then
      if !selectOne then None
      else
        var act := Acting(records);
        if |act| >= 1 then Some(act[0]) else Some(records[0])
    else if |records| == 1 then Some(records[0])
    else None
  }

  /** `_acting_records`: the loop that appends every active row to a
      fresh list. */
  method ActingRecords(listOfDicts: seq<Record>) returns (actual: seq<Record>)
    ensures actual == Acting(listOfDicts)
  {
    var actualListOfDicts: seq<Record> := [];
    if |listOfDicts| == 1 && "tot" in listOfDicts[0] && listOfDicts[0]["tot"] == "0" {
      return [];
    }
    for i := 0 to |listOfDicts|
      invariant actualListOfDicts + ActiveRows(listOfDicts[i..]) == ActiveRows(listOfDicts)
    {
      assert listOfDicts[i..][1..] == listOfDicts[i + 1..];
      if !("e" in listOfDicts[i] || "v" in listOfDicts[i]) {
        actualListOfDicts := actualListOfDicts + [listOfDicts[i]];
      }
    }
    assert listOfDicts[|listOfDicts|..] == [];
    return actualListOfDicts;
  }

  // ---------------------------------------------------------------- lemmas

  /** A row is kept exactly when it is in the input and active, and it is
      kept as many times as it occurs there. */
  lemma {:induction false} ActiveRowsMembers(records: seq<Record>)
    ensures forall rec :: rec in ActiveRows(records) <==> rec in records && IsActive(rec)
    ensures forall rec :: multiset(ActiveRows(records))[rec] ==
                           if IsActive(rec) then multiset(records)[rec] else 0
    decreases |records|
  {
    if records != [] {
      ActiveRowsMembers(records[1..]);
      assert records == [records[0]] + records[1..];
    }
  }

  /** The active rows keep the input's order. */
  lemma {:induction false} ActiveRowsInOrder(records: seq<Record>)
    ensures IsSubsequence(ActiveRows(records), records)
    ensures |ActiveRows(records)| <= |records|
    decreases |records|
  {
    if records != [] {
      ActiveRowsInOrder(records[1..]);
      var rest := ActiveRows(records[1..]);
      if IsActive(records[0]) {
        assert ([records[0]] + rest)[1..] == rest;
      } else {
        assert [] + rest == rest;
        SubsequenceOfTail(rest, records);
      }
    }
  }

  /** A subsequence of the tail is a subsequence of the whole. */
  lemma SubsequenceOfTail(a: seq<Record>, b: seq<Record>)
    requires b != [] && IsSubsequence(a, b[1..])
    ensures IsSubsequence(a, b)
  {
  }

  /** `_acting_records` keeps exactly the active rows, in order, never
      more rows than it was given, and none at all for "nothing found". */
  lemma ActingMeaning(records: seq<Record>)
    ensures IsNothingFound(records) ==> Acting(records) == []
    ensures !IsNothingFound(records) ==>
              forall rec :: rec in Acting(records) <==> rec in records && IsActive(rec)
    ensures IsSubsequence(Acting(records), records)
    ensures |Acting(records)| <= |records|
  {
    ActiveRowsMembers(records);
    ActiveRowsInOrder(records);
  }

  /** The first active row is the first row of the result. */
  lemma {:induction false} ActiveRowsHead(records: seq<Record>, i: nat)
    requires i < |records| && IsActive(records[i])
    requires forall j :: 0 <= j < i ==> !IsActive(records[j])
    ensures ActiveRows(records) != [] && ActiveRows(records)[0] == records[i]
    decreases i
  {
    if i > 0 {
      ActiveRowsHead(records[1..], i - 1);
    }
  }

  /** Without an active row nothing is kept. */
  lemma {:induction false} ActiveRowsNone(records: seq<Record>)
    requires forall j :: 0 <= j < |records| ==> !IsActive(records[j])
    ensures ActiveRows(records) == []
    decreases |records|
  {
    if records != [] {
      ActiveRowsNone(records[1..]);
    }
  }

  /** With several rows and `selecte_one`, `info` reads the first active
      row. */
  lemma ChosenFirstActive(records: seq<Record>, i: nat)
    requires |records| > 1 && i < |records| && IsActive(records[i])
    requires forall j :: 0 <= j < i ==> !IsActive(records[j])
    ensures Chosen(records, true) == Some(records[i])
  {
    ActiveRowsHead(records, i);
  }

  /** With several rows, none active, and `selecte_one`, `info` reads the
      first row. */
  lemma ChosenNoneActive(records: seq<Record>)
    requires |records| > 1
    requires forall j :: 0 <= j < |records| ==> !IsActive(records[j])
    ensures Chosen(records, true) == Some(records[0])
  {
    ActiveRowsNone(records);
  }

  /** `info` reads no row exactly when there is none, or there are several
      and it was not asked to select one. */
  lemma ChosenNone(records: seq<Record>, selectOne: bool)
    ensures Chosen(records, selectOne).None? <==> |records| == 0 || (|records| > 1 && !selectOne)
    ensures Chosen(records, selectOne).Some? ==> Chosen(records, selectOne).value in records
  {
    if |records| > 1 && selectOne {
      ActiveRowsMembers(records);
    }
  }
}
