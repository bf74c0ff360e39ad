/** The incremental-load watermark of the data loader.

    Before loading, the loader scans the `covidData` table and derives two
    values from the scan response: the latest `date` already stored (found
    by sorting the response's `Items` in place, newest first, and reading the
    head) and whether the table is empty (the response's `Count` is zero).
    Both are handed to the load step, which is not part of this model. */
module Watermark {
  import opened DateOrder

  /** One record of the scan: its `date` attribute and the other attributes,
      which travel with it but are never read here. */
  datatype Item = Item(date: string, attributes: map<string, string>)

  /** The two entries of a scan response that the loader reads. */
  datatype ScanResponse = ScanResponse(count: int, items: seq<Item>)

  datatype Option<T> = None | Some(value: T)

  /** Reading `items[0]` of an empty list raises `IndexError`. */
  datatype ScanError = IndexError

  datatype Result<T> = Ok(value: T) | Err(error: ScanError)

  /** What the load step receives: the watermark and the initial-load flag. */
  datatype LoadParameters = LoadParameters(latestDate: Option<string>, initialLoad: bool)

  /** `tableIsEmpty`: the response reports no items. */
  predicate TableIsEmpty(count: int)
  {
    count == 0
  }

  /** d is the date of some item and no item is dated later. */
  predicate IsLatest(items: seq<Item>, d: string)
  {
    (exists i :: 0 <= i < |items| && items[i].date == d) &&
    forall i :: 0 <= i < |items| ==> DateLe(items[i].date, d)
  }

  /** Newest first: the order `sort(key=date, reverse=True)` leaves behind. */
  predicate Descending(s: seq<Item>)
  {
    forall k, l :: 0 <= k < l < |s| ==> DateLe(s[l].date, s[k].date)
  }

  /** Every date in s is at most m, and m is at most x: so every date is at most x. */
  lemma RaiseBound(s: seq<Item>, m: string, x: string)
    requires forall i :: 0 <= i < |s| ==> DateLe(s[i].date, m)
    requires DateLe(m, x)
    ensures forall i :: 0 <= i < |s| ==> DateLe(s[i].date, x)
  {
    forall i | 0 <= i < |s|
      ensures DateLe(s[i].date, x)
    {
      DateLeTransitive(s[i].date, m, x);
    }
  }

  /** The greatest date among the items. */
  function MaxDate(items: seq<Item>): (d: string)
    requires |items| > 0
    ensures IsLatest(items, d)
    decreases |items|
  {
    if |items| == 1 then
      DateLeReflexive(items[0].date);
      items[0].date
    else
      var rest := MaxDate(items[1..]);
      assert forall i :: 1 <= i < |items| ==> items[i] == items[1..][i - 1];
      if DateLe(items[0].date, rest) then
        assert items[1..][0] == items[1];
        rest
      else
        DateLeTotal(items[0].date, rest);
        DateLeReflexive(items[0].date);
        RaiseBound(items[1..], rest, items[0].date);
        items[0].date
  }

  /** There is only one latest date. */
  lemma LatestIsUnique(items: seq<Item>, d: string, e: string)
    requires IsLatest(items, d) && IsLatest(items, e)
    ensures d == e
  {
    var i :| 0 <= i < |items| && items[i].date == d;
    var j :| 0 <= j < |items| && items[j].date == e;
    DateLeAntisymmetric(d, e);
  }

  /** `getLatestRecordDate` as a value: nothing for an empty table, the
      greatest date otherwise, and `IndexError` when `Count` is non-zero but
      `Items` is empty. */
  function LatestRecordDate(response: ScanResponse): (r: Result<Option<string>>)
    ensures r == Ok(None) <==> TableIsEmpty(response.count)
    ensures r.Err? <==> !TableIsEmpty(response.count) && response.items == []
    ensures r.Ok? && r.value.Some? ==> IsLatest(response.items, r.value.value)
  {
    if TableIsEmpty(response.count) then Ok(None)
    else if response.items == [] then Err(IndexError)
    else Ok(Some(MaxDate(response.items)))
  }

  /** Conversely, any latest date of a non-empty table is what is returned. */
  lemma LatestRecordDateIsTheLatest(response: ScanResponse, d: string)
    requires !TableIsEmpty(response.count)
    requires IsLatest(response.items, d)
    ensures LatestRecordDate(response) == Ok(Some(d))
  {
    LatestIsUnique(response.items, d, MaxDate(response.items));
  }

  /** The head of a newest-first list is its latest date. */
  lemma HeadOfDescendingIsLatest(s: seq<Item>)
    requires |s| > 0 && Descending(s)
    ensures IsLatest(s, s[0].date)
  {
    DateLeReflexive(s[0].date);
  }

  /** Reordering the items does not change which date is the latest. */
  lemma PermutationKeepsLatest(s: seq<Item>, t: seq<Item>, d: string)
    requires multiset(s) == multiset(t)
    requires IsLatest(s, d)
    ensures IsLatest(t, d)
  {
    var i :| 0 <= i < |s| && s[i].date == d;
    assert s[i] in multiset(t);
    var j :| 0 <= j < |t| && t[j] == s[i];
    forall j' | 0 <= j' < |t|
      ensures DateLe(t[j'].date, d)
    {
      assert t[j'] in multiset(s);
      var i' :| 0 <= i' < |s| && s[i'] == t[j'];
    }
  }

  /** While a[i] moves left into the newest-first prefix a[..i]: leaving out
      position j, s[..i+1] is newest first, and the moving record at j is
      no older than anything already passed. */
  predicate Inserting(s: seq<Item>, j: int, i: int)
    requires 0 <= j <= i < |s|
  {
    (forall k, l :: 0 <= k < l <= i && k != j && l != j ==> DateLe(s[l].date, s[k].date)) &&
    (forall l :: j < l <= i ==> DateLe(s[l].date, s[j].date))
  }

  /** Moving the record one place left past an older one keeps `Inserting`. */
  lemma InsertingStep(s: seq<Item>, j: int, i: int)
    requires 0 < j <= i < |s|
    requires Inserting(s, j, i)
    requires DateLt(s[j - 1].date, s[j].date)
    ensures Inserting(s[j - 1 := s[j]][j := s[j - 1]], j - 1, i)
  {
    DateLeTotal(s[j - 1].date, s[j].date);
  }

  /** Once the record stops, the prefix up to i is newest first. */
  lemma InsertingDone(s: seq<Item>, j: int, i: int)
    requires 0 <= j <= i < |s|
    requires Inserting(s, j, i)
    requires j == 0 || !DateLt(s[j - 1].date, s[j].date)
    ensures Descending(s[..i + 1])
  {
    forall k | 0 <= k < j
      ensures DateLe(s[j].date, s[k].date)
    {
      if k < j - 1 {
        DateLeTransitive(s[j].date, s[j - 1].date, s[k].date);
      }
    }
  }

  method Swap(a: array<Item>, i: int, j: int)
    requires 0 <= i < j < a.Length
    modifies a
    ensures a[..] == old(a[..])[i := old(a[j])][j := old(a[i])]
    ensures multiset(a[..]) == multiset(old(a[..]))
  {
    a[i], a[j] := a[j], a[i];
  }

  /** `items.sort(key=lambda x: x['date'], reverse=True)`: sorts the list in
      place, newest first, keeping the same records. */
  method SortByDateDescending(a: array<Item>)
    modifies a
    ensures Descending(a[..])
    ensures multiset(a[..]) == multiset(old(a[..]))
  {
    var i := 0;
    while i < a.Length
      invariant 0 <= i <= a.Length
      invariant Descending(a[..i])
      invariant multiset(a[..]) == multiset(old(a[..]))
    {
      // insert a[i] into the sorted prefix, moving it past every older date
      var j := i;
      while j > 0 && DateLt(a[j - 1].date, a[j].date)
        invariant 0 <= j <= i
        invariant Inserting(a[..], j, i)
        invariant multiset(a[..]) == multiset(old(a[..]))
      {
        InsertingStep(a[..], j, i);
        Swap(a, j - 1, j);
        j := j - 1;
      }
      InsertingDone(a[..], j, i);
      assert a[..i + 1] == a[..][..i + 1];
      i := i + 1;
    }
    assert a[..] == a[..a.Length];
  }

  /** `getLatestRecordDate`: on a non-empty table, sorts `Items` in place and
      returns the head's date; on an empty one, returns nothing and leaves
      `Items` alone. */
  method GetLatestRecordDate(count: int, items: array<Item>) returns (r: Result<Option<string>>)
    modifies items
    ensures r == LatestRecordDate(ScanResponse(count, old(items[..])))
    ensures TableIsEmpty(count) ==> items[..] == old(items[..])
    ensures !TableIsEmpty(count) ==> Descending(items[..]) && multiset(items[..]) == multiset(old(items[..]))
  {
    if TableIsEmpty(count) {
      return Ok(None);
    }
    SortByDateDescending(items);
    if items.Length == 0 {
      return Err(IndexError);
    }
    r := Ok(Some(items[0].date));
    HeadOfDescendingIsLatest(items[..]);
    PermutationKeepsLatest(items[..], old(items[..]), items[0].date);
    LatestRecordDateIsTheLatest(ScanResponse(count, old(items[..])), items[0].date);
  }

  /** `main`'s derivation of `latestDate` and `intialLoad` from one scan
      response; an `IndexError` from the first stops the run before loading. */
  function LoadParametersOf(response: ScanResponse): (r: Result<LoadParameters>)
    ensures r.Err? <==> response.count != 0 && response.items == []
    ensures r.Ok? ==> (r.value.initialLoad <==> r.value.latestDate.None?)
    ensures r.Ok? ==> (r.value.initialLoad <==> response.count == 0)
    ensures r.Ok? && r.value.latestDate.Some? ==> IsLatest(response.items, r.value.latestDate.value)
  {
    match LatestRecordDate(response)
    case Err(e) => Err(e)
    case Ok(latestDate) => Ok(LoadParameters(latestDate, TableIsEmpty(response.count)))
  }

  /** The same derivation on the live response, whose `Items` the first call sorts. */
  method DeriveLoadParameters(count: int, items: array<Item>) returns (r: Result<LoadParameters>)
    modifies items
    ensures r == LoadParametersOf(ScanResponse(count, old(items[..])))
    ensures TableIsEmpty(count) ==> items[..] == old(items[..])
    ensures !TableIsEmpty(count) ==> Descending(items[..]) && multiset(items[..]) == multiset(old(items[..]))
  {
    var latestDate := GetLatestRecordDate(count, items);
    if latestDate.Err? {
      return Err(latestDate.error);
    }
    var initialLoad := TableIsEmpty(count);
    r := Ok(LoadParameters(latestDate.value, initialLoad));
  }
}
