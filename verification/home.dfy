/** The listing view: the records are read once from the storage slot, and
    the cards shown are those whose name contains the search text, ignoring
    letter case. */
module Home {
  import opened Text
  import opened Records

  /** The view's state: the loaded records and the search box's text. */
  datatype HomeView = HomeView(data: seq<Record>, search: string)

  /** Mounting reads the slot once; the search box starts empty. */
  function Mount(slot: Slot): (h: HomeView)
    ensures h.data == Load(slot) && h.search == ""
  {
    HomeView(Load(slot), "")
  }

  /** Typing in the search box replaces the search text, nothing else. */
  function SetSearch(h: HomeView, v: string): (r: HomeView)
    ensures r.data == h.data && r.search == v
  {
    h.(search := v)
  }

  /** The view after mounting and a sequence of search edits. */
  function Session(slot: Slot, edits: seq<string>): HomeView
    decreases |edits|
  {
    if edits == [] then Mount(slot)
    else SetSearch(Session(slot, edits[..|edits| - 1]), edits[|edits| - 1])
  }

  /** `item.name.toLowerCase().includes(search.toLowerCase())`. */
  predicate NameMatches(r: Record, search: string) {
    Contains(ToLower(r.name), ToLower(search))
  }

  /** `data.filter(...)` with that test. */
  function FilterByName(data: seq<Record>, search: string): (r: seq<Record>)
    ensures |r| <= |data|
    ensures forall x :: x in r ==> x in data && NameMatches(x, search)
  {
    if data == [] then []
    else (if NameMatches(data[0], search) then [data[0]] else []) + FilterByName(data[1..], search)
  }

  /** The cards the view shows. */
  function Visible(h: HomeView): seq<Record> {
    FilterByName(h.data, h.search)
  }

  /** `a` can be obtained from `b` by deleting elements: an order-preserving
      subsequence. */
  ghost predicate IsSubsequence<T>(a: seq<T>, b: seq<T>)
    decreases |b|
  {
    || a == []
    || (b != [] && ((a[0] == b[0] && IsSubsequence(a[1..], b[1..])) || IsSubsequence(a, b[1..])))
  }

  /** The shown records keep their relative order from the stored ones. */
  lemma {:induction false} FilterIsSubsequence(data: seq<Record>, search: string)
    ensures IsSubsequence(FilterByName(data, search), data)
  {
    if data != [] {
      FilterIsSubsequence(data[1..], search);
      var rest := FilterByName(data[1..], search);
      if NameMatches(data[0], search) {
        assert ([data[0]] + rest)[1..] == rest;
      } else {
        assert [] + rest == rest;
      }
    }
  }

  /** A record is shown iff it is stored and its name matches. */
  lemma {:induction false} FilterMembership(data: seq<Record>, search: string, x: Record)
    ensures x in FilterByName(data, search) <==> x in data && NameMatches(x, search)
  {
    if data != [] {
      FilterMembership(data[1..], search, x);
      assert data == [data[0]] + data[1..];
    }
  }

  /** Each matching record is shown as many times as it is stored, and no
      other record is shown. */
  lemma {:induction false} FilterCounts(data: seq<Record>, search: string, x: Record)
    ensures multiset(FilterByName(data, search))[x] == if NameMatches(x, search) then multiset(data)[x] else 0
  {
    if data != [] {
      FilterCounts(data[1..], search, x);
      assert data == [data[0]] + data[1..];
    }
  }

  /** Filtering distributes over concatenation. */
  lemma {:induction false} FilterConcat(a: seq<Record>, b: seq<Record>, search: string)
    ensures FilterByName(a + b, search) == FilterByName(a, search) + FilterByName(b, search)
  {
    if a == [] {
      assert a + b == b;
    } else {
      assert (a + b)[1..] == a[1..] + b;
      FilterConcat(a[1..], b, search);
    }
  }

  /** An empty search shows every stored record, in order. */
  lemma {:induction false} FilterEmptySearch(data: seq<Record>)
    ensures FilterByName(data, "") == data
  {
    if data != [] {
      assert ToLower("") == "";
      FilterEmptySearch(data[1..]);
      assert data == [data[0]] + data[1..];
    }
  }

  /** A search no name contains shows nothing. */
  lemma {:induction false} FilterNoMatch(data: seq<Record>, search: string)
    requires forall i :: 0 <= i < |data| ==> !NameMatches(data[i], search)
    ensures FilterByName(data, search) == []
  {
    if data != [] {
      FilterNoMatch(data[1..], search);
    }
  }

  /** The search text's letter case does not matter. */
  lemma {:induction false} FilterCaseInsensitive(data: seq<Record>, search: string)
    ensures FilterByName(data, search) == FilterByName(data, ToLower(search))
    ensures FilterByName(data, search) == FilterByName(data, ToUpper(search))
  {
    ToLowerIdempotent(search);
    ToLowerOfUpper(search);
    if data != [] {
      FilterCaseInsensitive(data[1..], search);
    }
  }

  /** The shown records match the search in the substring sense: some
      offset of the lower-cased name holds the lower-cased search. */
  lemma ShownMeansSubstring(data: seq<Record>, search: string, x: Record)
    requires x in FilterByName(data, search)
    ensures exists i :: OccursAt(ToLower(x.name), ToLower(search), i)
  {
    ContainsIff(ToLower(x.name), ToLower(search));
  }

  /** A submission followed by a visit to the listing: the new record is
      shown after every previously shown one exactly when its name matches. */
  lemma FilterAfterAppend(slot: Slot, rec: Record, search: string)
    ensures FilterByName(Load(Append(slot, rec)), search)
         == FilterByName(Load(slot), search) + (if NameMatches(rec, search) then [rec] else [])
  {
    FilterConcat(Load(slot), [rec], search);
    assert FilterByName([rec], search) == (if NameMatches(rec, search) then [rec] else []) + FilterByName([], search);
  }

  /** Searching never changes the loaded records: they stay what the slot
      held at mount, and the cards shown are those records filtered by the
      latest search text (all of them before any search). */
  lemma {:induction false} SessionKeepsData(slot: Slot, edits: seq<string>)
    ensures Session(slot, edits).data == Load(slot)
    ensures edits != [] ==> Session(slot, edits).search == edits[|edits| - 1]
    ensures edits == [] ==> Visible(Session(slot, edits)) == Load(slot)
    ensures edits != [] ==> Visible(Session(slot, edits)) == FilterByName(Load(slot), edits[|edits| - 1])
    decreases |edits|
  {
    if edits == [] {
      FilterEmptySearch(Load(slot));
    } else {
      SessionKeepsData(slot, edits[..|edits| - 1]);
    }
  }
}
