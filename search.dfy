/** The local search of the item list: `handleSearch` lower-cases the query,
    clears the results when the query is blank, and otherwise keeps, in list
    order, the items whose `_id`, `name` or present `description` contains
    the lower-cased query. */
module Search {
  import opened Text

  datatype Option<T> = None | Some(value: T)

  /** An item as the server returns it: `{ _id, name, description }`, where
      `description` may be `null` (None). */
  datatype Item = Item(id: string, name: string, description: Option<string>)

  /** `item.description && …`: a description that is null, undefined or the
      empty string is false in JavaScript and never consulted. */
  predicate HasDescription(item: Item) {
    item.description.Some? && item.description.value != []
  }

  /** The filter predicate of `handleSearch`, for an already lower-cased
      `term`: the empty term matches every item, and a match needs a
      consulted field at least as long as the term. */
  predicate Matches(item: Item, term: string)
    ensures term == [] ==> Matches(item, term)
    ensures Matches(item, term) ==>
      |term| <= |item.id| || |term| <= |item.name| ||
      (HasDescription(item) && |term| <= |item.description.value|)
  {
    Includes(Lower(item.id), term) ||
    Includes(Lower(item.name), term) ||
    (HasDescription(item) && Includes(Lower(item.description.value), term))
  }

  /** The callback `handleSearch` passes to `filter`. */
  function MatcherFor(term: string): Item -> bool {
    item => Matches(item, term)
  }

  /** `xs.filter(keep)`: the elements of `xs` that `keep` accepts. */
  function Filter<T>(xs: seq<T>, keep: T -> bool): (r: seq<T>)
    ensures |r| <= |xs|
    ensures forall x :: x in r ==> x in xs && keep(x)
    ensures forall x :: x in xs && keep(x) ==> x in r
  {
    if xs == [] then []
    else (if keep(xs[0]) then [xs[0]] else []) + Filter(xs[1..], keep)
  }

  /** The value `handleSearch` stores in `searchResults` for the current
      `search` text and item list. */
  function SearchResults(items: seq<Item>, search: string): seq<Item> {
    var searchTerm := Lower(search);
    if IsBlank(searchTerm) then [] else Filter(items, MatcherFor(searchTerm))
  }

  ghost predicate Increasing(a: seq<nat>) {
    forall k, l :: 0 <= k < l < |a| ==> a[k] < a[l]
  }

  /** `r` takes its `k`-th element from position `idx[k]` of `xs`. */
  ghost predicate Picks<T>(xs: seq<T>, r: seq<T>, idx: seq<nat>) {
    |idx| == |r| && forall k :: 0 <= k < |idx| ==> idx[k] < |xs| && r[k] == xs[idx[k]]
  }

  /** The positions in `idx` are exactly those whose element `keep` accepts. */
  ghost predicate Exactly<T>(xs: seq<T>, idx: seq<nat>, keep: T -> bool) {
    forall j :: 0 <= j < |xs| ==> (keep(xs[j]) <==> j in idx)
  }

  /** `idx` lists, in increasing order, the positions of `xs` that `r` takes
      its elements from, and these are exactly the positions `keep` accepts:
      `r` is the subsequence of the accepted elements. */
  ghost predicate Selection<T>(xs: seq<T>, r: seq<T>, idx: seq<nat>, keep: T -> bool) {
    Picks(xs, r, idx) && Increasing(idx) && Exactly(xs, idx, keep)
  }

  /** The positions `idx` moved one place to the right. */
  ghost function Shift(idx: seq<nat>): (r: seq<nat>)
    ensures |r| == |idx|
    ensures forall k :: 0 <= k < |idx| ==> r[k] == idx[k] + 1
  {
    seq(|idx|, k requires 0 <= k < |idx| => idx[k] + 1)
  }

  /** Shifting keeps the order, and position 0 can go in front. */
  lemma ShiftIncreasing(idx: seq<nat>)
    requires Increasing(idx)
    ensures Increasing(Shift(idx)) && Increasing([0] + Shift(idx))
  {
    var all := [0] + Shift(idx);
    forall k, l | 0 <= k < l < |all| ensures all[k] < all[l] {
      assert all[l] == Shift(idx)[l - 1];
      if k > 0 {
        assert all[k] == Shift(idx)[k - 1];
      }
    }
  }

  /** Picks from the tail, shifted, are picks from the whole list; the head
      can go in front. */
  lemma ShiftPicks<T>(xs: seq<T>, rest: seq<T>, idx: seq<nat>)
    requires xs != [] && Picks(xs[1..], rest, idx)
    ensures Picks(xs, rest, Shift(idx)) && Picks(xs, [xs[0]] + rest, [0] + Shift(idx))
  {
    var sh, r, all := Shift(idx), [xs[0]] + rest, [0] + Shift(idx);
    forall k | 0 <= k < |idx| ensures sh[k] < |xs| && rest[k] == xs[sh[k]] {
      assert rest[k] == xs[1..][idx[k]];
    }
    forall k | 0 < k < |all| ensures all[k] < |xs| && r[k] == xs[all[k]] {
      assert all[k] == sh[k - 1] && r[k] == rest[k - 1];
    }
  }

  /** Position `j + 1` is in the shifted positions exactly when `j` is in
      the original ones, and position 0 never is. */
  lemma ShiftMember(idx: seq<nat>, j: nat)
    ensures j + 1 in Shift(idx) <==> j in idx
    ensures 0 !in Shift(idx)
  {
    if j in idx {
      var k :| 0 <= k < |idx| && idx[k] == j;
      assert Shift(idx)[k] == j + 1;
    }
  }

  /** The accepted positions of the tail, shifted, are the accepted positions
      of the whole list, with 0 added when the head is accepted. */
  lemma ShiftExactly<T>(xs: seq<T>, idx: seq<nat>, keep: T -> bool)
    requires xs != [] && Exactly(xs[1..], idx, keep)
    ensures keep(xs[0]) ==> Exactly(xs, [0] + Shift(idx), keep)
    ensures !keep(xs[0]) ==> Exactly(xs, Shift(idx), keep)
  {
    var sh, all := Shift(idx), [0] + Shift(idx);
    assert all[0] == 0;
    ShiftMember(idx, 0);
    forall j | 0 < j < |xs| ensures (keep(xs[j]) <==> j in sh) && (j in all <==> j in sh) {
      assert xs[j] == xs[1..][j - 1];
      ShiftMember(idx, j - 1);
    }
  }

  /** The filter keeps exactly the accepted elements, in their original
      order. */
  lemma {:induction false} FilterIsOrderedSelection<T>(xs: seq<T>, keep: T -> bool)
    ensures exists idx :: Selection(xs, Filter(xs, keep), idx, keep)
  {
    if xs == [] {
      assert Selection(xs, Filter(xs, keep), [], keep);
    } else {
      FilterIsOrderedSelection(xs[1..], keep);
      var rest := Filter(xs[1..], keep);
      var idx :| Selection(xs[1..], rest, idx, keep);
      ShiftIncreasing(idx);
      ShiftPicks(xs, rest, idx);
      ShiftExactly(xs, idx, keep);
      var r := Filter(xs, keep);
      if keep(xs[0]) {
        assert r == [xs[0]] + rest;
        assert Selection(xs, r, [0] + Shift(idx), keep);
      } else {
        assert r == rest;
        assert Selection(xs, r, Shift(idx), keep);
      }
    }
  }

  /** The head of an increasing sequence is its least element, and every
      other element is in the tail, above the head. */
  lemma HeadIsLeast(a: seq<nat>, x: nat)
    requires Increasing(a) && x in a
    ensures a[0] <= x
    ensures x != a[0] ==> x in a[1..]
    ensures x in a[1..] ==> a[0] < x
  {
    var m :| 0 <= m < |a| && a[m] == x;
    if m > 0 {
      assert a[1..][m - 1] == x;
    }
    if x in a[1..] {
      var n :| 0 <= n < |a| - 1 && a[1..][n] == x;
      assert a[n + 1] == x;
    }
  }

  /** Two increasing sequences with the same elements are equal. */
  lemma {:induction false} IncreasingSameElements(a: seq<nat>, b: seq<nat>)
    requires Increasing(a) && Increasing(b)
    requires forall x :: x in a <==> x in b
    ensures a == b
  {
    assert a != [] ==> a[0] in b;
    assert b != [] ==> b[0] in a;
    if a != [] {
      HeadIsLeast(a, b[0]);
      HeadIsLeast(b, a[0]);
      forall x ensures x in a[1..] <==> x in b[1..] {
        if x in a[1..] {
          HeadIsLeast(a, x);
          HeadIsLeast(b, x);
        }
        if x in b[1..] {
          HeadIsLeast(b, x);
          HeadIsLeast(a, x);
        }
      }
      IncreasingSameElements(a[1..], b[1..]);
      assert a == [a[0]] + a[1..] && b == [b[0]] + b[1..];
    }
  }

  /** A selection of the matching positions determines the result: together
      with FilterIsOrderedSelection, the filter's result is the one and only
      order-preserving sequence of the matching items. */
  lemma SelectionIsUnique<T>(xs: seq<T>, r1: seq<T>, i1: seq<nat>,
                             r2: seq<T>, i2: seq<nat>, keep: T -> bool)
    requires Selection(xs, r1, i1, keep) && Selection(xs, r2, i2, keep)
    ensures r1 == r2
  {
    forall x ensures x in i1 <==> x in i2 {
      if x in i1 {
        var k :| 0 <= k < |i1| && i1[k] == x;
      }
      if x in i2 {
        var k :| 0 <= k < |i2| && i2[k] == x;
      }
    }
    IncreasingSameElements(i1, i2);
  }

  /** A blank query (before or after lower-casing, which is the same) clears
      the results whatever the item list holds. */
  lemma BlankQueryClears(items: seq<Item>, search: string)
    requires IsBlank(search)
    ensures SearchResults(items, search) == []
  {
    BlankLowerIffBlank(search);
  }

  /** For a non-blank query an item is among the results exactly when it is
      in the list and matches the lower-cased query. */
  lemma NonBlankQueryMembers(items: seq<Item>, search: string)
    requires !IsBlank(search)
    ensures forall x :: x in SearchResults(items, search) <==> x in items && Matches(x, Lower(search))
  {
    BlankLowerIffBlank(search);
  }

  /** For a non-blank query the results are the items that match the
      lower-cased query, in list order, and no more of them than there are
      items. */
  lemma NonBlankQuerySelects(items: seq<Item>, search: string)
    requires !IsBlank(search)
    ensures var r := SearchResults(items, search);
      && |r| <= |items|
      && exists idx :: Selection(items, r, idx, MatcherFor(Lower(search)))
  {
    BlankLowerIffBlank(search);
    FilterIsOrderedSelection(items, MatcherFor(Lower(search)));
  }

  /** Searching for `q` and for `q` lower-cased give the same results. */
  lemma CaseInsensitive(items: seq<Item>, search: string)
    ensures SearchResults(items, Lower(search)) == SearchResults(items, search)
  {
    LowerIdempotent(search);
  }

  /** An item without a (non-empty) description matches only through its
      `_id` or its `name`, and a description that is null matches exactly as
      one that is the empty string. */
  lemma MissingDescriptionIgnored(item: Item, term: string)
    requires !HasDescription(item)
    ensures Matches(item, term) <==> Includes(Lower(item.id), term) || Includes(Lower(item.name), term)
    ensures Matches(item, term) <==> Matches(item.(description := None), term)
  {
  }

  /** A string without upper-case ASCII letters is its own lower case. */
  lemma LowerOfLowerCase(s: string)
    requires forall i :: 0 <= i < |s| ==> !('A' <= s[i] <= 'Z')
    ensures Lower(s) == s
  {
  }

  /** The lower case of the catalog's sample item. */
  lemma LowerSample()
    ensures Lower("Pen") == "pen" && Lower("Blue") == "blue"
  {
    var p := Lower("Pen");
    assert p[0] == 'p' && p[1] == 'e' && p[2] == 'n';
    var b := Lower("Blue");
    assert b[0] == 'b' && b[1] == 'l' && b[2] == 'u' && b[3] == 'e';
  }

  /** Filtering a one-element list keeps it exactly when `keep` accepts its
      element. */
  lemma FilterSingleton<T>(x: T, keep: T -> bool)
    ensures Filter([x], keep) == if keep(x) then [x] else []
  {
    assert [x][1..] == [];
  }

  /** A non-blank search of a one-item list finds the item exactly when it
      matches the lower-cased query. */
  lemma OneItemResults(x: Item, search: string)
    requires !IsBlank(search)
    ensures SearchResults([x], search) == if Matches(x, Lower(search)) then [x] else []
  {
    var term := Lower(search);
    BlankLowerIffBlank(search);
    FilterSingleton(x, MatcherFor(term));
  }

  /** A query that is already lower case and starts with a non-blank
      character is its own search term and is not blank. */
  lemma LowerCaseQuery(q: string)
    requires q != [] && !IsSpace(q[0])
    requires forall i :: 0 <= i < |q| ==> !('A' <= q[i] <= 'Z')
    ensures Lower(q) == q && !IsBlank(q)
  {
    LowerOfLowerCase(q);
    NotBlankWhenHeadNotSpace(q);
  }

  /** The sample item `{_id: "1", name: "Pen", description: "Blue"}`
      matches "pen" through its name. */
  lemma SampleMatchesPen()
    ensures Matches(Item("1", "Pen", Some("Blue")), "pen")
  {
    LowerSample();
    assert OccursAt("pen", "pen", 0);
  }

  /** The sample item does not match "pen ": the term is longer than the
      id and the name, and "blue" has no 'p'. */
  lemma SampleMissesPenSpace()
    ensures !Matches(Item("1", "Pen", Some("Blue")), "pen ")
  {
    LowerSample();
    assert |Lower("1")| < |"pen "|;
    FirstCharAbsent("blue", "pen ");
  }

  /** The sample item does not match "xyz". */
  lemma SampleMissesXyz()
    ensures !Matches(Item("1", "Pen", Some("Blue")), "xyz")
  {
    LowerSample();
    assert |Lower("1")| < |"xyz"|;
    FirstCharAbsent("pen", "xyz");
    FirstCharAbsent("blue", "xyz");
  }

  /** The search scenario of the catalog, part one: "pen" finds the pen. */
  lemma PenFound()
    ensures SearchResults([Item("1", "Pen", Some("Blue"))], "pen") == [Item("1", "Pen", Some("Blue"))]
  {
    LowerCaseQuery("pen");
    SampleMatchesPen();
    OneItemResults(Item("1", "Pen", Some("Blue")), "pen");
  }

  /** Only the blank test trims: the trailing blank of "pen " stays in the
      term, so it does not find the item named "Pen". */
  lemma TrailingSpaceKept()
    ensures SearchResults([Item("1", "Pen", Some("Blue"))], "pen ") == []
  {
    LowerCaseQuery("pen ");
    SampleMissesPenSpace();
    OneItemResults(Item("1", "Pen", Some("Blue")), "pen ");
  }

  /** The search scenario, part two: "xyz" finds nothing. */
  lemma XyzNotFound()
    ensures SearchResults([Item("1", "Pen", Some("Blue"))], "xyz") == []
  {
    LowerCaseQuery("xyz");
    SampleMissesXyz();
    OneItemResults(Item("1", "Pen", Some("Blue")), "xyz");
  }
}
