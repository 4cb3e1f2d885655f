/**
 The catalog-number index: the objects sorted by catalog number, and the
 lower-bound binary search that looks a number up in it.
 */
module CatalogIndex {
  import opened CatalogTypes

  /** PtrCatalogNumberOrderingPredicate: orders objects by catalog number. */
  predicate CatalogNumberLess(a: Dso, b: Dso)
  {
    a.catalogNumber < b.catalogNumber
  }

  /** The ordering is a strict weak ordering whose equivalent objects are
      those with equal catalog numbers, as sorting and lower-bound search
      require of their comparator. */
  lemma CatalogNumberOrdering(a: Dso, b: Dso, c: Dso)
    ensures !CatalogNumberLess(a, a)
    ensures CatalogNumberLess(a, b) ==> !CatalogNumberLess(b, a)
    ensures CatalogNumberLess(a, b) && CatalogNumberLess(b, c) ==> CatalogNumberLess(a, c)
    ensures !CatalogNumberLess(a, b) && !CatalogNumberLess(b, a) <==> a.catalogNumber == b.catalogNumber
  {
  }

  /** No object is ordered before one that precedes it: non-decreasing catalog
      numbers, duplicates allowed. */
  predicate SortedByNumber(s: seq<Dso>)
  {
    forall i, j | 0 <= i < j < |s| :: !CatalogNumberLess(s[j], s[i])
  }

  /** A sorted sequence stays sorted with an object in front that no element
      is ordered before. */
  lemma SortedCons(a: Dso, rest: seq<Dso>)
    requires SortedByNumber(rest)
    requires forall y | y in rest :: !CatalogNumberLess(y, a)
    ensures SortedByNumber([a] + rest)
  {
    var r := [a] + rest;
    forall i, j | 0 <= i < j < |r| ensures !CatalogNumberLess(r[j], r[i]) {
      assert r[j] == rest[j - 1];
      if i > 0 {
        assert r[i] == rest[i - 1];
      }
    }
  }

  /** No element of a sorted sequence is ordered before its first element. */
  lemma FirstIsLeast(s: seq<Dso>)
    requires SortedByNumber(s) && |s| > 0
    ensures forall y | y in s :: !CatalogNumberLess(y, s[0])
  {
    forall y | y in s ensures !CatalogNumberLess(y, s[0]) {
      var j :| 0 <= j < |s| && s[j] == y;
      if j > 0 {
        assert !CatalogNumberLess(s[j], s[0]);
      }
    }
  }

  /** Inserts x in front of the first element that is not ordered before it. */
  function InsertByNumber(x: Dso, s: seq<Dso>): (r: seq<Dso>)
    requires SortedByNumber(s)
    ensures SortedByNumber(r)
    ensures multiset(r) == multiset(s) + multiset{x}
    ensures forall y | y in r :: y == x || y in s
    decreases |s|
  {
    if |s| == 0 then
      [x]
    else if !CatalogNumberLess(s[0], x) then
      FirstIsLeast(s);
      SortedCons(x, s);
      [x] + s
    else
      assert s == [s[0]] + s[1..];
      FirstIsLeast(s);
      var rest := InsertByNumber(x, s[1..]);
      SortedCons(s[0], rest);
      [s[0]] + rest
  }

  /** The sort of buildIndexes: a permutation of s in catalog-number order. */
  function SortByNumber(s: seq<Dso>): (r: seq<Dso>)
    ensures SortedByNumber(r)
    ensures multiset(r) == multiset(s)
    ensures |r| == |s|
    decreases |s|
  {
    if |s| == 0 then []
    else
      assert s == [s[0]] + s[1..];
      InsertByNumber(s[0], SortByNumber(s[1..]))
  }

  /** std::lower_bound over index[first .. first + count): the first position
      whose object is not ordered before number n. */
  function LowerBound(index: seq<Dso>, n: CatalogNumber, first: nat, count: nat): (k: nat)
    requires SortedByNumber(index)
    requires first + count <= |index|
    requires forall i | 0 <= i < first :: index[i].catalogNumber < n
    requires forall i | first + count <= i < |index| :: index[i].catalogNumber >= n
    ensures first <= k <= first + count
    ensures forall i | 0 <= i < k :: index[i].catalogNumber < n
    ensures forall i | k <= i < |index| :: index[i].catalogNumber >= n
    decreases count
  {
    if count == 0 then first
    else
      var step := count / 2;
      var it := first + step;
      if index[it].catalogNumber < n then
        LowerBound(index, n, it + 1, count - (step + 1))
      else
        LowerBound(index, n, first, step)
  }

  /** find(catalogNumber) on a sorted index: the object at the lower bound if
      it carries n, otherwise nothing. */
  function FindInIndex(index: seq<Dso>, n: CatalogNumber): (r: Option<Dso>)
    requires SortedByNumber(index)
    ensures r.Some? ==> r.value.catalogNumber == n && r.value in index
    ensures r.None? <==> forall i | 0 <= i < |index| :: index[i].catalogNumber != n
  {
    var k := LowerBound(index, n, 0, |index|);
    if k != |index| && index[k].catalogNumber == n then Some(index[k]) else None
  }

  /** Reference definition: a front-to-back scan for the first object with number n. */
  function FirstWithNumber(s: seq<Dso>, n: CatalogNumber): Option<Dso>
  {
    if |s| == 0 then None
    else if s[0].catalogNumber == n then Some(s[0])
    else FirstWithNumber(s[1..], n)
  }

  lemma {:induction false} FirstWithNumberAt(s: seq<Dso>, n: CatalogNumber, k: nat)
    requires k <= |s|
    requires forall j | 0 <= j < k :: s[j].catalogNumber != n
    ensures k < |s| && s[k].catalogNumber == n ==> FirstWithNumber(s, n) == Some(s[k])
    ensures (forall j | k <= j < |s| :: s[j].catalogNumber != n) ==> FirstWithNumber(s, n) == None
    decreases k, |s|
  {
    if |s| == 0 {
    } else if k == 0 {
      if s[0].catalogNumber != n {
        assert forall j | 0 <= j < |s| - 1 :: s[1..][j] == s[j + 1];
        FirstWithNumberAt(s[1..], n, 0);
      }
    } else {
      assert forall j | 0 <= j < |s| - 1 :: s[1..][j] == s[j + 1];
      FirstWithNumberAt(s[1..], n, k - 1);
    }
  }

  /** The binary search finds exactly what the linear scan finds: with
      duplicates, the first object with number n in index order. */
  lemma FindIsFirstMatch(index: seq<Dso>, n: CatalogNumber)
    requires SortedByNumber(index)
    ensures FindInIndex(index, n) == FirstWithNumber(index, n)
  {
    var k := LowerBound(index, n, 0, |index|);
    FirstWithNumberAt(index, n, k);
  }
}
