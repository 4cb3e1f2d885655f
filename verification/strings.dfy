/**
 String helpers the catalog loader relies on: locating a delimiter
 (std::string::find), splitting a delimited name list, joining names with a
 separator, and ASCII case-insensitive comparison of type names.
 */
module Strings {
  import opened CatalogTypes

  /** Number of occurrences of c in s. */
  function CountChar(s: string, c: char): nat
  {
    if |s| == 0 then 0 else (if s[0] == c then 1 else 0) + CountChar(s[1..], c)
  }

  /** The position of the first c in s at or after from, or None when there is
      none (std::string::find returning npos). */
  function FindChar(s: string, c: char, from: nat): (r: Option<nat>)
    requires from <= |s|
    ensures r.Some? ==> from <= r.value < |s| && s[r.value] == c
    ensures r.Some? ==> forall i :: from <= i < r.value ==> s[i] != c
    ensures r.None? ==> forall i :: from <= i < |s| ==> s[i] != c
    decreases |s| - from
  {
    if from == |s| then None
    else if s[from] == c then Some(from)
    else FindChar(s, c, from + 1)
  }

  /** The pieces of s[start..] delimited by c, scanning from start the way the
      loader's while loop does: each step takes the text up to the next c (or
      to the end) and resumes one past that c. */
  function SplitFrom(s: string, c: char, start: nat): seq<string>
    requires start <= |s|
    decreases |s| - start
  {
    match FindChar(s, c, start)
    case None => [s[start..]]
    case Some(next) => [s[start..next]] + SplitFrom(s, c, next + 1)
  }

  function Split(s: string, c: char): seq<string>
  {
    SplitFrom(s, c, 0)
  }

  /** The parts joined with sep between neighbours: no leading or trailing sep. */
  function Join(parts: seq<string>, sep: string): string
  {
    if |parts| == 0 then ""
    else if |parts| == 1 then parts[0]
    else Join(parts[..|parts| - 1], sep) + sep + parts[|parts| - 1]
  }

  /** None of the parts contains c. */
  predicate FreeOf(parts: seq<string>, c: char)
  {
    forall k :: 0 <= k < |parts| ==> c !in parts[k]
  }

  lemma {:induction false} CountCharAppend(a: string, b: string, c: char)
    ensures CountChar(a + b, c) == CountChar(a, c) + CountChar(b, c)
    decreases |a|
  {
    if |a| == 0 {
      assert a + b == b;
    } else {
      assert (a + b)[1..] == a[1..] + b;
      CountCharAppend(a[1..], b, c);
    }
  }

  lemma {:induction false} CountCharAbsent(s: string, c: char)
    requires c !in s
    ensures CountChar(s, c) == 0
    decreases |s|
  {
    if |s| > 0 {
      assert c !in s[1..];
      CountCharAbsent(s[1..], c);
    }
  }

  /** Joining a part in front of a non-empty list puts one separator after it. */
  lemma {:induction false} JoinCons(x: string, rest: seq<string>, sep: string)
    requires |rest| > 0
    ensures Join([x] + rest, sep) == x + sep + Join(rest, sep)
    decreases |rest|
  {
    var all := [x] + rest;
    if |rest| == 1 {
      assert all[..1] == [x];
    } else {
      assert all[..|all| - 1] == [x] + rest[..|rest| - 1];
      JoinCons(x, rest[..|rest| - 1], sep);
    }
  }

  /** Joining a list extended by one part appends sep and that part. */
  lemma JoinSnoc(parts: seq<string>, x: string, sep: string)
    requires |parts| > 0
    ensures Join(parts + [x], sep) == Join(parts, sep) + sep + x
  {
    assert (parts + [x])[..|parts|] == parts;
  }

  /** A join of at least one part begins with the first part and ends with the last. */
  lemma {:induction false} JoinEnds(parts: seq<string>, sep: string)
    requires |parts| > 0
    ensures parts[0] <= Join(parts, sep)
    ensures var j := Join(parts, sep);
            |parts[|parts| - 1]| <= |j| && j[|j| - |parts[|parts| - 1]|..] == parts[|parts| - 1]
    decreases |parts|
  {
    if |parts| > 1 {
      var init := parts[..|parts| - 1];
      JoinEnds(init, sep);
      assert init[0] == parts[0];
      var j := Join(parts, sep);
      assert j == Join(init, sep) + sep + parts[|parts| - 1];
    }
  }

  /** The pieces contain no delimiter, there is one more piece than there are
      delimiters, and joining them with the delimiter gives the string back. */
  lemma {:induction false} SplitFromProperties(s: string, c: char, start: nat)
    requires start <= |s|
    ensures FreeOf(SplitFrom(s, c, start), c)
    ensures |SplitFrom(s, c, start)| == CountChar(s[start..], c) + 1
    ensures Join(SplitFrom(s, c, start), [c]) == s[start..]
    decreases |s| - start
  {
    var pieces := SplitFrom(s, c, start);
    match FindChar(s, c, start)
    case None =>
      assert c !in s[start..];
      CountCharAbsent(s[start..], c);
    case Some(next) =>
      var rest := SplitFrom(s, c, next + 1);
      SplitFromProperties(s, c, next + 1);
      assert pieces == [s[start..next]] + rest;
      assert c !in s[start..next];
      assert s[start..] == s[start..next] + [c] + s[next + 1..];
      CountCharAppend(s[start..next] + [c], s[next + 1..], c);
      CountCharAppend(s[start..next], [c], c);
      CountCharAbsent(s[start..next], c);
      JoinCons(s[start..next], rest, [c]);
  }

  lemma SplitProperties(s: string, c: char)
    ensures FreeOf(Split(s, c), c)
    ensures |Split(s, c)| == CountChar(s, c) + 1
    ensures Join(Split(s, c), [c]) == s
  {
    SplitFromProperties(s, c, 0);
    assert s[0..] == s;
  }

  /** Searching from inside a suffix only depends on the suffix. */
  lemma {:induction false} FindCharShift(pre: string, t: string, c: char, k: nat)
    requires k <= |t|
    ensures FindChar(pre + t, c, |pre| + k) ==
            (match FindChar(t, c, k) case None => None case Some(j) => Some(|pre| + j))
    decreases |t| - k
  {
    if k < |t| && t[k] != c {
      FindCharShift(pre, t, c, k + 1);
    }
  }

  /** The last piece of a split is the same whether or not a prefix precedes it. */
  lemma SplitFromShiftLast(pre: string, t: string, c: char, k: nat)
    requires k <= |t|
    requires FindChar(t, c, k).None? && FindChar(pre + t, c, |pre| + k).None?
    ensures SplitFrom(pre + t, c, |pre| + k) == SplitFrom(t, c, k)
  {
    assert (pre + t)[|pre| + k..] == t[k..];
  }

  /** A piece that ends at a delimiter is the same whether or not a prefix
      precedes it, and so is everything after it when the rest agrees. */
  lemma SplitFromShiftPiece(pre: string, t: string, c: char, k: nat, j: nat)
    requires k <= j < |t|
    requires FindChar(t, c, k) == Some(j) && FindChar(pre + t, c, |pre| + k) == Some(|pre| + j)
    requires SplitFrom(pre + t, c, |pre| + j + 1) == SplitFrom(t, c, j + 1)
    ensures SplitFrom(pre + t, c, |pre| + k) == SplitFrom(t, c, k)
  {
    assert (pre + t)[|pre| + k..|pre| + j] == t[k..j];
  }

  /** Splitting from inside a suffix only depends on the suffix. */
  lemma {:induction false} SplitFromShift(pre: string, t: string, c: char, k: nat)
    requires k <= |t|
    ensures SplitFrom(pre + t, c, |pre| + k) == SplitFrom(t, c, k)
    decreases |t| - k
  {
    FindCharShift(pre, t, c, k);
    match FindChar(t, c, k)
    case None =>
      SplitFromShiftLast(pre, t, c, k);
    case Some(j) =>
      SplitFromShift(pre, t, c, j + 1);
      SplitFromShiftPiece(pre, t, c, k, j);
  }

  /** A delimiter-free string splits into itself alone. */
  lemma SplitSingle(p: string, c: char)
    requires c !in p
    ensures Split(p, c) == [p]
  {
    var r := FindChar(p, c, 0);
    assert r.None?;
    assert p[0..] == p;
  }

  /** A delimiter-free first piece is split off at the first delimiter. */
  lemma SplitFirstPiece(p: string, tail: string, c: char)
    requires c !in p
    ensures Split(p + [c] + tail, c) == [p] + Split(tail, c)
  {
    var s := p + [c] + tail;
    var r := FindChar(s, c, 0);
    assert s[|p|] == c;
    assert forall i :: 0 <= i < |p| ==> s[i] == p[i];
    assert r == Some(|p|);
    assert s[0..|p|] == p;
    assert s == (p + [c]) + tail;
    SplitFromShift(p + [c], tail, c, 0);
  }

  /** Splitting undoes joining, for delimiter-free parts. */
  lemma {:induction false} SplitJoin(parts: seq<string>, c: char)
    requires |parts| > 0 && FreeOf(parts, c)
    ensures Split(Join(parts, [c]), c) == parts
    decreases |parts|
  {
    var p := parts[0];
    var rest := parts[1..];
    assert parts == [p] + rest;
    assert c !in p;
    if |rest| == 0 {
      SplitSingle(p, c);
    } else {
      JoinCons(p, rest, [c]);
      SplitFirstPiece(p, Join(rest, [c]), c);
      assert FreeOf(rest, c) by {
        forall k | 0 <= k < |rest| ensures c !in rest[k] {
          assert rest[k] == parts[k + 1];
        }
      }
      SplitJoin(rest, c);
    }
  }

  /** ASCII toupper in the "C" locale. */
  function ToUpper(c: char): char
  {
    if 'a' <= c <= 'z' then (c as int - 32) as char else c
  }

  /** compareIgnoringCase(a, b) == 0: equal length and equal letter by letter
      once both are folded to upper case. */
  predicate EqualIgnoringCase(a: string, b: string)
  {
    |a| == |b| && forall i :: 0 <= i < |a| ==> ToUpper(a[i]) == ToUpper(b[i])
  }
}
