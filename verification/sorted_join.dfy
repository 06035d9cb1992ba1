/** JavaScript's default `Array.prototype.sort()` on strings and `join(':')`,
    as used to turn a list of team ids into part of a cache key. */
module SortedJoin {
  import opened Common

  /** The default sort order: compare character by character, a proper prefix first. */
  predicate CodeUnitLe(a: string, b: string)
    decreases |a|
  {
    if a == [] then true
    else if b == [] then false
    else if a[0] != b[0] then a[0] < b[0]
    else CodeUnitLe(a[1..], b[1..])
  }

  lemma {:induction false} CodeUnitLeTotal(a: string, b: string)
    ensures CodeUnitLe(a, b) || CodeUnitLe(b, a)
    decreases |a|
  {
    if a != [] && b != [] && a[0] == b[0] {
      CodeUnitLeTotal(a[1..], b[1..]);
    }
  }

  lemma {:induction false} CodeUnitLeAntisymmetric(a: string, b: string)
    requires CodeUnitLe(a, b) && CodeUnitLe(b, a)
    ensures a == b
    decreases |a|
  {
    if a != [] {
      CodeUnitLeAntisymmetric(a[1..], b[1..]);
      assert a == [a[0]] + a[1..] && b == [b[0]] + b[1..];
    }
  }

  lemma {:induction false} CodeUnitLeTransitive(a: string, b: string, c: string)
    requires CodeUnitLe(a, b) && CodeUnitLe(b, c)
    ensures CodeUnitLe(a, c)
    decreases |a|
  {
    if a != [] && a[0] == b[0] && b[0] == c[0] {
      CodeUnitLeTransitive(a[1..], b[1..], c[1..]);
    }
  }

  predicate Sorted(s: seq<string>) {
    forall i, j :: 0 <= i < j < |s| ==> CodeUnitLe(s[i], s[j])
  }

  /** Places `x` before the first element it does not follow. */
  function Insert(x: string, s: seq<string>): (r: seq<string>)
    requires Sorted(s)
    ensures |r| == |s| + 1
    ensures Sorted(r)
    ensures multiset(r) == multiset(s) + multiset{x}
  {
    if s == [] then [x]
    else if CodeUnitLe(x, s[0]) then
      HeadBelowSorted(x, s);
      ConsSorted(x, s);
      [x] + s
    else
      assert s == [s[0]] + s[1..];
      var tail := Insert(x, s[1..]);
      CodeUnitLeTotal(x, s[0]);
      HeadBelowInserted(x, s, tail);
      ConsSorted(s[0], tail);
      [s[0]] + tail
  }

  /** A string below every element of a sorted list can be put in front of it. */
  lemma ConsSorted(h: string, t: seq<string>)
    requires Sorted(t)
    requires forall k :: 0 <= k < |t| ==> CodeUnitLe(h, t[k])
    ensures Sorted([h] + t)
  {
    var r := [h] + t;
    forall i, j | 0 <= i < j < |r| ensures CodeUnitLe(r[i], r[j]) {
      if i == 0 {
        assert r[j] == t[j - 1];
      } else {
        assert r[i] == t[i - 1] && r[j] == t[j - 1];
      }
    }
  }

  /** A string below the head of a sorted list is below all of it. */
  lemma HeadBelowSorted(x: string, s: seq<string>)
    requires Sorted(s) && s != [] && CodeUnitLe(x, s[0])
    ensures forall k :: 0 <= k < |s| ==> CodeUnitLe(x, s[k])
  {
    forall k | 0 <= k < |s| ensures CodeUnitLe(x, s[k]) {
      if k > 0 { CodeUnitLeTransitive(x, s[0], s[k]); }
    }
  }

  /** The head of a sorted list is below `x` inserted into its tail. */
  lemma HeadBelowInserted(x: string, s: seq<string>, tail: seq<string>)
    requires Sorted(s) && s != [] && CodeUnitLe(s[0], x)
    requires multiset(tail) == multiset(s[1..]) + multiset{x}
    ensures forall k :: 0 <= k < |tail| ==> CodeUnitLe(s[0], tail[k])
  {
    forall k | 0 <= k < |tail| ensures CodeUnitLe(s[0], tail[k]) {
      assert tail[k] in multiset(tail);
      if tail[k] != x {
        assert tail[k] in multiset(s[1..]);
        var j :| 0 <= j < |s[1..]| && s[1..][j] == tail[k];
        assert s[j + 1] == tail[k];
      }
    }
  }

  /** A sorted copy of `s`: the value `s.sort()` leaves in the array. */
  function SortStrings(s: seq<string>): (r: seq<string>)
    ensures |r| == |s|
    ensures Sorted(r)
    ensures multiset(r) == multiset(s)
  {
    if s == [] then []
    else
      assert s == [s[0]] + s[1..];
      Insert(s[0], SortStrings(s[1..]))
  }

  lemma MultisetOfTail(x: seq<string>)
    requires x != []
    ensures multiset(x[1..]) == multiset(x) - multiset{x[0]}
  {
    assert x == [x[0]] + x[1..];
  }

  /** Two sorted lists with the same contents start with the same string. */
  lemma SortedHeadsAgree(x: seq<string>, y: seq<string>)
    requires Sorted(x) && Sorted(y)
    requires multiset(x) == multiset(y)
    requires x != []
    ensures y != [] && x[0] == y[0]
  {
    assert x[0] in multiset(y);
    assert y != [];
    assert y[0] in multiset(x);
    var i :| 0 <= i < |y| && y[i] == x[0];
    var j :| 0 <= j < |x| && x[j] == y[0];
    assert CodeUnitLe(y[0], x[0]) by {
      if i == 0 { CodeUnitLeTotal(y[0], y[0]); }
    }
    assert CodeUnitLe(x[0], y[0]) by {
      if j == 0 { CodeUnitLeTotal(x[0], x[0]); }
    }
    CodeUnitLeAntisymmetric(x[0], y[0]);
  }

  /** Sorting is determined by the contents alone: two sorted lists holding the
      same strings, counted with multiplicity, are the same list. */
  lemma {:induction false} SortedUnique(x: seq<string>, y: seq<string>)
    requires Sorted(x) && Sorted(y)
    requires multiset(x) == multiset(y)
    ensures x == y
    decreases |x|
  {
    if x == [] {
      assert |y| == |multiset(y)| == 0;
    } else {
      SortedHeadsAgree(x, y);
      MultisetOfTail(x);
      MultisetOfTail(y);
      SortedUnique(x[1..], y[1..]);
      assert x == [x[0]] + x[1..] && y == [y[0]] + y[1..];
    }
  }

  /** `parts.join(':')`. */
  function JoinColon(parts: seq<string>): string {
    if |parts| == 0 then ""
    else if |parts| == 1 then parts[0]
    else ColonJoin(parts[0], JoinColon(parts[1..]))
  }

  /** `${userId}:${teamIds.sort().join(':')}` */
  function SortedKey(head: string, ids: seq<string>): string {
    ColonJoin(head, JoinColon(SortStrings(ids)))
  }

  /** The sorted key does not depend on the order in which the ids are listed. */
  lemma SortedKeyIgnoresOrder(head: string, ids: seq<string>, ids': seq<string>)
    requires multiset(ids) == multiset(ids')
    ensures SortedKey(head, ids) == SortedKey(head, ids')
  {
    SortedUnique(SortStrings(ids), SortStrings(ids'));
  }

  /** Parts that are non-empty and hold no colon. */
  predicate PlainParts(parts: seq<string>) {
    forall i :: 0 <= i < |parts| ==> parts[i] != "" && NoColon(parts[i])
  }

  /** How many parts a join of plain parts had can be read off the string:
      none gives the empty string, one gives the part itself, and two or more
      give a string with a colon in it. */
  lemma JoinColonShape(parts: seq<string>)
    requires PlainParts(parts)
    ensures |parts| == 0 <==> JoinColon(parts) == ""
    ensures |parts| >= 2 <==> ':' in JoinColon(parts)
    ensures |parts| == 1 ==> JoinColon(parts) == parts[0]
  {
    if |parts| >= 2 {
      assert JoinColon(parts)[|parts[0]|] == ':';
    }
  }

  /** Joining plain parts with ':' loses nothing: equal joins come from equal lists. */
  lemma {:induction false} JoinColonInjective(xs: seq<string>, ys: seq<string>)
    requires PlainParts(xs) && PlainParts(ys)
    requires JoinColon(xs) == JoinColon(ys)
    ensures xs == ys
    decreases |xs|
  {
    JoinColonShape(xs);
    JoinColonShape(ys);
    if |xs| >= 2 {
      ColonJoinInjectiveLeft(xs[0], JoinColon(xs[1..]), ys[0], JoinColon(ys[1..]));
      JoinColonInjective(xs[1..], ys[1..]);
      assert xs == [xs[0]] + xs[1..] && ys == [ys[0]] + ys[1..];
    } else if |xs| == 1 {
      assert xs == [xs[0]] && ys == [ys[0]];
    }
  }

  /** The converse of `SortedKeyIgnoresOrder`: when the head has no colon and
      the ids are plain, equal sorted keys mean the same head and the same ids
      up to order. */
  lemma SortedKeyDeterminesIds(head: string, ids: seq<string>, head': string, ids': seq<string>)
    requires NoColon(head) && NoColon(head')
    requires PlainParts(ids) && PlainParts(ids')
    requires SortedKey(head, ids) == SortedKey(head', ids')
    ensures head == head' && multiset(ids) == multiset(ids')
  {
    var sorted, sorted' := SortStrings(ids), SortStrings(ids');
    ColonJoinInjectiveLeft(head, JoinColon(sorted), head', JoinColon(sorted'));
    forall i | 0 <= i < |sorted| ensures sorted[i] != "" && NoColon(sorted[i]) {
      assert sorted[i] in multiset(ids);
    }
    forall i | 0 <= i < |sorted'| ensures sorted'[i] != "" && NoColon(sorted'[i]) {
      assert sorted'[i] in multiset(ids');
    }
    JoinColonInjective(sorted, sorted');
  }

  /** `ids.sort()` in place: the array ends up holding the sorted copy. */
  method SortInPlace(ids: array<string>)
    modifies ids
    ensures ids[..] == SortStrings(old(ids[..]))
    ensures Sorted(ids[..]) && multiset(ids[..]) == multiset(old(ids[..]))
  {
    var sorted := SortStrings(ids[..]);
    CopyInto(ids, sorted);
  }

  /** Overwrites the array, element by element, with `values`. */
  method CopyInto(ids: array<string>, values: seq<string>)
    requires ids.Length == |values|
    modifies ids
    ensures ids[..] == values
  {
    var i := 0;
    while i < ids.Length
      invariant 0 <= i <= ids.Length
      invariant forall k :: 0 <= k < i ==> ids[k] == values[k]
    {
      ids[i] := values[i];
      i := i + 1;
    }
    assert ids[..] == values;
  }
}
