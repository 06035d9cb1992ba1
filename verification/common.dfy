/** Values shared by every batch resolver: optional results, per-key settled
    outcomes, the `${a}:${b}` cache-key join and first-occurrence de-duplication. */
module Common {

  /** A record that may be missing (`undefined` / `null` in the source). */
  datatype Option<+T> = None | Some(value: T)

  /** The outcome of a call into a foreign service that may fail. */
  datatype Result<+T> = Ok(value: T) | Err(error: string)

  /** What one key's entry holds when per-key failures are isolated:
      its value, or the error its own promise was rejected with. */
  datatype Settled<+T> = Fulfilled(value: T) | Rejected(reason: string)

  function Settle<T>(res: Result<T>): (s: Settled<T>)
    ensures s.Fulfilled? <==> res.Ok?
    ensures res.Ok? ==> s.value == res.value
    ensures res.Err? ==> s.reason == res.error
  {
    match res
    case Ok(v) => Fulfilled(v)
    case Err(e) => Rejected(e)
  }

  predicate NoColon(s: string) {
    ':' !in s
  }

  /** The template literal `${a}:${b}` that every cache key is built from. */
  function ColonJoin(a: string, b: string): string {
    a + ":" + b
  }

  /** Two joins are equal exactly when their parts are, provided the right-hand
      parts hold no colon: the last colon then separates the parts. */
  lemma ColonJoinInjectiveRight(a: string, b: string, a': string, b': string)
    requires NoColon(b) && NoColon(b')
    ensures ColonJoin(a, b) == ColonJoin(a', b') <==> a == a' && b == b'
  {
    var s, s' := ColonJoin(a, b), ColonJoin(a', b');
    if s == s' {
      assert s[|a|] == ':' && s'[|a'|] == ':';
      assert forall i :: |a| < i < |s| ==> s[i] == b[i - |a| - 1];
      assert forall i :: |a'| < i < |s'| ==> s'[i] == b'[i - |a'| - 1];
      assert |a| == |a'|;
      assert a == s[..|a|] && a' == s'[..|a'|];
      assert b == s[|a| + 1..] && b' == s'[|a'| + 1..];
    }
  }

  /** The mirror image: injective when the left-hand parts hold no colon,
      because the first colon then separates the parts. */
  lemma ColonJoinInjectiveLeft(a: string, b: string, a': string, b': string)
    requires NoColon(a) && NoColon(a')
    ensures ColonJoin(a, b) == ColonJoin(a', b') <==> a == a' && b == b'
  {
    var s, s' := ColonJoin(a, b), ColonJoin(a', b');
    if s == s' {
      assert s[|a|] == ':' && s'[|a'|] == ':';
      assert forall i :: 0 <= i < |a| ==> s[i] == a[i];
      assert forall i :: 0 <= i < |a'| ==> s'[i] == a'[i];
      assert |a| == |a'|;
      assert a == s[..|a|] && a' == s'[..|a'|];
      assert b == s[|a| + 1..] && b' == s'[|a'| + 1..];
    }
  }

  /** Without the no-colon condition on either side, two different pairs share a join. */
  lemma ColonJoinCollidesWithColons()
    ensures ColonJoin("a:b", "c") == ColonJoin("a", "b:c")
  {
  }

  predicate NoDup<T(==)>(s: seq<T>) {
    forall i, j :: 0 <= i < j < |s| ==> s[i] != s[j]
  }

  /** `Array.from(new Set(s))`: each distinct element once, in order of first occurrence. */
  function Dedup<T(==,!new)>(s: seq<T>): (r: seq<T>)
    ensures NoDup(r)
    ensures forall x :: x in r <==> x in s
    ensures |r| <= |s|
  {
    if s == [] then []
    else
      var d := Dedup(s[..|s| - 1]);
      var x := s[|s| - 1];
      if x in d then d else d + [x]
  }

  /** The position of the first occurrence of `x` in `s`. */
  function FirstIndex<T(==)>(s: seq<T>, x: T): (i: nat)
    requires x in s
    ensures i < |s| && s[i] == x
    ensures forall k :: 0 <= k < i ==> s[k] != x
  {
    if s[0] == x then 0 else 1 + FirstIndex(s[1..], x)
  }

  /** Appending an element does not move the first occurrence of an element
      already present. */
  lemma FirstIndexOfPrefix<T>(init: seq<T>, x: T, y: T)
    requires y in init
    ensures FirstIndex(init + [x], y) == FirstIndex(init, y)
  {
    var s := init + [x];
    var i, j := FirstIndex(s, y), FirstIndex(init, y);
    assert s[j] == y;
    assert forall k :: 0 <= k < |init| ==> s[k] == init[k];
  }

  /** `Array.from(new Set(s))` lists the distinct elements in the order in
      which they first occur in `s`. */
  lemma {:induction false} DedupFirstOccurrenceOrder<T(!new)>(s: seq<T>)
    ensures forall i, j :: 0 <= i < j < |Dedup(s)| ==> FirstIndex(s, Dedup(s)[i]) < FirstIndex(s, Dedup(s)[j])
  {
    if s != [] {
      var init, x := s[..|s| - 1], s[|s| - 1];
      assert s == init + [x];
      var d, r := Dedup(init), Dedup(s);
      DedupFirstOccurrenceOrder(init);
      forall i, j | 0 <= i < j < |r|
        ensures FirstIndex(s, r[i]) < FirstIndex(s, r[j])
      {
        FirstIndexOfPrefix(init, x, d[i]);
        if j < |d| {
          FirstIndexOfPrefix(init, x, d[j]);
        } else {
          assert r[j] == x && x !in init;
          assert s[|init|] == x;
        }
      }
    }
  }

  /** An element of a list without duplicates occurs in it exactly once. */
  lemma {:induction false} NoDupCount<T>(s: seq<T>, x: T)
    requires NoDup(s) && x in s
    ensures multiset(s)[x] == 1
  {
    assert s == [s[0]] + s[1..];
    if s[0] == x {
      assert x !in s[1..];
    } else {
      assert NoDup(s[1..]);
      NoDupCount(s[1..], x);
    }
  }

  /** De-duplicating a list that already has no duplicates changes nothing, so
      de-duplication is idempotent. */
  lemma {:induction false} DedupOfDistinct<T(!new)>(s: seq<T>)
    requires NoDup(s)
    ensures Dedup(s) == s
  {
    if s != [] {
      var init := s[..|s| - 1];
      assert NoDup(init);
      DedupOfDistinct(init);
      assert s[|s| - 1] !in init;
      assert init + [s[|s| - 1]] == s;
    }
  }
}
