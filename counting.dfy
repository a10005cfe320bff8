/** Counting the elements of a sequence that satisfy a predicate: the
    `std::count_if` that the classifier uses, with the facts about it that
    the classifier's proofs need (splitting, bounds, and invariance under
    permutation). */
module Counting {

  /** The number of elements of s that satisfy p. */
  function Count<T>(s: seq<T>, p: T -> bool): (n: nat)
    ensures n <= |s|
  {
    if |s| == 0 then 0
    else Count(s[..|s| - 1], p) + (if p(s[|s| - 1]) then 1 else 0)
  }

  /** Counting distributes over concatenation. */
  lemma {:induction false} CountConcat<T>(a: seq<T>, b: seq<T>, p: T -> bool)
    ensures Count(a + b, p) == Count(a, p) + Count(b, p)
    decreases |b|
  {
    if |b| > 0 {
      var b' := b[..|b| - 1];
      assert (a + b)[..|a + b| - 1] == a + b';
      CountConcat(a, b', p);
    } else {
      assert a + b == a;
    }
  }

  /** Every element satisfies p exactly when the count is the length. */
  lemma {:induction false} CountFull<T>(s: seq<T>, p: T -> bool)
    ensures Count(s, p) == |s| <==> forall i :: 0 <= i < |s| ==> p(s[i])
  {
    if |s| > 0 {
      var s' := s[..|s| - 1];
      CountFull(s', p);
      assert forall i :: 0 <= i < |s'| ==> s'[i] == s[i];
    }
  }

  /** No element satisfies p exactly when the count is zero. */
  lemma {:induction false} CountEmpty<T>(s: seq<T>, p: T -> bool)
    ensures Count(s, p) == 0 <==> forall i :: 0 <= i < |s| ==> !p(s[i])
  {
    if |s| > 0 {
      var s' := s[..|s| - 1];
      CountEmpty(s', p);
      assert forall i :: 0 <= i < |s'| ==> s'[i] == s[i];
    }
  }

  /** Two predicates that agree on every element give the same count. */
  lemma {:induction false} CountAgree<T>(s: seq<T>, p: T -> bool, q: T -> bool)
    requires forall i :: 0 <= i < |s| ==> p(s[i]) == q(s[i])
    ensures Count(s, p) == Count(s, q)
  {
    if |s| > 0 {
      var s' := s[..|s| - 1];
      assert forall i :: 0 <= i < |s'| ==> s'[i] == s[i];
      CountAgree(s', p, q);
    }
  }

  /** A count depends only on the multiset of elements, not on their order. */
  lemma {:induction false} CountPermutation<T>(s: seq<T>, t: seq<T>, p: T -> bool)
    requires multiset(s) == multiset(t)
    ensures Count(s, p) == Count(t, p)
    decreases |s|
  {
    if |s| == 0 {
      assert |t| == |multiset(t)| == 0;
    } else {
      var x := s[|s| - 1];
      var s' := s[..|s| - 1];
      assert multiset(s) == multiset(s') + multiset{x} by {
        assert s == s' + [x];
      }
      assert x in multiset(t);
      var i :| 0 <= i < |t| && t[i] == x;
      CountRemove(t, i, p);
      CountPermutation(s', t[..i] + t[i + 1..], p);
    }
  }

  /** Removing the element at position i takes it out of the multiset and
      out of the count. */
  lemma {:induction false} CountRemove<T>(t: seq<T>, i: nat, p: T -> bool)
    requires i < |t|
    ensures multiset(t[..i] + t[i + 1..]) == multiset(t) - multiset{t[i]}
    ensures Count(t, p) == Count(t[..i] + t[i + 1..], p) + (if p(t[i]) then 1 else 0)
  {
    MultisetRemove(t, i);
    CountSplit(t, i + 1, p);
    assert t[..i + 1][..i] == t[..i];
    CountConcat(t[..i], t[i + 1..], p);
  }

  lemma {:induction false} MultisetRemove<T>(t: seq<T>, i: nat)
    requires i < |t|
    ensures multiset(t[..i] + t[i + 1..]) == multiset(t) - multiset{t[i]}
  {
    assert t == t[..i] + [t[i]] + t[i + 1..];
  }

  /** Counting over a sequence cut at position j. */
  lemma {:induction false} CountSplit<T>(t: seq<T>, j: nat, p: T -> bool)
    requires j <= |t|
    ensures Count(t, p) == Count(t[..j], p) + Count(t[j..], p)
  {
    assert t[..j] + t[j..] == t;
    CountConcat(t[..j], t[j..], p);
  }

  /** A one-element sequence counts 1 exactly when its element satisfies p. */
  lemma {:induction false} CountSingleton<T>(x: T, p: T -> bool)
    ensures Count([x], p) == if p(x) then 1 else 0
  {
    assert [x][..0] == [];
  }

  /** The predicate "equals e". */
  function Is<T(==)>(e: T): T -> bool { x => x == e }

  /** The number of occurrences of e in s is its multiplicity in multiset(s). */
  lemma {:induction false} CountIsMultiplicity<T>(s: seq<T>, e: T)
    ensures Count(s, Is(e)) == multiset(s)[e]
  {
    if |s| > 0 {
      var s' := s[..|s| - 1];
      assert s == s' + [s[|s| - 1]];
      CountIsMultiplicity(s', e);
    }
  }

  /** When exactly the elements at positions lo .. hi - 1 satisfy p, the
      count is hi - lo. */
  lemma {:induction false} CountRange<T>(s: seq<T>, p: T -> bool, lo: nat, hi: nat)
    requires lo <= hi <= |s|
    requires forall i :: 0 <= i < |s| ==> (p(s[i]) <==> lo <= i < hi)
    ensures Count(s, p) == hi - lo
  {
    var a, b, c := s[..lo], s[lo..hi], s[hi..];
    assert s == a + b + c;
    assert forall i :: 0 <= i < |a| ==> !p(a[i]) by {
      forall i | 0 <= i < |a| ensures !p(a[i]) { assert a[i] == s[i]; }
    }
    assert forall i :: 0 <= i < |b| ==> p(b[i]) by {
      forall i | 0 <= i < |b| ensures p(b[i]) { assert b[i] == s[lo + i]; }
    }
    assert forall i :: 0 <= i < |c| ==> !p(c[i]) by {
      forall i | 0 <= i < |c| ensures !p(c[i]) { assert c[i] == s[hi + i]; }
    }
    CountEmpty(a, p);
    CountFull(b, p);
    CountEmpty(c, p);
    CountConcat(a + b, c, p);
    CountConcat(a, b, p);
  }
}
