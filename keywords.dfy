/** Keyword tests over a lower-cased text: the generator sums
    `sum(1 for k in kws if k in text)` and `any(k in text for k in kws)`. */
module Keywords {
  import opened PyStr

  /** No keyword is listed twice. */
  predicate Distinct(kws: seq<string>) {
    forall i, j | 0 <= i < j < |kws| :: kws[i] != kws[j]
  }

  /** `sum(1 for k in kws if k in text)`: one point per list entry found. */
  function CountPresent(text: string, kws: seq<string>): (n: nat)
    ensures n <= |kws|
  {
    if kws == [] then 0
    else (if Contains(text, kws[0]) then 1 else 0) + CountPresent(text, kws[1..])
  }

  /** The keywords of kws that occur in text. */
  ghost function PresentSet(text: string, kws: seq<string>): set<string> {
    set k | k in kws && Contains(text, k)
  }

  /** On a list without repeats, the generator sum is the number of distinct
      keywords that occur in the text, not the number of occurrences. */
  lemma {:induction false} CountPresentIsCardinality(text: string, kws: seq<string>)
    requires Distinct(kws)
    ensures CountPresent(text, kws) == |PresentSet(text, kws)|
  {
    if kws != [] {
      var rest := kws[1..];
      assert Distinct(rest) by {
        forall i, j | 0 <= i < j < |rest| ensures rest[i] != rest[j] {
          assert rest[i] == kws[i + 1] && rest[j] == kws[j + 1];
        }
      }
      CountPresentIsCardinality(text, rest);
      assert kws[0] !in rest by {
        forall j | 0 <= j < |rest| ensures rest[j] != kws[0] {
          assert rest[j] == kws[j + 1];
        }
      }
      assert forall k :: k in kws <==> k == kws[0] || k in rest;
      if Contains(text, kws[0]) {
        assert PresentSet(text, kws) == {kws[0]} + PresentSet(text, rest);
      } else {
        assert PresentSet(text, kws) == PresentSet(text, rest);
      }
    }
  }

  /** `any(k in text for k in kws)`. */
  predicate AnyPresent(text: string, kws: seq<string>) {
    exists i | 0 <= i < |kws| :: Contains(text, kws[i])
  }

  /** A text shorter than every keyword scores nothing. */
  lemma {:induction false} NoneOfLongerKeywords(text: string, kws: seq<string>)
    requires forall i | 0 <= i < |kws| :: |text| < |kws[i]|
    ensures CountPresent(text, kws) == 0
  {
    if kws != [] {
      NotContainsLonger(text, kws[0]);
      NoneOfLongerKeywords(text, kws[1..]);
    }
  }

  /** a is a sub-list of b: b with some entries left out, order kept. */
  predicate IsSubsequence(a: seq<string>, b: seq<string>)
    decreases |b|
  {
    if a == [] then true
    else if b == [] then false
    else if a[0] == b[0] then IsSubsequence(a[1..], b[1..])
    else IsSubsequence(a, b[1..])
  }

  /** Every entry of a sub-list is an entry of the list. */
  lemma {:induction false} SubsequenceMembers(a: seq<string>, b: seq<string>)
    requires IsSubsequence(a, b)
    ensures forall x | x in a :: x in b
    decreases |b|
  {
    if a != [] {
      if a[0] == b[0] {
        SubsequenceMembers(a[1..], b[1..]);
        assert forall x | x in a :: x == a[0] || x in a[1..];
      } else {
        SubsequenceMembers(a, b[1..]);
      }
    }
  }

  /** A sub-list of a list without repeats has no repeats. */
  lemma {:induction false} SubsequenceDistinct(a: seq<string>, b: seq<string>)
    requires IsSubsequence(a, b) && Distinct(b)
    ensures Distinct(a)
    decreases |b|
  {
    if a != [] {
      assert Distinct(b[1..]) by {
        forall i, j | 0 <= i < j < |b[1..]| ensures b[1..][i] != b[1..][j] {
          assert b[1..][i] == b[i + 1] && b[1..][j] == b[j + 1];
        }
      }
      if a[0] == b[0] {
        SubsequenceDistinct(a[1..], b[1..]);
        SubsequenceMembers(a[1..], b[1..]);
        assert b[0] !in b[1..] by {
          forall j | 0 <= j < |b[1..]| ensures b[1..][j] != b[0] {
            assert b[1..][j] == b[j + 1];
          }
        }
        forall i, j | 0 <= i < j < |a| ensures a[i] != a[j] {
          assert a[j] == a[1..][j - 1];
          if i > 0 {
            assert a[i] == a[1..][i - 1];
          }
        }
      } else {
        SubsequenceDistinct(a, b[1..]);
      }
    }
  }

  /** Over a list without repeats, a sub-list is fixed by which entries it
      keeps. */
  lemma {:induction false} SubsequenceDeterminedByMembers(a: seq<string>, a': seq<string>, b: seq<string>)
    requires IsSubsequence(a, b) && IsSubsequence(a', b) && Distinct(b)
    requires forall x :: x in a <==> x in a'
    ensures a == a'
    decreases |b|
  {
    if b == [] {
    } else {
      var rest := b[1..];
      assert Distinct(rest) by {
        forall i, j | 0 <= i < j < |rest| ensures rest[i] != rest[j] {
          assert rest[i] == b[i + 1] && rest[j] == b[j + 1];
        }
      }
      assert b[0] !in rest by {
        forall j | 0 <= j < |rest| ensures rest[j] != b[0] {
          assert rest[j] == b[j + 1];
        }
      }
      if b[0] in a {
        HeadOfSubsequence(a, b, rest);
        HeadOfSubsequence(a', b, rest);
        SubsequenceMembers(a[1..], rest);
        SubsequenceMembers(a'[1..], rest);
        forall x ensures x in a[1..] <==> x in a'[1..] {
          assert x in a <==> x == a[0] || x in a[1..];
          assert x in a' <==> x == a'[0] || x in a'[1..];
        }
        SubsequenceDeterminedByMembers(a[1..], a'[1..], rest);
        assert a == [a[0]] + a[1..];
        assert a' == [a'[0]] + a'[1..];
      } else {
        NotHeadOfSubsequence(a, b);
        NotHeadOfSubsequence(a', b);
        SubsequenceDeterminedByMembers(a, a', rest);
      }
    }
  }

  /** If the first entry of b is kept, it comes first. */
  lemma HeadOfSubsequence(a: seq<string>, b: seq<string>, rest: seq<string>)
    requires IsSubsequence(a, b) && b != [] && rest == b[1..] && b[0] !in rest && b[0] in a
    ensures a[0] == b[0] && IsSubsequence(a[1..], rest)
  {
    if a[0] != b[0] {
      SubsequenceMembers(a, rest);
    }
  }

  /** If the first entry of b is dropped, a is a sub-list of the rest. */
  lemma NotHeadOfSubsequence(a: seq<string>, b: seq<string>)
    requires IsSubsequence(a, b) && b != [] && b[0] !in a
    ensures IsSubsequence(a, b[1..])
  {
    if a != [] {
      assert a[0] != b[0];
    }
  }
}
