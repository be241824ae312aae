/** Sequence helpers shared by the draft store and the client list:
    an Option type, duplicate-freedom, order-preserving removal,
    `indexOf` and reversal. */
module Common {

  datatype Option<T> = None | Some(value: T)

  /** No element occurs twice in `s`. */
  predicate Distinct<T(==)>(s: seq<T>) {
    forall i, j :: 0 <= i < j < |s| ==> s[i] != s[j]
  }

  /** `a` can be obtained from `b` by deleting elements: the elements of `a`
      occur in `b` in the same relative order. */
  ghost predicate IsSubsequence<T>(a: seq<T>, b: seq<T>)
    decreases |b|
  {
    a == [] || (b != [] && ((a[0] == b[0] && IsSubsequence(a[1..], b[1..])) || IsSubsequence(a, b[1..])))
  }

  /** The elements of `s` that are not in `drop`, in their original order. */
  function Without<T(==)>(s: seq<T>, drop: set<T>): (r: seq<T>)
    ensures forall x :: x in r ==> x in s && x !in drop
    ensures forall x :: x in s && x !in drop ==> x in r
    ensures |r| <= |s|
  {
    if s == [] then []
    else if s[0] in drop then Without(s[1..], drop)
    else [s[0]] + Without(s[1..], drop)
  }

  /** JavaScript's `Array.prototype.indexOf`: the first position of `x`, or -1. */
  function IndexOf<T(==)>(s: seq<T>, x: T): (r: int)
    ensures -1 <= r < |s|
    ensures r == -1 <==> x !in s
    ensures 0 <= r ==> s[r] == x && x !in s[..r]
  {
    if s == [] then -1
    else if s[0] == x then 0
    else
      var k := IndexOf(s[1..], x);
      if k == -1 then -1
      else
        assert s[1..][..k] == s[1..k + 1];
        assert s[..k + 1] == [s[0]] + s[1..k + 1];
        k + 1
  }

  /** `s` back to front. */
  function Reverse<T>(s: seq<T>): (r: seq<T>)
    ensures |r| == |s|
  {
    if s == [] then [] else Reverse(s[1..]) + [s[0]]
  }

  lemma {:induction false} ReverseAt<T>(s: seq<T>, k: nat)
    requires k < |s|
    ensures Reverse(s)[k] == s[|s| - 1 - k]
  {
    if k < |s| - 1 {
      ReverseAt(s[1..], k);
    }
  }

  lemma {:induction false} WithoutIsSubsequence<T>(s: seq<T>, drop: set<T>)
    ensures IsSubsequence(Without(s, drop), s)
  {
    if s != [] {
      WithoutIsSubsequence(s[1..], drop);
      if s[0] !in drop {
        assert Without(s, drop)[1..] == Without(s[1..], drop);
      }
    }
  }

  lemma {:induction false} WithoutDistinct<T>(s: seq<T>, drop: set<T>)
    requires Distinct(s)
    ensures Distinct(Without(s, drop))
  {
    if s != [] {
      assert Distinct(s[1..]) by {
        forall i, j | 0 <= i < j < |s[1..]| ensures s[1..][i] != s[1..][j] {
          assert s[1..][i] == s[i + 1] && s[1..][j] == s[j + 1];
        }
      }
      WithoutDistinct(s[1..], drop);
      if s[0] !in drop {
        var r := Without(s, drop);
        assert s[0] !in s[1..] by {
          forall j | 0 <= j < |s[1..]| ensures s[1..][j] != s[0] {
            assert s[1..][j] == s[j + 1];
          }
        }
        forall i, j | 0 <= i < j < |r| ensures r[i] != r[j] {
          if i == 0 {
            assert r[j] in Without(s[1..], drop);
          } else {
            assert r[i] == Without(s[1..], drop)[i - 1] && r[j] == Without(s[1..], drop)[j - 1];
          }
        }
      }
    }
  }

  /** Removing the same elements twice is the same as removing them once. */
  lemma {:induction false} WithoutIdempotent<T>(s: seq<T>, drop: set<T>)
    ensures Without(Without(s, drop), drop) == Without(s, drop)
  {
    if s != [] {
      WithoutIdempotent(s[1..], drop);
      if s[0] !in drop {
        var r := Without(s, drop);
        assert r[0] == s[0] && r[1..] == Without(s[1..], drop);
      }
    }
  }

  /** Removing nothing leaves the sequence as it was. */
  lemma {:induction false} WithoutNothing<T>(s: seq<T>)
    ensures Without(s, {}) == s
  {
    if s != [] {
      WithoutNothing(s[1..]);
    }
  }

  /** In a duplicate-free sequence, splicing out position `i` is the same as
      removing the element stored there. */
  lemma {:induction false} SpliceIsWithout<T>(s: seq<T>, i: nat)
    requires Distinct(s) && i < |s|
    ensures s[..i] + s[i + 1..] == Without(s, {s[i]})
  {
    if i == 0 {
      assert s[0] !in s[1..] by {
        forall j | 0 <= j < |s[1..]| ensures s[1..][j] != s[0] {
          assert s[1..][j] == s[j + 1];
        }
      }
      assert s[..0] + s[1..] == s[1..];
      WithoutAbsent(s[1..], {s[0]});
    } else {
      var t := s[1..];
      assert Distinct(t) by {
        forall a, b | 0 <= a < b < |t| ensures t[a] != t[b] {
          assert t[a] == s[a + 1] && t[b] == s[b + 1];
        }
      }
      assert t[i - 1] == s[i];
      SpliceIsWithout(t, i - 1);
      assert s[0] != s[i];
      assert s[..i] == [s[0]] + t[..i - 1];
      assert s[i + 1..] == t[i..];
    }
  }

  /** Removing elements that do not occur changes nothing. */
  lemma {:induction false} WithoutAbsent<T>(s: seq<T>, drop: set<T>)
    requires forall x :: x in s ==> x !in drop
    ensures Without(s, drop) == s
  {
    if s != [] {
      assert forall x :: x in s[1..] ==> x in s;
      WithoutAbsent(s[1..], drop);
    }
  }

  /** Appending an element not yet present keeps a sequence duplicate-free. */
  lemma DistinctAppend<T>(s: seq<T>, x: T)
    requires Distinct(s) && x !in s
    ensures Distinct(s + [x])
  {
    var t := s + [x];
    forall i, j | 0 <= i < j < |t| ensures t[i] != t[j] {
      if j < |s| {
        assert t[i] == s[i] && t[j] == s[j];
      } else {
        assert t[i] in s;
      }
    }
  }

  /** One step of a back-to-front walk: the suffix from `i` on, less `drop`. */
  lemma WithoutFrom<T>(s: seq<T>, i: nat, drop: set<T>)
    requires i < |s|
    ensures Without(s[i..], drop) == if s[i] in drop then Without(s[i + 1..], drop) else [s[i]] + Without(s[i + 1..], drop)
  {
    assert s[i..][0] == s[i] && s[i..][1..] == s[i + 1..];
  }

  /** One step of a back-to-front walk: the suffix from `i` on, reversed. */
  lemma ReverseFrom<T>(s: seq<T>, i: nat)
    requires i < |s|
    ensures Reverse(s[i..]) == Reverse(s[i + 1..]) + [s[i]]
  {
    assert s[i..][0] == s[i] && s[i..][1..] == s[i + 1..];
  }

  /** In a duplicate-free sequence, the element at `i` does not occur after it. */
  lemma DistinctTail<T>(s: seq<T>, i: nat)
    requires Distinct(s) && i < |s|
    ensures s[i] !in s[i + 1..]
  {
    var rest := s[i + 1..];
    forall j | 0 <= j < |rest| ensures rest[j] != s[i] {
      assert rest[j] == s[i + 1 + j];
    }
  }
}
