/** String helpers shared by the checkpoint codec and the directory listing:
    Python's `str.endswith` and Python's ordering of `str` values, with the
    sort that `sorted` performs on a list of file names. */
module Strings {

  /** `s.endswith(suffix)`: the last |suffix| characters of s are suffix,
      that is, s is some string followed by suffix. */
  predicate EndsWith(s: string, suffix: string): (r: bool)
    ensures r <==> exists p :: p + suffix == s
  {
    |suffix| <= |s| &&
    var p := s[..|s| - |suffix|];
    assert p + s[|s| - |suffix|..] == s;
    s[|s| - |suffix|..] == suffix
  }

  /** A name ending in ".ckpt" never ends in ".safetensors" (their last
      characters differ), so the two suffix tests are exclusive. */
  lemma CkptIsNotSafetensors(s: string)
    requires EndsWith(s, ".ckpt")
    ensures !EndsWith(s, ".safetensors")
  {
    assert s[|s| - 1] == s[|s| - 5..][4] == 't' != ".safetensors"[11];
  }

  /** Python compares strings code point by code point; a proper prefix is
      smaller. LessEq(a, b) is `a <= b`. */
  predicate LessEq(a: string, b: string)
    decreases |a|
  {
    |a| == 0 || (|b| > 0 && (a[0] < b[0] || (a[0] == b[0] && LessEq(a[1..], b[1..]))))
  }

  lemma {:induction false} LessEqReflexive(a: string)
    ensures LessEq(a, a)
    decreases |a|
  {
    if |a| > 0 {
      LessEqReflexive(a[1..]);
    }
  }

  lemma {:induction false} LessEqTotal(a: string, b: string)
    ensures LessEq(a, b) || LessEq(b, a)
    decreases |a|
  {
    if |a| > 0 && |b| > 0 && a[0] == b[0] {
      LessEqTotal(a[1..], b[1..]);
    }
  }

  lemma {:induction false} LessEqTransitive(a: string, b: string, c: string)
    requires LessEq(a, b) && LessEq(b, c)
    ensures LessEq(a, c)
    decreases |a|
  {
    if |a| > 0 && a[0] == b[0] && b[0] == c[0] {
      LessEqTransitive(a[1..], b[1..], c[1..]);
    }
  }

  lemma {:induction false} LessEqAntisymmetric(a: string, b: string)
    requires LessEq(a, b) && LessEq(b, a)
    ensures a == b
    decreases |a|
  {
    if |a| > 0 {
      LessEqAntisymmetric(a[1..], b[1..]);
      assert a == [a[0]] + a[1..] && b == [b[0]] + b[1..];
    }
  }

  /** Ascending order, as `sorted` leaves a list of names. */
  predicate Sorted(s: seq<string>) {
    forall i, j :: 0 <= i < j < |s| ==> LessEq(s[i], s[j])
  }

  /** Inserts x into a sorted list before the first element not below it. */
  function Insert(x: string, s: seq<string>): (r: seq<string>)
    ensures multiset(r) == multiset(s) + multiset{x}
    decreases |s|
  {
    if s == [] || LessEq(x, s[0]) then [x] + s else
    assert s == [s[0]] + s[1..];
    [s[0]] + Insert(x, s[1..])
  }

  /** Insertion sort: the model's stand-in for Python's `sorted` on names. */
  function SortNames(s: seq<string>): (r: seq<string>)
    ensures multiset(r) == multiset(s)
    decreases |s|
  {
    if s == [] then [] else
    assert s == [s[0]] + s[1..];
    Insert(s[0], SortNames(s[1..]))
  }

  lemma {:induction false} InsertCorrect(x: string, s: seq<string>)
    requires Sorted(s)
    ensures multiset(Insert(x, s)) == multiset(s) + multiset{x}
    ensures Sorted(Insert(x, s))
    decreases |s|
  {
    if s == [] {
    } else if LessEq(x, s[0]) {
      var r := [x] + s;
      forall i, j | 0 <= i < j < |r| ensures LessEq(r[i], r[j]) {
        if i == 0 && j > 1 {
          LessEqTransitive(x, s[0], s[j - 1]);
        }
      }
    } else {
      var rest := Insert(x, s[1..]);
      assert Sorted(s[1..]);
      InsertCorrect(x, s[1..]);
      LessEqTotal(x, s[0]);
      var r := [s[0]] + rest;
      assert s == [s[0]] + s[1..];
      forall i, j | 0 <= i < j < |r| ensures LessEq(r[i], r[j]) {
        if i == 0 {
          assert r[j] in multiset(rest);
          if r[j] != x {
            assert r[j] in multiset(s[1..]);
            var k :| 0 <= k < |s[1..]| && s[1..][k] == r[j];
            assert LessEq(s[0], s[k + 1]);
          }
        } else {
          assert r[i] == rest[i - 1] && r[j] == rest[j - 1];
        }
      }
    }
  }

  /** What `sorted` promises: an ascending permutation of its input. */
  lemma {:induction false} SortNamesCorrect(s: seq<string>)
    ensures Sorted(SortNames(s))
    ensures multiset(SortNames(s)) == multiset(s)
    decreases |s|
  {
    if s != [] {
      SortNamesCorrect(s[1..]);
      InsertCorrect(s[0], SortNames(s[1..]));
      assert s == [s[0]] + s[1..];
    }
  }

  /** The head of an ascending list is below every element of it. */
  lemma SortedHeadIsLeast(s: seq<string>, x: string)
    requires Sorted(s) && x in multiset(s)
    ensures LessEq(s[0], x)
  {
    var i :| 0 <= i < |s| && s[i] == x;
    if i == 0 {
      LessEqReflexive(x);
    }
  }

  /** Two ascending lists with the same elements are the same list, so the
      insertion sort above returns exactly what any correct sort, Python's
      included, returns. */
  lemma {:induction false} SortedPermutationUnique(s: seq<string>, t: seq<string>)
    requires Sorted(s) && Sorted(t)
    requires multiset(s) == multiset(t)
    ensures s == t
    decreases |s|
  {
    if s != [] {
      assert |t| == |multiset(t)| == |multiset(s)| == |s|;
      SortedHeadIsLeast(s, t[0]);
      SortedHeadIsLeast(t, s[0]);
      LessEqAntisymmetric(s[0], t[0]);
      assert s == [s[0]] + s[1..] && t == [t[0]] + t[1..];
      assert multiset(s[1..]) == multiset(t[1..]) by {
        assert multiset(s) == multiset([s[0]]) + multiset(s[1..]);
        assert multiset(t) == multiset([t[0]]) + multiset(t[1..]);
        assert multiset([s[0]]) == multiset([t[0]]);
        forall x ensures multiset(s[1..])[x] == multiset(t[1..])[x] {
          assert multiset(s)[x] == multiset([s[0]])[x] + multiset(s[1..])[x];
          assert multiset(t)[x] == multiset([t[0]])[x] + multiset(t[1..])[x];
        }
      }
      assert Sorted(s[1..]) && Sorted(t[1..]);
      SortedPermutationUnique(s[1..], t[1..]);
    }
  }
}
