/**
 * The LINQ operators the helpers use, on finite sequences: `Where`, a
 * filter-and-convert `Choose` (a `foreach` that yields only what converts),
 * `Single` and `SingleOrDefault`.
 */
module Linq {
  import opened Results

  /** `s.Where(p)`: the elements satisfying `p`, in order. */
  function Where<T>(s: seq<T>, p: T -> bool): (r: seq<T>)
    ensures |r| <= |s|
    ensures forall i :: 0 <= i < |r| ==> r[i] in s && p(r[i])
    ensures forall i :: 0 <= i < |s| && p(s[i]) ==> s[i] in r
  {
    if |s| == 0 then []
    else (if p(s[0]) then [s[0]] else []) + Where(s[1..], p)
  }

  /** `yield return` of `f(x).value` for each `x` of `s` that `f` converts, in order. */
  function Choose<T, U>(s: seq<T>, f: T -> Option<U>): seq<U> {
    if |s| == 0 then []
    else
      var x := s[|s| - 1];
      Choose(s[..|s| - 1], f) + (if f(x).Some? then [f(x).value] else [])
  }

  /** The element at `k` is the only one satisfying `p`. */
  predicate UniqueMatchAt<T>(s: seq<T>, p: T -> bool, k: int) {
    0 <= k < |s| && p(s[k]) && forall j :: 0 <= j < |s| && j != k ==> !p(s[j])
  }

  predicate NoMatch<T>(s: seq<T>, p: T -> bool) {
    forall i :: 0 <= i < |s| ==> !p(s[i])
  }

  predicate TwoMatches<T>(s: seq<T>, p: T -> bool) {
    exists i, j :: 0 <= i < j < |s| && p(s[i]) && p(s[j])
  }

  /** `s.SingleOrDefault(p)` for a reference type: `null` (here `None`) when nothing matches. */
  function SingleOrDefault<T>(s: seq<T>, p: T -> bool): (r: Result<Option<T>>)
    ensures r == Ok(None) <==> NoMatch(s, p)
    ensures r == Err(MoreThanOneMatchingElement) <==> TwoMatches(s, p)
    ensures r.Err? ==> r.error == MoreThanOneMatchingElement
    ensures forall k :: UniqueMatchAt(s, p, k) ==> r == Ok(Some(s[k]))
  {
    var m := Where(s, p);
    WhereCounts(s, p);
    if |m| == 0 then Ok(None)
    else if |m| == 1 then Ok(Some(m[0]))
    else Err(MoreThanOneMatchingElement)
  }

  /** `s.Single(p)`: the one element satisfying `p`, an exception when there is none or more than one. */
  function Single<T>(s: seq<T>, p: T -> bool): (r: Result<T>)
    ensures r == Err(NoMatchingElement) <==> NoMatch(s, p)
    ensures r == Err(MoreThanOneMatchingElement) <==> TwoMatches(s, p)
    ensures forall k :: UniqueMatchAt(s, p, k) ==> r == Ok(s[k])
    ensures r.Ok? ==> exists k :: UniqueMatchAt(s, p, k) && r.value == s[k]
  {
    var m := Where(s, p);
    WhereCounts(s, p);
    if |m| == 0 then Err(NoMatchingElement)
    else if |m| == 1 then Ok(m[0])
    else Err(MoreThanOneMatchingElement)
  }

  /** Where keeps nothing exactly when nothing matches. */
  lemma WhereEmpty<T>(s: seq<T>, p: T -> bool)
    ensures |Where(s, p)| == 0 <==> NoMatch(s, p)
  {
    var r := Where(s, p);
    if |r| > 0 {
      assert r[0] in s;
    }
  }

  /** Where keeps two or more elements exactly when two positions match. */
  lemma {:induction false} WhereTwo<T>(s: seq<T>, p: T -> bool)
    ensures |Where(s, p)| >= 2 <==> TwoMatches(s, p)
  {
    if |s| > 0 {
      var tail := s[1..];
      WhereTwo(tail, p);
      WhereEmpty(tail, p);
      if p(s[0]) {
        if |Where(tail, p)| >= 1 {
          var j :| 0 <= j < |tail| && p(tail[j]);
          assert p(s[0]) && p(s[j + 1]);
        }
        if TwoMatches(s, p) {
          var i, j :| 0 <= i < j < |s| && p(s[i]) && p(s[j]);
          assert p(tail[j - 1]);
        }
      } else {
        assert Where(s, p) == Where(tail, p);
        if TwoMatches(s, p) {
          var i, j :| 0 <= i < j < |s| && p(s[i]) && p(s[j]);
          assert tail[i - 1] == s[i] && tail[j - 1] == s[j];
        }
        if TwoMatches(tail, p) {
          var i, j :| 0 <= i < j < |tail| && p(tail[i]) && p(tail[j]);
          assert tail[i] == s[i + 1] && tail[j] == s[j + 1];
        }
      }
    }
  }

  /** A position that alone matches is all Where keeps. */
  lemma {:induction false} WhereUnique<T>(s: seq<T>, p: T -> bool, k: int)
    requires UniqueMatchAt(s, p, k)
    ensures Where(s, p) == [s[k]]
  {
    var tail := s[1..];
    if k == 0 {
      assert NoMatch(tail, p) by {
        forall i | 0 <= i < |tail| ensures !p(tail[i]) {
          assert tail[i] == s[i + 1];
        }
      }
      WhereEmpty(tail, p);
    } else {
      assert UniqueMatchAt(tail, p, k - 1) by {
        forall j | 0 <= j < |tail| && j != k - 1 ensures !p(tail[j]) {
          assert tail[j] == s[j + 1];
        }
      }
      WhereUnique(tail, p, k - 1);
    }
  }

  /** How many elements Where keeps, in terms of the positions that match. */
  lemma WhereCounts<T>(s: seq<T>, p: T -> bool)
    ensures |Where(s, p)| == 0 <==> NoMatch(s, p)
    ensures |Where(s, p)| >= 2 <==> TwoMatches(s, p)
    ensures forall k :: UniqueMatchAt(s, p, k) ==> Where(s, p) == [s[k]]
    ensures |Where(s, p)| == 1 ==> exists k :: UniqueMatchAt(s, p, k) && Where(s, p)[0] == s[k]
  {
    WhereEmpty(s, p);
    WhereTwo(s, p);
    forall k | UniqueMatchAt(s, p, k) ensures Where(s, p) == [s[k]] {
      WhereUnique(s, p, k);
    }
    if |Where(s, p)| == 1 {
      var k :| 0 <= k < |s| && p(s[k]);
      assert UniqueMatchAt(s, p, k);
    }
  }

  /** Where distributes over concatenation. */
  lemma {:induction false} WhereAppend<T>(a: seq<T>, b: seq<T>, p: T -> bool)
    ensures Where(a + b, p) == Where(a, p) + Where(b, p)
  {
    if |a| > 0 {
      assert (a + b)[0] == a[0];
      assert (a + b)[1..] == a[1..] + b;
      WhereAppend(a[1..], b, p);
    } else {
      assert a + b == b;
    }
  }

  /** Two predicates that agree everywhere select the same elements. */
  lemma {:induction false} WhereExtensional<T>(s: seq<T>, p: T -> bool, q: T -> bool)
    requires forall x :: p(x) == q(x)
    ensures Where(s, p) == Where(s, q)
  {
    if |s| > 0 {
      WhereExtensional(s[1..], p, q);
    }
  }

  /** Choose distributes over concatenation: converted values keep the order of their tokens. */
  lemma {:induction false} ChooseAppend<T, U>(a: seq<T>, b: seq<T>, f: T -> Option<U>)
    ensures Choose(a + b, f) == Choose(a, f) + Choose(b, f)
    decreases |b|
  {
    if |b| > 0 {
      var b' := b[..|b| - 1];
      assert (a + b)[..|a + b| - 1] == a + b';
      ChooseAppend(a, b', f);
    } else {
      assert a + b == a;
    }
  }

  /** Every token that converts contributes its value to the result. */
  lemma ChooseKeepsConverted<T, U>(s: seq<T>, f: T -> Option<U>, k: int)
    requires 0 <= k < |s| && f(s[k]).Some?
    ensures f(s[k]).value in Choose(s, f)
  {
    var a := s[..k];
    assert s[..k + 1] == a + [s[k]];
    assert s == s[..k + 1] + s[k + 1..];
    ChooseAppend(s[..k + 1], s[k + 1..], f);
    assert Choose(s[..k + 1], f) == Choose(a, f) + [f(s[k]).value];
  }

  /** Choose keeps at most one value per token, and every value comes from a token that converts to it. */
  lemma {:induction false} ChooseSound<T, U>(s: seq<T>, f: T -> Option<U>)
    ensures |Choose(s, f)| <= |s|
    ensures forall y :: y in Choose(s, f) ==> exists i :: 0 <= i < |s| && f(s[i]) == Some(y)
  {
    if |s| > 0 {
      var init := s[..|s| - 1];
      ChooseSound(init, f);
      forall y | y in Choose(s, f)
        ensures exists i :: 0 <= i < |s| && f(s[i]) == Some(y)
      {
        if y in Choose(init, f) {
          var i :| 0 <= i < |init| && f(init[i]) == Some(y);
          assert s[i] == init[i];
        } else {
          assert f(s[|s| - 1]) == Some(y);
        }
      }
    }
  }

  /** When every token converts, Choose converts them all, position by position. */
  lemma {:induction false} ChooseAll<T, U>(s: seq<T>, f: T -> Option<U>)
    requires forall i :: 0 <= i < |s| ==> f(s[i]).Some?
    ensures |Choose(s, f)| == |s|
    ensures forall i :: 0 <= i < |s| ==> Choose(s, f)[i] == f(s[i]).value
  {
    if |s| > 0 {
      var init := s[..|s| - 1];
      ChooseAll(init, f);
    }
  }

  /** When no token converts, Choose yields nothing. */
  lemma {:induction false} ChooseNone<T, U>(s: seq<T>, f: T -> Option<U>)
    requires forall i :: 0 <= i < |s| ==> f(s[i]).None?
    ensures Choose(s, f) == []
  {
    if |s| > 0 {
      ChooseNone(s[..|s| - 1], f);
    }
  }
}
