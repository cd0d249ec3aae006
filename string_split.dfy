/**
 * The .NET string operations the request helpers rely on: `String.Split(string)`
 * with `StringSplitOptions.None`, its inverse `String.Join`, and ASCII case folding.
 */
module StringSplit {

  /** `sep` occurs in `t` starting at position `i`. */
  predicate OccursAt(t: string, sep: string, i: nat) {
    i + |sep| <= |t| && t[i..i + |sep|] == sep
  }

  predicate Contains(t: string, sep: string) {
    exists i: nat | i <= |t| :: OccursAt(t, sep, i)
  }

  /**
   * `s.Split(sep)`: cut `s` at every occurrence of `sep` found scanning left to
   * right, an occurrence resuming the scan just after itself, and keep empty
   * pieces. An empty separator leaves `s` whole.
   */
  function Split(s: string, sep: string): (r: seq<string>)
    ensures |r| >= 1
    decreases |s|
  {
    if |sep| == 0 || |s| < |sep| then [s]
    else if s[..|sep|] == sep then [""] + Split(s[|sep|..], sep)
    else
      var rest := Split(s[1..], sep);
      [[s[0]] + rest[0]] + rest[1..]
  }

  /** `String.Join(sep, parts)`. */
  function Join(parts: seq<string>, sep: string): string {
    if |parts| == 0 then ""
    else if |parts| == 1 then parts[0]
    else parts[0] + sep + Join(parts[1..], sep)
  }

  /** The number of occurrences of `sep` in `s` that a left-to-right scan finds without overlap. */
  function Occurrences(s: string, sep: string): nat
    decreases |s|
  {
    if |sep| == 0 || |s| < |sep| then 0
    else if s[..|sep|] == sep then 1 + Occurrences(s[|sep|..], sep)
    else Occurrences(s[1..], sep)
  }

  /** Joining the pieces with the separator gives back the split string. */
  lemma {:induction false} JoinSplit(s: string, sep: string)
    ensures Join(Split(s, sep), sep) == s
    decreases |s|
  {
    if |sep| == 0 || |s| < |sep| {
    } else if s[..|sep|] == sep {
      JoinSplit(s[|sep|..], sep);
      assert s == sep + s[|sep|..];
    } else {
      var rest := Split(s[1..], sep);
      JoinSplit(s[1..], sep);
      JoinConsChar(s[0], rest, sep);
      assert s == [s[0]] + s[1..];
    }
  }

  /** Prepending a character to the first piece prepends it to the joined string. */
  lemma JoinConsChar(c: char, parts: seq<string>, sep: string)
    requires |parts| >= 1
    ensures Join([[c] + parts[0]] + parts[1..], sep) == [c] + Join(parts, sep)
  {
    var ps := [[c] + parts[0]] + parts[1..];
    if |parts| > 1 {
      assert ps[1..] == parts[1..];
    }
  }

  /** For a one-character separator, the occurrences are simply the copies of that character. */
  lemma {:induction false} OccurrencesOfChar(s: string, c: char)
    ensures Occurrences(s, [c]) == multiset(s)[c]
    decreases |s|
  {
    if |s| > 0 {
      OccurrencesOfChar(s[1..], c);
      assert s == [s[0]] + s[1..];
      assert multiset(s) == multiset([s[0]]) + multiset(s[1..]);
      assert s[..1] == [s[0]];
    }
  }

  /** Splitting yields one piece more than there are separator occurrences. */
  lemma {:induction false} SplitCount(s: string, sep: string)
    ensures |Split(s, sep)| == Occurrences(s, sep) + 1
    decreases |s|
  {
    if |sep| == 0 || |s| < |sep| {
    } else if s[..|sep|] == sep {
      SplitCount(s[|sep|..], sep);
    } else {
      SplitCount(s[1..], sep);
    }
  }

  /** No piece contains the (non-empty) separator, and the first piece is a prefix of `s`. */
  lemma {:induction false} SplitPiecesSeparatorFree(s: string, sep: string)
    requires |sep| > 0
    ensures forall k :: 0 <= k < |Split(s, sep)| ==> !Contains(Split(s, sep)[k], sep)
    ensures Split(s, sep)[0] <= s
    decreases |s|
  {
    var r := Split(s, sep);
    if |s| < |sep| {
      assert forall i: nat :: !OccursAt(s, sep, i);
    } else if s[..|sep|] == sep {
      SplitPiecesSeparatorFree(s[|sep|..], sep);
      assert r[1..] == Split(s[|sep|..], sep);
      assert forall i: nat :: !OccursAt("", sep, i);
    } else {
      var rest := Split(s[1..], sep);
      SplitPiecesSeparatorFree(s[1..], sep);
      var t := [s[0]] + rest[0];
      assert t <= s;
      forall i: nat
        ensures !OccursAt(t, sep, i)
      {
        if i > 0 && OccursAt(t, sep, i) {
          assert t[i..i + |sep|] == rest[0][i - 1..i - 1 + |sep|];
          assert OccursAt(rest[0], sep, i - 1);
        }
      }
      assert r[1..] == rest[1..];
      forall k | 1 <= k < |r|
        ensures !Contains(r[k], sep)
      {
        assert r[k] == rest[k];
      }
    }
  }

  /**
   * Splitting `t + rest` by a one-character separator that `t` does not contain
   * glues `t` onto the first piece of `rest`.
   */
  lemma {:induction false} SplitPrefixFree(t: string, rest: string, c: char)
    requires c !in t
    ensures Split(t + rest, [c]) == [t + Split(rest, [c])[0]] + Split(rest, [c])[1..]
    decreases |t|
  {
    var r := Split(rest, [c]);
    if |t| == 0 {
      assert t + rest == rest;
      assert t + r[0] == r[0];
      assert r == [r[0]] + r[1..];
    } else {
      var u := t + rest;
      assert u[1..] == t[1..] + rest;
      assert u[..1] != [c] by { assert u[0] == t[0]; }
      SplitPrefixFree(t[1..], rest, c);
      assert [u[0]] + (t[1..] + Split(rest, [c])[0]) == t + Split(rest, [c])[0];
    }
  }

  /** With a one-character separator that no part contains, Split undoes Join. */
  lemma {:induction false} SplitJoin(parts: seq<string>, c: char)
    requires |parts| >= 1
    requires forall k :: 0 <= k < |parts| ==> c !in parts[k]
    ensures Split(Join(parts, [c]), [c]) == parts
    decreases |parts|
  {
    if |parts| == 1 {
      SplitPrefixFree(parts[0], "", c);
      assert parts[0] + "" == parts[0];
    } else {
      var tail := Join(parts[1..], [c]);
      SplitJoin(parts[1..], c);
      assert Join(parts, [c]) == parts[0] + ([c] + tail);
      SplitPrefixFree(parts[0], [c] + tail, c);
      assert ([c] + tail)[..1] == [c];
      assert ([c] + tail)[1..] == tail;
      assert parts[0] + "" == parts[0];
      assert parts == [parts[0]] + parts[1..];
    }
  }

  /** ASCII case folding of one character: 'A'..'Z' become 'a'..'z'. */
  function LowerChar(c: char): char {
    if 'A' <= c <= 'Z' then (c as int + 32) as char else c
  }

  function UpperChar(c: char): char {
    if 'a' <= c <= 'z' then (c as int - 32) as char else c
  }

  function Lower(s: string): string {
    seq(|s|, i requires 0 <= i < |s| => LowerChar(s[i]))
  }

  function Upper(s: string): string {
    seq(|s|, i requires 0 <= i < |s| => UpperChar(s[i]))
  }

  /**
   * Equality ignoring (ASCII) letter case: same length, and the characters at
   * each position are equal once letters are folded.
   */
  predicate EqualsIgnoreCase(a: string, b: string)
    ensures EqualsIgnoreCase(a, b) <==> |a| == |b| && forall i :: 0 <= i < |a| ==> LowerChar(a[i]) == LowerChar(b[i])
  {
    assert |Lower(a)| == |a| && |Lower(b)| == |b|;
    assert forall i :: 0 <= i < |a| ==> Lower(a)[i] == LowerChar(a[i]);
    assert forall i :: 0 <= i < |b| ==> Lower(b)[i] == LowerChar(b[i]);
    Lower(a) == Lower(b)
  }

  /** Folding twice folds no further. */
  lemma LowerIdempotent(s: string)
    ensures Lower(Lower(s)) == Lower(s)
  {
    assert forall i :: 0 <= i < |s| ==> Lower(Lower(s))[i] == Lower(s)[i];
  }

  /** Case-insensitive equality is an equivalence: reflexive, symmetric and transitive. */
  lemma EqualsIgnoreCaseEquivalence(a: string, b: string, c: string)
    ensures EqualsIgnoreCase(a, a)
    ensures EqualsIgnoreCase(a, b) ==> EqualsIgnoreCase(b, a)
    ensures EqualsIgnoreCase(a, b) && EqualsIgnoreCase(b, c) ==> EqualsIgnoreCase(a, c)
  {
  }

  /** Upper-casing a string does not change it up to case. */
  lemma UpperEqualsIgnoreCase(s: string)
    ensures EqualsIgnoreCase(Upper(s), s)
  {
    assert forall i :: 0 <= i < |s| ==> LowerChar(Upper(s)[i]) == LowerChar(s[i]);
  }

  /** Upper-casing and then folding is folding. */
  lemma LowerUpper(s: string)
    ensures Lower(Upper(s)) == Lower(s)
  {
    assert forall i :: 0 <= i < |s| ==> Lower(Upper(s))[i] == Lower(s)[i];
  }
}
