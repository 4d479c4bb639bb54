/**
 Python 2 byte-string operations the plugin relies on: `str.lower()` and the
 ordering `list.sort()` uses on module and repository names.
 */
module Text {

  /** Lower-cases one ASCII letter; every other character is left alone. */
  function LowerChar(c: char): char {
    if 'A' <= c <= 'Z' then (c as int + 32) as char else c
  }

  predicate IsUpper(c: char) {
    'A' <= c <= 'Z'
  }

  /** `s.lower()` on a byte string: each upper-case ASCII letter becomes the
      lower-case letter at the same place in the alphabet, and every other
      character stays as it is. */
  function Lower(s: string): (r: string)
    ensures |r| == |s|
    ensures forall i :: 0 <= i < |s| ==>
              if IsUpper(s[i]) then r[i] as int - 'a' as int == s[i] as int - 'A' as int else r[i] == s[i]
  {
    seq(|s|, i requires 0 <= i < |s| => LowerChar(s[i]))
  }

  /** Lower-casing keeps the length, leaves no upper-case letter behind and is idempotent. */
  lemma LowerIdempotent(s: string)
    ensures |Lower(s)| == |s|
    ensures forall i :: 0 <= i < |s| ==> !IsUpper(Lower(s)[i])
    ensures Lower(Lower(s)) == Lower(s)
  {
    var l := Lower(s);
    forall i | 0 <= i < |s|
      ensures LowerChar(l[i]) == l[i]
    {
      assert l[i] == LowerChar(s[i]);
    }
  }

  /** `a` comes before `b` in dictionary order: it is a proper prefix of `b`,
      or the two agree up to some position where `a` has the smaller character. */
  ghost predicate Lexicographic(a: string, b: string) {
    || (|a| < |b| && a == b[..|a|])
    || exists k :: 0 <= k < |a| && k < |b| && a[..k] == b[..k] && a[k] < b[k]
  }

  /** Dictionary order is decided by the first characters, then by the rests. */
  lemma LexicographicStep(a: string, b: string)
    requires |a| > 0 && |b| > 0
    ensures Lexicographic(a, b) <==> a[0] < b[0] || (a[0] == b[0] && Lexicographic(a[1..], b[1..]))
  {
    if a[0] < b[0] {
      assert a[..0] == b[..0];
    } else if a[0] == b[0] {
      if Lexicographic(a[1..], b[1..]) {
        if |a| - 1 < |b| - 1 && a[1..] == b[1..][..|a| - 1] {
          assert a == [a[0]] + a[1..] && b[..|a|] == [b[0]] + b[1..][..|a| - 1];
        } else {
          var k :| 0 <= k < |a| - 1 && k < |b| - 1 && a[1..][..k] == b[1..][..k] && a[1..][k] < b[1..][k];
          assert a[..k + 1] == [a[0]] + a[1..][..k] && b[..k + 1] == [b[0]] + b[1..][..k];
        }
      }
      if Lexicographic(a, b) {
        if |a| < |b| && a == b[..|a|] {
          assert a[1..] == b[1..][..|a| - 1];
        } else {
          var k :| 0 <= k < |a| && k < |b| && a[..k] == b[..k] && a[k] < b[k];
          assert k > 0;
          assert a[1..][..k - 1] == a[..k][1..] && b[1..][..k - 1] == b[..k][1..];
        }
      }
    }
  }

  /** Lexicographic order on strings, as Python compares `str` values: the
      first differing character decides, and a proper prefix comes first. */
  predicate Less(a: string, b: string): (r: bool)
    ensures r <==> Lexicographic(a, b)
    decreases |a|
  {
    if |a| == 0 then
      assert |b| > 0 ==> a == b[..0];
      |b| > 0
    else if |b| == 0 then false
    else
      LexicographicStep(a, b);
      a[0] < b[0] || (a[0] == b[0] && Less(a[1..], b[1..]))
  }

  lemma {:induction false} LessIrreflexive(a: string)
    ensures !Less(a, a)
    decreases |a|
  {
    if |a| > 0 {
      LessIrreflexive(a[1..]);
    }
  }

  lemma {:induction false} LessTransitive(a: string, b: string, c: string)
    requires Less(a, b) && Less(b, c)
    ensures Less(a, c)
    decreases |a|
  {
    if |a| > 0 && a[0] == b[0] && b[0] == c[0] {
      LessTransitive(a[1..], b[1..], c[1..]);
    }
  }

  /** Any two different strings are ordered one way or the other. */
  lemma {:induction false} LessTotal(a: string, b: string)
    requires a != b
    ensures Less(a, b) || Less(b, a)
    decreases |a|
  {
    if |a| > 0 && |b| > 0 && a[0] == b[0] {
      assert a == [a[0]] + a[1..] && b == [b[0]] + b[1..];
      LessTotal(a[1..], b[1..]);
    }
  }

  /** Ascending and free of duplicates. */
  ghost predicate StrictlySorted(s: seq<string>) {
    forall i, j :: 0 <= i < j < |s| ==> Less(s[i], s[j])
  }

  /** A strictly sorted sequence never repeats an element. */
  lemma SortedDistinct(s: seq<string>)
    requires StrictlySorted(s)
    ensures forall i, j :: 0 <= i < |s| && 0 <= j < |s| && i != j ==> s[i] != s[j]
  {
    forall i, j | 0 <= i < |s| && 0 <= j < |s| && i != j
      ensures s[i] != s[j]
    {
      LessIrreflexive(s[i]);
    }
  }

  /** Places `x` into a strictly sorted sequence that does not hold it yet. */
  function Insert(s: seq<string>, x: string): (r: seq<string>)
    requires StrictlySorted(s) && x !in s
    ensures StrictlySorted(r)
    ensures forall y :: y in r <==> y in s || y == x
    ensures |r| == |s| + 1
    decreases |s|
  {
    if |s| == 0 then [x]
    else if Less(x, s[0]) then
      assert forall j :: 0 <= j < |s| ==> Less(x, s[j]) by {
        forall j | 0 <= j < |s| ensures Less(x, s[j]) {
          if j > 0 { LessTransitive(x, s[0], s[j]); }
        }
      }
      [x] + s
    else
      LessTotal(x, s[0]);
      var tail := Insert(s[1..], x);
      assert forall y :: y in tail ==> Less(s[0], y) by {
        forall y | y in tail ensures Less(s[0], y) {
          if y != x {
            var j :| 1 <= j < |s| && s[j] == y;
          }
        }
      }
      [s[0]] + tail
  }

  /** `sorted(items)`: the elements of a finite set, ascending. */
  method SortSet(items: set<string>) returns (r: seq<string>)
    ensures StrictlySorted(r)
    ensures forall y :: y in r <==> y in items
    ensures |r| == |items|
  {
    r := [];
    var rest := items;
    while rest != {}
      invariant rest <= items
      invariant StrictlySorted(r)
      invariant forall y :: y in r <==> y in items && y !in rest
      invariant |r| + |rest| == |items|
      decreases |rest|
    {
      var x :| x in rest;
      r := Insert(r, x);
      rest := rest - {x};
    }
  }
}
