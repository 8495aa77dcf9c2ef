/**
 * The order Ruby's `String#<=>` puts strings in (character by character, a
 * proper prefix first) and the `sort` the script compares a domain list
 * against. A sorted permutation is unique, so any correct sort gives the
 * same list; insertion sort stands in for Ruby's.
 */
module Ordering {

  /** `a <= b` in Ruby's string order. */
  predicate LexLe(a: string, b: string)
    decreases |a|
  {
    |a| == 0 || (|b| > 0 && (a[0] < b[0] || (a[0] == b[0] && LexLe(a[1..], b[1..]))))
  }

  lemma {:induction false} LexLeRefl(a: string)
    ensures LexLe(a, a)
    decreases |a|
  {
    if |a| > 0 {
      LexLeRefl(a[1..]);
    }
  }

  lemma {:induction false} LexLeTotal(a: string, b: string)
    ensures LexLe(a, b) || LexLe(b, a)
    decreases |a|
  {
    if |a| > 0 && |b| > 0 && a[0] == b[0] {
      LexLeTotal(a[1..], b[1..]);
    }
  }

  lemma {:induction false} LexLeAntisym(a: string, b: string)
    requires LexLe(a, b) && LexLe(b, a)
    ensures a == b
    decreases |a|
  {
    if |a| > 0 {
      LexLeAntisym(a[1..], b[1..]);
      assert a == [a[0]] + a[1..] && b == [b[0]] + b[1..];
    }
  }

  lemma {:induction false} LexLeTrans(a: string, b: string, c: string)
    requires LexLe(a, b) && LexLe(b, c)
    ensures LexLe(a, c)
    decreases |a|
  {
    if |a| > 0 && a[0] == b[0] && b[0] == c[0] {
      LexLeTrans(a[1..], b[1..], c[1..]);
    }
  }

  /** Every earlier element is at most every later one. */
  predicate Sorted(s: seq<string>)
  {
    forall i, j :: 0 <= i < j < |s| ==> LexLe(s[i], s[j])
  }

  /** `x` is at most every element of `s`. */
  predicate Below(x: string, s: seq<string>)
  {
    forall k :: 0 <= k < |s| ==> LexLe(x, s[k])
  }

  lemma BelowByMultiset(x: string, s: seq<string>, t: seq<string>)
    requires Below(x, s) && multiset(t) <= multiset(s)
    ensures Below(x, t)
  {
    forall k | 0 <= k < |t|
      ensures LexLe(x, t[k])
    {
      assert t[k] in multiset(t);
      assert t[k] in multiset(s);
      var m :| 0 <= m < |s| && s[m] == t[k];
    }
  }

  /** Puts `x` in front of the first element it does not exceed. */
  function Insert(x: string, s: seq<string>): (r: seq<string>)
    requires Sorted(s)
    ensures multiset(r) == multiset(s) + multiset{x}
    ensures Sorted(r)
  {
    if |s| == 0 then [x]
    else if LexLe(x, s[0]) then
      assert forall k :: 0 < k < |s| ==> LexLe(x, s[k]) by {
        forall k | 0 < k < |s| ensures LexLe(x, s[k]) { LexLeTrans(x, s[0], s[k]); }
      }
      [x] + s
    else
      LexLeTotal(x, s[0]);
      assert s == [s[0]] + s[1..];
      var rest := Insert(x, s[1..]);
      assert Below(s[0], s[1..] + [x]);
      BelowByMultiset(s[0], s[1..] + [x], rest);
      [s[0]] + rest
  }

  /** Ruby's `sort` on a list of strings. */
  function Sort(s: seq<string>): (r: seq<string>)
    ensures multiset(r) == multiset(s)
    ensures Sorted(r)
  {
    if |s| == 0 then []
    else
      assert s == s[..|s| - 1] + [s[|s| - 1]];
      Insert(s[|s| - 1], Sort(s[..|s| - 1]))
  }

  /** Two sorted lists with the same elements start with the same element. */
  lemma SortedHeads(a: seq<string>, b: seq<string>)
    requires Sorted(a) && Sorted(b) && multiset(a) == multiset(b) && |a| > 0
    ensures |b| > 0 && a[0] == b[0]
  {
    assert |b| > 0 by { assert |multiset(b)| == |b| && |multiset(a)| == |a|; }
    assert a[0] in multiset(b);
    assert b[0] in multiset(a);
    var i :| 0 <= i < |b| && b[i] == a[0];
    var j :| 0 <= j < |a| && a[j] == b[0];
    if i > 0 { assert LexLe(b[0], b[i]); } else { LexLeRefl(b[0]); }
    if j > 0 { assert LexLe(a[0], a[j]); } else { LexLeRefl(a[0]); }
    LexLeAntisym(a[0], b[0]);
  }

  lemma TailMultiset(a: seq<string>)
    requires |a| > 0
    ensures multiset(a[1..]) == multiset(a) - multiset{a[0]}
  {
    assert a == [a[0]] + a[1..];
  }

  /** Two sorted lists with the same elements are the same list. */
  lemma {:induction false} SortedUnique(a: seq<string>, b: seq<string>)
    requires Sorted(a) && Sorted(b) && multiset(a) == multiset(b)
    ensures a == b
    decreases |a|
  {
    if |a| > 0 {
      SortedHeads(a, b);
      TailMultiset(a);
      TailMultiset(b);
      SortedUnique(a[1..], b[1..]);
      assert a == [a[0]] + a[1..] && b == [b[0]] + b[1..];
    } else {
      assert |multiset(b)| == |b|;
    }
  }

  /**
   * The script's alphabetical check `domains != domains.sort` fails exactly
   * when the list is out of order.
   */
  lemma SortIsIdentityIffSorted(s: seq<string>)
    ensures Sort(s) == s <==> Sorted(s)
  {
    if Sorted(s) {
      SortedUnique(Sort(s), s);
    }
  }

  lemma SortIdempotent(s: seq<string>)
    ensures Sort(Sort(s)) == Sort(s)
  {
    SortIsIdentityIffSorted(Sort(s));
  }

  /** Sortedness needs only neighbouring pairs to be in order. */
  lemma {:induction false} SortedIffAdjacent(s: seq<string>)
    ensures Sorted(s) <==> forall k :: 0 < k < |s| ==> LexLe(s[k - 1], s[k])
    decreases |s|
  {
    if |s| > 1 && forall k :: 0 < k < |s| ==> LexLe(s[k - 1], s[k]) {
      SortedIffAdjacent(s[1..]);
      assert Sorted(s[1..]);
      forall j | 1 < j < |s|
        ensures LexLe(s[0], s[j])
      {
        assert LexLe(s[1], s[j]);
        LexLeTrans(s[0], s[1], s[j]);
      }
    }
  }
}
