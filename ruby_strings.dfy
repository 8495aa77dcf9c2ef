/**
 * The handful of Ruby `String` operations the script's decision rules rest on:
 * `include?`, `index`, `split` (with and without a limit), `start_with?`,
 * `downcase`, `gsub` of one character, and matching against a `^[...]*$`
 * pattern, whose anchors are line anchors in Ruby.
 */
module RubyStrings {
  import opened Basics

  /** `sep` occurs in `s` starting at index `i`. */
  predicate OccursAt(s: string, sep: string, i: nat)
  {
    i + |sep| <= |s| && s[i..i + |sep|] == sep
  }

  /** Index of the first occurrence of `sep` at or after `from` (Ruby's `String#index`). */
  function IndexFrom(s: string, sep: string, from: nat): (r: Option<nat>)
    requires |sep| > 0
    ensures r.Some? ==> from <= r.value && OccursAt(s, sep, r.value)
    ensures r.Some? ==> forall j: nat :: from <= j < r.value ==> !OccursAt(s, sep, j)
    ensures r.None? ==> forall j: nat :: from <= j ==> !OccursAt(s, sep, j)
    decreases |s| - from
  {
    if from + |sep| > |s| then None
    else if s[from..from + |sep|] == sep then Some(from)
    else IndexFrom(s, sep, from + 1)
  }

  /** Ruby's `String#include?` for a non-empty argument. */
  predicate Contains(s: string, sep: string)
    requires |sep| > 0
  {
    IndexFrom(s, sep, 0).Some?
  }

  lemma ContainsAt(s: string, sep: string, i: nat)
    requires |sep| > 0 && OccursAt(s, sep, i)
    ensures Contains(s, sep)
  {
  }

  /** For a one-character argument, `include?` is plain membership. */
  lemma ContainsChar(s: string, c: char)
    ensures Contains(s, [c]) <==> c in s
  {
    if c in s {
      var k :| 0 <= k < |s| && s[k] == c;
      assert s[k..k + 1] == [c];
      ContainsAt(s, [c], k);
    }
    if Contains(s, [c]) {
      var i := IndexFrom(s, [c], 0).value;
      assert s[i..i + 1] == [c];
      assert s[i] == c;
    }
  }

  /** A character of `t` that `s` lacks keeps `t` out of `s`. */
  lemma AbsentChar(s: string, t: string, c: char)
    requires |t| > 0 && c in t && c !in s
    ensures !Contains(s, t)
  {
    var m :| 0 <= m < |t| && t[m] == c;
    forall j: nat
      ensures !OccursAt(s, t, j)
    {
      if j + |t| <= |s| {
        assert s[j..j + |t|][m] == s[j + m];
      }
    }
  }

  predicate StartsWith(s: string, prefix: string)
  {
    |prefix| <= |s| && s[..|prefix|] == prefix
  }

  predicate EndsWith(s: string, suffix: string)
  {
    |suffix| <= |s| && s[|s| - |suffix|..] == suffix
  }

  /** `s.slice!(0, n)`'s result: the first `n` characters, or all of `s` when it is shorter. */
  function Head(s: string, n: nat): (r: string)
    ensures StartsWith(s, r)
    ensures |r| == if |s| < n then |s| else n
  {
    if |s| <= n then s else s[..n]
  }

  /**
   * All the fields of `s` between occurrences of `sep`, scanned left to
   * right, before Ruby drops the trailing empty ones.
   */
  function Fields(s: string, sep: string): (r: seq<string>)
    requires |sep| > 0
    ensures |r| >= 1
    decreases |s|
  {
    match IndexFrom(s, sep, 0)
    case None => [s]
    case Some(i) => [s[..i]] + Fields(s[i + |sep|..], sep)
  }

  function Join(parts: seq<string>, sep: string): string
  {
    if |parts| == 0 then ""
    else if |parts| == 1 then parts[0]
    else parts[0] + sep + Join(parts[1..], sep)
  }

  /** Ruby drops the empty fields at the end of a `split` result. */
  function DropTrailingEmpty(parts: seq<string>): (r: seq<string>)
    ensures |r| <= |parts| && r == parts[..|r|]
    ensures |r| > 0 ==> r[|r| - 1] != ""
    ensures forall k :: |r| <= k < |parts| ==> parts[k] == ""
  {
    if |parts| == 0 then []
    else if parts[|parts| - 1] == "" then DropTrailingEmpty(parts[..|parts| - 1])
    else parts
  }

  /** Ruby's `s.split(sep)` for a string separator other than a single space. */
  function Split(s: string, sep: string): seq<string>
    requires |sep| > 0
  {
    DropTrailingEmpty(Fields(s, sep))
  }

  /** Ruby's `s.split(sep, 2)`: at most one cut, trailing empty field kept. */
  function SplitOnce(s: string, sep: string): (r: seq<string>)
    requires |sep| > 0
    ensures |r| <= 2
    ensures s == "" <==> r == []
    ensures |r| == 1 ==> r[0] == s && !Contains(s, sep)
    ensures |r| == 2 ==> r[0] + sep + r[1] == s && !Contains(r[0], sep)
  {
    if s == "" then []
    else
      match IndexFrom(s, sep, 0)
      case None => [s]
      case Some(i) =>
        FirstFieldAvoidsSep(s, sep, i);
        assert s == s[..i] + sep + s[i + |sep|..];
        [s[..i], s[i + |sep|..]]
  }

  /** The text before the first occurrence of `sep` holds no occurrence of it. */
  lemma FirstFieldAvoidsSep(s: string, sep: string, i: nat)
    requires |sep| > 0 && IndexFrom(s, sep, 0) == Some(i)
    ensures !Contains(s[..i], sep)
  {
    if Contains(s[..i], sep) {
      var j := IndexFrom(s[..i], sep, 0).value;
      assert s[..i][j..j + |sep|] == s[j..j + |sep|];
      assert OccursAt(s, sep, j);
    }
  }

  /** Splitting and joining back gives the original text. */
  lemma {:induction false} JoinFields(s: string, sep: string)
    requires |sep| > 0
    ensures Join(Fields(s, sep), sep) == s
    decreases |s|
  {
    var idx := IndexFrom(s, sep, 0);
    if idx.None? {
      assert Fields(s, sep) == [s];
    } else {
      var i := idx.value;
      var rest := s[i + |sep|..];
      assert Fields(s, sep) == [s[..i]] + Fields(rest, sep);
      JoinFields(rest, sep);
      JoinCons(s[..i], Fields(rest, sep), sep);
      assert s[..i] + sep + rest == s by {
        assert s[i..i + |sep|] == sep;
        CutTwice(s, i, i + |sep|);
      }
    }
  }

  /** A text is its three pieces around two cut points. */
  lemma CutTwice(s: string, i: nat, j: nat)
    requires i <= j <= |s|
    ensures s == s[..i] + s[i..j] + s[j..]
  {
    assert s[..j] == s[..i] + s[i..j];
  }

  lemma JoinCons(x: string, tail: seq<string>, sep: string)
    requires |tail| >= 1
    ensures Join([x] + tail, sep) == x + sep + Join(tail, sep)
  {
    assert ([x] + tail)[1..] == tail;
  }

  /** No field of a split holds the separator. */
  lemma {:induction false} FieldsAvoidSep(s: string, sep: string)
    requires |sep| > 0
    ensures forall k :: 0 <= k < |Fields(s, sep)| ==> !Contains(Fields(s, sep)[k], sep)
    decreases |s|
  {
    match IndexFrom(s, sep, 0)
    case None =>
    case Some(i) =>
      FirstFieldAvoidsSep(s, sep, i);
      FieldsAvoidSep(s[i + |sep|..], sep);
  }

  /**
   * A separator whose first character does not recur inside it can only
   * occur where that first character stands; `@`, `:`, `/`, `.git`, `://`
   * and a newline are all of this kind.
   */
  predicate HeadUnique(sep: string)
  {
    |sep| > 0 && forall k :: 0 < k < |sep| ==> sep[k] != sep[0]
  }

  lemma IndexOfJoin(a: string, sep: string, b: string)
    requires HeadUnique(sep) && !Contains(a, sep)
    ensures IndexFrom(a + sep + b, sep, 0) == Some(|a|)
  {
    var s := a + sep + b;
    assert s[|a|..|a| + |sep|] == sep;
    assert OccursAt(s, sep, |a|);
    forall j: nat | j < |a|
      ensures !OccursAt(s, sep, j)
    {
      if j + |sep| <= |a| {
        assert !OccursAt(a, sep, j);
        assert s[j..j + |sep|] == a[j..j + |sep|];
      } else if j + |sep| <= |s| {
        var k := |a| - j;
        assert s[j..j + |sep|][k] == s[|a|] == sep[0] != sep[k];
      }
    }
    var r := IndexFrom(s, sep, 0);
    assert r.Some?;
  }

  lemma FieldsOfJoin(a: string, sep: string, b: string)
    requires HeadUnique(sep) && !Contains(a, sep)
    ensures Fields(a + sep + b, sep) == [a] + Fields(b, sep)
  {
    IndexOfJoin(a, sep, b);
    var s := a + sep + b;
    assert s[..|a|] == a;
    assert s[|a| + |sep|..] == b;
  }

  /** The converse round trip: joining separator-free parts and splitting again gives the parts back. */
  lemma {:induction false} FieldsJoin(parts: seq<string>, sep: string)
    requires HeadUnique(sep) && |parts| >= 1
    requires forall k :: 0 <= k < |parts| ==> !Contains(parts[k], sep)
    ensures Fields(Join(parts, sep), sep) == parts
    decreases |parts|
  {
    if |parts| > 1 {
      FieldsJoin(parts[1..], sep);
      FieldsOfJoin(parts[0], sep, Join(parts[1..], sep));
      assert parts == [parts[0]] + parts[1..];
    }
  }

  /** Joining one more, empty, part adds a trailing separator. */
  lemma {:induction false} JoinSnocEmpty(parts: seq<string>, sep: string)
    requires |parts| >= 1
    ensures Join(parts + [""], sep) == Join(parts, sep) + sep
    decreases |parts|
  {
    if |parts| == 1 {
      assert parts + [""] == [parts[0], ""];
    } else {
      JoinSnocEmpty(parts[1..], sep);
      assert (parts + [""])[1..] == parts[1..] + [""];
    }
  }

  lemma {:induction false} DropTrailingCons(a: string, rest: seq<string>)
    requires a != ""
    ensures DropTrailingEmpty([a] + rest) == [a] + DropTrailingEmpty(rest)
    decreases |rest|
  {
    if |rest| > 0 && rest[|rest| - 1] == "" {
      DropTrailingCons(a, rest[..|rest| - 1]);
      assert ([a] + rest)[..|rest|] == [a] + rest[..|rest| - 1];
    }
  }

  /** `(a + sep + b).split(sep)` starts with `a` when `a` is non-empty and free of `sep`. */
  lemma SplitOfJoin(a: string, sep: string, b: string)
    requires HeadUnique(sep) && !Contains(a, sep) && a != ""
    ensures Split(a + sep + b, sep) == [a] + Split(b, sep)
  {
    FieldsOfJoin(a, sep, b);
    DropTrailingCons(a, Fields(b, sep));
  }

  lemma SplitOfPlain(a: string, sep: string)
    requires |sep| > 0 && !Contains(a, sep) && a != ""
    ensures Split(a, sep) == [a]
  {
  }

  /** Splitting at the one separator character between two clean, non-empty parts gives those parts. */
  lemma SplitTwo(a: string, c: char, b: string)
    requires a != "" && b != "" && c !in a && c !in b
    ensures Split(a + [c] + b, [c]) == [a, b]
  {
    ContainsChar(a, c);
    ContainsChar(b, c);
    SplitOfJoin(a, [c], b);
    SplitOfPlain(b, [c]);
  }

  /** Ruby's `downcase` on the ASCII letters. */
  function DowncaseChar(c: char): char
  {
    if 'A' <= c <= 'Z' then (c as int + 32) as char else c
  }

  /** No capital letter is left; every other character stays where it was. */
  function Downcase(s: string): (r: string)
    ensures |r| == |s|
    ensures forall k :: 0 <= k < |s| ==> r[k] == DowncaseChar(s[k])
    ensures forall k :: 0 <= k < |r| ==> !('A' <= r[k] <= 'Z')
    ensures forall k :: 0 <= k < |s| && !('A' <= s[k] <= 'Z') ==> r[k] == s[k]
  {
    seq(|s|, k requires 0 <= k < |s| => DowncaseChar(s[k]))
  }

  /** Downcasing twice is downcasing once. */
  lemma DowncaseIdempotent(s: string)
    ensures Downcase(Downcase(s)) == Downcase(s)
  {
    var once := Downcase(s);
    assert forall k :: 0 <= k < |once| ==> Downcase(once)[k] == once[k];
  }

  /** Ruby's `gsub(from, to)` for one-character strings: no `from` is left when `to` differs. */
  function Replace(s: string, from: char, to: char): (r: string)
    ensures |r| == |s|
    ensures forall k :: 0 <= k < |s| ==> r[k] == (if s[k] == from then to else s[k])
    ensures from != to ==> from !in r
    ensures forall k :: 0 <= k < |s| && s[k] != from ==> r[k] == s[k]
  {
    seq(|s|, k requires 0 <= k < |s| => if s[k] == from then to else s[k])
  }

  /** Replacing twice is replacing once. */
  lemma ReplaceIdempotent(s: string, from: char, to: char)
    ensures Replace(Replace(s, from, to), from, to) == Replace(s, from, to)
  {
    var once := Replace(s, from, to);
    assert forall k :: 0 <= k < |once| ==> Replace(once, from, to)[k] == once[k];
  }

  /** Every character of `s` is in the class. */
  predicate AllIn(s: string, cls: char -> bool)
  {
    forall k :: 0 <= k < |s| ==> cls(s[k])
  }

  /** Where Ruby's `^` can match: the start, or after a newline that does not end the string. */
  predicate LineStart(s: string, i: nat)
  {
    i <= |s| && (i == 0 || (s[i - 1] == '\n' && i < |s|))
  }

  /** Where Ruby's `$` can match: the end, or just before a newline. */
  predicate LineEnd(s: string, j: nat)
  {
    j <= |s| && (j == |s| || s[j] == '\n')
  }

  /**
   * `s =~ /^[C]*$/` as Ruby evaluates it: the anchors are line anchors, so
   * the pattern succeeds as soon as one line of `s` is made of class characters.
   */
  predicate LineMatch(s: string, cls: char -> bool)
  {
    exists i: nat, j: nat :: i <= j <= |s| && LineStart(s, i) && LineEnd(s, j) && AllIn(s[i..j], cls)
  }

  /** A whole-string match also matches line-wise: the corrected check is never looser. */
  lemma WholeMatchIsLineMatch(s: string, cls: char -> bool)
    requires AllIn(s, cls)
    ensures LineMatch(s, cls)
  {
    assert LineStart(s, 0) && LineEnd(s, |s|);
    assert s[0..|s|] == s;
  }

  /** The characters Ruby's `\s` matches. */
  predicate IsSpace(c: char)
  {
    c == ' ' || c == '\t' || c == '\n' || c == '\U{0B}' || c == '\U{0C}' || c == '\r'
  }

  predicate HasSpace(s: string)
  {
    exists k :: 0 <= k < |s| && IsSpace(s[k])
  }
}
