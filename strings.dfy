/**
 * The few functions of Go's `strings` package that the launcher relies on,
 * over strings modelled as sequences of characters (one character per byte).
 */
module GoStrings {

  predicate HasPrefix(s: string, p: string) {
    |p| <= |s| && s[..|p|] == p
  }

  /** strings.IndexByte: the first position of `c`, or -1. */
  function IndexOf(s: string, c: char): (i: int)
    ensures -1 <= i < |s|
    ensures i == -1 <==> c !in s
    ensures 0 <= i ==> s[i] == c && c !in s[..i]
  {
    if |s| == 0 then -1
    else if s[0] == c then 0
    else
      var j := IndexOf(s[1..], c);
      if j == -1 then -1
      else
        assert s[..j + 1] == [s[0]] + s[1..][..j];
        j + 1
  }

  lemma IndexOfFirst(a: string, c: char, b: string)
    requires c !in a
    ensures IndexOf(a + [c] + b, c) == |a|
  {
    var s := a + [c] + b;
    assert s[..|a|] == a;
    assert s[|a|] == c;
  }

  /** strings.Cut with a one-character separator: (before, after, found). */
  function Cut(s: string, sep: char): (r: (string, string, bool))
    ensures r.2 <==> sep in s
    ensures r.2 ==> s == r.0 + [sep] + r.1 && sep !in r.0
    ensures !r.2 ==> r.0 == s && r.1 == ""
  {
    if sep !in s then (s, "", false)
    else
      var i := IndexOf(s, sep);
      assert s == s[..i] + [sep] + s[i + 1..];
      (s[..i], s[i + 1..], true)
  }

  /** Cut is determined by the first separator: any split at a separator-free prefix is the cut. */
  lemma CutAt(left: string, sep: char, rest: string)
    requires sep !in left
    ensures Cut(left + [sep] + rest, sep) == (left, rest, true)
  {
    var s := left + [sep] + rest;
    IndexOfFirst(left, sep, rest);
    assert s[..|left|] == left;
    assert s[|left| + 1..] == rest;
  }

  /** strings.Split with a one-character separator: never empty, and no field holds the separator. */
  function Split(s: string, sep: char): (r: seq<string>)
    ensures |r| >= 1
    ensures forall k :: 0 <= k < |r| ==> sep !in r[k]
    decreases |s|
  {
    if sep !in s then [s]
    else
      var i := IndexOf(s, sep);
      [s[..i]] + Split(s[i + 1..], sep)
  }

  /** strings.Join. */
  function Join(parts: seq<string>, sep: string): string
  {
    if |parts| == 0 then ""
    else if |parts| == 1 then parts[0]
    else parts[0] + sep + Join(parts[1..], sep)
  }

  /** strings.ReplaceAll with one-character old and new strings. */
  function Replace(s: string, from: char, to: char): (r: string)
    ensures |r| == |s|
    ensures forall k :: 0 <= k < |s| ==> r[k] == (if s[k] == from then to else s[k])
  {
    seq(|s|, k requires 0 <= k < |s| => if s[k] == from then to else s[k])
  }

  lemma ReplaceConcat(a: string, b: string, from: char, to: char)
    ensures Replace(a + b, from, to) == Replace(a, from, to) + Replace(b, from, to)
  {
  }

  /** Join of a head in front of at least one more part. */
  lemma JoinCons(a: string, rest: seq<string>, sep: string)
    requires |rest| >= 1
    ensures Join([a] + rest, sep) == a + sep + Join(rest, sep)
  {
    assert ([a] + rest)[1..] == rest;
  }

  /** Splitting at `sep` and joining with `d` is the same as replacing every `sep` by `d`. */
  lemma {:induction false} JoinSplit(s: string, sep: char, d: char)
    ensures Join(Split(s, sep), [d]) == Replace(s, sep, d)
    decreases |s|
  {
    if sep !in s {
      assert Replace(s, sep, d) == s;
    } else {
      var i := IndexOf(s, sep);
      var head, rest := s[..i], s[i + 1..];
      var fields := Split(rest, sep);
      JoinSplit(rest, sep, d);
      JoinCons(head, fields, [d]);
      assert s == head + [sep] + rest;
      ReplaceConcat(head + [sep], rest, sep, d);
      ReplaceConcat(head, [sep], sep, d);
      assert Replace(head, sep, d) == head;
      assert Replace([sep], sep, d) == [d];
    }
  }

  /** Joining the split fields with the separator gives the string back. */
  lemma SplitRoundTrip(s: string, sep: char)
    ensures Join(Split(s, sep), [sep]) == s
  {
    JoinSplit(s, sep, sep);
    assert Replace(s, sep, sep) == s;
  }

  /** Splitting a join of separator-free fields gives the fields back. */
  lemma {:induction false} JoinRoundTrip(parts: seq<string>, sep: char)
    requires |parts| >= 1
    requires forall k :: 0 <= k < |parts| ==> sep !in parts[k]
    ensures Split(Join(parts, [sep]), sep) == parts
    decreases |parts|
  {
    if |parts| > 1 {
      var head, rest := parts[0], parts[1..];
      var tail := Join(rest, [sep]);
      var s := Join(parts, [sep]);
      assert s == head + [sep] + tail;
      assert forall k :: 0 <= k < |rest| ==> rest[k] == parts[k + 1];
      JoinRoundTrip(rest, sep);
      IndexOfFirst(head, sep, tail);
      assert s[..|head|] == head;
      assert s[|head| + 1..] == tail;
      assert parts == [head] + rest;
    }
  }

  /** strings.Repeat. */
  function Repeat(p: string, n: nat): (r: string)
    ensures |r| == n * |p|
  {
    if n == 0 then "" else p + Repeat(p, n - 1)
  }

  /** The j-th copy of p in p repeated n times holds p's characters in order. */
  lemma {:induction false} RepeatAt(p: string, n: nat, j: nat, r: nat)
    requires j < n && r < |p|
    ensures j * |p| + r < |Repeat(p, n)| && Repeat(p, n)[j * |p| + r] == p[r]
  {
    assert n * |p| == (n - 1) * |p| + |p|;
    if j > 0 {
      RepeatAt(p, n - 1, j - 1, r);
      assert j * |p| == (j - 1) * |p| + |p|;
    }
  }

  lemma {:induction false} RepeatChar(p: string, n: nat)
    requires |p| == 1
    ensures |Repeat(p, n)| == n
    ensures forall k :: 0 <= k < n ==> Repeat(p, n)[k] == p[0]
  {
    if n > 0 {
      RepeatChar(p, n - 1);
    }
  }

  predicate OccursAt(t: string, q: string, i: int) {
    0 <= i && i + |q| <= |t| && t[i..i + |q|] == q
  }

  /** strings.Contains. */
  predicate Contains(t: string, q: string) {
    exists i | 0 <= i <= |t| - |q| :: OccursAt(t, q, i)
  }

  /** A string that contains a + q + b contains q. */
  lemma ContainsInfix(t: string, a: string, q: string, b: string)
    requires Contains(t, a + q + b)
    ensures Contains(t, q)
  {
    var x := a + q + b;
    var i :| 0 <= i <= |t| - |x| && OccursAt(t, x, i);
    var w := t[i..i + |x|];
    assert w == x;
    forall k | 0 <= k < |q| ensures w[|a| + k] == q[k] {
      assert x[|a| + k] == (a + q)[|a| + k];
    }
    assert t[i + |a|..i + |a| + |q|] == w[|a|..|a| + |q|];
    assert t[i + |a|..i + |a| + |q|] == q;
    assert OccursAt(t, q, i + |a|);
  }

  /** ASCII lower-casing; strings.ToLower restricted to ASCII letters. */
  function LowerChar(c: char): char {
    if 'A' <= c <= 'Z' then (c as int + 32) as char else c
  }

  function Lower(s: string): (r: string)
    ensures |r| == |s|
    ensures forall k :: 0 <= k < |s| ==> r[k] == LowerChar(s[k])
  {
    seq(|s|, k requires 0 <= k < |s| => LowerChar(s[k]))
  }

  lemma LowerConcat(x: string, y: string)
    ensures Lower(x + y) == Lower(x) + Lower(y)
  {
  }

  lemma LowerIdempotent(s: string)
    ensures Lower(Lower(s)) == Lower(s)
  {
  }
}
