/** Small facts about sequences that the sending methods use to put the
    lines they send back together. */
module Seqs {
  /** A slice splits at any point inside it. */
  lemma SliceSplit<T>(s: seq<T>, a: nat, b: nat, c: nat)
    requires a <= b <= c <= |s|
    ensures s[a .. c] == s[a .. b] + s[b .. c]
  {
  }

  /** The first five elements of a sequence. */
  lemma First5<T>(r: seq<T>)
    requires 5 <= |r|
    ensures r[..5] == [r[0], r[1], r[2], r[3], r[4]]
  {
  }

  /** Five consecutive elements of a sequence. */
  lemma Run5<T>(r: seq<T>, lo: nat)
    requires lo + 5 <= |r|
    ensures r[lo .. lo + 5] == [r[lo], r[lo + 1], r[lo + 2], r[lo + 3], r[lo + 4]]
  {
  }

  /** Sending a line, three runs of five and five more lines one at a time
      sends the line, the fifteen and the five. */
  lemma SentInRuns<T>(sent: seq<T>, first: T, r: seq<T>, c: seq<T>)
    requires |r| == 15 && |c| == 5
    ensures sent + ([first] + r + c)
      == sent + [first] + r[..5] + r[5..10] + r[10..15] + [c[0]] + [c[1]] + [c[2]] + [c[3]] + [c[4]]
  {
    assert r == r[..5] + r[5..10] + r[10..15];
  }

  /** Five lines sent one at a time are sent as a run. */
  lemma Sent5<T>(sent: seq<T>, a: T, b: T, c: T, d: T, e: T)
    ensures sent + [a] + [b] + [c] + [d] + [e] == sent + [a, b, c, d, e]
  {
  }

  /** Concatenation is associative. */
  lemma Assoc<T>(a: seq<T>, b: seq<T>, c: seq<T>)
    ensures a + (b + c) == a + b + c
  {
  }

  /** The four parts of a concatenation at the front of a sequence, read
      back by slicing. */
  lemma Split4<T>(p: seq<T>, a: seq<T>, b: seq<T>, c: seq<T>, d: seq<T>)
    requires |a| + |b| + |c| + |d| <= |p| && p[..|a| + |b| + |c| + |d|] == a + b + c + d
    ensures p[..|a|] == a && p[|a| .. |a| + |b|] == b
    ensures p[|a| + |b| .. |a| + |b| + |c|] == c
    ensures p[|a| + |b| + |c| .. |a| + |b| + |c| + |d|] == d
  {
    var n := |a| + |b| + |c| + |d|;
    assert p[..|a|] == p[..n][..|a|];
    assert p[|a| .. |a| + |b|] == p[..n][|a| .. |a| + |b|];
    assert p[|a| + |b| .. |a| + |b| + |c|] == p[..n][|a| + |b| .. |a| + |b| + |c|];
    assert p[|a| + |b| + |c| .. n] == p[..n][|a| + |b| + |c| .. n];
  }
}
