/** Overwriting stretches of a buffer. */
module Buffers {
  /** b was written at p. */
  ghost predicate Over<T>(was: seq<T>, now: seq<T>, p: nat, b: seq<T>)
  {
    p + |b| <= |was| && now == was[..p] + b + was[p + |b|..]
  }

  /** From p on, src still holds the rest of text, which started at o. */
  ghost predicate Ahead<T>(src: seq<T>, text: seq<T>, o: nat, p: nat)
  {
    o <= p <= o + |text| <= |src| && src[p..o + |text|] == text[p - o..]
  }

  lemma {:induction false} OverNothing<T>(was: seq<T>, p: nat)
    requires p <= |was|
    ensures Over(was, was, p, [])
  {
    assert was[..p] + [] + was[p..] == was;
  }

  /** Two adjoining stretches, one after the other. */
  lemma {:induction false} OverThen<T>(was: seq<T>, mid: seq<T>, now: seq<T>, p: nat, a: seq<T>, b: seq<T>)
    requires Over(was, mid, p, a) && Over(mid, now, p + |a|, b)
    ensures Over(was, now, p, a + b)
  {
    assert mid[..p + |a|] == was[..p] + a;
    assert mid[p + |a| + |b|..] == was[p + |a| + |b|..];
    assert now == was[..p] + (a + b) + was[p + |a + b|..];
  }

  lemma {:induction false} OverGives<T>(was: seq<T>, now: seq<T>, p: nat, b: seq<T>)
    requires Over(was, now, p, b)
    ensures |now| == |was| && p + |b| <= |was| && now[p..p + |b|] == b
    ensures forall i :: 0 <= i < |was| && !(p <= i < p + |b|) ==> now[i] == was[i]
  {
  }

  lemma {:induction false} OverAt<T>(was: seq<T>, now: seq<T>, p: nat, b: seq<T>)
    requires |now| == |was| && p + |b| <= |was|
    requires forall i :: 0 <= i < |was| ==> now[i] == if p <= i < p + |b| then b[i - p] else was[i]
    ensures Over(was, now, p, b)
  {
  }

  /** The text ahead survives a stretch written before it. */
  lemma {:induction false} AheadOver<T>(src: seq<T>, src': seq<T>, text: seq<T>, o: nat, p: nat, b: seq<T>, k: nat)
    requires Ahead(src, text, o, p) && (Over(src, src', p, b) || src' == src) && |b| <= k && p + k <= o + |text|
    ensures Ahead(src', text, o, p + k)
  {
    assert forall i :: p + k <= i < o + |text| ==> src'[i] == src[i] && src[i] == src[p..o + |text|][i - p] && text[i - o] == text[p - o..][i - p];
    assert |src'| == |src|;
    assert src'[p + k..o + |text|] == text[p + k - o..];
  }

  lemma {:induction false} AheadGives<T>(src: seq<T>, text: seq<T>, o: nat, p: nat, k: nat)
    requires Ahead(src, text, o, p) && p + k <= o + |text|
    ensures p + k <= |src| && o <= p && src[p..p + k] == text[p - o..][..k]
  {
    assert src[p..p + k] == src[p..o + |text|][..k];
  }

  lemma {:induction false} Slice<T>(s: seq<T>, a: nat, n: nat, i: nat, j: nat)
    requires i <= j <= n && a + n <= |s|
    ensures s[a..a + n][i..j] == s[a + i..a + j]
  {
    var p, q := s[a..a + n][i..j], s[a + i..a + j];
    forall k | 0 <= k < |p| ensures p[k] == q[k] { assert s[a..a + n][i + k] == s[a + (i + k)]; }
    assert p == q;
  }
}
