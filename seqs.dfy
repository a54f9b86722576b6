/** Order-preserving selection from a sequence. */
module Seqs {

  /** `r` is obtained from `s` by deleting elements, keeping the rest in their order. */
  ghost predicate IsSubsequence<T>(r: seq<T>, s: seq<T>)
    decreases |s|
  {
    if r == [] then true
    else if s == [] then false
    else (r[0] == s[0] && IsSubsequence(r[1..], s[1..])) || IsSubsequence(r, s[1..])
  }

  /** Appending one element to a sequence keeps every subsequence, with or without that element. */
  lemma {:induction false} SubsequenceSnoc<T>(r: seq<T>, s: seq<T>, x: T)
    requires IsSubsequence(r, s)
    ensures IsSubsequence(r, s + [x])
    ensures IsSubsequence(r + [x], s + [x])
    decreases |s|
  {
    if s == [] {
      assert r == [];
      assert IsSubsequence([x][1..], ([] + [x])[1..]);
    } else if r == [] {
      SubsequenceSnoc(r, s[1..], x);
      assert (s + [x])[1..] == s[1..] + [x];
      assert ([] + [x]) == [x];
    } else {
      assert (s + [x])[1..] == s[1..] + [x];
      assert (r + [x])[1..] == r[1..] + [x];
      if r[0] == s[0] && IsSubsequence(r[1..], s[1..]) {
        SubsequenceSnoc(r[1..], s[1..], x);
      } else {
        SubsequenceSnoc(r, s[1..], x);
      }
    }
  }

  /** A subsequence holds each element at most as often as the sequence it came from. */
  lemma {:induction false} SubsequenceMultiset<T>(r: seq<T>, s: seq<T>)
    requires IsSubsequence(r, s)
    ensures multiset(r) <= multiset(s)
    decreases |s|
  {
    if r != [] {
      assert s == [s[0]] + s[1..];
      if r[0] == s[0] && IsSubsequence(r[1..], s[1..]) {
        SubsequenceMultiset(r[1..], s[1..]);
        assert r == [r[0]] + r[1..];
      } else {
        SubsequenceMultiset(r, s[1..]);
      }
    }
  }

  /** Prepending one element to a sequence keeps every subsequence, with or without that element. */
  lemma SubsequenceCons<T>(x: T, r: seq<T>, s: seq<T>)
    requires IsSubsequence(r, s)
    ensures IsSubsequence(r, [x] + s)
    ensures IsSubsequence([x] + r, [x] + s)
  {
  }
}
