/** Order-preserving filtering of sequences, the shape shared by list comprehensions with a
    condition, loops that `continue` past unwanted items and JavaScript's `Array.filter`. */
module Seqs {

  /** The elements of `s` that satisfy `p`, in their original order. */
  function Filter<T>(s: seq<T>, p: T -> bool): (r: seq<T>)
    ensures |r| <= |s|
    ensures forall x :: x in r ==> x in s && p(x)
  {
    if s == [] then [] else (if p(s[0]) then [s[0]] else []) + Filter(s[1..], p)
  }

  /** Filtering distributes over concatenation: what is kept from `a` comes first, unchanged
      by what follows. */
  lemma {:induction false} FilterAppend<T>(a: seq<T>, b: seq<T>, p: T -> bool)
    ensures Filter(a + b, p) == Filter(a, p) + Filter(b, p)
  {
    if a == [] {
      assert a + b == b;
    } else {
      assert (a + b)[0] == a[0];
      assert (a + b)[1..] == a[1..] + b;
      FilterAppend(a[1..], b, p);
    }
  }

  /** Filtering one more element appends it exactly when it satisfies `p`. */
  lemma FilterSnoc<T>(s: seq<T>, x: T, p: T -> bool)
    ensures Filter(s + [x], p) == Filter(s, p) + (if p(x) then [x] else [])
  {
    FilterAppend(s, [x], p);
    assert Filter([x], p) == (if p(x) then [x] else []) + Filter([x][1..], p);
    assert [x][1..] == [];
  }

  /** Every element that satisfies `p` survives the filter. */
  lemma {:induction false} FilterComplete<T>(s: seq<T>, p: T -> bool, x: T)
    requires x in s && p(x)
    ensures x in Filter(s, p)
  {
    if s[0] != x {
      assert x in s[1..];
      FilterComplete(s[1..], p, x);
    }
  }

  /** Membership in the filtered sequence, both ways. */
  lemma FilterMembership<T>(s: seq<T>, p: T -> bool)
    ensures forall x :: x in Filter(s, p) <==> x in s && p(x)
  {
    forall x | x in s && p(x)
      ensures x in Filter(s, p)
    {
      FilterComplete(s, p, x);
    }
  }

  /** Nothing survives a filter that no element satisfies. */
  lemma {:induction false} FilterNone<T>(s: seq<T>, p: T -> bool)
    requires forall i :: 0 <= i < |s| ==> !p(s[i])
    ensures Filter(s, p) == []
  {
    if s != [] {
      FilterNone(s[1..], p);
    }
  }

  /** Filtering a prefix of `s` yields a prefix of the filtered `s`. */
  lemma FilterPrefix<T>(s: seq<T>, k: nat, p: T -> bool)
    requires k <= |s|
    ensures Filter(s[..k], p) <= Filter(s, p)
  {
    assert s == s[..k] + s[k..];
    FilterAppend(s[..k], s[k..], p);
  }

  /** `idx` lists, in strictly increasing order, a position in `s` for each element of `r`. */
  ghost predicate Embedding<T>(r: seq<T>, s: seq<T>, idx: seq<nat>)
  {
    && |idx| == |r|
    && (forall j :: 0 <= j < |idx| ==> idx[j] < |s| && r[j] == s[idx[j]])
    && (forall j, k :: 0 <= j < k < |idx| ==> idx[j] < idx[k])
  }

  /** Every position moved one place to the right. */
  function Shift(q: seq<nat>): (r: seq<nat>)
    ensures |r| == |q| && forall j :: 0 <= j < |q| ==> r[j] == q[j] + 1
  {
    seq(|q|, j requires 0 <= j < |q| => q[j] + 1)
  }

  /** The positions in `s` of the elements that satisfy `p`, in increasing order. */
  ghost function Positions<T>(s: seq<T>, p: T -> bool): seq<nat>
  {
    if s == [] then [] else (if p(s[0]) then [0] else []) + Shift(Positions(s[1..], p))
  }

  /** One step of `Filter`, with the empty head part dropped. */
  lemma FilterHead<T>(s: seq<T>, p: T -> bool)
    requires s != []
    ensures Filter(s, p) == if p(s[0]) then [s[0]] + Filter(s[1..], p) else Filter(s[1..], p)
  {
    if !p(s[0]) {
      assert [] + Filter(s[1..], p) == Filter(s[1..], p);
    }
  }

  /** An embedding into the tail of `s` shifts to an embedding into `s`, with or without
      `s[0]` placed in front at position 0. */
  lemma EmbeddingShift<T>(r: seq<T>, s: seq<T>, idx: seq<nat>, keepHead: bool)
    requires s != [] && Embedding(r, s[1..], idx)
    ensures keepHead ==> Embedding([s[0]] + r, s, [0] + Shift(idx))
    ensures !keepHead ==> Embedding(r, s, Shift(idx))
  {
    var shifted := Shift(idx);
    forall j | 0 <= j < |idx|
      ensures shifted[j] < |s| && r[j] == s[shifted[j]]
    {
      assert s[1..][idx[j]] == s[idx[j] + 1];
    }
    if keepHead {
      var idx', r' := [0] + shifted, [s[0]] + r;
      forall j | 1 <= j < |idx'|
        ensures idx'[j] < |s| && r'[j] == s[idx'[j]]
      {
        assert idx'[j] == shifted[j - 1] && r'[j] == r[j - 1];
      }
    }
  }

  /** The filtered sequence sits in `s` at the positions `Positions(s, p)`. */
  lemma {:induction false} PositionsEmbed<T>(s: seq<T>, p: T -> bool)
    ensures Embedding(Filter(s, p), s, Positions(s, p))
  {
    if s != [] {
      PositionsEmbed(s[1..], p);
      FilterHead(s, p);
      EmbeddingShift(Filter(s[1..], p), s, Positions(s[1..], p), p(s[0]));
      if p(s[0]) {
        assert Positions(s, p) == [0] + Shift(Positions(s[1..], p));
      } else {
        assert Positions(s, p) == Shift(Positions(s[1..], p));
      }
    }
  }

  /** Every position whose element satisfies `p` is among `Positions(s, p)`. */
  lemma {:induction false} PositionsCover<T>(s: seq<T>, p: T -> bool)
    ensures forall i :: 0 <= i < |s| && p(s[i]) ==> i in Positions(s, p)
  {
    if s != [] {
      PositionsCover(s[1..], p);
      var rest := Positions(s[1..], p);
      var head: seq<nat> := if p(s[0]) then [0] else [];
      assert Positions(s, p) == head + Shift(rest);
      forall i | 0 <= i < |s| && p(s[i])
        ensures i in Positions(s, p)
      {
        if i > 0 {
          assert s[1..][i - 1] == s[i];
          var j :| 0 <= j < |rest| && rest[j] == i - 1;
          assert Positions(s, p)[|head| + j] == Shift(rest)[j] == i;
        }
      }
    }
  }

  /** The filtered sequence is a subsequence of `s`: `idx` gives, in strictly increasing
      order, the position in `s` of each kept element, and every position whose element
      satisfies `p` is among them. */
  lemma FilterSubsequence<T>(s: seq<T>, p: T -> bool) returns (idx: seq<nat>)
    ensures Embedding(Filter(s, p), s, idx)
    ensures forall i :: 0 <= i < |s| && p(s[i]) ==> i in idx
  {
    idx := Positions(s, p);
    PositionsEmbed(s, p);
    PositionsCover(s, p);
  }
}
