/** Facts about sequences that several modules share. */
module Seqs {
  lemma SliceSlice<T>(s: seq<T>, a: nat, b: nat, c: nat, d: nat)
    requires a <= b <= |s| && c <= d <= b - a
    ensures s[a..b][c..d] == s[a + c..a + d]
  {
    var x := s[a..b];
    forall i | 0 <= i < d - c
      ensures x[c..d][i] == s[a + c..a + d][i]
    {
      assert x[c + i] == s[a + (c + i)] == s[(a + c) + i];
    }
  }

  lemma SliceJoin<T>(s: seq<T>, a: nat, b: nat, c: nat)
    requires a <= b <= c <= |s|
    ensures s[a..b] + s[b..c] == s[a..c]
  {
  }

  lemma SliceOff<T>(s: seq<T>, p: nat, m: nat, a: seq<T>, b: seq<T>)
    requires p <= m <= |s| && s[p..m] == a + b
    ensures s[p..p + |a|] == a && s[p + |a|..m] == b
  {
    SliceSlice(s, p, m, 0, |a|);
    SliceSlice(s, p, m, |a|, m - p);
    assert (a + b)[..|a|] == a && (a + b)[|a|..] == b;
  }

  function Concat<T>(ss: seq<seq<T>>): seq<T> {
    if ss == [] then [] else ss[0] + Concat(ss[1..])
  }

  lemma {:induction false} ConcatAppend<T>(a: seq<seq<T>>, b: seq<seq<T>>)
    ensures Concat(a + b) == Concat(a) + Concat(b)
  {
    if a == [] {
      assert a + b == b;
    } else {
      assert Concat(a + b) == a[0] + (Concat(a[1..]) + Concat(b)) by {
        ConcatAppend(a[1..], b);
        assert (a + b)[0] == a[0] && (a + b)[1..] == a[1..] + b;
      }
      Assoc(a[0], Concat(a[1..]), Concat(b));
    }
  }

  lemma ConcatOne<T>(s: seq<T>)
    ensures Concat([s]) == s
  {
    assert [s][1..] == [];
  }

  lemma ConcatTake<T>(ss: seq<seq<T>>, i: nat)
    requires i < |ss|
    ensures Concat(ss[..i + 1]) == Concat(ss[..i]) + ss[i]
  {
    ConcatAppend(ss[..i], [ss[i]]);
    ConcatOne(ss[i]);
    assert ss[..i + 1] == ss[..i] + [ss[i]];
  }

  lemma Assoc<T>(a: seq<T>, b: seq<T>, c: seq<T>)
    ensures (a + b) + c == a + (b + c)
  {
  }
}
