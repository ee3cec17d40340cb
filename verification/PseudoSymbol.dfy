/**
  The pseudo-symbol of jpeg_gen_optimal_table: it has count 1 and the highest number, so it is always the first of the
  rarest, and no symbol gets a longer code. The loop that takes one code away from the greatest length in use therefore
  takes the code of the pseudo-symbol.
*/
module PseudoSymbol {
  import opened OptimalTree

  const PSEUDO: nat := 256

  /** Of the smallest nonzero counts the last one is found. */
  lemma {:induction false} LeastIsLast(freq: seq<nat>, skip: int, n: nat)
    requires n <= |freq|
    ensures var c := Least(freq, skip, n); c >= 0 ==> forall i :: 0 <= i < n && i != skip && freq[i] == freq[c] ==> i <= c
  {
    if n > 0 {
      LeastIsLast(freq, skip, n - 1);
    }
  }

  /** Root r is found after root l. */
  predicate Behind(freq: seq<nat>, r: int, l: int)
    requires |freq| == SYMBOLS && 0 <= r < SYMBOLS && 0 <= l < SYMBOLS
  {
    freq[r] > freq[l] || (freq[r] == freq[l] && l == PSEUDO)
  }

  /** Roots r and s together weigh as much as root l, or more. */
  predicate Outweigh(freq: seq<nat>, r: int, s: int, l: int)
    requires |freq| == SYMBOLS && 0 <= r < SYMBOLS && 0 <= s < SYMBOLS && 0 <= l < SYMBOLS
  {
    freq[r] + freq[s] > freq[l] || (freq[r] + freq[s] == freq[l] && l == PSEUDO)
  }

  predicate Rooted(freq: seq<nat>, codesize: seq<nat>, root: seq<int>)
  {
    && |freq| == |codesize| == |root| == SYMBOLS && root[PSEUDO] >= 0
    && (forall s :: 0 <= s < SYMBOLS ==> root[s] < SYMBOLS && (root[s] >= 0 ==> freq[root[s]] > 0) && (root[s] < 0 ==> codesize[s] == 0))
  }

  /** Trees as deep as l's come behind it. */
  predicate DeepBehind(freq: seq<nat>, codesize: seq<nat>, root: seq<int>, l: int, d: nat)
    requires Rooted(freq, codesize, root) && 0 <= l < SYMBOLS
  {
    forall s :: 0 <= s < SYMBOLS && root[s] >= 0 && root[s] != l && codesize[s] == d ==> Behind(freq, root[s], l)
  }

  /** Two other trees weigh at least as much together as l's tree. */
  predicate PairsReach(freq: seq<nat>, l: int)
    requires |freq| == SYMBOLS && 0 <= l < SYMBOLS
  {
    forall r, s :: 0 <= r < SYMBOLS && 0 <= s < SYMBOLS && r != s && r != l && s != l && freq[r] > 0 && freq[s] > 0 ==>
      freq[r] + freq[s] >= freq[l]
  }

  /** If one of two other trees may become as deep as l's by merging them, they will come behind it. */
  predicate PairsBehind(freq: seq<nat>, codesize: seq<nat>, root: seq<int>, l: int, d: nat)
    requires Rooted(freq, codesize, root) && 0 <= l < SYMBOLS
  {
    forall s, r :: 0 <= s < SYMBOLS && 0 <= r < SYMBOLS && DeepPair(freq, codesize, root, l, d, s, r) ==> Outweigh(freq, root[s], r, l)
  }

  predicate DeepPair(freq: seq<nat>, codesize: seq<nat>, root: seq<int>, l: int, d: nat, s: nat, r: nat)
    requires Rooted(freq, codesize, root) && s < SYMBOLS && r < SYMBOLS
  {
    root[s] >= 0 && root[s] != l && r != l && r != root[s] && freq[r] > 0 && codesize[s] + 1 >= d
  }

  /** No symbol is deeper than the pseudo-symbol; trees of its depth come behind, and so will trees made of others. */
  predicate Deepest(freq: seq<nat>, codesize: seq<nat>, root: seq<int>)
  {
    && Rooted(freq, codesize, root)
    && (forall s :: 0 <= s < SYMBOLS ==> codesize[s] <= codesize[PSEUDO])
    && DeepBehind(freq, codesize, root, root[PSEUDO], codesize[PSEUDO])
    && PairsReach(freq, root[PSEUDO]) && PairsBehind(freq, codesize, root, root[PSEUDO], codesize[PSEUDO])
  }

  /** c1 and c2 are the two roots found first. */
  predicate Rarest(freq: seq<nat>, c1: int, c2: int)
  {
    && |freq| == SYMBOLS && 0 <= c1 < SYMBOLS && 0 <= c2 < SYMBOLS && c1 != c2 && 0 < freq[c1] && 0 < freq[c2]
    && (forall i :: 0 <= i < SYMBOLS && freq[i] > 0 && i != c1 ==> freq[c1] < freq[i] || (freq[c1] == freq[i] && i < c1))
    && (forall i :: 0 <= i < SYMBOLS && freq[i] > 0 && i != c1 && i != c2 ==> freq[c2] < freq[i] || (freq[c2] == freq[i] && i < c2))
  }

  /** The pseudo-symbol is in neither tree: those are not as deep as its own, and come behind it once they are. */
  lemma {:induction false} OthersMerged(freq: seq<nat>, codesize: seq<nat>, root: seq<int>, c1: nat, c2: nat)
    requires Deepest(freq, codesize, root) && Rarest(freq, c1, c2) && root[PSEUDO] != c1 && root[PSEUDO] != c2
    ensures Deepest(freq[c1 := freq[c1] + freq[c2]][c2 := 0], Deeper(root, codesize, c1, c2), Rerooted(root, c1, c2))
  {
    var l, d := root[PSEUDO], codesize[PSEUDO];
    var freq', codesize', root' := freq[c1 := freq[c1] + freq[c2]][c2 := 0], Deeper(root, codesize, c1, c2), Rerooted(root, c1, c2);
    assert root'[PSEUDO] == l && codesize'[PSEUDO] == d;
    forall s | 0 <= s < SYMBOLS && (root[s] == c1 || root[s] == c2) ensures codesize[s] < d {
      assert !Behind(freq, root[s], l);
    }
    assert freq[c1] + freq[c2] >= freq[l];
    forall s | 0 <= s < SYMBOLS && root'[s] >= 0 && root'[s] != l && codesize'[s] == d ensures Behind(freq', root'[s], l) {
      if root[s] == c1 || root[s] == c2 {
        assert DeepPair(freq, codesize, root, l, d, s, if root[s] == c1 then c2 else c1);
      } else {
        assert Behind(freq, root[s], l);
      }
    }
    PairsStayBehind(freq, codesize, root, c1, c2, l, d);
  }

  lemma {:induction false} PairsStayBehind(freq: seq<nat>, codesize: seq<nat>, root: seq<int>, c1: nat, c2: nat, l: int, d: nat)
    requires Rooted(freq, codesize, root) && Rarest(freq, c1, c2) && 0 <= l < SYMBOLS && l != c1 && l != c2
    requires PairsBehind(freq, codesize, root, l, d) && freq[c1] + freq[c2] >= freq[l]
    requires Rooted(freq[c1 := freq[c1] + freq[c2]][c2 := 0], Deeper(root, codesize, c1, c2), Rerooted(root, c1, c2))
    ensures PairsBehind(freq[c1 := freq[c1] + freq[c2]][c2 := 0], Deeper(root, codesize, c1, c2), Rerooted(root, c1, c2), l, d)
  {
    var freq', codesize', root' := freq[c1 := freq[c1] + freq[c2]][c2 := 0], Deeper(root, codesize, c1, c2), Rerooted(root, c1, c2);
    forall s, r | 0 <= s < SYMBOLS && 0 <= r < SYMBOLS && DeepPair(freq', codesize', root', l, d, s, r)
      ensures Outweigh(freq', root'[s], r, l)
    {
      if root[s] != c1 && root[s] != c2 && r != c1 {
        assert DeepPair(freq, codesize, root, l, d, s, r);
      }
    }
  }

  /** The tree of the pseudo-symbol is merged: it becomes deeper than all others. */
  lemma {:induction false} OwnMerged(freq: seq<nat>, codesize: seq<nat>, root: seq<int>, c1: nat, c2: nat)
    requires Deepest(freq, codesize, root) && Rarest(freq, c1, c2) && (root[PSEUDO] == c1 || root[PSEUDO] == c2)
    ensures Deepest(freq[c1 := freq[c1] + freq[c2]][c2 := 0], Deeper(root, codesize, c1, c2), Rerooted(root, c1, c2))
  {
    var l, d := root[PSEUDO], codesize[PSEUDO];
    var freq', codesize', root' := freq[c1 := freq[c1] + freq[c2]][c2 := 0], Deeper(root, codesize, c1, c2), Rerooted(root, c1, c2);
    assert root'[PSEUDO] == c1 && codesize'[PSEUDO] == d + 1;
    forall s, r | 0 <= s < SYMBOLS && 0 <= r < SYMBOLS && DeepPair(freq', codesize', root', c1, d + 1, s, r)
      ensures Outweigh(freq', root'[s], r, c1)
    {
      assert root'[s] == root[s] && codesize[s] == d;
      assert Behind(freq, root[s], l);
    }
  }

  lemma {:induction false} RarestAre(freq: seq<nat>, c1: int, c2: int)
    requires |freq| == SYMBOLS && c1 == Least(freq, -1, |freq|) && c2 == Least(freq, c1, |freq|) && c2 >= 0
    ensures c1 >= 0 && Rarest(freq, c1, c2)
  {
    LeastIsLast(freq, -1, |freq|);
    LeastIsLast(freq, c1, |freq|);
  }

  lemma {:induction false} StaysDeepest(freq: seq<nat>, codesize: seq<nat>, root: seq<int>)
    requires Deepest(freq, codesize, root)
    ensures forall s :: 0 <= s < SYMBOLS ==> Lengths(freq, codesize, root)[s] <= Lengths(freq, codesize, root)[PSEUDO]
    decreases Trees(freq, SYMBOLS)
  {
    var c1 := Least(freq, -1, |freq|);
    var c2 := Least(freq, c1, |freq|);
    if c2 >= 0 {
      RarestAre(freq, c1, c2);
      MergedCounts(freq, c1, c2);
      if root[PSEUDO] == c1 || root[PSEUDO] == c2 {
        OwnMerged(freq, codesize, root, c1, c2);
      } else {
        OthersMerged(freq, codesize, root, c1, c2);
      }
      StaysDeepest(freq[c1 := freq[c1] + freq[c2]][c2 := 0], Deeper(root, codesize, c1, c2), Rerooted(root, c1, c2));
    }
  }

  /** With a count of 1 for the pseudo-symbol no code is longer than its code. */
  lemma {:induction false} LongestCode(freq: seq<nat>)
    requires |freq| == SYMBOLS && freq[256] == 1
    ensures forall s :: 0 <= s < SYMBOLS ==> CodeLengths(freq)[s] <= CodeLengths(freq)[256]
  {
    StaysDeepest(freq, seq(SYMBOLS, _ => 0), Lone(freq));
  }
}
