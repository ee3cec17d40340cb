/** Code lengths from counts: the merging phase of jpeg_gen_optimal_table (section K.2 of ITU-T T.81). */
module OptimalTree {

  /** 256 symbols, and a pseudo-symbol that keeps the all-ones code free. */
  const SYMBOLS: nat := 257

  const LIMIT: nat := 1000000000

  // ---- Kraft sums ----

  /** Two to the power -n. */
  function Weight(n: nat): (w: real)
    ensures 0.0 < w <= 1.0 && (n > 0 ==> w <= 0.5)
  {
    if n == 0 then 1.0 else Weight(n - 1) / 2.0
  }

  /** Kraft sum of the symbols below n that belong to the tree with root c. */
  function TreeSum(root: seq<int>, codesize: seq<nat>, c: int, n: nat): (w: real)
    requires n <= |root| == |codesize|
    ensures w >= 0.0
  {
    if n == 0 then 0.0
    else TreeSum(root, codesize, c, n - 1) + (if root[n - 1] == c then Weight(codesize[n - 1]) else 0.0)
  }

  /** The trees with roots c1 and c2 have become one tree with root c1, one level deeper. */
  predicate Joined(root: seq<int>, codesize: seq<nat>, root': seq<int>, codesize': seq<nat>, c1: int, c2: int)
  {
    && c1 != c2 && |root| == |root'| == |codesize| == |codesize'|
    && (forall s :: 0 <= s < |root| ==> root'[s] == if root[s] == c2 then c1 else root[s])
    && (forall s :: 0 <= s < |root| ==> codesize'[s] == if root[s] == c1 || root[s] == c2 then codesize[s] + 1 else codesize[s])
  }

  lemma {:induction false} JoinedSums(root: seq<int>, codesize: seq<nat>, root': seq<int>, codesize': seq<nat>, c1: int, c2: int, c: int, n: nat)
    requires Joined(root, codesize, root', codesize', c1, c2) && n <= |root|
    ensures TreeSum(root', codesize', c1, n) == (TreeSum(root, codesize, c1, n) + TreeSum(root, codesize, c2, n)) / 2.0
    ensures c != c1 && c != c2 ==> TreeSum(root', codesize', c, n) == TreeSum(root, codesize, c, n)
  {
    if n > 0 {
      JoinedSums(root, codesize, root', codesize', c1, c2, c, n - 1);
    }
  }

  lemma {:induction false} LoneSum(root: seq<int>, codesize: seq<nat>, c: int, n: nat)
    requires 0 <= c < |root| == |codesize| && n <= |root| && codesize[c] == 0
    requires forall s :: 0 <= s < |root| ==> (root[s] == c <==> s == c)
    ensures TreeSum(root, codesize, c, n) == if c < n then 1.0 else 0.0
  {
    if n > 0 {
      LoneSum(root, codesize, c, n - 1);
    }
  }

  /** In a tree with two symbols and Kraft sum 1 no code length is 0. */
  lemma {:induction false} PositiveSizes(root: seq<int>, codesize: seq<nat>, c: int, s: nat, t: nat, n: nat)
    requires n <= |root| == |codesize| && s != t && s < n && t < n && root[s] == c && root[t] == c
    ensures TreeSum(root, codesize, c, n) >= Weight(codesize[s]) + Weight(codesize[t])
  {
    if s == n - 1 {
      AtLeast(root, codesize, c, t, n - 1);
    } else if t == n - 1 {
      AtLeast(root, codesize, c, s, n - 1);
    } else {
      PositiveSizes(root, codesize, c, s, t, n - 1);
    }
  }

  lemma {:induction false} AtLeast(root: seq<int>, codesize: seq<nat>, c: int, s: nat, n: nat)
    requires s < n <= |root| == |codesize| && root[s] == c
    ensures TreeSum(root, codesize, c, n) >= Weight(codesize[s])
  {
    if s < n - 1 {
      AtLeast(root, codesize, c, s, n - 1);
    }
  }

  // ---- Counts ----

  function Sum(freq: seq<nat>, n: nat): (r: nat)
    requires n <= |freq|
  {
    if n == 0 then 0 else Sum(freq, n - 1) + freq[n - 1]
  }

  lemma {:induction false} SumSet(freq: seq<nat>, i: nat, v: nat, n: nat)
    requires i < |freq| && n <= |freq|
    ensures Sum(freq[i := v], n) + (if i < n then freq[i] else 0) == Sum(freq, n) + (if i < n then v else 0)
  {
    if n > 0 {
      SumSet(freq, i, v, n - 1);
    }
  }

  /** Two counts are at most the sum of all. */
  lemma {:induction false} SumBounds(freq: seq<nat>, i: nat, j: nat, n: nat)
    requires i < n <= |freq| && j < n && i != j
    ensures freq[i] + freq[j] <= Sum(freq, n)
  {
    SumSet(freq, i, 0, n);
    SumSet(freq[i := 0], j, 0, n);
  }

  /** Number of nonzero counts. */
  function Trees(freq: seq<nat>, n: nat): (r: nat)
    requires n <= |freq|
  {
    if n == 0 then 0 else Trees(freq, n - 1) + (if freq[n - 1] > 0 then 1 else 0)
  }

  lemma {:induction false} TreesSet(freq: seq<nat>, i: nat, v: nat, n: nat)
    requires i < |freq| && n <= |freq|
    ensures Trees(freq[i := v], n) + (if i < n && freq[i] > 0 then 1 else 0) == Trees(freq, n) + (if i < n && v > 0 then 1 else 0)
  {
    if n > 0 {
      TreesSet(freq, i, v, n - 1);
    }
  }

  // ---- Branches ----

  /** Member i of the branch belongs to the tree and is linked to the next member. */
  predicate Linked(others: seq<int>, root: seq<int>, chain: seq<int>, c: int, i: nat)
    requires |others| == |root| == SYMBOLS && i < |chain|
  {
    && 0 <= chain[i] < SYMBOLS && root[chain[i]] == c
    && others[chain[i]] == (if i + 1 < |chain| then chain[i + 1] else -1)
  }

  /** The links from c on run through all symbols of the tree with root c, once each. */
  predicate Branch(others: seq<int>, root: seq<int>, chain: seq<int>, c: int)
    requires |others| == |root| == SYMBOLS
  {
    && |chain| > 0 && chain[0] == c
    && (forall i, j :: 0 <= i < j < |chain| ==> chain[i] != chain[j])
    && (forall i :: 0 <= i < |chain| ==> Linked(others, root, chain, c, i))
    && (forall s :: 0 <= s < SYMBOLS && root[s] == c ==> s in chain)
  }

  /** Linking the end of one branch to the start of another. */
  lemma {:induction false} LinkBranches(others: seq<int>, root: seq<int>, root': seq<int>, chain1: seq<int>, chain2: seq<int>, c1: int, c2: int)
    requires |others| == |root| == |root'| == SYMBOLS && c1 != c2
    requires Branch(others, root, chain1, c1) && Branch(others, root, chain2, c2)
    requires forall s :: 0 <= s < SYMBOLS ==> root'[s] == if root[s] == c2 then c1 else root[s]
    ensures 0 <= chain1[|chain1| - 1] < SYMBOLS
    ensures Branch(others[chain1[|chain1| - 1] := c2], root', chain1 + chain2, c1)
  {
    assert Linked(others, root, chain1, c1, |chain1| - 1);
    var last, chain := chain1[|chain1| - 1], chain1 + chain2;
    var others' := others[last := c2];
    forall i | 0 <= i < |chain| ensures Linked(others', root', chain, c1, i) {
      if i < |chain1| {
        assert Linked(others, root, chain1, c1, i);
      } else {
        assert Linked(others, root, chain2, c2, i - |chain1|);
      }
    }
    forall i, j | 0 <= i < j < |chain| ensures chain[i] != chain[j] {
      if i < |chain1| <= j {
        assert Linked(others, root, chain1, c1, i) && Linked(others, root, chain2, c2, j - |chain1|);
      }
    }
    forall s | 0 <= s < SYMBOLS && root'[s] == c1 ensures s in chain {
      assert s in chain1 || s in chain2;
    }
  }

  lemma {:induction false} OtherBranch(others: seq<int>, root: seq<int>, root': seq<int>, chain: seq<int>, c: int, last: int, c1: int, c2: int)
    requires |others| == |root| == |root'| == SYMBOLS && c != c1 && c != c2 && 0 <= last < SYMBOLS && root[last] == c1
    requires Branch(others, root, chain, c)
    requires forall s :: 0 <= s < SYMBOLS ==> root'[s] == if root[s] == c2 then c1 else root[s]
    ensures Branch(others[last := c2], root', chain, c)
  {
    var others' := others[last := c2];
    forall i | 0 <= i < |chain| ensures Linked(others', root', chain, c, i) {
      assert Linked(others, root, chain, c, i);
    }
  }

  // ---- The forest ----

  /** Symbol counts by tree, code lengths, and the trees themselves. */
  datatype Forest = Forest(freq: seq<nat>, codesize: seq<nat>, others: seq<int>, root: seq<int>, chain: seq<seq<int>>)

  predicate Sized(f: Forest)
  {
    |f.freq| == |f.codesize| == |f.others| == |f.root| == |f.chain| == SYMBOLS
  }

  /** The tree with root c has a complete branch and Kraft sum 1. */
  predicate TreeOk(f: Forest, c: nat)
    requires Sized(f) && c < SYMBOLS
  {
    Branch(f.others, f.root, f.chain[c], c) && TreeSum(f.root, f.codesize, c, SYMBOLS) == 1.0
  }

  /** Every used symbol belongs to a tree; the others have no code. */
  predicate SymbolOk(f: Forest, used: set<nat>, s: nat)
    requires Sized(f) && s < SYMBOLS
  {
    if s in used then 0 <= f.root[s] < SYMBOLS && f.freq[f.root[s]] > 0 else f.root[s] == -1 && f.codesize[s] == 0
  }

  predicate ForestOk(f: Forest, used: set<nat>, total: nat)
  {
    && Sized(f) && Sum(f.freq, SYMBOLS) == total
    && (forall c :: 0 <= c < SYMBOLS && f.freq[c] > 0 ==> TreeOk(f, c))
    && (forall s :: 0 <= s < SYMBOLS ==> SymbolOk(f, used, s))
  }

  /** The forest after merging the trees c1 and c2. */
  function Merged(f: Forest, c1: nat, c2: nat): (r: Forest)
    requires Sized(f) && c1 < SYMBOLS && c2 < SYMBOLS && |f.chain[c1]| > 0 && 0 <= f.chain[c1][|f.chain[c1]| - 1] < SYMBOLS
  {
    Forest(f.freq[c1 := f.freq[c1] + f.freq[c2]][c2 := 0],
           Deeper(f.root, f.codesize, c1, c2),
           f.others[f.chain[c1][|f.chain[c1]| - 1] := c2],
           Rerooted(f.root, c1, c2),
           f.chain[c1 := f.chain[c1] + f.chain[c2]])
  }

  /** Merging two trees leaves a forest of one tree less. */
  lemma {:induction false} MergedOk(f: Forest, used: set<nat>, total: nat, c1: nat, c2: nat)
    requires ForestOk(f, used, total) && c1 < SYMBOLS && c2 < SYMBOLS && c1 != c2 && f.freq[c1] > 0 && f.freq[c2] > 0
    ensures |f.chain[c1]| > 0 && 0 <= f.chain[c1][|f.chain[c1]| - 1] < SYMBOLS
    ensures ForestOk(Merged(f, c1, c2), used, total)
    ensures Trees(Merged(f, c1, c2).freq, SYMBOLS) == Trees(f.freq, SYMBOLS) - 1
  {
    assert TreeOk(f, c1) && TreeOk(f, c2);
    assert Linked(f.others, f.root, f.chain[c1], c1, |f.chain[c1]| - 1);
    var g := Merged(f, c1, c2);
    MergedCounts(f.freq, c1, c2);
    forall c | 0 <= c < SYMBOLS && g.freq[c] > 0 ensures TreeOk(g, c) {
      assert TreeOk(f, c);
      JoinedSums(f.root, f.codesize, g.root, g.codesize, c1, c2, c, SYMBOLS);
      if c == c1 {
        LinkBranches(f.others, f.root, g.root, f.chain[c1], f.chain[c2], c1, c2);
      } else {
        OtherBranch(f.others, f.root, g.root, f.chain[c], c, f.chain[c1][|f.chain[c1]| - 1], c1, c2);
      }
    }
    forall s | 0 <= s < SYMBOLS ensures SymbolOk(g, used, s) {
      assert SymbolOk(f, used, s);
    }
  }

  lemma {:induction false} MergedCounts(freq: seq<nat>, c1: nat, c2: nat)
    requires |freq| == SYMBOLS && c1 < SYMBOLS && c2 < SYMBOLS && c1 != c2 && freq[c1] > 0 && freq[c2] > 0
    ensures var freq' := freq[c1 := freq[c1] + freq[c2]][c2 := 0];
            Sum(freq', SYMBOLS) == Sum(freq, SYMBOLS) && Trees(freq', SYMBOLS) == Trees(freq, SYMBOLS) - 1
  {
    var mid := freq[c1 := freq[c1] + freq[c2]];
    SumSet(freq, c1, freq[c1] + freq[c2], SYMBOLS);
    SumSet(mid, c2, 0, SYMBOLS);
    TreesSet(freq, c1, freq[c1] + freq[c2], SYMBOLS);
    TreesSet(mid, c2, 0, SYMBOLS);
  }

  // ---- Code lengths as a function of the counts ----

  /** Code lengths once the trees with roots c1 and c2 are joined. */
  function Deeper(root: seq<int>, codesize: seq<nat>, c1: int, c2: int): (r: seq<nat>)
    requires |root| == |codesize|
    ensures |r| == |root|
  {
    seq(|root|, s requires 0 <= s < |root| => if root[s] == c1 || root[s] == c2 then codesize[s] + 1 else codesize[s])
  }

  function Rerooted(root: seq<int>, c1: int, c2: int): (r: seq<int>)
    ensures |r| == |root|
  {
    seq(|root|, s requires 0 <= s < |root| => if root[s] == c2 then c1 else root[s])
  }

  /** The smallest nonzero count up to LIMIT among the first n, other than that of `skip`; of equal ones the last. */
  function Least(freq: seq<nat>, skip: int, n: nat): (c: int)
    requires n <= |freq|
    ensures -1 <= c < n && (c >= 0 ==> c != skip && 0 < freq[c] <= LIMIT)
    ensures c >= 0 ==> forall i :: 0 <= i < n && i != skip && freq[i] > 0 ==> freq[c] <= freq[i]
    ensures c < 0 ==> forall i :: 0 <= i < n && i != skip && freq[i] > 0 ==> freq[i] > LIMIT
  {
    if n == 0 then -1
    else
      var c := Least(freq, skip, n - 1);
      if freq[n - 1] != 0 && freq[n - 1] <= (if c < 0 then LIMIT else freq[c]) && n - 1 != skip then n - 1 else c
  }

  /** The code lengths that repeated merging of the two lightest trees leads to. */
  function Lengths(freq: seq<nat>, codesize: seq<nat>, root: seq<int>): (r: seq<nat>)
    requires |freq| == |codesize| == |root| == SYMBOLS
    ensures |r| == SYMBOLS
    decreases Trees(freq, SYMBOLS)
  {
    var c1 := Least(freq, -1, |freq|);
    var c2 := Least(freq, c1, |freq|);
    if c2 < 0 then codesize
    else
      MergedCounts(freq, c1, c2);
      Lengths(freq[c1 := freq[c1] + freq[c2]][c2 := 0], Deeper(root, codesize, c1, c2), Rerooted(root, c1, c2))
  }

  /** At first every used symbol is a tree of its own. */
  function Lone(freq: seq<nat>): (root: seq<int>)
    ensures |root| == |freq|
  {
    seq(|freq|, s requires 0 <= s < |freq| => if freq[s] > 0 then s else -1)
  }

  function CodeLengths(freq: seq<nat>): (r: seq<nat>)
    requires |freq| == SYMBOLS
    ensures |r| == SYMBOLS
  {
    Lengths(freq, seq(SYMBOLS, _ => 0), Lone(freq))
  }

  // ---- Long codes need many symbols ----

  /** 1, 2, 3, 5, 8, ... */
  function Fib(n: nat): (r: nat)
    ensures r >= 1
  {
    if n == 0 then 1 else if n == 1 then 2 else Fib(n - 1) + Fib(n - 2)
  }

  lemma {:induction false} FibGrows(m: nat, n: nat)
    requires m <= n
    ensures Fib(m) <= Fib(n)
    decreases n
  {
    if m < n {
      FibGrows(m, n - 1);
    }
  }

  /** A code length of s weighs down its own tree, and all others. */
  predicate Heavy(freq: seq<nat>, codesize: seq<nat>, root: seq<int>, s: nat)
    requires |freq| == |codesize| == |root| == SYMBOLS && s < SYMBOLS
  {
    && (codesize[s] > 0 ==> root[s] >= 0)
    && (root[s] >= 0 ==> root[s] < SYMBOLS && freq[root[s]] >= Fib(codesize[s]))
    && (codesize[s] > 0 ==> forall c :: 0 <= c < SYMBOLS && c != root[s] && freq[c] > 0 ==> freq[c] >= Fib(codesize[s] - 1))
  }

  lemma {:induction false} MergedHeavy(freq: seq<nat>, codesize: seq<nat>, root: seq<int>, c1: nat, c2: nat, s: nat)
    requires |freq| == |codesize| == |root| == SYMBOLS && s < SYMBOLS && Heavy(freq, codesize, root, s)
    requires c1 < SYMBOLS && c2 < SYMBOLS && c1 != c2 && 0 < freq[c1] <= freq[c2]
    requires forall i :: 0 <= i < SYMBOLS && i != c1 && freq[i] > 0 ==> freq[c2] <= freq[i]
    ensures Heavy(freq[c1 := freq[c1] + freq[c2]][c2 := 0], Deeper(root, codesize, c1, c2), Rerooted(root, c1, c2), s)
  {
  }

  /** No code length is greater than the sum of the counts allows. */
  lemma {:induction false} LengthsNeed(freq: seq<nat>, codesize: seq<nat>, root: seq<int>)
    requires |freq| == |codesize| == |root| == SYMBOLS && forall s :: 0 <= s < SYMBOLS ==> Heavy(freq, codesize, root, s)
    ensures forall s :: 0 <= s < SYMBOLS && Lengths(freq, codesize, root)[s] > 0 ==>
              Fib(Lengths(freq, codesize, root)[s]) <= Sum(freq, SYMBOLS)
    decreases Trees(freq, SYMBOLS)
  {
    var c1 := Least(freq, -1, |freq|);
    var c2 := Least(freq, c1, |freq|);
    if c2 < 0 {
      forall s | 0 <= s < SYMBOLS && codesize[s] > 0 ensures Fib(codesize[s]) <= Sum(freq, SYMBOLS) {
        assert Heavy(freq, codesize, root, s);
        SumSet(freq, root[s], 0, SYMBOLS);
      }
    } else {
      MergedCounts(freq, c1, c2);
      var freq' := freq[c1 := freq[c1] + freq[c2]][c2 := 0];
      forall s | 0 <= s < SYMBOLS ensures Heavy(freq', Deeper(root, codesize, c1, c2), Rerooted(root, c1, c2), s) {
        assert Heavy(freq, codesize, root, s);
        MergedHeavy(freq, codesize, root, c1, c2, s);
      }
      LengthsNeed(freq', Deeper(root, codesize, c1, c2), Rerooted(root, c1, c2));
    }
  }

  lemma {:induction false} CodeLengthsNeed(freq: seq<nat>, n: nat)
    requires |freq| == SYMBOLS && Sum(freq, SYMBOLS) < Fib(n + 1)
    ensures forall s :: 0 <= s < SYMBOLS ==> CodeLengths(freq)[s] <= n
  {
    LengthsNeed(freq, seq(SYMBOLS, _ => 0), Lone(freq));
    forall s | 0 <= s < SYMBOLS && CodeLengths(freq)[s] > n ensures false {
      FibGrows(n + 1, CodeLengths(freq)[s]);
    }
  }

  // ---- The algorithm ----

  /** The smallest nonzero count other than that of `skip`; of equal ones the last. Counts above LIMIT are not seen. */
  method FindLeast(freq: array<nat>, skip: int) returns (c: int)
    requires freq.Length == SYMBOLS
    ensures -1 <= c < SYMBOLS
    ensures c == -1 ==> forall i :: 0 <= i < SYMBOLS && i != skip ==> freq[i] == 0 || freq[i] > LIMIT
    ensures c >= 0 ==> c != skip && 0 < freq[c] <= LIMIT
                       && forall i :: 0 <= i < SYMBOLS && i != skip && freq[i] > 0 ==> freq[c] < freq[i] || (freq[c] == freq[i] && i <= c)
    ensures c == Least(freq[..], skip, SYMBOLS)
  {
    c := -1;
    var v := LIMIT;
    for i := 0 to SYMBOLS
      invariant c == Least(freq[..], skip, i)
      invariant -1 <= c < i
      invariant c == -1 ==> v == LIMIT && forall j :: 0 <= j < i && j != skip ==> freq[j] == 0 || freq[j] > LIMIT
      invariant c >= 0 ==> c != skip && 0 < freq[c] == v <= LIMIT
                           && forall j :: 0 <= j < i && j != skip && freq[j] > 0 ==> freq[c] < freq[j] || (freq[c] == freq[j] && j <= c)
    {
      if freq[i] != 0 && freq[i] <= v && i != skip {
        v, c := freq[i], i;
      }
    }
  }

  /** Increment the code length of everything in the branch from c on; returns the end of the branch. */
  method Lengthen(codesize: array<nat>, others: array<int>, c: nat, ghost root: seq<int>, ghost chain: seq<int>) returns (last: nat)
    requires codesize.Length == others.Length == |root| == SYMBOLS && c < SYMBOLS
    requires Branch(others[..], root, chain, c)
    modifies codesize
    ensures forall s :: 0 <= s < SYMBOLS ==> codesize[s] == if root[s] == c then old(codesize[s]) + 1 else old(codesize[s])
    ensures last == chain[|chain| - 1] && last < SYMBOLS
  {
    last := c;
    codesize[last] := codesize[last] + 1;
    ghost var i := 0;
    while others[last] >= 0
      invariant 0 <= i < |chain| && last == chain[i] && last < SYMBOLS
      invariant forall s :: 0 <= s < SYMBOLS ==> codesize[s] == if s in chain[..i + 1] then old(codesize[s]) + 1 else old(codesize[s])
      decreases |chain| - i
    {
      assert Linked(others[..], root, chain, c, i) && Linked(others[..], root, chain, c, i + 1);
      assert chain[..i + 2] == chain[..i + 1] + [chain[i + 1]];
      last := others[last];
      i := i + 1;
      codesize[last] := codesize[last] + 1;
    }
    assert Linked(others[..], root, chain, c, i) && (i + 1 < |chain| ==> Linked(others[..], root, chain, c, i + 1));
    assert chain[..i + 1] == chain;
    forall s | 0 <= s < SYMBOLS ensures s in chain <==> root[s] == c {
      if s in chain {
        var k :| 0 <= k < |chain| && chain[k] == s;
        assert Linked(others[..], root, chain, c, k);
      }
    }
  }

  ghost predicate LeadsTo(f: Forest, sizes: seq<nat>) { Sized(f) && Lengths(f.freq, f.codesize, f.root) == sizes }

  lemma {:induction false} MergedLeads(f: Forest, c1: nat, c2: nat, sizes: seq<nat>)
    requires LeadsTo(f, sizes) && c1 == Least(f.freq, -1, SYMBOLS) && c2 == Least(f.freq, c1, SYMBOLS)
    requires |f.chain[c1]| > 0 && 0 <= f.chain[c1][|f.chain[c1]| - 1] < SYMBOLS
    ensures LeadsTo(Merged(f, c1, c2), sizes)
  {
  }

  /** One merging step on the arrays. */
  method Merge(freq: array<nat>, codesize: array<nat>, others: array<int>, c1: nat, c2: nat, ghost f: Forest, ghost used: set<nat>, ghost total: nat,
               ghost sizes: seq<nat>)
    returns (ghost g: Forest)
    requires freq.Length == codesize.Length == others.Length == SYMBOLS && freq != codesize
    requires ForestOk(f, used, total) && f.freq == freq[..] && f.codesize == codesize[..] && f.others == others[..]
    requires c1 == Least(f.freq, -1, SYMBOLS) && c2 == Least(f.freq, c1, SYMBOLS) && LeadsTo(f, sizes)
    modifies freq, codesize, others
    ensures ForestOk(g, used, total) && g.freq == freq[..] && g.codesize == codesize[..] && g.others == others[..]
    ensures Trees(g.freq, SYMBOLS) == Trees(f.freq, SYMBOLS) - 1 && LeadsTo(g, sizes)
  {
    MergedOk(f, used, total, c1, c2);
    g := Merged(f, c1, c2);
    MergedLeads(f, c1, c2, sizes);
    assert TreeOk(f, c1) && TreeOk(f, c2);
    freq[c1] := freq[c1] + freq[c2];
    freq[c2] := 0;
    var last := Lengthen(codesize, others, c1, f.root, f.chain[c1]);
    others[last] := c2;
    AfterLink(f, c1, c2, last, others[..]);
    last := Lengthen(codesize, others, c2, f.root, f.chain[c2]);
    assert codesize[..] == g.codesize && others[..] == g.others && freq[..] == g.freq;
  }

  lemma {:induction false} AfterLink(f: Forest, c1: nat, c2: nat, last: nat, others: seq<int>)
    requires Sized(f) && c1 < SYMBOLS && c2 < SYMBOLS && c1 != c2 && TreeOk(f, c1) && TreeOk(f, c2)
    requires last == f.chain[c1][|f.chain[c1]| - 1] && last < SYMBOLS && others == f.others[last := c2]
    ensures Branch(others, f.root, f.chain[c2], c2)
  {
    assert Linked(f.others, f.root, f.chain[c1], c1, |f.chain[c1]| - 1);
    forall i | 0 <= i < |f.chain[c2]| ensures Linked(others, f.root, f.chain[c2], c2, i) {
      assert Linked(f.others, f.root, f.chain[c2], c2, i);
    }
  }

  /** One tree for all used symbols. */
  predicate OneTree(used: set<nat>, root: seq<int>, codesize: seq<nat>, c: int)
  {
    && |root| == |codesize| == SYMBOLS && c != -1 && TreeSum(root, codesize, c, SYMBOLS) == 1.0
    && forall s :: 0 <= s < SYMBOLS ==> root[s] == (if s in used then c else -1) && (codesize[s] > 0 <==> s in used)
  }

  /** The merging phase: code lengths with Kraft sum 1 for exactly the used symbols. */
  method BuildTree(freq: array<nat>, ghost used: set<nat>) returns (codesize: array<nat>, ghost root: seq<int>, ghost c: int)
    requires freq.Length == SYMBOLS && freq[SYMBOLS - 1] == 1 && Sum(freq[..], SYMBOLS) <= LIMIT + 1
    requires used == set s: nat | s < SYMBOLS && freq[s] > 0
    requires exists s :: 0 <= s < SYMBOLS - 1 && freq[s] > 0
    modifies freq
    ensures codesize.Length == SYMBOLS && OneTree(used, root, codesize[..], c)
    ensures codesize[..] == CodeLengths(old(freq[..]))
  {
    ghost var s0 :| 0 <= s0 < SYMBOLS - 1 && freq[s0] > 0;
    assert s0 in used;
    codesize := new nat[SYMBOLS](_ => 0);
    var others := new int[SYMBOLS](_ => -1);
    ghost var f := Seeds(freq[..], codesize[..], others[..], used);
    root, c := MergeAll(freq, codesize, others, f, used, Sum(freq[..], SYMBOLS), CodeLengths(freq[..]));
  }

  /** Merge the two rarest trees until one is left. */
  method MergeAll(freq: array<nat>, codesize: array<nat>, others: array<int>, ghost f0: Forest, ghost used: set<nat>, ghost total: nat,
                  ghost sizes: seq<nat>) returns (ghost root: seq<int>, ghost c: int)
    requires freq.Length == codesize.Length == others.Length == SYMBOLS && freq != codesize && total <= LIMIT + 1
    requires ForestOk(f0, used, total) && f0.freq == freq[..] && f0.codesize == codesize[..] && f0.others == others[..] && LeadsTo(f0, sizes)
    requires SYMBOLS - 1 in used && exists s :: s in used && s < SYMBOLS - 1
    modifies freq, codesize, others
    ensures OneTree(used, root, codesize[..], c) && codesize[..] == sizes
  {
    ghost var f := f0;
    while true
      invariant ForestOk(f, used, total) && f.freq == freq[..] && f.codesize == codesize[..] && f.others == others[..]
      invariant LeadsTo(f, sizes)
      decreases Trees(f.freq, SYMBOLS)
    {
      var c1 := FindLeast(freq, -1);
      var c2 := FindLeast(freq, c1);
      if c2 < 0 {
        c := LastTree(f, used, total, c1, sizes);
        root := f.root;
        return;
      }
      f := Merge(freq, codesize, others, c1, c2, f, used, total, sizes);
    }
  }

  /** When no second tree is found, one tree holds all used symbols. */
  lemma {:induction false} LastTree(f: Forest, used: set<nat>, total: nat, c1: int, sizes: seq<nat>) returns (c: int)
    requires ForestOk(f, used, total) && total <= LIMIT + 1 && LeadsTo(f, sizes)
    requires c1 == Least(f.freq, -1, SYMBOLS) && Least(f.freq, c1, SYMBOLS) < 0
    requires SYMBOLS - 1 in used && exists s :: s in used && s < SYMBOLS - 1
    ensures OneTree(used, f.root, f.codesize, c) && f.codesize == sizes
  {
    assert SymbolOk(f, used, SYMBOLS - 1);
    c := f.root[SYMBOLS - 1];
    assert TreeOk(f, c);
    forall s | 0 <= s < SYMBOLS && s in used ensures f.root[s] == c {
      assert SymbolOk(f, used, s);
      if f.root[s] != c {
        SumBounds(f.freq, f.root[s], c, SYMBOLS);
      }
    }
    var s0 :| s0 in used && s0 < SYMBOLS - 1;
    forall s | 0 <= s < SYMBOLS ensures f.root[s] == (if s in used then c else -1) && (f.codesize[s] > 0 <==> s in used) {
      assert SymbolOk(f, used, s);
      if s in used {
        PositiveSizes(f.root, f.codesize, c, s, if s == s0 then SYMBOLS - 1 else s0, SYMBOLS);
      }
    }
  }

  /** At first every used symbol is a tree of its own. */
  lemma {:induction false} Seeds(freq: seq<nat>, codesize: seq<nat>, others: seq<int>, used: set<nat>) returns (f: Forest)
    requires |freq| == |codesize| == |others| == SYMBOLS && used == set s: nat | s < SYMBOLS && freq[s] > 0
    requires forall s :: 0 <= s < SYMBOLS ==> codesize[s] == 0 && others[s] == -1
    ensures ForestOk(f, used, Sum(freq, SYMBOLS)) && f.freq == freq && f.codesize == codesize && f.others == others
    ensures LeadsTo(f, CodeLengths(freq))
  {
    assert codesize == seq(SYMBOLS, _ => 0);
    f := Forest(freq, codesize, others, Lone(freq), seq(SYMBOLS, s => [s]));
    forall c | 0 <= c < SYMBOLS && freq[c] > 0 ensures TreeOk(f, c) {
      LoneSum(f.root, codesize, c, SYMBOLS);
    }
  }
}
