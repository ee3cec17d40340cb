/** Huffman tables from counts: jpeg_gen_optimal_table of jchuff.c. */
module OptimalTable {
  import opened Numbers
  import opened HuffmanCode
  import opened HuffmanTables
  import opened Opening
  import T = OptimalTree
  import P = PseudoSymbol

  const MAX_CLEN: nat := 32

  // ---- Counts of code lengths ----

  lemma {:induction false} SetLength(bits: seq<nat>, l: nat, v: nat, n: nat)
    requires 1 <= l < |bits| && n < |bits|
    ensures l <= n ==> Upto(bits[l := v], n) + Shl(bits[l], n - l) == Upto(bits, n) + Shl(v, n - l)
    ensures l <= n ==> Total(bits[l := v], n) + bits[l] == Total(bits, n) + v
    ensures l > n ==> Upto(bits[l := v], n) == Upto(bits, n) && Total(bits[l := v], n) == Total(bits, n)
  {
    if n > 0 {
      SetLength(bits, l, v, n - 1);
    }
  }

  lemma {:induction false} CodesBound(bits: seq<nat>, l: nat, n: nat)
    requires 1 <= l <= n < |bits|
    ensures bits[l] <= Total(bits, n) && (l < n ==> bits[l] + bits[n] <= Total(bits, n))
    decreases n
  {
    if l < n {
      CodesBound(bits, l, n - 1);
    }
  }

  /** Some code length up to n is in use. */
  predicate InUse(bits: seq<nat>, n: nat)
    requires n < |bits|
  {
    exists l :: 1 <= l <= n && bits[l] > 0
  }

  lemma {:induction false} NoneInUse(bits: seq<nat>, n: nat)
    requires n < |bits| && !InUse(bits, n)
    ensures Upto(bits, n) == 0
  {
    if n > 0 {
      assert !InUse(bits, n - 1);
      NoneInUse(bits, n - 1);
    }
  }

  // ---- Limiting code lengths ----

  /** A complete code with lengths up to n. */
  predicate Complete(bits: seq<nat>, n: nat, codes: nat)
  {
    && |bits| == MAX_CLEN + 1 && n <= MAX_CLEN && Upto(bits, n) == Shl(1, n) && Total(bits, n) == codes
    && forall k :: n < k <= MAX_CLEN ==> bits[k] == 0
  }

  /** Codes of the greatest length come in pairs, and there are codes shorter by two. */
  lemma {:induction false} Pairs(bits: seq<nat>, n: nat, codes: nat)
    requires Complete(bits, n, codes) && codes <= T.SYMBOLS && n > 16 && bits[n] > 0
    ensures bits[n] % 2 == 0 && bits[n] >= 2 && InUse(bits, n - 2)
  {
    if !InUse(bits, n - 2) {
      NoneInUse(bits, n - 2);
      assert Upto(bits, n - 1) == 2 * Upto(bits, n - 2) + bits[n - 1];
      CodesBound(bits, n - 1, n);
      Shl16(1, 16);
      ShlGrows(1, 16, n);
    }
  }

  /** A code of length l weighs as much as two of length l + 1. */
  lemma {:induction false} Exchange(bits: seq<nat>, l: nat, n: nat, x: nat, y: nat)
    requires 1 <= l < n < |bits|
    ensures Upto(bits[l := x][l + 1 := y + 2], n) == Upto(bits[l := x + 1][l + 1 := y], n)
    ensures Total(bits[l := x][l + 1 := y + 2], n) == Total(bits[l := x + 1][l + 1 := y], n) + 1
  {
    SetTwo(bits, l, n, x, y + 2);
    SetTwo(bits, l, n, x + 1, y);
    ShlAdd(x, 1, n - l);
    ShlAdd(y, 2, n - l - 1);
    ShlShl(1, 1, n - l - 1);
    assert Shl(1, 1) == 2 * Shl(1, 0);
  }

  lemma {:induction false} SetTwo(bits: seq<nat>, l: nat, n: nat, x: nat, y: nat)
    requires 1 <= l < n < |bits|
    ensures Upto(bits[l := x][l + 1 := y], n) + Shl(bits[l], n - l) + Shl(bits[l + 1], n - l - 1)
         == Upto(bits, n) + Shl(x, n - l) + Shl(y, n - l - 1)
    ensures Total(bits[l := x][l + 1 := y], n) + bits[l] + bits[l + 1] == Total(bits, n) + x + y
  {
    SetLength(bits, l, x, n);
    SetLength(bits[l := x], l + 1, y, n);
  }

  /** The step of section K.2: two of the longest codes become one shorter by one, and a code of length j becomes two. */
  function Shortened(bits: seq<nat>, n: nat, j: nat): (r: seq<nat>)
    requires 1 <= j <= n - 2 && n < |bits| && bits[n] >= 2 && bits[j] >= 1
  {
    var mid := bits[n - 1 := bits[n - 1] + 1][n := bits[n] - 2];
    mid[j := mid[j] - 1][j + 1 := mid[j + 1] + 2]
  }

  lemma {:induction false} ShortenedComplete(bits: seq<nat>, n: nat, j: nat, codes: nat)
    requires Complete(bits, n, codes) && 1 <= j <= n - 2 && bits[n] >= 2 && bits[j] >= 1
    ensures Complete(Shortened(bits, n, j), n, codes) && Shortened(bits, n, j)[n] == bits[n] - 2
  {
    var mid := bits[n - 1 := bits[n - 1] + 1][n := bits[n] - 2];
    Exchange(bits, n - 1, n, bits[n - 1], bits[n] - 2);
    assert bits[n - 1 := bits[n - 1]][n := bits[n]] == bits;
    Exchange(mid, j, n, mid[j] - 1, mid[j + 1]);
    assert mid[j := mid[j]][j + 1 := mid[j + 1]] == mid;
  }

  /** The greatest length in use up to n, 0 if there is none. */
  function Greatest(bits: seq<nat>, n: nat): (l: nat)
    requires n < |bits|
    ensures l <= n && (l > 0 ==> bits[l] > 0) && forall k :: l < k <= n ==> bits[k] == 0
  {
    if n == 0 || bits[n] > 0 then n else Greatest(bits, n - 1)
  }

  /** Two codes of the greatest length at a time, and always the longest code that is shorter by two or more. */
  function Limited(bits: seq<nat>, n: nat, codes: nat): (r: seq<nat>)
    requires Complete(bits, n, codes) && codes <= T.SYMBOLS
    ensures n >= 16 ==> Complete(r, 16, codes)
    ensures (forall k :: 16 < k <= n ==> bits[k] == 0) ==> r == bits
    decreases n, if n > 16 then bits[n] else 0
  {
    if n <= 16 then bits
    else if bits[n] == 0 then Limited(bits, n - 1, codes)
    else
      Pairs(bits, n, codes);
      var j := Greatest(bits, n - 2);
      ShortenedComplete(bits, n, j, codes);
      Limited(Shortened(bits, n, j), n, codes)
  }

  /** Reduce all code lengths to at most 16; the number of codes stays, and the code stays complete. */
  method LimitLengths(bits0: seq<nat>, ghost codes: nat) returns (bits: seq<nat>)
    requires Complete(bits0, MAX_CLEN, codes) && codes <= 255
    ensures Complete(bits, 16, codes) && bits == Limited(bits0, MAX_CLEN, codes)
  {
    bits := bits0;
    var i := MAX_CLEN;
    while i > 16
      invariant 16 <= i <= MAX_CLEN && Complete(bits, i, codes) && Limited(bits, i, codes) == Limited(bits0, MAX_CLEN, codes)
    {
      while bits[i] > 0
        invariant Complete(bits, i, codes) && Limited(bits, i, codes) == Limited(bits0, MAX_CLEN, codes)
        decreases bits[i]
      {
        Pairs(bits, i, codes);
        var j := i - 2;
        while bits[j] == 0
          invariant 1 <= j <= i - 2 && InUse(bits, j) && Greatest(bits, i - 2) == Greatest(bits, j)
          decreases j
        {
          j := j - 1;
        }
        ShortenedComplete(bits, i, j, codes);
        CodesBound(Shortened(bits, i, j), i - 1, i);
        CodesBound(Shortened(bits, i, j), j + 1, i);
        bits := Adjust(bits, i, j);
      }
      i := i - 1;
    }
  }

  /** The four updates of the limiting step, in 8-bit counters. */
  method Adjust(bits0: seq<nat>, i: nat, j: nat) returns (bits: seq<nat>)
    requires 1 <= j <= i - 2 && i < |bits0| && bits0[i] >= 2 && bits0[j] >= 1
    requires Shortened(bits0, i, j)[i - 1] <= 255 && Shortened(bits0, i, j)[j + 1] <= 255
    ensures bits == Shortened(bits0, i, j)
  {
    bits := bits0[i := bits0[i] - 2];
    bits := bits[i - 1 := (bits[i - 1] + 1) % 256];
    bits := bits[j + 1 := (bits[j + 1] + 2) % 256];
    bits := bits[j := bits[j] - 1];
  }

  /** Remove the pseudo-symbol from the greatest length in use: the all-ones code becomes free. */
  method RemovePseudo(bits0: seq<nat>, ghost codes: nat) returns (bits: seq<nat>, ghost m: nat)
    requires Complete(bits0, 16, codes)
    ensures 1 <= m <= 16 && bits0[m] > 0 && (forall k :: m < k <= 16 ==> bits0[k] == 0) && bits == bits0[m := bits0[m] - 1]
    ensures |bits| == |bits0| && Upto(bits, 16) < Shl(1, 16) && codes > 0 && Total(bits, 16) == codes - 1
  {
    bits := bits0;
    var i: nat := 16;
    if !InUse(bits, 16) {
      NoneInUse(bits, 16);
    }
    while bits[i] == 0
      invariant 1 <= i <= 16 && InUse(bits, i) && forall k :: i < k <= 16 ==> bits[k] == 0
      decreases i
    {
      i := i - 1;
    }
    m := i;
    SetLength(bits, i, bits[i] - 1, 16);
    CodesBound(bits, i, 16);
    ShlLess(bits[i] - 1, bits[i], 16 - i);
    bits := bits[i := bits[i] - 1];
  }

  // ---- Counting code lengths ----

  /** Number of symbols below n that have a code. */
  function Coded(codesize: seq<nat>, n: nat): (r: nat)
    requires n <= |codesize|
  {
    if n == 0 then 0 else Coded(codesize, n - 1) + (if codesize[n - 1] > 0 then 1 else 0)
  }

  lemma {:induction false} CodedGrows(codesize: seq<nat>, m: nat, n: nat)
    requires m <= n <= |codesize|
    ensures Coded(codesize, m) <= Coded(codesize, n)
  {
    if m < n {
      CodedGrows(codesize, m, n - 1);
    }
  }

  /** x divided by the w-th power of two. */
  function Down(x: real, w: nat): (r: real)
  {
    if w == 0 then x else Down(x, w - 1) / 2.0
  }

  lemma {:induction false} DownAdd(x: real, y: real, w: nat)
    ensures Down(x + y, w) == Down(x, w) + Down(y, w) && (Down(x, w) == Down(y, w) ==> x == y)
  {
    if w > 0 {
      DownAdd(x, y, w - 1);
    }
  }

  lemma {:induction false} WeightUnits(k: nat, w: nat)
    requires k <= w
    ensures Down(Shl(1, w - k) as real, w) == T.Weight(k)
    decreases w
  {
    if k < w {
      WeightUnits(k, w - 1);
      var x := Shl(1, w - 1 - k) as real;
      DownAdd(x, x, w - 1);
      assert Shl(1, w - k) as real == x + x;
    } else if w > 0 {
      WeightUnits(k - 1, w - 1);
      assert Shl(1, w - k) == Shl(1, w - 1 - (k - 1));
    }
  }

  /** Kraft sum of the symbols below n in the tree with root c, in units of 2 to the power -w. */
  function Units(root: seq<int>, codesize: seq<nat>, c: int, n: nat, w: nat): (r: nat)
    requires n <= |root| == |codesize|
  {
    if n == 0 then 0
    else Units(root, codesize, c, n - 1, w) + (if root[n - 1] == c && codesize[n - 1] <= w then Shl(1, w - codesize[n - 1]) else 0)
  }

  lemma {:induction false} UnitsAreSum(root: seq<int>, codesize: seq<nat>, c: int, n: nat, w: nat)
    requires n <= |root| == |codesize| && forall s :: 0 <= s < n ==> codesize[s] <= w
    ensures Down(Units(root, codesize, c, n, w) as real, w) == T.TreeSum(root, codesize, c, n)
  {
    if n == 0 {
      DownAdd(0.0, 0.0, w);
    } else {
      UnitsAreSum(root, codesize, c, n - 1, w);
      if root[n - 1] == c {
        var k := codesize[n - 1];
        WeightUnits(k, w);
        DownAdd(Units(root, codesize, c, n - 1, w) as real, Shl(1, w - k) as real, w);
      }
    }
  }

  /** The counters hold the symbols seen. */
  predicate Tallied(bits: seq<nat>, w: nat, codesize: seq<nat>, root: seq<int>, c: int, n: nat)
    requires |root| == |codesize| && n <= |codesize|
  {
    |bits| == w + 1 && Total(bits, w) == Coded(codesize, n) && Upto(bits, w) == Units(root, codesize, c, n, w)
  }

  lemma {:induction false} TallyOne(bits: seq<nat>, w: nat, codesize: seq<nat>, root: seq<int>, c: int, n: nat)
    requires |root| == |codesize| && n < |codesize| && Tallied(bits, w, codesize, root, c, n)
    requires root[n] == c && 1 <= codesize[n] <= w
    ensures Tallied(bits[codesize[n] := bits[codesize[n]] + 1], w, codesize, root, c, n + 1)
  {
    var k := codesize[n];
    SetLength(bits, k, bits[k] + 1, w);
    ShlAdd(bits[k], 1, w - k);
  }

  lemma {:induction false} TalliedAll(bits: seq<nat>, w: nat, codesize: seq<nat>, root: seq<int>, c: int)
    requires |root| == |codesize| && Tallied(bits, w, codesize, root, c, |codesize|) && T.TreeSum(root, codesize, c, |codesize|) == 1.0
    requires forall s :: 0 <= s < |codesize| ==> codesize[s] <= w
    ensures Upto(bits, w) == Shl(1, w) && Total(bits, w) == Coded(codesize, |codesize|)
  {
    UnitsAreSum(root, codesize, c, |codesize|, w);
    WeightUnits(0, w);
    DownAdd(Upto(bits, w) as real, Shl(1, w) as real, w);
  }

  /** How many of the first n symbols have codes of each length. */
  function Tally(codesize: seq<nat>, n: nat): (r: seq<nat>)
    requires n <= |codesize|
    ensures |r| == MAX_CLEN + 1
  {
    if n == 0 then seq(MAX_CLEN + 1, _ => 0)
    else
      var front, k := Tally(codesize, n - 1), codesize[n - 1];
      if 1 <= k <= MAX_CLEN then front[k := front[k] + 1] else front
  }

  /** Counters of eight bits hold the tally, unless they have wrapped around. */
  predicate Eight(bits: seq<nat>, exact: seq<nat>)
  {
    |bits| == |exact| == MAX_CLEN + 1 && forall k :: 0 <= k <= MAX_CLEN ==> bits[k] == exact[k] % 256
  }

  lemma {:induction false} WrappedLess(bits: seq<nat>, exact: seq<nat>, n: nat)
    requires Eight(bits, exact) && n <= MAX_CLEN
    ensures Total(bits, n) <= Total(exact, n)
    ensures (exists k :: 1 <= k <= n && exact[k] > 255) ==> Total(bits, n) < Total(exact, n)
  {
    if n > 0 {
      WrappedLess(bits, exact, n - 1);
    }
  }

  /** The counters form a complete code exactly if none of them has wrapped around. */
  lemma {:induction false} CompleteIfEight(bits: seq<nat>, exact: seq<nat>, codes: nat)
    requires Eight(bits, exact) && exact[0] == 0
    requires Upto(exact, MAX_CLEN) == Shl(1, MAX_CLEN) && Total(exact, MAX_CLEN) == codes
    ensures Complete(bits, MAX_CLEN, codes) <==> forall k :: 1 <= k <= MAX_CLEN ==> exact[k] <= 255
    ensures (forall k :: 1 <= k <= MAX_CLEN ==> exact[k] <= 255) ==> bits == exact
  {
    WrappedLess(bits, exact, MAX_CLEN);
    if forall k :: 1 <= k <= MAX_CLEN ==> exact[k] <= 255 {
      assert bits == exact;
    }
  }

  /**
    Count the symbols of each code length in 8-bit counters: fails on a length above 32, and the counts are those of a
    complete code exactly if no length has more than 255 codes.
  */
  method CountLengths(codesize: array<nat>, ghost used: set<nat>, ghost root: seq<int>, ghost c: int) returns (ok: bool, bits: seq<nat>)
    requires codesize.Length == T.SYMBOLS && T.OneTree(used, root, codesize[..], c)
    ensures ok == forall i :: 0 <= i < T.SYMBOLS ==> codesize[i] <= MAX_CLEN
    ensures ok ==> var exact := Tally(codesize[..], T.SYMBOLS);
                   && (Complete(bits, MAX_CLEN, Coded(codesize[..], T.SYMBOLS)) <==> forall k :: 1 <= k <= MAX_CLEN ==> exact[k] <= 255)
                   && ((forall k :: 1 <= k <= MAX_CLEN ==> exact[k] <= 255) ==> bits == exact)
  {
    bits := seq(MAX_CLEN + 1, _ => 0);
    ghost var exact: seq<nat> := bits;
    ghost var w := |bits| - 1;
    Empty(bits, w);
    for i := 0 to T.SYMBOLS
      invariant Eight(bits, exact) && Tallied(exact, w, codesize[..], root, c, i)
      invariant exact == Tally(codesize[..], i) && exact[0] == 0
      invariant forall j :: 0 <= j < i ==> codesize[j] <= MAX_CLEN
    {
      if codesize[i] != 0 {
        if codesize[i] > MAX_CLEN {
          return false, bits;
        }
        TallyOne(exact, w, codesize[..], root, c, i);
        exact := exact[codesize[i] := exact[codesize[i]] + 1];
        bits := bits[codesize[i] := (bits[codesize[i]] + 1) % 256];
      }
    }
    ok := true;
    TalliedAll(exact, w, codesize[..], root, c);
    CompleteIfEight(bits, exact, Coded(codesize[..], T.SYMBOLS));
  }

  /** With at most 255 codes no counter wraps around. */
  lemma {:induction false} TallyBound(codesize: seq<nat>, n: nat, k: nat)
    requires n <= |codesize| && 1 <= k <= MAX_CLEN
    ensures Tally(codesize, n)[k] <= Coded(codesize, n)
  {
    if n > 0 {
      TallyBound(codesize, n - 1, k);
    }
  }

  lemma {:induction false} Empty(bits: seq<nat>, n: nat)
    requires n < |bits| && forall i :: 0 <= i < |bits| ==> bits[i] == 0
    ensures Upto(bits, n) == 0 && Total(bits, n) == 0
  {
    if n > 0 {
      Empty(bits, n - 1);
    }
  }

  // ---- Listing the symbols ----

  /** All symbols with code lengths below i, and those of length i below j, in order of code length. */
  ghost predicate Listed(codesize: seq<nat>, huffval: seq<nat>, i: nat, j: nat)
    requires |codesize| == T.SYMBOLS
  {
    && NoRepeats(huffval)
    && (forall x: nat :: x in huffval <==> x < 256 && (1 <= codesize[x] < i || (codesize[x] == i && x < j)))
    && (forall p, q :: 0 <= p < q < |huffval| && huffval[p] < 256 && huffval[q] < 256 ==>
          codesize[huffval[p]] < codesize[huffval[q]] || (codesize[huffval[p]] == codesize[huffval[q]] && huffval[p] < huffval[q]))
  }

  /** Every symbol stands among those of its code length. */
  ghost predicate Located(codesize: seq<nat>, huffval: seq<nat>)
    requires |codesize| == T.SYMBOLS
  {
    forall p :: 0 <= p < |huffval| ==> huffval[p] < 256 && InGroup(codesize, p, codesize[huffval[p]])
  }

  predicate InGroup(codesize: seq<nat>, p: nat, l: nat)
    requires |codesize| == T.SYMBOLS
  {
    1 <= l <= MAX_CLEN && Total(Tally(codesize, 256), l - 1) <= p < Total(Tally(codesize, 256), l)
  }

  lemma {:induction false} NextInGroup(codesize: seq<nat>, i: nat, j: nat)
    requires |codesize| == T.SYMBOLS && j < 256 && codesize[j] == i && 1 <= i <= MAX_CLEN
    ensures InGroup(codesize, Total(Tally(codesize, 256), i - 1) + Tally(codesize, j)[i], i)
  {
    TallyGrows(codesize, j + 1, 256, i);
  }

  lemma {:induction false} TallyGrows(codesize: seq<nat>, m: nat, n: nat, k: nat)
    requires m <= n <= |codesize| && k <= MAX_CLEN
    ensures Tally(codesize, m)[k] <= Tally(codesize, n)[k]
  {
    if m < n {
      TallyGrows(codesize, m, n - 1, k);
    }
  }

  /** A length is in use exactly if some symbol has it. */
  lemma {:induction false} TallyUsed(codesize: seq<nat>, n: nat, k: nat)
    requires n <= |codesize| && 1 <= k <= MAX_CLEN
    ensures Tally(codesize, n)[k] > 0 <==> exists s :: 0 <= s < n && codesize[s] == k
  {
    if n > 0 {
      TallyUsed(codesize, n - 1, k);
    }
  }

  /** Listed and located so far. */
  ghost predicate Listing(codesize: seq<nat>, huffval: seq<nat>, i: nat, j: nat)
    requires |codesize| == T.SYMBOLS && j <= 256
  {
    forall x {:trigger Look(Course, x)} :: Look(Course, x) ==>
      Listed(codesize, huffval, i, j) && Located(codesize, huffval)
      && 1 <= i <= MAX_CLEN + 1 && |huffval| == Total(Tally(codesize, 256), i - 1) + (if i <= MAX_CLEN then Tally(codesize, j)[i] else 0)
  }

  lemma {:induction false} ListNext(codesize: seq<nat>, huffval: seq<nat>, i: nat, j: nat, next: seq<nat>)
    requires |codesize| == T.SYMBOLS && j < 256 && i <= MAX_CLEN && Listing(codesize, huffval, i, j)
    requires next == if codesize[j] == i then huffval + [j] else huffval
    ensures Listing(codesize, next, i, j + 1)
  {
    assert Look(Course, 0);
    if codesize[j] == i {
      NextInGroup(codesize, i, j);
      OneListed(codesize, huffval, i, j);
      OneLocated(codesize, huffval, j);
    } else {
      SameListed(codesize, huffval, i, j);
    }
  }

  lemma {:induction false} SameListed(codesize: seq<nat>, huffval: seq<nat>, i: nat, j: nat)
    requires |codesize| == T.SYMBOLS && j < 256 && Listed(codesize, huffval, i, j) && codesize[j] != i
    ensures Listed(codesize, huffval, i, j + 1)
  {
  }

  lemma {:induction false} OneLocated(codesize: seq<nat>, huffval: seq<nat>, j: nat)
    requires |codesize| == T.SYMBOLS && j < 256 && Located(codesize, huffval) && InGroup(codesize, |huffval|, codesize[j])
    ensures Located(codesize, huffval + [j])
  {
  }

  lemma {:induction false} OneListed(codesize: seq<nat>, huffval: seq<nat>, i: nat, j: nat)
    requires |codesize| == T.SYMBOLS && j < 256 && i >= 1 && Listed(codesize, huffval, i, j) && codesize[j] == i
    ensures Listed(codesize, huffval + [j], i, j + 1)
  {
    var all := huffval + [j];
    forall p, q | 0 <= p < q < |all| && all[p] < 256 && all[q] < 256
      ensures codesize[all[p]] < codesize[all[q]] || (codesize[all[p]] == codesize[all[q]] && all[p] < all[q])
    {
      assert all[p] == huffval[p] && huffval[p] in huffval;
    }
  }

  lemma {:induction false} NextLength(codesize: seq<nat>, huffval: seq<nat>, i: nat)
    requires |codesize| == T.SYMBOLS && i <= MAX_CLEN && Listing(codesize, huffval, i, 256)
    ensures Listing(codesize, huffval, i + 1, 0)
  {
    assert Look(Course, 0);
  }

  lemma {:induction false} NothingListed(codesize: seq<nat>)
    requires |codesize| == T.SYMBOLS
    ensures Listing(codesize, [], 1, 0)
  {
  }

  lemma {:induction false} AllListed(codesize: seq<nat>, huffval: seq<nat>, i: nat)
    requires |codesize| == T.SYMBOLS && Listing(codesize, huffval, i, 0)
    ensures Listed(codesize, huffval, i, 0) && Located(codesize, huffval)
  {
    assert Look(Course, 0);
  }

  /** The symbols in order of code length. */
  method ListSymbols(codesize: array<nat>) returns (huffval: seq<nat>)
    requires codesize.Length == T.SYMBOLS
    ensures Listed(codesize[..], huffval, MAX_CLEN + 1, 0) && Located(codesize[..], huffval)
  {
    huffval := [];
    NothingListed(codesize[..]);
    for i := 1 to MAX_CLEN + 1
      invariant Listing(codesize[..], huffval, i, 0)
    {
      for j := 0 to 256
        invariant Listing(codesize[..], huffval, i, j)
      {
        ListNext(codesize[..], huffval, i, j, if codesize[j] == i then huffval + [j] else huffval);
        if codesize[j] == i {
          huffval := huffval + [j];
        }
      }
      NextLength(codesize[..], huffval, i);
    }
    AllListed(codesize[..], huffval, MAX_CLEN + 1);
  }

  /** The symbols below n that have a code. */
  function CodedSet(codesize: seq<nat>, n: nat): (r: set<nat>)
    requires n <= |codesize|
  {
    set x: nat | x < n && codesize[x] > 0
  }

  lemma {:induction false} CodedSetSize(codesize: seq<nat>, n: nat)
    requires n <= |codesize|
    ensures |CodedSet(codesize, n)| == Coded(codesize, n)
  {
    if n > 0 {
      CodedSetSize(codesize, n - 1);
      var rest := CodedSet(codesize, n - 1);
      if codesize[n - 1] > 0 {
        assert CodedSet(codesize, n) == rest + {n - 1};
      } else {
        assert CodedSet(codesize, n) == rest;
      }
    } else {
      assert CodedSet(codesize, n) == {};
    }
  }

  function Members(s: seq<nat>): (r: set<nat>) { set x | x in s }

  lemma {:induction false} NoRepeatsSize(s: seq<nat>)
    requires NoRepeats(s)
    ensures |Members(s)| == |s|
  {
    if s != [] {
      var front, x := s[..|s| - 1], s[|s| - 1];
      NoRepeatsSize(front);
      assert s == front + [x];
      assert x !in Members(front);
      assert Members(s) == Members(front) + {x};
    }
  }

  /** A complete list has as many entries as there are coded symbols. */
  lemma {:induction false} ListedSize(codesize: seq<nat>, huffval: seq<nat>)
    requires |codesize| == T.SYMBOLS && Listed(codesize, huffval, MAX_CLEN + 1, 0)
    requires forall i :: 0 <= i < T.SYMBOLS ==> codesize[i] <= MAX_CLEN
    ensures |huffval| == Coded(codesize, 256) && forall x: nat :: x in huffval <==> x < 256 && codesize[x] > 0
  {
    NoRepeatsSize(huffval);
    CodedSetSize(codesize, 256);
    assert Members(huffval) == CodedSet(codesize, 256);
  }

  // ---- The table ----

  /** The first 17 counters, as a list of code-length counts. */
  lemma {:induction false} FirstLengths(bits: seq<nat>, n: nat)
    requires |bits| == MAX_CLEN + 1 && n <= LONGEST
    ensures Upto(bits[..17], n) == Upto(bits, n) && Total(bits[..17], n) == Total(bits, n)
  {
    if n > 0 {
      FirstLengths(bits, n - 1);
    }
  }

  /** The table that the last steps produce is accepted by the encoder and lists the coded symbols. */
  lemma {:induction false} TableAccepted(bits: seq<nat>, huffval: seq<nat>, codesize: seq<nat>, h: HuffTable)
    requires |bits| == MAX_CLEN + 1 && Upto(bits, 16) < Shl(1, 16) && |codesize| == T.SYMBOLS && |huffval| <= 256
    requires Total(bits, 16) == |huffval| && Listed(codesize, huffval, MAX_CLEN + 1, 0)
    requires h == HuffTable(bits[..17], huffval + seq(256 - |huffval|, _ => 0))
    ensures ValidTable(h) && EncoderAccepts(h, false) && h.huffval[..All(h.bits)] == huffval
  {
    FirstLengths(bits, |bits[..17]| - 1);
    assert forall p :: 0 <= p < |huffval| ==> huffval[p] in huffval;
  }

  /**
    The table for given merged lengths: symbols in order of their lengths, and of their numbers if those are equal, and
    the counts of the limited lengths, less one of the greatest.
  */
  ghost predicate Arranged(sizes: seq<nat>, h: HuffTable)
  {
    && |sizes| == T.SYMBOLS && ValidTable(h)
    && (forall p, q :: 0 <= p < q < All(h.bits) && p < |h.huffval| && q < |h.huffval| && h.huffval[p] < 256 && h.huffval[q] < 256 ==>
          sizes[h.huffval[p]] < sizes[h.huffval[q]] || (sizes[h.huffval[p]] == sizes[h.huffval[q]] && h.huffval[p] < h.huffval[q]))
    && var full, codes := Tally(sizes, T.SYMBOLS), Coded(sizes, T.SYMBOLS);
       && Complete(full, MAX_CLEN, codes) && codes <= T.SYMBOLS
       && OneLess(Limited(full, MAX_CLEN, codes), h.bits)
  }

  /** One code of the greatest length has been taken away. */
  ghost predicate OneLess(limited: seq<nat>, bits: seq<nat>)
  {
    && |limited| == MAX_CLEN + 1 && Greatest(limited, 16) > 0
    && bits == limited[Greatest(limited, 16) := limited[Greatest(limited, 16)] - 1][..17]
  }

  /** The p-th code has length l. */
  predicate LengthOf(bits: Counts, p: nat, l: nat) { p < All(bits) && CodeAt(bits, p).l == l }

  /** Lengths up to 16 are those of the table, because the code taken away is that of the pseudo-symbol. */
  lemma {:induction false} LengthsKept(sizes: seq<nat>, bits: seq<nat>, m: nat, huffval: seq<nat>, h: HuffTable)
    requires |sizes| == T.SYMBOLS && (forall s :: 0 <= s < T.SYMBOLS ==> sizes[s] <= 16) && sizes[256] >= 1
    requires forall s :: 0 <= s < T.SYMBOLS ==> sizes[s] <= sizes[256]
    requires |bits| == MAX_CLEN + 1 && 1 <= m <= 16 && Located(sizes, huffval)
    requires var full := Tally(sizes, T.SYMBOLS);
             full[m] > 0 && (forall k :: m < k <= 16 ==> full[k] == 0) && bits == full[m := full[m] - 1]
    requires h.bits == bits[..17]
    ensures forall p: nat :: p < |huffval| ==> LengthOf(h.bits, p, sizes[huffval[p]])
  {
    assert m == sizes[256] by {
      TallyUsed(sizes, T.SYMBOLS, m);
      TallyUsed(sizes, T.SYMBOLS, sizes[256]);
    }
    assert bits == Tally(sizes, 256);
    forall p: nat | p < |huffval| ensures LengthOf(h.bits, p, sizes[huffval[p]]) {
      assert InGroup(sizes, p, sizes[huffval[p]]);
      LengthAt(sizes, bits, p, sizes[huffval[p]], h.bits);
    }
  }

  lemma {:induction false} LengthAt(sizes: seq<nat>, bits: seq<nat>, p: nat, l: nat, counts: Counts)
    requires |sizes| == T.SYMBOLS && bits == Tally(sizes, 256) && InGroup(sizes, p, l) && l <= 16 && counts == bits[..17]
    ensures LengthOf(counts, p, l)
  {
    FirstLengths(bits, l - 1);
    FirstLengths(bits, l);
    SizeIs(counts, p, l);
  }

  lemma {:induction false} SameCoded(freq: seq<nat>, codesize: seq<nat>, n: nat)
    requires n <= |freq| && n <= |codesize| && forall x :: 0 <= x < n ==> (freq[x] > 0 <==> codesize[x] > 0)
    ensures Coded(freq, n) == Coded(codesize, n)
  {
    if n > 0 {
      SameCoded(freq, codesize, n - 1);
    }
  }

  lemma {:induction false} SomeCoded(freq: seq<nat>, n: nat)
    requires n <= |freq| && Coded(freq, n) > 0
    ensures exists s :: 0 <= s < n && freq[s] > 0
  {
    if freq[n - 1] == 0 {
      SomeCoded(freq, n - 1);
    }
  }

  lemma {:induction false} SameSum(freq: seq<nat>, freq': seq<nat>, n: nat)
    requires n <= |freq| && n <= |freq'| && forall x :: 0 <= x < n ==> freq[x] == freq'[x]
    ensures T.Sum(freq, n) == T.Sum(freq', n)
  {
    if n > 0 {
      SameSum(freq, freq', n - 1);
    }
  }

  /** The code lengths that merging leads to, with the pseudo-symbol. */
  function Sizes(freq: seq<nat>): (r: seq<nat>)
    requires |freq| == T.SYMBOLS
    ensures |r| == T.SYMBOLS
  {
    T.CodeLengths(freq[256 := 1])
  }

  lemma {:induction false} FibOn(n: nat, a: nat, b: nat)
    requires T.Fib(n) == a && T.Fib(n + 1) == b
    ensures T.Fib(n + 4) == 2 * a + 3 * b && T.Fib(n + 5) == 3 * a + 5 * b
  {
    assert T.Fib(n + 2) == a + b;
    assert T.Fib(n + 3) == a + 2 * b;
  }

  lemma {:induction false} FibAt(n: nat)
    requires n == 33
    ensures T.Fib(n) == 9227465
  {
    assert T.Fib(n - 33) == 1 && T.Fib(n - 32) == 2;
    FibOn(n - 33, 1, 2);
    FibOn(n - 29, 8, 13);
    FibOn(n - 25, 55, 89);
    FibOn(n - 21, 377, 610);
    FibOn(n - 17, 2584, 4181);
    FibOn(n - 13, 17711, 28657);
    FibOn(n - 9, 121393, 196418);
    FibOn(n - 5, 832040, 1346269);
  }

  /** Fewer than 9227464 symbols cannot make a code length exceed 32, whatever their distribution. */
  lemma {:induction false} FewSymbols(freq: seq<nat>)
    requires |freq| == T.SYMBOLS && T.Sum(freq, 256) < 9227464
    ensures forall s :: 0 <= s < T.SYMBOLS ==> Sizes(freq)[s] <= MAX_CLEN
  {
    SameSum(freq, freq[256 := 1], 256);
    FibAt(MAX_CLEN + 1);
    T.CodeLengthsNeed(freq[256 := 1], MAX_CLEN);
  }

  /**
    jpeg_gen_optimal_table: fails exactly if merging leads to a code length above 32; otherwise the result is a table
    that the encoder accepts and that has codes for exactly the symbols with nonzero counts. If no merged length exceeds 16,
    every symbol has a code of exactly its merged length.
  */
  method GenOptimalTable(freq: array<nat>) returns (ok: bool, h: HuffTable)
    requires freq.Length == T.SYMBOLS && T.Sum(freq[..], 256) <= 1000000000 && 1 <= Coded(freq[..], 256) <= 254
    modifies freq
    ensures ok == forall s :: 0 <= s < T.SYMBOLS ==> Sizes(old(freq[..]))[s] <= 32
    ensures ok ==> ValidTable(h) && EncoderAccepts(h, false) && Arranged(Sizes(old(freq[..])), h)
    ensures ok ==> forall x: nat :: x < 256 ==> (x in h.huffval[..All(h.bits)] <==> old(freq[x]) > 0)
    ensures (forall s :: 0 <= s < T.SYMBOLS ==> Sizes(old(freq[..]))[s] <= 16) ==> HasLengths(h, Sizes(old(freq[..])))
  {
    ghost var was := freq[..];
    SomeCoded(was, 256);
    freq[256] := 1;
    SameSum(was, freq[..], 256);
    assert freq[..] == was[256 := 1];
    ghost var sizes := Sizes(was);
    ghost var used := set s: nat | s < T.SYMBOLS && freq[s] > 0;
    var codesize, root, c := T.BuildTree(freq, used);
    SameCoded(was, codesize[..], 256);
    assert codesize[..] == sizes && forall s :: 0 <= s < T.SYMBOLS ==> codesize[s] == sizes[s];
    P.LongestCode(was[256 := 1]);
    ok, h := MakeTable(codesize, used, root, c);
  }

  /** Every listed symbol has a code of its length. */
  ghost predicate HasLengths(h: HuffTable, sizes: seq<nat>)
  {
    && |sizes| == T.SYMBOLS && ValidTable(h)
    && forall p :: 0 <= p < All(h.bits) ==> p < |h.huffval| && h.huffval[p] < 256 && CodeAt(h.bits, p).l == sizes[h.huffval[p]]
  }

  /** The table made from the counts left and the list of symbols. */
  lemma {:induction false} TableDone(sizes: seq<nat>, full: seq<nat>, limited: seq<nat>, m: nat, bits: seq<nat>, huffval: seq<nat>, h: HuffTable)
    requires |sizes| == T.SYMBOLS && full == Tally(sizes, T.SYMBOLS) && Coded(sizes, 256) <= 254 && sizes[256] >= 1
    requires (forall s :: 0 <= s < T.SYMBOLS ==> sizes[s] <= MAX_CLEN) && forall s :: 0 <= s < T.SYMBOLS ==> sizes[s] <= sizes[256]
    requires Complete(full, MAX_CLEN, Coded(sizes, T.SYMBOLS)) && limited == Limited(full, MAX_CLEN, Coded(sizes, T.SYMBOLS))
    requires 1 <= m <= 16 && limited[m] > 0 && (forall k :: m < k <= 16 ==> limited[k] == 0) && bits == limited[m := limited[m] - 1]
    requires Upto(bits, 16) < Shl(1, 16) && Total(bits, 16) == Coded(sizes, T.SYMBOLS) - 1
    requires Listed(sizes, huffval, MAX_CLEN + 1, 0) && Located(sizes, huffval) && |huffval| == Coded(sizes, 256)
    requires h == HuffTable(bits[..17], huffval + seq(256 - |huffval|, _ => 0))
    ensures ValidTable(h) && EncoderAccepts(h, false) && h.huffval[..All(h.bits)] == huffval && Arranged(sizes, h)
    ensures (forall s :: 0 <= s < T.SYMBOLS ==> sizes[s] <= 16) ==> HasLengths(h, sizes)
  {
    TableAccepted(bits, huffval, sizes, h);
    SymbolsListed(sizes, huffval, h);
    assert m == Greatest(limited, 16);
    if forall s :: 0 <= s < T.SYMBOLS ==> sizes[s] <= 16 {
      NothingLimited(sizes, full, limited);
      LengthsKept(sizes, bits, m, huffval, h);
      ListedAt(sizes, huffval, h);
    }
  }

  lemma {:induction false} NothingLimited(sizes: seq<nat>, full: seq<nat>, limited: seq<nat>)
    requires |sizes| == T.SYMBOLS && full == Tally(sizes, T.SYMBOLS) && forall s :: 0 <= s < T.SYMBOLS ==> sizes[s] <= 16
    requires Complete(full, MAX_CLEN, Coded(sizes, T.SYMBOLS)) && Coded(sizes, T.SYMBOLS) <= T.SYMBOLS
    requires limited == Limited(full, MAX_CLEN, Coded(sizes, T.SYMBOLS))
    ensures limited == full
  {
    forall k | 16 < k <= MAX_CLEN ensures full[k] == 0 {
      TallyUsed(sizes, T.SYMBOLS, k);
    }
  }

  lemma {:induction false} SymbolsListed(sizes: seq<nat>, huffval: seq<nat>, h: HuffTable)
    requires |sizes| == T.SYMBOLS && Listed(sizes, huffval, MAX_CLEN + 1, 0) && ValidTable(h)
    requires All(h.bits) == |huffval| <= 256 && h.huffval[..|huffval|] == huffval
    ensures forall p, q :: 0 <= p < q < All(h.bits) && p < |h.huffval| && q < |h.huffval| && h.huffval[p] < 256 && h.huffval[q] < 256 ==>
              sizes[h.huffval[p]] < sizes[h.huffval[q]] || (sizes[h.huffval[p]] == sizes[h.huffval[q]] && h.huffval[p] < h.huffval[q])
  {
    assert forall p :: 0 <= p < |huffval| ==> h.huffval[p] == h.huffval[..|huffval|][p] == huffval[p];
  }

  lemma {:induction false} ListedAt(sizes: seq<nat>, huffval: seq<nat>, h: HuffTable)
    requires |sizes| == T.SYMBOLS && Located(sizes, huffval) && ValidTable(h)
    requires All(h.bits) == |huffval| <= 256 && h.huffval[..|huffval|] == huffval
    requires forall p: nat :: p < |huffval| ==> LengthOf(h.bits, p, sizes[huffval[p]])
    ensures HasLengths(h, sizes)
  {
    forall p | 0 <= p < All(h.bits)
      ensures p < |h.huffval| && h.huffval[p] < 256 && CodeAt(h.bits, p).l == sizes[h.huffval[p]]
    {
      assert h.huffval[p] == h.huffval[..|huffval|][p] == huffval[p];
      assert LengthOf(h.bits, p, sizes[huffval[p]]);
    }
  }

  /** From code lengths to a table. */
  method MakeTable(codesize: array<nat>, ghost used: set<nat>, ghost root: seq<int>, ghost c: int) returns (ok: bool, h: HuffTable)
    requires codesize.Length == T.SYMBOLS && T.OneTree(used, root, codesize[..], c) && 256 in used && Coded(codesize[..], 256) <= 254
    requires forall s :: 0 <= s < T.SYMBOLS ==> codesize[s] <= codesize[256]
    ensures ok == forall i :: 0 <= i < T.SYMBOLS ==> codesize[i] <= MAX_CLEN
    ensures ok ==> ValidTable(h) && EncoderAccepts(h, false) && Arranged(codesize[..], h)
    ensures ok ==> forall x: nat :: x < 256 ==> (x in h.huffval[..All(h.bits)] <==> codesize[x] > 0)
    ensures (forall s :: 0 <= s < T.SYMBOLS ==> codesize[s] <= 16) ==> HasLengths(h, codesize[..])
  {
    h := HuffTable(seq(17, _ => 0), []);
    var bits;
    ok, bits := CountLengths(codesize, used, root, c);
    if ok {
      ghost var codes, full := Coded(codesize[..], T.SYMBOLS), bits;
      forall k | 1 <= k <= MAX_CLEN ensures Tally(codesize[..], T.SYMBOLS)[k] <= 255 {
        TallyBound(codesize[..], T.SYMBOLS, k);
      }
      bits := LimitLengths(bits, codes);
      h := FinishTable(codesize, bits, full);
    }
  }

  /** From limited lengths to a table. */
  method FinishTable(codesize: array<nat>, limited: seq<nat>, ghost full: seq<nat>) returns (h: HuffTable)
    requires codesize.Length == T.SYMBOLS && full == Tally(codesize[..], T.SYMBOLS) && Coded(codesize[..], 256) <= 254 && codesize[256] >= 1
    requires (forall s :: 0 <= s < T.SYMBOLS ==> codesize[s] <= MAX_CLEN) && forall s :: 0 <= s < T.SYMBOLS ==> codesize[s] <= codesize[256]
    requires Complete(full, MAX_CLEN, Coded(codesize[..], T.SYMBOLS)) && limited == Limited(full, MAX_CLEN, Coded(codesize[..], T.SYMBOLS))
    ensures ValidTable(h) && EncoderAccepts(h, false) && Arranged(codesize[..], h)
    ensures forall x: nat :: x < 256 ==> (x in h.huffval[..All(h.bits)] <==> codesize[x] > 0)
    ensures (forall s :: 0 <= s < T.SYMBOLS ==> codesize[s] <= 16) ==> HasLengths(h, codesize[..])
  {
    var bits;
    ghost var m;
    bits, m := RemovePseudo(limited, Coded(codesize[..], T.SYMBOLS));
    var huffval := ListSymbols(codesize);
    ListedSize(codesize[..], huffval);
    h := HuffTable(bits[..17], huffval + seq(256 - |huffval|, _ => 0));
    TableDone(codesize[..], full, limited, m, bits, huffval, h);
  }
}
