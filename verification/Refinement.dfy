/**
  AC successive-approximation refinement (section G.1.2.3 of ITU-T T.81): end-of-band runs, correction bits that
  are deferred across blocks, and the decoder that applies them. Blocks are given as bands, in zigzag order.
*/
module Refinement {
  import opened Numbers
  import opened HuffmanCode
  import opened BitStrings
  import opened Blocks
  import opened HuffmanBlocks
  import opened Opening

  // ---- Coefficients ----

  /** A coefficient after the point transform: its magnitude shifted right by Al, and its sign. */
  datatype Coef = Coef(m: nat, neg: bool)

  type Band = seq<Coef>

  /** What the decoder holds before the scan, at precision Al + 1, and after it. */
  function Old(c: Coef, al: nat): (x: int) { Signed(c.neg, Shl(c.m / 2, al + 1)) }
  function New(c: Coef, al: nat): (x: int) { Signed(c.neg, Shl(c.m, al)) }

  function Signed(neg: bool, x: int): (y: int) { if neg then -x else x }

  /** Bit al of a two's complement number. */
  predicate BitSet(x: int, al: nat)
    decreases al
  {
    if al == 0 then x % 2 == 1 else BitSet(x / 2, al - 1)
  }

  /** A correction bit of 1: increase the magnitude, unless that has been done already. */
  function Bump(x: int, al: nat): (y: int)
  {
    if BitSet(x, al) then x else if x >= 0 then x + Shl(1, al) else x - Shl(1, al)
  }

  lemma {:induction false} BitSetShl(n: nat, neg: bool, al: nat)
    ensures BitSet(Signed(neg, Shl(n, al)), al) == (n % 2 == 1)
  {
    if al > 0 {
      BitSetShl(n, neg, al - 1);
      assert Signed(neg, Shl(n, al)) / 2 == Signed(neg, Shl(n, al - 1));
    }
  }

  lemma {:induction false} OldIsEven(c: Coef, al: nat)
    ensures Old(c, al) == Signed(c.neg, Shl(2 * (c.m / 2), al))
    ensures Old(c, al) == 0 <==> c.m <= 1
  {
    ShlDouble(c.m / 2, al);
    ShlZero(al + 1);
  }

  /** The correction bit of a coefficient that was nonzero before turns its old value into the new one. */
  lemma {:induction false} Corrected(c: Coef, al: nat)
    requires c.m >= 2
    ensures (if c.m % 2 == 1 then Bump(Old(c, al), al) else Old(c, al)) == New(c, al)
  {
    OldIsEven(c, al);
    BitSetShl(2 * (c.m / 2), c.neg, al);
    ShlAdd(2 * (c.m / 2), 1, al);
  }

  lemma {:induction false} ZeroBefore(c: Coef, al: nat)
    requires c.m <= 1
    ensures Old(c, al) == 0 && (c.m == 0 ==> New(c, al) == 0)
  {
    OldIsEven(c, al);
    ShlZero(al);
  }

  /** Correcting twice is correcting once. */
  lemma {:induction false} BumpTwice(x: int, al: nat)
    ensures BitSet(Bump(x, al), al) && Bump(Bump(x, al), al) == Bump(x, al)
    ensures x != 0 ==> Bump(x, al) != 0
  {
    if !BitSet(x, al) {
      BitFlips(x, al);
    }
  }

  lemma {:induction false} BitFlips(x: int, al: nat)
    requires !BitSet(x, al)
    ensures BitSet(x + Shl(1, al), al) && BitSet(x - Shl(1, al), al)
    decreases al
  {
    if al > 0 {
      BitFlips(x / 2, al - 1);
      assert (x + Shl(1, al)) / 2 == x / 2 + Shl(1, al - 1);
      assert (x - Shl(1, al)) / 2 == x / 2 - Shl(1, al - 1);
    }
  }

  // ---- The encoder ----

  const MAX_EOBRUN: nat := 0x7FFF
  const MAX_CORR_BITS: nat := 1000

  /** Index of the last newly nonzero coefficient below n, plus one; 0 if there is none. */
  function EobIndex(cs: Band, n: nat): (e: nat)
    requires n <= |cs|
    ensures e <= n && (e > 0 ==> cs[e - 1].m == 1) && forall k :: e <= k < n ==> cs[k].m != 1
  {
    if n == 0 then 0 else if cs[n - 1].m == 1 then n else EobIndex(cs, n - 1)
  }

  /** A pending end-of-band run and the correction bits that go with it. */
  function Flush(tbl: nat, e: nat, be: seq<bool>, rest: Items): (items: Items)
  {
    if e == 0 then rest else Item(AcTable(tbl), 16 * (NumBits(e) - 1), BitsOf(e, NumBits(e) - 1) + be, rest)
  }

  /** What is written for the blocks from i on, when a run of e bands with correction bits be is pending. */
  function CodeBlocks(tbl: nat, bands: seq<Band>, i: nat, e: nat, be: seq<bool>): (items: Items)
    requires i <= |bands|
    decreases |bands| - i, 0, 0, 0
  {
    if i == |bands| then Flush(tbl, e, be, End) else CodeBand(tbl, bands, i, 0, 0, [], e, be)
  }

  /** Within block i: coefficients below k are done, r zeros and the correction bits br are not yet coded. */
  function CodeBand(tbl: nat, bands: seq<Band>, i: nat, k: nat, r: nat, br: seq<bool>, e: nat, be: seq<bool>): (items: Items)
    requires i < |bands| && k <= |bands[i]|
    decreases |bands| - i - 1, 1, |bands[i]| - k, r
  {
    var cs := bands[i];
    if k == |cs| then
      if r == 0 && br == [] then CodeBlocks(tbl, bands, i + 1, e, be)
      else if RunFull(e + 1, |be + br|) then Flush(tbl, e + 1, be + br, CodeBlocks(tbl, bands, i + 1, 0, []))
      else CodeBlocks(tbl, bands, i + 1, e + 1, be + br)
    else if cs[k].m == 0 then CodeBand(tbl, bands, i, k + 1, r + 1, br, e, be)
    else if r > 15 && k < EobIndex(cs, |cs|) then
      Flush(tbl, e, be, Item(AcTable(tbl), 0xF0, br, CodeBand(tbl, bands, i, k, r - 16, [], 0, [])))
    else if cs[k].m > 1 then CodeBand(tbl, bands, i, k + 1, r, br + [cs[k].m % 2 == 1], e, be)
    else Flush(tbl, e, be, Item(AcTable(tbl), 16 * r + 1, [!cs[k].neg] + br, CodeBand(tbl, bands, i, k + 1, 0, [], 0, [])))
  }

  /** The run must be written now: the counter or the correction bit buffer might overflow in the next block. */
  predicate RunFull(e: nat, bits: nat) { e == MAX_EOBRUN || bits > MAX_CORR_BITS - DCTSIZE2 + 1 }

  // ---- The decoder ----

  /** Append correction bits to the nonzero coefficients from k on. */
  function Correct(s: Stream, t: nat, al: nat, d: seq<int>, k: nat): (r: (seq<int>, nat))
    ensures |r.0| == |d|
    decreases |d| - k
  {
    if k >= |d| then (d, t)
    else if d[k] == 0 then Correct(s, t, al, d, k + 1)
    else Correct(s, t + 1, al, if s(t) then d[k := Bump(d[k], al)] else d, k + 1)
  }

  /** Advance over nonzero coefficients and `run` zero ones, appending correction bits to the former. */
  function Advance(s: Stream, t: nat, al: nat, d: seq<int>, k: nat, run: nat): (r: (seq<int>, nat, nat))
    ensures |r.0| == |d| && k <= r.2 && (k <= |d| ==> r.2 <= |d|)
    decreases |d| - k
  {
    if k >= |d| then (d, t, k)
    else if d[k] != 0 then Advance(s, t + 1, al, if s(t) then d[k := Bump(d[k], al)] else d, k + 1, run)
    else if run == 0 then (d, t, k)
    else Advance(s, t, al, d, k + 1, run - 1)
  }

  /** One block that does not begin within an end-of-band run; returns it, the position, and the run that it leaves. */
  function ReadBand(rd: Symbols, s: Stream, t: nat, tbl: nat, al: nat, d: seq<int>, k: nat): (r: (seq<int>, nat, int))
    ensures |r.0| == |d|
    decreases |d| - k
  {
    if k >= |d| then (d, t, 0)
    else
      var (sym, t1) := rd(AcTable(tbl), t);
      var run, n := sym / 16, sym % 16;
      if n == 0 && run != 15 then
        var (d', t2) := Correct(s, t1 + run, al, d, k);
        (d', t2, Shl(1, run) + Peek(s, t1, run) - 1)
      else
        var (d', t2, k') := Advance(s, if n != 0 then t1 + 1 else t1, al, d, k, run);
        var d2 := if n != 0 && k' < |d| then d'[k' := Signed(!s(t1), Shl(1, al))] else d';
        ReadBand(rd, s, t2, tbl, al, d2, k' + 1)
  }

  type Result = (seq<int>, nat, int)

  /** The uninterrupted run from coefficient k of the band has this result. */
  ghost predicate Gives(rd: Symbols, s: Stream, tbl: nat, al: nat, t: nat, d: seq<int>, k: nat, out: Result)
  {
    forall x {:trigger Look(Refining, x)} :: Look(Refining, x) ==> ReadBand(rd, s, t, tbl, al, d, k) == out
  }

  /** Where a run of the decoder continues behind a symbol that is not an end-of-band symbol. */
  datatype Symbol = Symbol(t1: nat, run: nat, isNew: bool)

  function Continued(s: Stream, al: nat, y: Symbol, d: seq<int>, k: nat): (r: (seq<int>, nat, nat))
    ensures |r.0| == |d|
  {
    var (d', t2, k') := Advance(s, if y.isNew then y.t1 + 1 else y.t1, al, d, k, y.run);
    (if y.isNew && k' < |d| then d'[k' := Signed(!s(y.t1), Shl(1, al))] else d', t2, k')
  }

  ghost predicate GivesOn(rd: Symbols, s: Stream, tbl: nat, al: nat, y: Symbol, d: seq<int>, k: nat, out: Result)
  {
    var (d', t2, k') := Continued(s, al, y, d, k);
    Gives(rd, s, tbl, al, t2, d', k' + 1, out)
  }

  lemma {:induction false} GivesBySymbol(rd: Symbols, s: Stream, tbl: nat, al: nat, t: nat, d: seq<int>, k: nat, out: Result, sym: nat, t1: nat)
    requires k < |d| && rd(AcTable(tbl), t) == (sym, t1) && !(sym % 16 == 0 && sym / 16 != 15)
    ensures Gives(rd, s, tbl, al, t, d, k, out) <==> GivesOn(rd, s, tbl, al, Symbol(t1, sym / 16, sym % 16 != 0), d, k, out)
  {
    assert Look(Refining, 0);
  }

  lemma {:induction false} GivesByEob(rd: Symbols, s: Stream, tbl: nat, al: nat, t: nat, d: seq<int>, k: nat, out: Result, sym: nat, t1: nat)
    requires k < |d| && rd(AcTable(tbl), t) == (sym, t1) && sym % 16 == 0 && sym / 16 != 15
    ensures var (d', t2) := Correct(s, t1 + sym / 16, al, d, k);
            Gives(rd, s, tbl, al, t, d, k, out) <==> (d', t2, Shl(1, sym / 16) + Peek(s, t1, sym / 16) - 1) == out
  {
    assert Look(Refining, 0);
  }

  lemma {:induction false} GivesAtEnd(rd: Symbols, s: Stream, tbl: nat, al: nat, t: nat, d: seq<int>, k: nat, out: Result)
    requires k >= |d| && Gives(rd, s, tbl, al, t, d, k, out)
    ensures out == (d, t, 0)
  {
    assert Look(Refining, 0);
  }

  /** One block, within a run of e bands or not. */
  function RefineBlock(rd: Symbols, s: Stream, t: nat, tbl: nat, al: nat, d: seq<int>, e: int): (r: (seq<int>, nat, int))
  {
    if e > 0 then
      var (d', t') := Correct(s, t, al, d, 0);
      (d', t', e - 1)
    else ReadBand(rd, s, t, tbl, al, d, 0)
  }

  // ---- Reading a band ----

  /** The decoder's band once the coefficients below k have been refined. */
  function Mix(cs: Band, al: nat, k: nat): (d: seq<int>)
    ensures |d| == |cs|
  {
    seq(|cs|, j requires 0 <= j < |cs| => if j < k then New(cs[j], al) else Old(cs[j], al))
  }

  predicate NoneNew(cs: Band, k: nat, z: nat)
    requires z <= |cs|
  {
    forall j :: k <= j < z ==> cs[j].m != 1
  }

  function CorrectionBits(cs: Band, k: nat, z: nat): (bits: seq<bool>)
    requires z <= |cs|
  {
    if z <= k then []
    else if cs[z - 1].m >= 2 then CorrectionBits(cs, k, z - 1) + [cs[z - 1].m % 2 == 1]
    else CorrectionBits(cs, k, z - 1)
  }

  function Zeros(cs: Band, k: nat, z: nat): (n: nat)
    requires z <= |cs|
  {
    if z <= k then 0 else Zeros(cs, k, z - 1) + (if cs[z - 1].m == 0 then 1 else 0)
  }

  lemma {:induction false} FirstBit(cs: Band, k: nat, z: nat)
    requires k < z <= |cs|
    ensures CorrectionBits(cs, k, z) == (if cs[k].m >= 2 then [cs[k].m % 2 == 1] else []) + CorrectionBits(cs, k + 1, z)
    ensures Zeros(cs, k, z) == (if cs[k].m == 0 then 1 else 0) + Zeros(cs, k + 1, z)
  {
    if k < z - 1 {
      FirstBit(cs, k, z - 1);
    }
  }

  /** Refining one more coefficient that was nonzero or stays zero. */
  lemma {:induction false} MixStep(cs: Band, al: nat, k: nat)
    requires k < |cs| && cs[k].m != 1
    ensures if cs[k].m == 0 then Mix(cs, al, k)[k] == 0 && Mix(cs, al, k + 1) == Mix(cs, al, k)
            else Mix(cs, al, k)[k] != 0
                 && Mix(cs, al, k + 1) == if cs[k].m % 2 == 1 then Mix(cs, al, k)[k := Bump(Mix(cs, al, k)[k], al)] else Mix(cs, al, k)
  {
    if cs[k].m == 0 {
      ZeroBefore(cs[k], al);
    } else {
      OldIsEven(cs[k], al);
      Corrected(cs[k], al);
    }
  }

  lemma {:induction false} CorrectRefines(s: Stream, t: nat, al: nat, cs: Band, k: nat)
    requires k <= |cs| && NoneNew(cs, k, |cs|) && Matches(s, t, CorrectionBits(cs, k, |cs|))
    ensures Correct(s, t, al, Mix(cs, al, k), k) == (Mix(cs, al, |cs|), t + |CorrectionBits(cs, k, |cs|)|)
    decreases |cs| - k
  {
    if k < |cs| {
      FirstBit(cs, k, |cs|);
      MixStep(cs, al, k);
      if cs[k].m == 0 {
        assert [] + CorrectionBits(cs, k + 1, |cs|) == CorrectionBits(cs, k + 1, |cs|);
        CorrectRefines(s, t, al, cs, k + 1);
      } else {
        MatchesJoin(s, t, [cs[k].m % 2 == 1], CorrectionBits(cs, k + 1, |cs|));
        assert s(t + 0) == [cs[k].m % 2 == 1][0];
        CorrectRefines(s, t + 1, al, cs, k + 1);
      }
    }
  }

  lemma {:induction false} AdvanceRefines(s: Stream, t: nat, al: nat, cs: Band, k: nat, z: nat)
    requires k <= z < |cs| && cs[z].m <= 1 && NoneNew(cs, k, z) && Matches(s, t, CorrectionBits(cs, k, z))
    ensures Advance(s, t, al, Mix(cs, al, k), k, Zeros(cs, k, z)) == (Mix(cs, al, z), t + |CorrectionBits(cs, k, z)|, z)
    decreases z - k
  {
    if k == z {
      ZeroBefore(cs[z], al);
    } else {
      FirstBit(cs, k, z);
      MixStep(cs, al, k);
      if cs[k].m == 0 {
        assert [] + CorrectionBits(cs, k + 1, z) == CorrectionBits(cs, k + 1, z);
        AdvanceRefines(s, t, al, cs, k + 1, z);
      } else {
        MatchesJoin(s, t, [cs[k].m % 2 == 1], CorrectionBits(cs, k + 1, z));
        assert s(t + 0) == [cs[k].m % 2 == 1][0];
        AdvanceRefines(s, t + 1, al, cs, k + 1, z);
      }
    }
  }

  // ---- Whole runs of blocks ----

  /** Coder, stream, parameters, the bands, and the position where the decoder should end. */
  datatype Run = Run(book: Book, rd: Symbols, s: Stream, tbl: nat, al: nat, bands: seq<Band>, end: nat)

  /** Decoding block j from coefficient k at position t refines this block and all blocks behind it, without passing the end. */
  ghost predicate Works(c: Run, j: nat, k: nat, t: nat)
    decreases |c.bands| - j, 0
  {
    forall x {:trigger Look(Refining, x)} :: Look(Refining, x) ==>
      if j >= |c.bands| then t == c.end
      else
        var (d, t', e) := ReadBand(c.rd, c.s, t, c.tbl, c.al, Mix(c.bands[j], c.al, k), k);
        d == Mix(c.bands[j], c.al, |c.bands[j]|) && Runs(c, j + 1, t', e) && t <= c.end
  }

  /** The same at the start of block j, within a run of e bands. */
  ghost predicate Runs(c: Run, j: nat, t: nat, e: int)
    decreases |c.bands| - j, 1
  {
    if e <= 0 then e == 0 && Works(c, j, 0, t)
    else
      && j < |c.bands| && t <= c.end
      && var (d, t') := Correct(c.s, t, c.al, Mix(c.bands[j], c.al, 0), 0);
      d == Mix(c.bands[j], c.al, |c.bands[j]|) && Runs(c, j + 1, t', e - 1)
  }

  lemma {:induction false} WorksBy(c: Run, j: nat, k: nat, t: nat, t': nat, e: int)
    requires j < |c.bands| && Runs(c, j + 1, t', e) && t <= c.end
    requires ReadBand(c.rd, c.s, t, c.tbl, c.al, Mix(c.bands[j], c.al, k), k) == (Mix(c.bands[j], c.al, |c.bands[j]|), t', e)
    ensures Works(c, j, k, t)
  {
  }

  lemma {:induction false} LeftBound(c: Run, t: nat, items: Items)
    requires Left(c, t, items)
    ensures t <= c.end
  {
    assert Look(Supply, 0);
  }

  /** The items from t on are what is left to be read. */
  ghost predicate Left(c: Run, t: nat, items: Items) { Ahead(c.book, c.s, t, items, c.end, End) }

  /** Correction bits of a run that begins in block j at coefficient k and ends before block i. */
  function RunBits(bands: seq<Band>, j: nat, k: nat, i: nat): (bits: seq<bool>)
    requires i <= |bands|
  {
    if i <= j then []
    else RunBits(bands, j, k, i - 1) + CorrectionBits(bands[i - 1], if i - 1 == j then k else 0, |bands[i - 1]|)
  }

  lemma {:induction false} FirstOfRun(bands: seq<Band>, j: nat, k: nat, i: nat)
    requires j < i <= |bands|
    ensures RunBits(bands, j, k, i) == CorrectionBits(bands[j], k, |bands[j]|) + RunBits(bands, j + 1, 0, i)
  {
    if j < i - 1 {
      FirstOfRun(bands, j, k, i - 1);
    }
  }

  /** No coefficient of the run is newly nonzero. */
  predicate RunOk(bands: seq<Band>, j: nat, k: nat, i: nat)
    requires i <= |bands|
  {
    forall q :: j <= q < i ==> NoneNew(bands[q], if q == j then k else 0, |bands[q]|)
  }

  lemma {:induction false} RunsThrough(c: Run, j: nat, i: nat, t: nat)
    requires j <= i <= |c.bands| && RunOk(c.bands, j, 0, i) && Matches(c.s, t, RunBits(c.bands, j, 0, i))
    requires Works(c, i, 0, t + |RunBits(c.bands, j, 0, i)|)
    ensures Runs(c, j, t, i - j)
    decreases i - j
  {
    if j < i {
      FirstOfRun(c.bands, j, 0, i);
      var cs := c.bands[j];
      assert NoneNew(cs, 0, |cs|);
      MatchesJoin(c.s, t, CorrectionBits(cs, 0, |cs|), RunBits(c.bands, j + 1, 0, i));
      CorrectRefines(c.s, t, c.al, cs, 0);
      RunsThrough(c, j + 1, i, t + |CorrectionBits(cs, 0, |cs|)|);
      RunsBound(c, j + 1, t + |CorrectionBits(cs, 0, |cs|)|, i - j - 1);
    }
  }

  lemma {:induction false} RunsBound(c: Run, j: nat, t: nat, e: int)
    requires Runs(c, j, t, e)
    ensures t <= c.end
  {
    assert Look(Refining, 0);
  }

  /** A run length comes back from its symbol and its extra bits. */
  lemma {:induction false} RunLength(s: Stream, t: nat, e: nat)
    requires 0 < e <= MAX_EOBRUN && Matches(s, t, BitsOf(e, NumBits(e) - 1))
    ensures NumBits(e) - 1 <= 14 && Shl(1, NumBits(e) - 1) + Peek(s, t, NumBits(e) - 1) == e
  {
    var n := NumBits(e) - 1;
    NumBitsBounds(e);
    NumBitsLimit(e, 15);
    Shl16(1, 16);
    PeekMatches(s, t, e, n);
    LowShift(1, e - Shl(1, n), 0, n);
    ShlZero(n);
  }

  lemma {:induction false} ReadEob(rd: Symbols, s: Stream, t: nat, tbl: nat, al: nat, d: seq<int>, k: nat, n: nat, t1: nat)
    requires k < |d| && n <= 14 && rd(AcTable(tbl), t) == (16 * n, t1)
    ensures ReadBand(rd, s, t, tbl, al, d, k)
         == (Correct(s, t1 + n, al, d, k).0, Correct(s, t1 + n, al, d, k).1, Shl(1, n) + Peek(s, t1, n) - 1)
  {
    assert 16 * n / 16 == n && 16 * n % 16 == 0;
  }

  /** The end-of-band symbol is read, with the run length and the correction bits of the run. */
  lemma {:induction false} FlushRead(c: Run, e: nat, be: seq<bool>, t: nat, rest: Items) returns (t1: nat)
    requires Faithful(c.rd, c.book, c.s) && Left(c, t, Flush(c.tbl, e, be, rest)) && 0 < e <= MAX_EOBRUN
    ensures NumBits(e) - 1 <= 14 && c.rd(AcTable(c.tbl), t) == (16 * (NumBits(e) - 1), t1)
    ensures Shl(1, NumBits(e) - 1) + Peek(c.s, t1, NumBits(e) - 1) == e
    ensures Matches(c.s, t1 + NumBits(e) - 1, be) && Left(c, t1 + NumBits(e) - 1 + |be|, rest)
  {
    var items := Flush(c.tbl, e, be, rest);
    ItemComesBack(c.rd, c.book, c.s, t, items, c.end, End);
    t1 := c.rd(AcTable(c.tbl), t).1;
    MatchesJoin(c.s, t1, BitsOf(e, NumBits(e) - 1), be);
    RunLength(c.s, t1, e);
  }

  /** The end-of-band symbol of a run makes the decoder refine all blocks of the run. */
  lemma {:induction false} FlushWorks(c: Run, j: nat, k: nat, i: nat, e: nat, be: seq<bool>, t: nat, rest: Items) returns (t': nat)
    requires Faithful(c.rd, c.book, c.s) && Left(c, t, Flush(c.tbl, e, be, rest))
    requires j < i <= |c.bands| && e == i - j <= MAX_EOBRUN && k < |c.bands[j]|
    requires be == RunBits(c.bands, j, k, i) && RunOk(c.bands, j, k, i)
    ensures Left(c, t', rest) && (Works(c, i, 0, t') ==> Works(c, j, k, t))
  {
    var t1 := FlushRead(c, e, be, t, rest);
    var n := NumBits(e) - 1;
    t' := t1 + n + |be|;
    LeftBound(c, t, Flush(c.tbl, e, be, rest));
    var t2 := TailRuns(c, j, k, i, t1 + n);
    if Works(c, i, 0, t') {
      WorksByEob(c, j, k, t, t1, n, t2, e);
    }
  }

  lemma {:induction false} WorksByEob(c: Run, j: nat, k: nat, t: nat, t1: nat, n: nat, t2: nat, e: nat)
    requires j < |c.bands| && k < |c.bands[j]| && t <= c.end && n <= 14 && c.rd(AcTable(c.tbl), t) == (16 * n, t1)
    requires Correct(c.s, t1 + n, c.al, Mix(c.bands[j], c.al, k), k) == (Mix(c.bands[j], c.al, |c.bands[j]|), t2)
    requires Shl(1, n) + Peek(c.s, t1, n) == e && Runs(c, j + 1, t2, e - 1)
    ensures Works(c, j, k, t)
  {
    ReadEob(c.rd, c.s, t, c.tbl, c.al, Mix(c.bands[j], c.al, k), k, n, t1);
    WorksBy(c, j, k, t, t2, e - 1);
  }

  /** The rest of the first block of a run, and then the others. */
  lemma {:induction false} TailRuns(c: Run, j: nat, k: nat, i: nat, t: nat) returns (t2: nat)
    requires j < i <= |c.bands| && k < |c.bands[j]| && RunOk(c.bands, j, k, i) && Matches(c.s, t, RunBits(c.bands, j, k, i))
    ensures Correct(c.s, t, c.al, Mix(c.bands[j], c.al, k), k) == (Mix(c.bands[j], c.al, |c.bands[j]|), t2)
    ensures Works(c, i, 0, t + |RunBits(c.bands, j, k, i)|) ==> Runs(c, j + 1, t2, i - j - 1)
  {
    var cs := c.bands[j];
    var tail, others := CorrectionBits(cs, k, |cs|), RunBits(c.bands, j + 1, 0, i);
    FirstOfRun(c.bands, j, k, i);
    MatchesJoin(c.s, t, tail, others);
    assert NoneNew(cs, k, |cs|) && RunOk(c.bands, j + 1, 0, i);
    CorrectRefines(c.s, t, c.al, cs, k);
    t2 := t + |tail|;
    if Works(c, i, 0, t + |RunBits(c.bands, j, k, i)|) {
      RunsThrough(c, j + 1, i, t2);
    }
  }

  // ---- Blocks with newly nonzero coefficients ----

  /** Reading a newly nonzero coefficient: r zeros before it, and correction bits for the nonzero ones. */
  lemma {:induction false} CoefRead(rd: Symbols, s: Stream, t: nat, tbl: nat, al: nat, cs: Band, k: nat, z: nat, t1: nat)
    requires k <= z < |cs| && cs[z].m == 1 && NoneNew(cs, k, z) && Zeros(cs, k, z) <= 15
    requires rd(AcTable(tbl), t) == (16 * Zeros(cs, k, z) + 1, t1) && Matches(s, t1, [!cs[z].neg] + CorrectionBits(cs, k, z))
    ensures ReadBand(rd, s, t, tbl, al, Mix(cs, al, k), k)
         == ReadBand(rd, s, t1 + 1 + |CorrectionBits(cs, k, z)|, tbl, al, Mix(cs, al, z + 1), z + 1)
  {
    var r := Zeros(cs, k, z);
    assert (16 * r + 1) / 16 == r && (16 * r + 1) % 16 == 1;
    MatchesJoin(s, t1, [!cs[z].neg], CorrectionBits(cs, k, z));
    assert s(t1 + 0) == [!cs[z].neg][0];
    AdvanceRefines(s, t1 + 1, al, cs, k, z);
    assert Mix(cs, al, z + 1) == Mix(cs, al, z)[z := Signed(cs[z].neg, Shl(1, al))];
  }

  /** Reading a run of sixteen zeros; the last of them is at z. */
  lemma {:induction false} ZrlRead(rd: Symbols, s: Stream, t: nat, tbl: nat, al: nat, cs: Band, k: nat, z: nat, t1: nat)
    requires k <= z < |cs| && cs[z].m == 0 && NoneNew(cs, k, z) && Zeros(cs, k, z) == 15
    requires rd(AcTable(tbl), t) == (0xF0, t1) && Matches(s, t1, CorrectionBits(cs, k, z))
    ensures ReadBand(rd, s, t, tbl, al, Mix(cs, al, k), k)
         == ReadBand(rd, s, t1 + |CorrectionBits(cs, k, z)|, tbl, al, Mix(cs, al, z + 1), z + 1)
  {
    AdvanceRefines(s, t1, al, cs, k, z);
    MixStep(cs, al, z);
  }

  lemma {:induction false} WorksAlike(c: Run, j: nat, k: nat, t: nat, k': nat, t': nat)
    requires j < |c.bands| && Works(c, j, k', t') && t <= c.end
    requires ReadBand(c.rd, c.s, t, c.tbl, c.al, Mix(c.bands[j], c.al, k), k)
          == ReadBand(c.rd, c.s, t', c.tbl, c.al, Mix(c.bands[j], c.al, k'), k')
    ensures Works(c, j, k, t)
  {
    assert Look(Refining, 0);
  }

  lemma {:induction false} WorksAtEnd(c: Run, j: nat, t: nat)
    requires j < |c.bands| && Works(c, j + 1, 0, t)
    ensures Works(c, j, |c.bands[j]|, t)
  {
  }

  /** What the encoder knows at coefficient k: since kd there were r zeros and the correction bits br, and since q only zeros. */
  ghost predicate Scanned(cs: Band, kd: nat, q: nat, k: nat, r: nat, br: seq<bool>)
  {
    forall x {:trigger Look(Yielding, x)} :: Look(Yielding, x) ==>
      && kd <= q <= k <= |cs| && NoneNew(cs, kd, k)
      && r == Zeros(cs, kd, k) == Zeros(cs, kd, q) + k - q && br == CorrectionBits(cs, kd, k) == CorrectionBits(cs, kd, q)
      && (forall p :: q <= p < k ==> cs[p].m == 0)
      && (k < EobIndex(cs, |cs|) ==> Zeros(cs, kd, q) <= 15)
  }

  lemma {:induction false} ScanStarts(cs: Band, k: nat)
    requires k <= |cs|
    ensures Scanned(cs, k, k, k, 0, [])
  {
  }

  lemma {:induction false} ScanZero(cs: Band, kd: nat, q: nat, k: nat, r: nat, br: seq<bool>)
    requires Scanned(cs, kd, q, k, r, br) && k < |cs| && cs[k].m == 0
    ensures Scanned(cs, kd, q, k + 1, r + 1, br)
  {
    assert Look(Yielding, 0);
  }

  lemma {:induction false} ScanCorrection(cs: Band, kd: nat, q: nat, k: nat, r: nat, br: seq<bool>)
    requires Scanned(cs, kd, q, k, r, br) && k < |cs| && cs[k].m > 1 && !(r > 15 && k < EobIndex(cs, |cs|))
    ensures Scanned(cs, kd, k + 1, k + 1, r, br + [cs[k].m % 2 == 1])
  {
    assert Look(Yielding, 0);
  }

  lemma {:induction false} ZerosOnly(cs: Band, kd: nat, q: nat, z: nat)
    requires kd <= q <= z <= |cs| && forall p :: q <= p < z ==> cs[p].m == 0
    ensures Zeros(cs, kd, z) == Zeros(cs, kd, q) + z - q && CorrectionBits(cs, kd, z) == CorrectionBits(cs, kd, q)
    decreases z
  {
    if q < z {
      ZerosOnly(cs, kd, q, z - 1);
    }
  }

  /** Where a run of sixteen zeros ends: all correction bits come before. */
  lemma {:induction false} ZrlPlace(cs: Band, kd: nat, q: nat, k: nat, r: nat, br: seq<bool>) returns (z: nat)
    requires Scanned(cs, kd, q, k, r, br) && r > 15 && k < EobIndex(cs, |cs|)
    ensures kd <= z < k && cs[z].m == 0 && NoneNew(cs, kd, z) && Zeros(cs, kd, z) == 15 && CorrectionBits(cs, kd, z) == br
    ensures Scanned(cs, z + 1, z + 1, k, r - 16, [])
  {
    assert Look(Yielding, 0);
    z := q + 15 - Zeros(cs, kd, q);
    ZerosOnly(cs, kd, q, z);
    ZerosOnly(cs, z + 1, z + 1, k);
  }

  /** A run of e bands is pending that begins in block j at kj; without one, the decoder stands at kd of block i. */
  predicate Pending(c: Run, i: nat, kd: nat, e: nat, be: seq<bool>, j: nat, kj: nat)
  {
    && i <= |c.bands|
    && if e == 0 then be == [] && j == i && kj == kd
       else e < MAX_EOBRUN && j + e == i && kd == 0 && kj < |c.bands[j]| && be == RunBits(c.bands, j, kj, i) && RunOk(c.bands, j, kj, i)
  }

  /** Behind a pending run the decoder stands at kd of block i. */
  lemma {:induction false} AfterPending(c: Run, i: nat, kd: nat, e: nat, be: seq<bool>, j: nat, kj: nat, t: nat, rest: Items) returns (t': nat)
    requires Faithful(c.rd, c.book, c.s) && Pending(c, i, kd, e, be, j, kj) && Left(c, t, Flush(c.tbl, e, be, rest))
    ensures Left(c, t', rest) && (Works(c, i, kd, t') ==> Works(c, j, kj, t))
  {
    if e == 0 {
      t' := t;
    } else {
      t' := FlushWorks(c, j, kj, i, e, be, t, rest);
    }
  }

  /** A block without further symbols joins the run. */
  lemma {:induction false} JoinRun(c: Run, i: nat, kd: nat, e: nat, be: seq<bool>, j: nat, kj: nat, q: nat, r: nat, br: seq<bool>)
    requires i < |c.bands| && Pending(c, i, kd, e, be, j, kj) && Scanned(c.bands[i], kd, q, |c.bands[i]|, r, br) && (r > 0 || br != [])
    ensures j <= i && kj < |c.bands[j]| && e + 1 == i + 1 - j && e + 1 <= MAX_EOBRUN
    ensures be + br == RunBits(c.bands, j, kj, i + 1) && RunOk(c.bands, j, kj, i + 1)
  {
    assert Look(Yielding, 0);
    if e == 0 {
      assert RunBits(c.bands, j, kj, i) == [];
    }
  }

  lemma {:induction false} NothingScanned(cs: Band, kd: nat, q: nat)
    requires Scanned(cs, kd, q, |cs|, 0, [])
    ensures kd == |cs|
  {
    assert Look(Yielding, 0);
  }

  /** A run of sixteen zeros in block i. */
  lemma {:induction false} ZrlWorks(c: Run, i: nat, kd: nat, z: nat, t: nat, rest: Items) returns (t': nat)
    requires Faithful(c.rd, c.book, c.s) && i < |c.bands|
    requires kd <= z < |c.bands[i]| && c.bands[i][z].m == 0 && NoneNew(c.bands[i], kd, z) && Zeros(c.bands[i], kd, z) == 15
    requires Left(c, t, Item(AcTable(c.tbl), 0xF0, CorrectionBits(c.bands[i], kd, z), rest))
    ensures Left(c, t', rest) && (Works(c, i, z + 1, t') ==> Works(c, i, kd, t))
  {
    var cs, br := c.bands[i], CorrectionBits(c.bands[i], kd, z);
    LeftBound(c, t, Item(AcTable(c.tbl), 0xF0, br, rest));
    ItemComesBack(c.rd, c.book, c.s, t, Item(AcTable(c.tbl), 0xF0, br, rest), c.end, End);
    var t1 := c.rd(AcTable(c.tbl), t).1;
    t' := t1 + |br|;
    ZrlRead(c.rd, c.s, t, c.tbl, c.al, cs, kd, z, t1);
    if Works(c, i, z + 1, t') {
      WorksAlike(c, i, kd, t, z + 1, t');
    }
  }

  /** A newly nonzero coefficient in block i. */
  lemma {:induction false} CoefWorks(c: Run, i: nat, kd: nat, z: nat, t: nat, rest: Items) returns (t': nat)
    requires Faithful(c.rd, c.book, c.s) && i < |c.bands|
    requires kd <= z < |c.bands[i]| && c.bands[i][z].m == 1 && NoneNew(c.bands[i], kd, z) && Zeros(c.bands[i], kd, z) <= 15
    requires var cs := c.bands[i];
             Left(c, t, Item(AcTable(c.tbl), 16 * Zeros(cs, kd, z) + 1, [!cs[z].neg] + CorrectionBits(cs, kd, z), rest))
    ensures Left(c, t', rest) && (Works(c, i, z + 1, t') ==> Works(c, i, kd, t))
  {
    var cs := c.bands[i];
    var items := Item(AcTable(c.tbl), 16 * Zeros(cs, kd, z) + 1, [!cs[z].neg] + CorrectionBits(cs, kd, z), rest);
    LeftBound(c, t, items);
    ItemComesBack(c.rd, c.book, c.s, t, items, c.end, End);
    var t1 := c.rd(AcTable(c.tbl), t).1;
    t' := t1 + 1 + |CorrectionBits(cs, kd, z)|;
    CoefRead(c.rd, c.s, t, c.tbl, c.al, cs, kd, z, t1);
    if Works(c, i, z + 1, t') {
      WorksAlike(c, i, kd, t, z + 1, t');
    }
  }

  lemma {:induction false} ZrlStep(c: Run, i: nat, k: nat, r: nat, br: seq<bool>, e: nat, be: seq<bool>, kd: nat, q: nat, j: nat, kj: nat, t: nat,
                                  items: Items, rest: Items) returns (z: nat, t2: nat)
    requires Faithful(c.rd, c.book, c.s) && i < |c.bands| && Pending(c, i, kd, e, be, j, kj)
    requires Scanned(c.bands[i], kd, q, k, r, br) && r > 15 && k < EobIndex(c.bands[i], |c.bands[i]|)
    requires Left(c, t, items) && items == Flush(c.tbl, e, be, Item(AcTable(c.tbl), 0xF0, br, rest))
    ensures Left(c, t2, rest) && Scanned(c.bands[i], z + 1, z + 1, k, r - 16, [])
    ensures Works(c, i, z + 1, t2) ==> Works(c, j, kj, t)
  {
    var t1 := AfterPending(c, i, kd, e, be, j, kj, t, Item(AcTable(c.tbl), 0xF0, br, rest));
    z := ZrlPlace(c.bands[i], kd, q, k, r, br);
    t2 := ZrlWorks(c, i, kd, z, t1, rest);
  }

  lemma {:induction false} CoefStep(c: Run, i: nat, k: nat, r: nat, br: seq<bool>, e: nat, be: seq<bool>, kd: nat, q: nat, j: nat, kj: nat, t: nat,
                                   items: Items, rest: Items) returns (t2: nat)
    requires Faithful(c.rd, c.book, c.s) && i < |c.bands| && Pending(c, i, kd, e, be, j, kj)
    requires k < |c.bands[i]| && c.bands[i][k].m == 1 && Scanned(c.bands[i], kd, q, k, r, br) && r <= 15
    requires Left(c, t, items) && items == Flush(c.tbl, e, be, Item(AcTable(c.tbl), 16 * r + 1, [!c.bands[i][k].neg] + br, rest))
    ensures Left(c, t2, rest) && (Works(c, i, k + 1, t2) ==> Works(c, j, kj, t))
  {
    assert Look(Yielding, 0);
    var t1 := AfterPending(c, i, kd, e, be, j, kj, t, Item(AcTable(c.tbl), 16 * r + 1, [!c.bands[i][k].neg] + br, rest));
    t2 := CoefWorks(c, i, kd, k, t1, rest);
  }

  /** What is written from block i on makes the decoder refine everything from the pending run on. */
  lemma {:induction false} BlocksWork(c: Run, i: nat, e: nat, be: seq<bool>, j: nat, kj: nat, t: nat, items: Items)
    requires Faithful(c.rd, c.book, c.s) && (forall b :: 0 <= b < |c.bands| ==> |c.bands[b]| > 0)
    requires Pending(c, i, 0, e, be, j, kj) && items == CodeBlocks(c.tbl, c.bands, i, e, be) && Left(c, t, items)
    ensures Works(c, j, kj, t)
    decreases |c.bands| - i, 0, 0, 0
  {
    if i < |c.bands| {
      ScanStarts(c.bands[i], 0);
      BandWorks(c, i, 0, 0, [], e, be, 0, 0, j, kj, t, items);
    } else {
      var t' := AfterPending(c, i, 0, e, be, j, kj, t, End);
      NothingAhead(c.book, c.s, t', End, c.end);
    }
  }

  lemma {:induction false} BandWorks(c: Run, i: nat, k: nat, r: nat, br: seq<bool>, e: nat, be: seq<bool>, kd: nat, q: nat, j: nat, kj: nat, t: nat,
                                    items: Items)
    requires Faithful(c.rd, c.book, c.s) && (forall b :: 0 <= b < |c.bands| ==> |c.bands[b]| > 0)
    requires i < |c.bands| && k <= |c.bands[i]| && Scanned(c.bands[i], kd, q, k, r, br) && Pending(c, i, kd, e, be, j, kj)
    requires items == CodeBand(c.tbl, c.bands, i, k, r, br, e, be) && Left(c, t, items)
    ensures Works(c, j, kj, t)
    decreases |c.bands| - i - 1, 2, |c.bands[i]| - k, r
  {
    var cs := c.bands[i];
    if k == |cs| {
      BandEnds(c, i, r, br, e, be, kd, q, j, kj, t, items);
    } else if cs[k].m == 0 {
      ScanZero(cs, kd, q, k, r, br);
      BandWorks(c, i, k + 1, r + 1, br, e, be, kd, q, j, kj, t, items);
    } else if r > 15 && k < EobIndex(cs, |cs|) {
      var rest := CodeBand(c.tbl, c.bands, i, k, r - 16, [], 0, []);
      var z, t2 := ZrlStep(c, i, k, r, br, e, be, kd, q, j, kj, t, items, rest);
      BandWorks(c, i, k, r - 16, [], 0, [], z + 1, z + 1, i, z + 1, t2, rest);
    } else if cs[k].m > 1 {
      ScanCorrection(cs, kd, q, k, r, br);
      BandWorks(c, i, k + 1, r, br + [cs[k].m % 2 == 1], e, be, kd, k + 1, j, kj, t, items);
    } else {
      var rest := CodeBand(c.tbl, c.bands, i, k + 1, 0, [], 0, []);
      var t2 := CoefStep(c, i, k, r, br, e, be, kd, q, j, kj, t, items, rest);
      ScanStarts(cs, k + 1);
      BandWorks(c, i, k + 1, 0, [], 0, [], k + 1, k + 1, i, k + 1, t2, rest);
    }
  }

  lemma {:induction false} BandEnds(c: Run, i: nat, r: nat, br: seq<bool>, e: nat, be: seq<bool>, kd: nat, q: nat, j: nat, kj: nat, t: nat, items: Items)
    requires Faithful(c.rd, c.book, c.s) && (forall b :: 0 <= b < |c.bands| ==> |c.bands[b]| > 0)
    requires i < |c.bands| && Scanned(c.bands[i], kd, q, |c.bands[i]|, r, br) && Pending(c, i, kd, e, be, j, kj)
    requires items == CodeBand(c.tbl, c.bands, i, |c.bands[i]|, r, br, e, be) && Left(c, t, items)
    ensures Works(c, j, kj, t)
    decreases |c.bands| - i - 1, 1, 0, 0
  {
    if r == 0 && br == [] {
      NothingScanned(c.bands[i], kd, q);
      BlocksWork(c, i + 1, e, be, i + 1, 0, t, items);
      WorksAtEnd(c, i, t);
    } else {
      JoinRun(c, i, kd, e, be, j, kj, q, r, br);
      if RunFull(e + 1, |be + br|) {
        var rest := CodeBlocks(c.tbl, c.bands, i + 1, 0, []);
        var t1 := FlushWorks(c, j, kj, i + 1, e + 1, be + br, t, rest);
        BlocksWork(c, i + 1, 0, [], i + 1, 0, t1, rest);
      } else {
        BlocksWork(c, i + 1, e + 1, be + br, j, kj, t, items);
      }
    }
  }

  // ---- The round trip ----

  /** The first n blocks, one after the other, from position t0 on. */
  function ReadFirst(rd: Symbols, s: Stream, t0: nat, tbl: nat, al: nat, ds: seq<seq<int>>, n: nat): (r: (seq<seq<int>>, nat, int))
    requires n <= |ds|
    ensures |r.0| == n
  {
    if n == 0 then ([], t0, 0)
    else
      var (front, t, e) := ReadFirst(rd, s, t0, tbl, al, ds, n - 1);
      var (d, t', e') := RefineBlock(rd, s, t, tbl, al, ds[n - 1], e);
      (front + [d], t', e')
  }

  /** All bands as the decoder holds them before the scan, and after it. */
  function Unrefined(bands: seq<Band>, al: nat): (ds: seq<seq<int>>) { seq(|bands|, i requires 0 <= i < |bands| => Mix(bands[i], al, 0)) }
  function Refined(bands: seq<Band>, al: nat): (ds: seq<seq<int>>) { seq(|bands|, i requires 0 <= i < |bands| => Mix(bands[i], al, |bands[i]|)) }

  lemma {:induction false} NextRefined(c: Run, j: nat, t: nat, e: int)
    requires j < |c.bands| && Runs(c, j, t, e)
    ensures var (d, t', e') := RefineBlock(c.rd, c.s, t, c.tbl, c.al, Mix(c.bands[j], c.al, 0), e);
            d == Mix(c.bands[j], c.al, |c.bands[j]|) && Runs(c, j + 1, t', e')
  {
    assert Look(Refining, 0);
  }

  lemma {:induction false} FirstRefined(c: Run, t0: nat, n: nat)
    requires n <= |c.bands| && Runs(c, 0, t0, 0)
    ensures var (front, t, e) := ReadFirst(c.rd, c.s, t0, c.tbl, c.al, Unrefined(c.bands, c.al), n);
            front == Refined(c.bands, c.al)[..n] && Runs(c, n, t, e) && t <= c.end
  {
    if n > 0 {
      FirstRefined(c, t0, n - 1);
      var (front, t, e) := ReadFirst(c.rd, c.s, t0, c.tbl, c.al, Unrefined(c.bands, c.al), n - 1);
      NextRefined(c, n - 1, t, e);
      assert Refined(c.bands, c.al)[..n] == Refined(c.bands, c.al)[..n - 1] + [Mix(c.bands[n - 1], c.al, |c.bands[n - 1]|)];
    }
    var (_, t, e) := ReadFirst(c.rd, c.s, t0, c.tbl, c.al, Unrefined(c.bands, c.al), n);
    RunsBound(c, n, t, e);
  }

  lemma {:induction false} RunsEnd(c: Run, t: nat, e: int)
    requires Runs(c, |c.bands|, t, e)
    ensures t == c.end && e == 0
  {
    assert Look(Refining, 0);
  }

  /**
    From what the encoder wrote for any sequence of bands, the decoder refines band after band from precision
    Al + 1 to precision Al, never passes the end of the written bits, and stops there.
  */
  lemma {:induction false} RefinementRoundTrip(book: Book, rd: Symbols, s: Stream, tbl: nat, al: nat, bands: seq<Band>, t0: nat, n: nat)
    requires Faithful(rd, book, s) && (forall b :: 0 <= b < |bands| ==> |bands[b]| > 0) && n <= |bands|
    requires Carries(book, s, t0, CodeBlocks(tbl, bands, 0, 0, []))
    ensures var (front, t, e) := ReadFirst(rd, s, t0, tbl, al, Unrefined(bands, al), n);
            var end := t0 + Len(book, CodeBlocks(tbl, bands, 0, 0, []));
            front == Refined(bands, al)[..n] && t <= end && (n == |bands| ==> t == end && e == 0)
  {
    var c := Run(book, rd, s, tbl, al, bands, t0 + Len(book, CodeBlocks(tbl, bands, 0, 0, [])));
    BlocksWork(c, 0, 0, [], 0, 0, t0, CodeBlocks(tbl, bands, 0, 0, []));
    FirstRefined(c, t0, n);
    if n == |bands| {
      var (front, t, e) := ReadFirst(rd, s, t0, tbl, al, Unrefined(bands, al), n);
      RunsEnd(c, t, e);
    }
  }
}
