/**
  Two passes over a scan: statistics, optimal tables from them (finish_pass_gather of jchuff.c), and then output that
  never meets a symbol without a code.
*/
module OptimizedCoding {
  import opened Numbers
  import opened HuffmanCode
  import opened HuffmanTables
  import opened Blocks
  import opened HuffmanBlocks
  import opened HuffmanEncoder
  import opened HuffmanStatistics
  import opened HuffmanDecoder
  import opened HuffmanScan
  import opened HuffmanPasses
  import opened HuffmanRange
  import opened RestartIntervals
  import T = OptimalTree
  import O = OptimalTable

  // ---- The symbols of a scan ----

  function CountsOf(items: Items, slot: Slot): (counts: seq<nat>)
    ensures |counts| == T.SYMBOLS
  {
    seq(T.SYMBOLS, sym requires 0 <= sym < T.SYMBOLS => Count(items, slot, sym))
  }

  /** Number of symbols. */
  function Size(items: Items): (n: nat)
  {
    if items.End? then 0 else 1 + Size(items.rest)
  }

  lemma {:induction false} JoinSize(a: Items, b: Items)
    ensures Size(Join(a, b)) == Size(a) + Size(b)
  {
    if a.Item? {
      JoinSize(a.rest, b);
    }
  }

  lemma {:induction false} RunSize(tbl: nat, r: nat, v: int, rest: Items)
    ensures Size(RunItems(tbl, r, v, rest)) <= r + 1 + Size(rest)
  {
    if r > 15 {
      RunSize(tbl, r - 16, v, rest);
    }
  }

  lemma {:induction false} AcSize(scan: Scan, tbl: nat, block: Block, n: nat, r: nat)
    requires ValidScan(scan) && n <= scan.limSe + 1
    ensures Size(AcItems(scan, tbl, block, n, r, End)) <= n + r
  {
    if n > 0 {
      AcSize(scan, tbl, block, n - 1, r + 1);
      AcSize(scan, tbl, block, n - 1, 0);
      RunSize(tbl, r, Coef(scan, block, scan.limSe + 1 - n), AcItems(scan, tbl, block, n - 1, 0, End));
    }
  }

  /** At most 64 symbols are needed for each block. */
  lemma {:induction false} BlocksSize(scan: Scan, last: seq<int>, mcu: Mcu, n: nat)
    requires ValidScan(scan) && IsMcu(scan, mcu) && n <= |mcu| && |last| == |scan.dcTbl|
    ensures Size(BlocksItems(scan, last, mcu, n, End)) <= 64 * n
  {
    if n > 0 {
      var ci := scan.membership[n - 1];
      var block := BlockItems(scan, LastAfter(scan, last, mcu, n - 1), ci, mcu[n - 1], End);
      BlocksJoin(scan, last, mcu, n - 1, block);
      JoinSize(BlocksItems(scan, last, mcu, n - 1, End), block);
      AcSize(scan, scan.acTbl[ci], mcu[n - 1], scan.limSe, 0);
      BlocksSize(scan, last, mcu, n - 1);
    }
  }

  /** Number of blocks in the first n MCUs. */
  function BlockCount(mcus: seq<Mcu>, n: nat): (r: nat)
    requires n <= |mcus|
  {
    if n == 0 then 0 else BlockCount(mcus, n - 1) + |mcus[n - 1]|
  }

  /** What is coded for the first n MCUs of a scan. */
  function ScanItems(scan: Scan, interval: nat, mcus: seq<Mcu>, n: nat): (items: Items)
    requires ValidScan(scan) && AreMcus(scan, mcus) && n <= |mcus|
  {
    if n == 0 then End
    else
      Join(ScanItems(scan, interval, mcus, n - 1),
           BlocksItems(scan, Predictions(scan, Preceding(interval, mcus, n - 1)), mcus[n - 1], |mcus[n - 1]|, End))
  }

  lemma {:induction false} ScanSize(scan: Scan, interval: nat, mcus: seq<Mcu>, n: nat)
    requires ValidScan(scan) && AreMcus(scan, mcus) && n <= |mcus|
    ensures Size(ScanItems(scan, interval, mcus, n)) <= 64 * BlockCount(mcus, n)
  {
    if n > 0 {
      var last := Predictions(scan, Preceding(interval, mcus, n - 1));
      BlocksSize(scan, last, mcus[n - 1], |mcus[n - 1]|);
      JoinSize(ScanItems(scan, interval, mcus, n - 1), BlocksItems(scan, last, mcus[n - 1], |mcus[n - 1]|, End));
      ScanSize(scan, interval, mcus, n - 1);
    }
  }

  /** The counts of a table add up to no more than the number of symbols. */
  lemma {:induction false} SumOfCounts(items: Items, slot: Slot, n: nat)
    requires n <= T.SYMBOLS
    ensures T.Sum(CountsOf(items, slot), n) <= Size(items)
  {
    if items.Item? {
      OneCounted(items, slot, n);
      SumOfCounts(items.rest, slot, n);
    } else {
      NothingCounted(items, slot, n);
    }
  }

  lemma {:induction false} OneCounted(items: Items, slot: Slot, n: nat)
    requires n <= T.SYMBOLS && items.Item?
    ensures T.Sum(CountsOf(items, slot), n)
         == T.Sum(CountsOf(items.rest, slot), n) + (if items.slot == slot && items.sym < n then 1 else 0)
  {
    if n > 0 {
      OneCounted(items, slot, n - 1);
    }
  }

  lemma {:induction false} NothingCounted(items: Items, slot: Slot, n: nat)
    requires n <= T.SYMBOLS && items.End?
    ensures T.Sum(CountsOf(items, slot), n) == 0
  {
    if n > 0 {
      NothingCounted(items, slot, n - 1);
    }
  }

  // ---- How many different symbols are used ----

  /** At most 12 DC symbols and 176 AC symbols can be needed. */
  lemma {:induction false} FewUsed(slot: Slot, counts: seq<nat>, n: nat)
    requires |counts| == T.SYMBOLS && n <= 256
    requires forall sym: nat :: sym < 256 && counts[sym] > 0 ==> Admitted(slot, sym)
    ensures slot.DcTable? ==> O.Coded(counts, n) <= 12
    ensures slot.AcTable? ==> O.Coded(counts, n) <= 11 * (n / 16) + (if n % 16 < 11 then n % 16 else 11)
    ensures slot.DcTable? && n <= 12 ==> O.Coded(counts, n) <= n
  {
    if n > 0 {
      FewUsed(slot, counts, n - 1);
      if slot.AcTable? {
        NextColumn(n - 1);
      }
    }
  }

  lemma {:induction false} NextColumn(m: nat)
    ensures if m % 16 < 15 then (m + 1) / 16 == m / 16 && (m + 1) % 16 == m % 16 + 1 else (m + 1) / 16 == m / 16 + 1 && (m + 1) % 16 == 0
  {
  }

  lemma {:induction false} SomeUsed(counts: seq<nat>, sym: nat, n: nat)
    requires sym < n <= |counts| && counts[sym] > 0
    ensures O.Coded(counts, n) >= 1
  {
    O.CodedGrows(counts, sym + 1, n);
  }

  /** A table with some symbol. */
  ghost predicate Uses(items: Items, slot: Slot) { exists sym :: Count(items, slot, sym) > 0 }

  lemma {:induction false} JoinUses(a: Items, b: Items, slot: Slot)
    requires Uses(a, slot) || Uses(b, slot)
    ensures Uses(Join(a, b), slot)
  {
    var sym :| Count(a, slot, sym) > 0 || Count(b, slot, sym) > 0;
    JoinCount(a, b, slot, sym);
  }

  lemma {:induction false} AcFirst(scan: Scan, tbl: nat, block: Block, n: nat, r: nat)
    requires ValidScan(scan) && n <= scan.limSe + 1 && n + r > 0
    ensures var items := AcItems(scan, tbl, block, n, r, End); items.Item? && items.slot == AcTable(tbl)
  {
    if n > 0 {
      AcFirst(scan, tbl, block, n - 1, r + 1);
    }
  }

  /** Every block uses both of its tables. */
  lemma {:induction false} BlockUses(scan: Scan, last: seq<int>, ci: nat, block: Block, slot: Slot)
    requires ValidScan(scan) && ci < |scan.dcTbl| == |last| && NamedBy(scan, ci, slot)
    ensures Uses(BlockItems(scan, last, ci, block, End), slot)
  {
    var items := BlockItems(scan, last, ci, block, End);
    if slot.DcTable? {
      assert Count(items, slot, items.sym) > 0;
    } else {
      AcFirst(scan, scan.acTbl[ci], block, scan.limSe, 0);
      assert Count(items.rest, slot, items.rest.sym) > 0;
      assert Count(items, slot, items.rest.sym) > 0;
    }
  }

  lemma {:induction false} BlocksUse(scan: Scan, last: seq<int>, mcu: Mcu, b: nat, n: nat, slot: Slot)
    requires ValidScan(scan) && IsMcu(scan, mcu) && b < n <= |mcu| && |last| == |scan.dcTbl| && NamedBy(scan, scan.membership[b], slot)
    ensures Uses(BlocksItems(scan, last, mcu, n, End), slot)
  {
    var last1, ci := LastAfter(scan, last, mcu, n - 1), scan.membership[n - 1];
    var block := BlockItems(scan, last1, ci, mcu[n - 1], End);
    BlocksJoin(scan, last, mcu, n - 1, block);
    if b < n - 1 {
      BlocksUse(scan, last, mcu, b, n - 1, slot);
    } else {
      BlockUses(scan, last1, ci, mcu[n - 1], slot);
    }
    JoinUses(BlocksItems(scan, last, mcu, n - 1, End), block, slot);
  }

  /** Every component has a block in an MCU. */
  predicate Covering(scan: Scan)
    requires ValidScan(scan)
  {
    forall ci :: 0 <= ci < |scan.dcTbl| ==> ci in scan.membership
  }

  /** In a scan that is not empty every named table is used. */
  lemma {:induction false} NamedAreUsed(scan: Scan, interval: nat, mcus: seq<Mcu>, n: nat, slot: Slot)
    requires ValidScan(scan) && Covering(scan) && AreMcus(scan, mcus) && 0 < n <= |mcus| && Names(scan, slot)
    ensures Uses(ScanItems(scan, interval, mcus, n), slot)
  {
    var ci :| 0 <= ci < |scan.dcTbl| && NamedBy(scan, ci, slot);
    assert ci in scan.membership;
    var b :| 0 <= b < |scan.membership| && scan.membership[b] == ci;
    var last, mcu := Predictions(scan, Preceding(interval, mcus, n - 1)), mcus[n - 1];
    BlocksUse(scan, last, mcu, b, |mcu|, slot);
    JoinUses(ScanItems(scan, interval, mcus, n - 1), BlocksItems(scan, last, mcu, |mcu|, End), slot);
  }

  // ---- The gathering pass ----

  /** Every MCU is within range, behind the others of its interval. */
  predicate ScanSendable(scan: Scan, interval: nat, mcus: seq<Mcu>, n: nat)
    requires n <= |mcus|
  {
    forall i :: 0 <= i < n ==> CanBeSent(scan, Preceding(interval, mcus, i), mcus[i])
  }

  /** The first i MCUs of a scan have been counted: they are in their places. */
  ghost predicate Counted(c: McuCounter, mcus: seq<Mcu>, i: nat)
    requires i <= |mcus|
    reads c, c.counter
  {
    && c.Valid() && AreMcus(c.scan, mcus)
    && AllInPlace(c.restartInterval, mcus, c.past + [Piece(c.mcus, [])], i)
    && NextPlace(c.restartInterval, |c.past|, |c.mcus|, i) && InProgress(c.restartInterval, mcus, c.mcus, i)
    && c.counter.items == ScanItems(c.scan, c.restartInterval, mcus, i)
  }

  method GatherNext(c: McuCounter, ghost mcus: seq<Mcu>, ghost i: nat, mcu: Mcu) returns (ok: bool)
    requires i < |mcus| && mcu == mcus[i] && Counted(c, mcus, i)
    modifies c, c.counter
    ensures ok == CanBeSent(c.scan, Preceding(c.restartInterval, mcus, i), mcu)
    ensures ok ==> Counted(c, mcus, i + 1)
  {
    ghost var before, current := c.past, c.mcus;
    Followed(c.restartInterval, mcus, |before|, current, i);
    ok := c.GatherMcu(mcu);
    if ok {
      FillPlace(c.restartInterval, mcus, before, current, c.past, c.mcus, i);
    }
  }

  /** All MCUs of a scan through encode_mcu_gather. */
  method GatherScan(scan: Scan, interval: nat, mcus: seq<Mcu>) returns (ok: bool, c: McuCounter)
    requires ValidScan(scan) && AreMcus(scan, mcus)
    ensures fresh(c) && fresh(c.counter) && c.scan == scan && c.restartInterval == interval
    ensures ok == ScanSendable(scan, interval, mcus, |mcus|)
    ensures ok ==> Counted(c, mcus, |mcus|)
  {
    c := new McuCounter(scan, interval);
    for i := 0 to |mcus|
      invariant fresh(c) && fresh(c.counter) && c.scan == scan && c.restartInterval == interval
      invariant Counted(c, mcus, i) && ScanSendable(scan, interval, mcus, i)
    {
      ok := GatherNext(c, mcus, i, mcus[i]);
      if !ok {
        return;
      }
    }
    ok := true;
  }

  // ---- finish_pass_gather ----

  /** No code length exceeds 32 before lengths are limited. */
  predicate Short(counts: seq<nat>)
    requires |counts| == T.SYMBOLS
  {
    forall s :: 0 <= s < T.SYMBOLS ==> O.Sizes(counts)[s] <= 32
  }

  /** A table that lists exactly the symbols with nonzero counts, and is accepted. */
  predicate Tailored(h: HuffTable, counts: seq<nat>, isDc: bool)
    requires |counts| == T.SYMBOLS
  {
    ValidTable(h) && EncoderAccepts(h, isDc) && forall x: nat :: x < 256 ==> (x in h.huffval[..All(h.bits)] <==> counts[x] > 0)
  }

  /** The counts of one table are such that an optimal table can be made. */
  predicate Fit(slot: Slot, counts: seq<nat>)
  {
    && |counts| == T.SYMBOLS && T.Sum(counts, 256) <= T.LIMIT && O.Coded(counts, 256) >= 1
    && forall sym: nat :: sym < 256 && counts[sym] > 0 ==> Admitted(slot, sym)
  }

  method MakeTable(slot: Slot, counts: seq<nat>) returns (ok: bool, h: HuffTable)
    requires Fit(slot, counts)
    ensures ok == Short(counts)
    ensures ok ==> Tailored(h, counts, slot.DcTable?)
  {
    FewUsed(slot, counts, 256);
    var freq := new nat[T.SYMBOLS](i requires 0 <= i < T.SYMBOLS => counts[i]);
    assert freq[..] == counts;
    ok, h := O.GenOptimalTable(freq);
    if ok && slot.DcTable? {
      SmallSymbols(h, counts);
    }
  }

  lemma {:induction false} SmallSymbols(h: HuffTable, counts: seq<nat>)
    requires |counts| == T.SYMBOLS && Tailored(h, counts, false)
    requires forall sym: nat :: sym < 256 && counts[sym] > 0 ==> sym <= 15
    ensures Tailored(h, counts, true)
  {
    forall p | 0 <= p < All(h.bits) ensures h.huffval[p] <= 15 {
      assert h.huffval[p] in h.huffval[..All(h.bits)];
    }
  }

  /** The tables made so far. */
  ghost predicate Made(tables: TableSet, counts: map<Slot, seq<nat>>)
  {
    forall slot :: slot in tables ==> slot in counts && Fit(slot, counts[slot]) && Short(counts[slot])
                                      && Tailored(tables[slot], counts[slot], slot.DcTable?)
  }

  ghost predicate AllFit(counts: map<Slot, seq<nat>>) { forall slot :: slot in counts ==> Fit(slot, counts[slot]) }

  /** A table is made once, even if several components use it. */
  method MakeOnce(counts: map<Slot, seq<nat>>, tables0: TableSet, slot: Slot) returns (ok: bool, tables: TableSet)
    requires AllFit(counts) && Made(tables0, counts) && slot in counts
    ensures ok == Short(counts[slot])
    ensures ok ==> Made(tables, counts) && tables.Keys == tables0.Keys + {slot}
  {
    tables, ok := tables0, true;
    if slot !in tables {
      var h;
      ok, h := MakeTable(slot, counts[slot]);
      if ok {
        tables := tables[slot := h];
      }
    }
  }

  /** finish_pass_gather: fails exactly if some code length is too great. */
  method MakeTables(scan: Scan, counts: map<Slot, seq<nat>>) returns (ok: bool, tables: TableSet)
    requires ValidScan(scan) && AllFit(counts) && forall slot :: slot in counts <==> Names(scan, slot)
    ensures ok == forall slot :: slot in counts ==> Short(counts[slot])
    ensures ok ==> Made(tables, counts) && tables.Keys == counts.Keys
  {
    tables, ok := map[], true;
    for ci := 0 to |scan.dcTbl|
      invariant ok && Made(tables, counts)
      invariant forall slot :: slot in tables <==> exists i :: 0 <= i < ci && NamedBy(scan, i, slot)
    {
      ok, tables := MakeFor(scan, counts, tables, ci);
      if !ok {
        return;
      }
    }
    assert forall slot :: slot in tables <==> Names(scan, slot);
  }

  lemma {:induction false} TwoNamed(scan: Scan, ci: nat)
    requires ValidScan(scan) && ci < |scan.dcTbl|
    ensures Names(scan, DcTable(scan.dcTbl[ci])) && (scan.limSe > 0 ==> Names(scan, AcTable(scan.acTbl[ci])))
    ensures forall slot :: NamedBy(scan, ci, slot)
              <==> slot == DcTable(scan.dcTbl[ci]) || (scan.limSe > 0 && slot == AcTable(scan.acTbl[ci]))
  {
    assert NamedBy(scan, ci, DcTable(scan.dcTbl[ci])) && (scan.limSe > 0 ==> NamedBy(scan, ci, AcTable(scan.acTbl[ci])));
  }

  method MakeFor(scan: Scan, counts: map<Slot, seq<nat>>, tables0: TableSet, ci: nat) returns (ok: bool, tables: TableSet)
    requires ValidScan(scan) && AllFit(counts) && ci < |scan.dcTbl| && Made(tables0, counts)
    requires forall slot :: slot in counts <==> Names(scan, slot)
    ensures ok ==> Made(tables, counts) && forall slot :: slot in tables <==> slot in tables0 || NamedBy(scan, ci, slot)
    ensures !ok ==> exists slot :: slot in counts && !Short(counts[slot])
  {
    var dc, ac := DcTable(scan.dcTbl[ci]), AcTable(scan.acTbl[ci]);
    TwoNamed(scan, ci);
    ok, tables := MakeOnce(counts, tables0, dc);
    if ok && scan.limSe > 0 {
      ok, tables := MakeOnce(counts, tables, ac);
    }
  }

  // ---- Both passes ----

  /** What the gathering pass hands on is fit for making tables. */
  lemma {:induction false} CountsAreFit(c: McuCounter, mcus: seq<Mcu>)
    requires Counted(c, mcus, |mcus|) && |mcus| > 0 && Covering(c.scan) && 64 * BlockCount(mcus, |mcus|) <= T.LIMIT
    ensures AllFit(c.counter.counts) && forall slot :: slot in c.counter.counts <==> Names(c.scan, slot)
    ensures forall slot :: slot in c.counter.counts ==>
              c.counter.counts[slot] == CountsOf(c.counter.items, slot) && T.Sum(c.counter.counts[slot], 256) <= 64 * BlockCount(mcus, |mcus|)
  {
    var items, counts := c.counter.items, c.counter.counts;
    forall slot | slot in counts
      ensures counts[slot] == CountsOf(items, slot) && Fit(slot, counts[slot]) && T.Sum(counts[slot], 256) <= 64 * BlockCount(mcus, |mcus|)
    {
      assert counts[slot] == CountsOf(items, slot);
      SumOfCounts(items, slot, 256);
      ScanSize(c.scan, c.restartInterval, mcus, |mcus|);
      assert Names(c.scan, slot);
      NamedAreUsed(c.scan, c.restartInterval, mcus, |mcus|, slot);
      var sym :| Count(items, slot, sym) > 0;
      SomeUsed(counts[slot], sym, 256);
    }
  }

  /** With the tables made from the counts, no MCU meets a symbol without a code. */
  lemma {:induction false} NothingMissing(c: McuCounter, mcus: seq<Mcu>, tables: TableSet, book: Book)
    requires Counted(c, mcus, |mcus|) && Made(tables, c.counter.counts) && tables.Keys == c.counter.counts.Keys
    requires ValidScan(c.scan) && forall slot :: Agree(book, ShelfOf(c.scan, tables), slot)
    ensures ScanWritable(book, c.scan, c.restartInterval, mcus, |mcus|)
  {
    forall slot | slot in c.counter.counts ensures Covers(book(slot), c.counter.counts[slot]) {
      assert Names(c.scan, slot) && Agree(book, ShelfOf(c.scan, tables), slot);
      ListedCovers(tables[slot], book(slot), c.counter.counts[slot]);
    }
    forall i | 0 <= i < |mcus| ensures CanFollow(book, c.scan, Preceding(c.restartInterval, mcus, i), mcus[i]) {
      FollowsInPlace(c, mcus, book, i, Preceding(c.restartInterval, mcus, i), mcus[i]);
    }
  }

  lemma {:induction false} FollowsInPlace(c: McuCounter, mcus: seq<Mcu>, book: Book, i: nat, front: seq<Mcu>, mcu: Mcu)
    requires i < |mcus| && front == Preceding(c.restartInterval, mcus, i) && mcu == mcus[i]
    requires Counted(c, mcus, |mcus|) && i < |mcus| && ValidScan(c.scan)
    requires forall slot :: slot in c.counter.counts ==> Covers(book(slot), c.counter.counts[slot])
    ensures CanFollow(book, c.scan, front, mcu)
  {
    var pieces := c.past + [Piece(c.mcus, [])];
    var r, piece, j := PieceEnds(c.restartInterval, mcus, pieces, i, front, mcu);
    GatheredPiece(c, r, piece);
    var last := LastOf(c.scan, piece, j);
    GatheredIsWritable(c, book, piece, j, last);
    FollowsAlike(book, c.scan, piece, j, front, mcu, last);
  }

  /** MCU i and those before it in its interval are the front of a piece. */
  lemma {:induction false} PieceEnds(interval: nat, mcus: seq<Mcu>, pieces: seq<Piece<Mcu>>, i: nat, front: seq<Mcu>, mcu: Mcu)
    returns (r: nat, piece: seq<Mcu>, j: nat)
    requires AllInPlace(interval, mcus, pieces, |mcus|) && i < |mcus| && front == Preceding(interval, mcus, i) && mcu == mcus[i]
    ensures r < |pieces| && piece == pieces[r].mcus && j < |piece| && piece[..j] == front && piece[j] == mcu
  {
    var p := PlaceOf(interval, i);
    PieceFront(interval, mcus, pieces, i);
    r, piece, j := p.r, pieces[p.r].mcus, p.j;
    var both := mcus[i - p.j..i + 1];
    assert piece[..j] == both[..j] && piece[j] == both[j];
  }

  lemma {:induction false} GatheredPiece(c: McuCounter, r: nat, piece: seq<Mcu>)
    requires r <= |c.past| && piece == (c.past + [Piece(c.mcus, [])])[r].mcus
    ensures Gathered(c, piece)
  {
    if r < |c.past| {
      assert piece == c.past[r].mcus;
    }
  }

  lemma {:induction false} FollowsAlike(book: Book, scan: Scan, piece: seq<Mcu>, j: nat, front: seq<Mcu>, mcu: Mcu, last: seq<int>)
    requires ValidScan(scan) && AreMcus(scan, piece) && j < |piece| && piece[..j] == front && piece[j] == mcu
    requires last == LastOf(scan, piece, j) && Writable(book, scan, last, piece[j], |piece[j]|)
    ensures CanFollow(book, scan, front, mcu)
  {
    SameLast(scan, piece, j, j);
  }

  lemma {:induction false} SameLast(scan: Scan, mcus: seq<Mcu>, i: nat, n: nat)
    requires ValidScan(scan) && AreMcus(scan, mcus) && n <= i <= |mcus|
    ensures AreMcus(scan, mcus[..i]) && LastOf(scan, mcus[..i], n) == LastOf(scan, mcus, n)
  {
    if n > 0 {
      SameLast(scan, mcus, i, n - 1);
    }
  }

  /**
    Optimised coding of a scan: gather, make tables, and encode. It fails exactly on values out of range, or if some code
    length would exceed 32, which takes more than nine million symbols; a symbol without a code is never met. What
    is written is decoded to what was encoded.
  */
  method EncodeOptimized(scan: Scan, interval: nat, mcus: seq<Mcu>, fill: nat, marker: byte, rest: seq<byte>, deliveries: seq<nat>)
    returns (ok: bool, outs: seq<Mcu>)
    requires ValidScan(scan) && Covering(scan) && AreMcus(scan, mcus) && |mcus| > 0 && fill >= 1 && marker !in {0, 0xFF}
    requires 64 * BlockCount(mcus, |mcus|) <= 1000000000
    ensures ok == (ScanInRange(scan, interval, mcus)
                   && forall slot {:trigger Names(scan, slot)} :: Names(scan, slot) ==> Short(CountsOf(ScanItems(scan, interval, mcus, |mcus|), slot)))
    ensures 64 * BlockCount(mcus, |mcus|) < 9227464 ==> ok == ScanInRange(scan, interval, mcus)
    ensures ok ==> |outs| == |mcus| && forall i :: 0 <= i < |mcus| ==> outs[i] == SentBlocks(scan, mcus[i], |mcus[i]|)
  {
    outs := [];
    var c;
    ok, c := GatherScan(scan, interval, mcus);
    ScanRange(_ => NoCodes(), scan, interval, mcus);
    if ok {
      CountsAreFit(c, mcus);
      assert forall slot :: slot in c.counter.counts && T.Sum(c.counter.counts[slot], 256) < 9227464 ==> Short(c.counter.counts[slot]) by {
        forall slot | slot in c.counter.counts && T.Sum(c.counter.counts[slot], 256) < 9227464 ensures Short(c.counter.counts[slot]) {
          O.FewSymbols(c.counter.counts[slot]);
        }
      }
      var tables;
      ok, tables := MakeTables(scan, c.counter.counts);
      if ok {
        outs := OutputPass(c, tables, mcus, fill, marker, rest, deliveries);
      }
    }
  }

  /** The output pass with these tables cannot fail. */
  method OutputPass(c: McuCounter, tables: TableSet, mcus: seq<Mcu>, fill: nat, marker: byte, rest: seq<byte>, deliveries: seq<nat>)
    returns (outs: seq<Mcu>)
    requires Counted(c, mcus, |mcus|) && Made(tables, c.counter.counts) && tables.Keys == c.counter.counts.Keys
    requires ValidScan(c.scan) && fill >= 1 && marker !in {0, 0xFF}
    ensures |outs| == |mcus| && forall i :: 0 <= i < |mcus| ==> outs[i] == SentBlocks(c.scan, mcus[i], |mcus[i]|)
  {
    var started, book := StartEncoder(c.scan, tables);
    NothingMissing(c, mcus, tables, book);
    var ok;
    ok, outs := WriteAndRead(book, tables, c.scan, c.restartInterval, mcus, fill, marker, rest, deliveries);
  }
}
