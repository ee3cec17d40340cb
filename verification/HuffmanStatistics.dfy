/** Statistics for optimal Huffman tables: encode_mcu_gather of jchuff.c, and how they agree with what is written. */
module HuffmanStatistics {
  import opened HuffmanCode
  import opened HuffmanTables
  import opened Blocks
  import opened HuffmanBlocks
  import opened HuffmanEncoder
  import opened RestartIntervals

  /** The symbols that coefficients within range can need. */
  predicate Admitted(slot: Slot, sym: nat)
  {
    if slot.DcTable? then sym <= MAX_COEF_BITS + 1 else sym < 256 && sym % 16 <= MAX_COEF_BITS
  }

  lemma {:induction false} RunSymbol(r: nat, n: nat)
    requires r <= 15 && n <= 15
    ensures 16 * r + n < 256 && (16 * r + n) % 16 == n
  {
  }

  /** Counts symbols instead of writing them. */
  class ItemCounter {
    var counts: map<Slot, seq<nat>>
    /** What has been counted. */
    ghost var items: Items

    ghost predicate Valid()
      reads this
    {
      && (forall slot :: slot in counts ==> |counts[slot]| == 257)
      && (forall slot, sym :: slot in counts && 0 <= sym < 257 ==> counts[slot][sym] == Count(items, slot, sym))
      && (forall slot, sym :: Count(items, slot, sym) > 0 ==> slot in counts && Admitted(slot, sym))
    }

    constructor (slots: set<Slot>)
      ensures Valid() && items == End && counts.Keys == slots
    {
      counts, items := map slot | slot in slots :: seq(257, _ => 0), End;
    }

    method Tally(slot: Slot, sym: nat, ghost extra: seq<bool>)
      requires Valid() && slot in counts && sym < 256 && Admitted(slot, sym)
      modifies this
      ensures Valid() && counts.Keys == old(counts.Keys) && items == Join(old(items), Item(slot, sym, extra, End))
    {
      var table := counts[slot];
      forall slot', sym' ensures Count(Join(items, Item(slot, sym, extra, End)), slot', sym')
                              == Count(items, slot', sym') + (if slot' == slot && sym' == sym then 1 else 0) {
        JoinCount(items, Item(slot, sym, extra, End), slot', sym');
      }
      counts := counts[slot := table[sym := table[sym] + 1]];
      items := Join(items, Item(slot, sym, extra, End));
    }

    method CountRun(tbl: nat, r0: nat, v: int) returns (ok: bool)
      requires Valid() && v != 0 && AcTable(tbl) in counts
      modifies this
      ensures counts.Keys == old(counts.Keys) && ok == (NumBits(Abs(v)) <= MAX_COEF_BITS)
      ensures ok ==> Valid() && items == Join(old(items), RunItems(tbl, r0, v, End))
    {
      var r: nat := r0;
      while r > 15
        invariant Valid() && counts.Keys == old(counts.Keys)
        invariant Join(items, RunItems(tbl, r, v, End)) == Join(old(items), RunItems(tbl, r0, v, End))
      {
        JoinAssoc(items, Item(AcTable(tbl), 0xF0, [], End), RunItems(tbl, r - 16, v, End));
        Tally(AcTable(tbl), 0xF0, []);
        r := r - 16;
      }
      var nbits := CountBits(Abs(v));
      ok := nbits <= MAX_COEF_BITS;
      if ok {
        RunSymbol(r, nbits);
        Tally(AcTable(tbl), 16 * r + nbits, Extra(v));
      }
    }

    method CountAc(scan: Scan, tbl: nat, block: Block) returns (ok: bool)
      requires Valid() && ValidScan(scan) && (scan.limSe > 0 ==> AcTable(tbl) in counts)
      modifies this
      ensures counts.Keys == old(counts.Keys) && ok == AcSendable(scan, block)
      ensures ok ==> Valid() && items == Join(old(items), AcItems(scan, tbl, block, scan.limSe, 0, End))
    {
      var r: nat := 0;
      ghost var all := AcItems(scan, tbl, block, scan.limSe, 0, End);
      for k := 1 to scan.limSe + 1
        invariant Valid() && counts.Keys == old(counts.Keys) && r < k
        invariant Join(items, AcItems(scan, tbl, block, scan.limSe + 1 - k, r, End)) == Join(old(items), all)
        invariant forall j :: 1 <= j < k ==> NumBits(Abs(Coef(scan, block, j))) <= MAX_COEF_BITS
      {
        var v := block[scan.order[k]];
        if v == 0 {
          r := r + 1;
        } else {
          RunBefore(_ => EncoderTable([], []), items, scan, tbl, block, k, r);
          ok := CountRun(tbl, r, v);
          if !ok {
            return;
          }
          r := 0;
        }
      }
      ok := true;
      if r > 0 {
        Tally(AcTable(tbl), 0, []);
      } else {
        JoinEnd(items);
      }
    }

    /** htest_one_block: counts what encode_one_block writes, and fails on the same blocks. */
    method CountBlock(scan: Scan, last: seq<int>, ci: nat, block: Block) returns (ok: bool)
      requires Valid() && ValidScan(scan) && ci < |scan.dcTbl| == |last|
      requires DcTable(scan.dcTbl[ci]) in counts && (scan.limSe > 0 ==> AcTable(scan.acTbl[ci]) in counts)
      modifies this
      ensures counts.Keys == old(counts.Keys) && ok == BlockSendable(scan, last, ci, block)
      ensures ok ==> Valid() && items == Join(old(items), BlockItems(scan, last, ci, block, End))
    {
      var diff, tbl := block[0] - last[ci], scan.dcTbl[ci];
      var nbits := CountBits(Abs(diff));
      ok := nbits <= MAX_COEF_BITS + 1;
      if ok {
        Tally(DcTable(tbl), nbits, Extra(diff));
        JoinAssoc(old(items), DcItem(tbl, diff, End), AcItems(scan, scan.acTbl[ci], block, scan.limSe, 0, End));
        ok := CountAc(scan, scan.acTbl[ci], block);
      }
    }
  }

  predicate AreIntervals(scan: Scan, past: seq<Piece<Mcu>>) { forall i :: 0 <= i < |past| ==> AreMcus(scan, past[i].mcus) }

  /** MCU i of an interval is within the range that the encoder admits. */
  predicate SendableAt(scan: Scan, mcus: seq<Mcu>, i: nat)
    requires ValidScan(scan) && AreMcus(scan, mcus) && i < |mcus|
  {
    BlocksSendable(scan, LastOf(scan, mcus, i), mcus[i], |mcus[i]|)
  }

  predicate AllSendable(scan: Scan, mcus: seq<Mcu>)
    requires ValidScan(scan) && AreMcus(scan, mcus)
  {
    forall i :: 0 <= i < |mcus| ==> SendableAt(scan, mcus, i)
  }

  lemma {:induction false} StillSendable(scan: Scan, mcus: seq<Mcu>, mcu: Mcu, i: nat)
    requires ValidScan(scan) && AreMcus(scan, mcus) && IsMcu(scan, mcu) && i < |mcus| && SendableAt(scan, mcus, i)
    ensures AreMcus(scan, mcus + [mcu]) && SendableAt(scan, mcus + [mcu], i)
  {
    SameFront(scan, mcus, mcu, i, End);
    assert (mcus + [mcu])[i] == mcus[i];
  }

  lemma {:induction false} OneMoreSendable(scan: Scan, mcus: seq<Mcu>, mcu: Mcu)
    requires ValidScan(scan) && AreMcus(scan, mcus) && IsMcu(scan, mcu) && AllSendable(scan, mcus)
    requires BlocksSendable(scan, LastOf(scan, mcus, |mcus|), mcu, |mcu|)
    ensures AreMcus(scan, mcus + [mcu]) && AllSendable(scan, mcus + [mcu])
  {
    SameFront(scan, mcus, mcu, |mcus|, End);
    forall i | 0 <= i < |mcus| + 1 ensures SendableAt(scan, mcus + [mcu], i) {
      if i < |mcus| {
        StillSendable(scan, mcus, mcu, i);
      }
    }
  }

  /** The items of finished restart intervals. */
  function PastItems(scan: Scan, past: seq<Piece<Mcu>>): (items: Items)
    requires ValidScan(scan) && AreIntervals(scan, past)
  {
    if past == [] then End
    else
      var n := |past| - 1;
      Join(PastItems(scan, past[..n]), McusItems(scan, past[n].mcus, |past[n].mcus|, End))
  }

  /** Closing an interval does not change what has been counted. */
  lemma {:induction false} IntervalClosed(scan: Scan, past: seq<Piece<Mcu>>, mcus: seq<Mcu>, items: Items, all: seq<Piece<Mcu>>, none: seq<Mcu>)
    requires all == past + [Piece(mcus, [])] && none == []
    requires ValidScan(scan) && AreIntervals(scan, past) && AreMcus(scan, mcus)
    requires items == Join(PastItems(scan, past), McusItems(scan, mcus, |mcus|, End))
    requires AllSendable(scan, mcus) && forall i :: 0 <= i < |past| ==> AllSendable(scan, past[i].mcus)
    ensures AreIntervals(scan, all) && (forall i :: 0 <= i < |all| ==> AllSendable(scan, all[i].mcus))
    ensures items == PastItems(scan, all) && items == Join(PastItems(scan, all), McusItems(scan, none, |none|, End))
    ensures AreMcus(scan, none) && AllSendable(scan, none) && LastOf(scan, none, |none|) == seq(|scan.dcTbl|, _ => 0)
  {
    assert all[..|past|] == past;
    JoinEnd(items);
  }

  /** An MCU is within range behind the others of its interval. */
  predicate CanBeSent(scan: Scan, mcus: seq<Mcu>, mcu: Mcu)
  {
    ValidScan(scan) && AreMcus(scan, mcus) && IsMcu(scan, mcu) && BlocksSendable(scan, Predictions(scan, mcus), mcu, |mcu|)
  }

  /** Restarts and DC predictions around the counter. */
  class McuCounter {
    const scan: Scan
    const restartInterval: nat
    const counter: ItemCounter
    var last: seq<int>
    var restartsToGo: nat
    /** The finished restart intervals, for which nothing is written, and the MCUs since. */
    ghost var past: seq<Piece<Mcu>>
    ghost var mcus: seq<Mcu>

    ghost predicate Valid()
      reads this, counter
    {
      && ValidScan(scan) && counter.Valid() && AreMcus(scan, mcus) && AreIntervals(scan, past) && Tables()
      && (restartInterval > 0 ==> restartsToGo + |mcus| == restartInterval)
      && last == LastOf(scan, mcus, |mcus|)
      && counter.items == Join(PastItems(scan, past), McusItems(scan, mcus, |mcus|, End))
      && AllSendable(scan, mcus) && forall i :: 0 <= i < |past| ==> AllSendable(scan, past[i].mcus)
    }

    ghost predicate Tables()
      requires ValidScan(scan)
      reads counter
    {
      forall slot {:trigger Names(scan, slot)} :: slot in counter.counts <==> Names(scan, slot)
    }

    lemma HasTables(ci: nat)
      requires ValidScan(scan) && Tables() && ci < |scan.dcTbl|
      ensures DcTable(scan.dcTbl[ci]) in counter.counts && (scan.limSe > 0 ==> AcTable(scan.acTbl[ci]) in counter.counts)
    {
      assert NamedBy(scan, ci, DcTable(scan.dcTbl[ci])) && (scan.limSe > 0 ==> NamedBy(scan, ci, AcTable(scan.acTbl[ci])));
      assert Names(scan, DcTable(scan.dcTbl[ci])) && (scan.limSe > 0 ==> Names(scan, AcTable(scan.acTbl[ci])));
    }

    constructor (scan: Scan, restartInterval: nat)
      requires ValidScan(scan)
      ensures Valid() && past == [] && mcus == [] && this.scan == scan && this.restartInterval == restartInterval && fresh(counter)
    {
      this.scan, this.restartInterval := scan, restartInterval;
      counter := new ItemCounter((set ci | 0 <= ci < |scan.dcTbl| :: DcTable(scan.dcTbl[ci]))
                                 + if scan.limSe > 0 then set ci | 0 <= ci < |scan.acTbl| :: AcTable(scan.acTbl[ci]) else {});
      last, restartsToGo, past, mcus := seq(|scan.dcTbl|, _ => 0), restartInterval, [], [];
      new;
      forall slot ensures slot in counter.counts <==> Names(scan, slot) {
        if slot in counter.counts {
          var ci :| 0 <= ci < |scan.dcTbl| && (slot == DcTable(scan.dcTbl[ci]) || (scan.limSe > 0 && slot == AcTable(scan.acTbl[ci])));
          assert NamedBy(scan, ci, slot);
        }
      }
    }

    method CountBlocks(mcu: Mcu) returns (ok: bool)
      requires ValidScan(scan) && counter.Valid() && |last| == |scan.dcTbl| && IsMcu(scan, mcu) && Tables()
      modifies this`last, counter
      ensures ok == BlocksSendable(scan, old(last), mcu, |mcu|)
      ensures ok ==> counter.Valid() && Tables() && last == LastAfter(scan, old(last), mcu, |mcu|)
      ensures ok ==> counter.items == Join(old(counter.items), BlocksItems(scan, old(last), mcu, |mcu|, End))
    {
      JoinEnd(counter.items);
      for blkn := 0 to |mcu|
        invariant counter.Valid() && counter.counts.Keys == old(counter.counts.Keys) && last == LastAfter(scan, old(last), mcu, blkn)
        invariant counter.items == Join(old(counter.items), BlocksItems(scan, old(last), mcu, blkn, End))
        invariant BlocksSendable(scan, old(last), mcu, blkn)
      {
        var ci := scan.membership[blkn];
        HasTables(ci);
        NextItems(old(counter.items), scan, old(last), mcu, blkn);
        ok := counter.CountBlock(scan, last, ci, mcu[blkn]);
        if !ok {
          if BlocksSendable(scan, old(last), mcu, |mcu|) {
            SendableFront(scan, old(last), mcu, blkn + 1, |mcu|);
          }
          return;
        }
        last := last[ci := mcu[blkn][0]];
      }
      ok := true;
    }

    method Restart()
      requires Valid()
      modifies this
      ensures Valid() && mcus == [] && past == old(past) + [Piece(old(mcus), [])] && restartsToGo == restartInterval
      ensures last == seq(|scan.dcTbl|, _ => 0)
    {
      IntervalClosed(scan, past, mcus, counter.items, past + [Piece(mcus, [])], []);
      last, restartsToGo := seq(|scan.dcTbl|, _ => 0), restartInterval;
      past, mcus := past + [Piece(mcus, [])], [];
    }

    method CountMcu(mcu: Mcu) returns (ok: bool)
      requires Valid() && IsMcu(scan, mcu) && (restartInterval > 0 ==> restartsToGo > 0)
      modifies this, counter
      ensures past == old(past) && ok == (ValidScan(scan) && |old(last)| == |scan.dcTbl| && BlocksSendable(scan, old(last), mcu, |mcu|))
      ensures ok ==> Valid() && mcus == old(mcus) + [mcu]
                     && counter.items == Join(old(counter.items), BlocksItems(scan, old(last), mcu, |mcu|, End))
    {
      OneMore(scan, mcus, mcu);
      JoinAssoc(PastItems(scan, past), McusItems(scan, mcus, |mcus|, End), BlocksItems(scan, last, mcu, |mcu|, End));
      ok := CountBlocks(mcu);
      if ok {
        OneMoreSendable(scan, mcus, mcu);
        if restartInterval > 0 {
          restartsToGo := restartsToGo - 1;
        }
        mcus := mcus + [mcu];
      }
    }

    /** encode_mcu_gather: fails exactly on an MCU out of range behind the others of its interval. */
    method GatherMcu(mcu: Mcu) returns (ok: bool)
      requires Valid() && IsMcu(scan, mcu)
      modifies this, counter
      ensures var due := restartInterval > 0 && |old(mcus)| == restartInterval;
              && ok == CanBeSent(scan, if due then [] else old(mcus), mcu)
              && (ok ==> ValidScan(scan) && AreMcus(scan, old(mcus)) && counter.items == Join(old(counter.items), BlocksItems(scan, Predictions(scan, if due then [] else old(mcus)), mcu, |mcu|, End)))
              && (ok ==> Valid() && if due then past == old(past) + [Piece(old(mcus), [])] && mcus == [mcu]
                                    else past == old(past) && mcus == old(mcus) + [mcu])
    {
      if restartInterval > 0 && restartsToGo == 0 {
        Restart();
      }
      ok := CountMcu(mcu);
    }
  }

  lemma {:induction false} SendableFront(scan: Scan, last: seq<int>, mcu: Mcu, m: nat, n: nat)
    requires ValidScan(scan) && IsMcu(scan, mcu) && m <= n <= |mcu| && |last| == |scan.dcTbl| && BlocksSendable(scan, last, mcu, n)
    ensures BlocksSendable(scan, last, mcu, m)
    decreases n
  {
    if m < n {
      SendableFront(scan, last, mcu, m, n - 1);
    }
  }

  /** A table has a code for every symbol with a nonzero count. */
  predicate Covers(e: EncoderTable, counts: seq<nat>)
  {
    forall sym :: 0 <= sym < 256 && sym < |counts| && counts[sym] > 0 ==> SizeOf(e, sym) != 0
  }

  /** The MCUs of an interval that went through the gathering pass. */
  ghost predicate Gathered(c: McuCounter, mcus: seq<Mcu>)
    reads c
  {
    mcus == c.mcus || exists i :: 0 <= i < |c.past| && mcus == c.past[i].mcus
  }

  /**
    Statistics agree with emission: with tables that have codes for all counted symbols, the MCUs that went
    through the gathering pass can be written, every one in its turn, in every restart interval.
  */
  lemma {:induction false} GatheredIsWritable(c: McuCounter, book: Book, mcus: seq<Mcu>, n: nat, last: seq<int>)
    requires c.Valid() && Gathered(c, mcus) && n < |mcus| && ValidScan(c.scan) && last == LastOf(c.scan, mcus, n)
    requires forall slot :: slot in c.counter.counts ==> Covers(book(slot), c.counter.counts[slot])
    ensures AreMcus(c.scan, mcus) && Writable(book, c.scan, last, mcus[n], |mcus[n]|)
  {
    var items := c.counter.items;
    forall slot, sym | Count(items, slot, sym) > 0 ensures SizeOf(book(slot), sym) != 0 {
      assert Covers(book(slot), c.counter.counts[slot]);
    }
    CountedAreCodable(book, items);
    JoinBits(book, PastItems(c.scan, c.past), McusItems(c.scan, c.mcus, |c.mcus|, End));
    if mcus != c.mcus {
      var i :| 0 <= i < |c.past| && mcus == c.past[i].mcus;
      IntervalCodable(book, c.scan, c.past, i, McusItems(c.scan, mcus, |mcus|, End));
    }
    McuCodable(book, c.scan, mcus, n, |mcus|, McusItems(c.scan, mcus, |mcus|, End), BlocksItems(c.scan, last, mcus[n], |mcus[n]|, End));
    assert SendableAt(c.scan, mcus, n);
  }

  lemma {:induction false} IntervalCodable(book: Book, scan: Scan, past: seq<Piece<Mcu>>, i: nat, items: Items)
    requires ValidScan(scan) && AreIntervals(scan, past) && i < |past| && Codable(book, PastItems(scan, past))
    requires items == McusItems(scan, past[i].mcus, |past[i].mcus|, End)
    ensures Codable(book, items)
  {
    var n := |past| - 1;
    var front, last := PastItems(scan, past[..n]), McusItems(scan, past[n].mcus, |past[n].mcus|, End);
    assert PastItems(scan, past) == Join(front, last);
    JoinBits(book, front, last);
    if i < n {
      IntervalCodable(book, scan, past[..n], i, items);
    }
  }

  /** If the items of an interval have codes, so have those of each MCU. */
  lemma {:induction false} McuCodable(book: Book, scan: Scan, mcus: seq<Mcu>, i: nat, n: nat, all: Items, items: Items)
    requires ValidScan(scan) && AreMcus(scan, mcus) && i < n <= |mcus| && all == McusItems(scan, mcus, n, End) && Codable(book, all)
    requires items == BlocksItems(scan, LastOf(scan, mcus, i), mcus[i], |mcus[i]|, End)
    ensures Codable(book, items)
    decreases n
  {
    var last := BlocksItems(scan, LastOf(scan, mcus, n - 1), mcus[n - 1], |mcus[n - 1]|, End);
    var front := McusItems(scan, mcus, n - 1, End);
    McusJoin(scan, mcus, n - 1, last);
    assert all == Join(front, last);
    JoinBits(book, front, last);
    if i < n - 1 {
      McuCodable(book, scan, mcus, i, n - 1, front, items);
    }
  }

  /** A table that lists every symbol with a nonzero count gives each of them a code. */
  lemma {:induction false} ListedCovers(h: HuffTable, e: EncoderTable, counts: seq<nat>)
    requires ValidTable(h) && Encodes(h, e) && |counts| == 257
    requires forall x: nat :: x < 256 && counts[x] > 0 ==> x in h.huffval[..All(h.bits)]
    ensures Covers(e, counts)
  {
    forall sym: nat | sym < 256 && counts[sym] > 0 ensures SizeOf(e, sym) != 0 {
      var p :| 0 <= p < All(h.bits) && h.huffval[p] == sym;
      assert CodeAt(h.bits, p).l >= 1;
    }
  }
}
