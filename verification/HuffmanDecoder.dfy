/** Sequential Huffman decoding: decode_mcu and decode_mcu_sub of jdhuff.c, at full resolution. */
module HuffmanDecoder {
  import opened Numbers
  import opened ByteStuffing
  import opened HuffmanCode
  import opened HuffmanTables
  import opened BitStrings
  import opened Blocks
  import opened HuffmanBlocks
  import opened SegmentSource
  import opened HuffmanInput
  import opened HuffmanOutput
  import opened HuffmanEncoder
  import opened RestartIntervals
  import opened Opening

  type DerivedTables = Slot -> DecoderTable

  predicate Fitting(shelf: Shelf, tables: DerivedTables, slot: Slot)
  {
    && Usable(shelf(slot)) && Decodes(shelf(slot), tables(slot))
    && (slot.DcTable? ==> InRange(shelf(slot), true, All(shelf(slot).bits)))
  }

  ghost predicate AllFitting(shelf: Shelf, tables: DerivedTables)
  {
    forall x {:trigger Look(Machine, x)} :: Look(Machine, x) ==> forall slot :: Fitting(shelf, tables, slot)
  }

  /** Whatever the data, a DC symbol announces at most 15 bits. */
  lemma {:induction false} DcSymbol(h: HuffTable, s: Stream, t: nat)
    requires Usable(h) && InRange(h, true, All(h.bits))
    ensures ReadSymbol(h, s, t).0 <= 15
  {
    match Lookup(s, t, h.bits)
    case NoCode =>
    case Found(c) => AtIndex(h.bits, c);
  }

  /** Reading on from one state of a block is reading on from the other. */
  ghost predicate Leads(rd: Symbols, s: Stream, scan: Scan, tbl: nat, from: Reading, to: Reading)
    requires ValidScan(scan)
  {
    forall x {:trigger Look(Yielding, x)} :: Look(Yielding, x) ==>
      ReadAc(rd, s, from.t, scan, tbl, from.block, from.k) == ReadAc(rd, s, to.t, scan, tbl, to.block, to.k)
  }

  lemma {:induction false} LeadsPastCoef(rd: Symbols, s: Stream, scan: Scan, tbl: nat, from: Reading, at: Reading, sym: nat, t1: nat)
    requires ValidScan(scan) && Leads(rd, s, scan, tbl, from, at) && at.k <= scan.limSe
    requires rd(AcTable(tbl), at.t) == (sym, t1) && sym % 16 != 0
    ensures var k, n := at.k + sym / 16, sym % 16;
            Leads(rd, s, scan, tbl, from, Reading(t1 + n, at.block[Spot(scan, k) := Jcoef(Extend(Peek(s, t1, n), n))], k + 1))
  {
    assert Look(Yielding, 0);
  }

  lemma {:induction false} LeadsPastZeros(rd: Symbols, s: Stream, scan: Scan, tbl: nat, from: Reading, at: Reading, sym: nat, t1: nat)
    requires ValidScan(scan) && Leads(rd, s, scan, tbl, from, at) && at.k <= scan.limSe
    requires rd(AcTable(tbl), at.t) == (sym, t1) && sym % 16 == 0
    ensures if sym / 16 == 15 then Leads(rd, s, scan, tbl, from, Reading(t1, at.block, at.k + 16))
            else Yields(rd, s, scan, tbl, from, (at.block, t1))
  {
    assert Look(Yielding, 0);
  }

  /** An MCU that is left zero. */
  function BlankMcu(scan: Scan): (mcu: Mcu) { seq(|scan.membership|, _ => Zeroes()) }

  /** The first n MCUs of an interval; once bits behind the end of the data have been used, the others are left zero. */
  function ReadInterval(rd: Symbols, s: Stream, end: nat, scan: Scan, n: nat): (r: (seq<Mcu>, seq<int>, nat))
    requires ValidScan(scan)
    ensures |r.0| == n && |r.1| == |scan.dcTbl|
  {
    if n == 0 then ([], seq(|scan.dcTbl|, _ => 0), 0)
    else
      var (mcus, last, t) := ReadInterval(rd, s, end, scan, n - 1);
      if t > end then (mcus + [BlankMcu(scan)], last, t)
      else
        var (mcu, last', t') := ReadBlocks(rd, s, t, scan, last, |scan.membership|);
        (mcus + [mcu], last', t')
  }

  /** Behind the end of the data all coefficients are zero. */
  lemma {:induction false} LeftZero(rd: Symbols, s: Stream, end: nat, scan: Scan, n: nat)
    requires ValidScan(scan) && ReadInterval(rd, s, end, scan, n).2 > end
    ensures var mcu := ReadInterval(rd, s, end, scan, n + 1).0[n];
            |mcu| == |scan.membership| && forall b, k :: 0 <= b < |mcu| && 0 <= k < 64 ==> mcu[b][k] == 0
  {
  }

  /** As long as the data lasts, nothing is left zero. */
  lemma {:induction false} DataLasts(rd: Symbols, s: Stream, end: nat, scan: Scan, n: nat)
    requires ValidScan(scan) && forall i :: 0 <= i < n ==> ReadMcus(rd, s, 0, scan, i).2 <= end
    ensures ReadInterval(rd, s, end, scan, n) == ReadMcus(rd, s, 0, scan, n)
  {
    if n > 0 {
      DataLasts(rd, s, end, scan, n - 1);
    }
  }

  /** DC predictions around the bit reader, within one restart interval. The data source may pause anywhere. */
  class McuReader {
    const scan: Scan
    const shelf: Shelf
    const tables: DerivedTables
    const br: BitReader
    var last: seq<int>
    /** How symbols are to be read in the current segment. */
    ghost var rd: Symbols
    /** MCUs asked for so far. */
    ghost var asked: nat

    constructor (scan: Scan, shelf: Shelf, tables: DerivedTables, src: seq<byte>)
      requires ValidScan(scan) && forall slot :: Fitting(shelf, tables, slot)
      ensures Valid() && asked == 0 && this.scan == scan && this.shelf == shelf && fresh(br) && fresh(br.input)
      ensures br.input.src == src && br.input.seg == Unstuff(src, 0) && br.input.avail == 0
    {
      this.scan, this.shelf, this.tables := scan, shelf, tables;
      br := new BitReader(src);
      rd := HuffmanSymbols(shelf, DataBits(Unstuff(src, 0).data));
      last, asked := seq(|scan.dcTbl|, _ => 0), 0;
    }

    ghost predicate Ready()
      reads this, br, br.input
    {
      && ValidScan(scan) && |last| == |scan.dcTbl| && br.Valid() && AllFitting(shelf, tables)
      && forall x {:trigger Look(Machine, x)} :: Look(Machine, x) ==> rd == HuffmanSymbols(shelf, br.Bits())
    }

    /** HUFF_DECODE with the table in a slot. */
    method Symbol(slot: Slot) returns (ok: bool, sym: nat)
      requires Ready()
      modifies br`getBuffer, br`bitsLeft, br`insufficient, br`t, br.input`pos, br.input`unread, br.input`n
      ensures Ready() && (!ok ==> br.Paused())
      ensures ok ==> (var (y, t1) := rd(slot, old(br.t)); sym == y && br.t == t1) && (slot.DcTable? ==> sym <= 15)
    {
      assert Look(Machine, 0) && Fitting(shelf, tables, slot);
      if slot.DcTable? {
        DcSymbol(shelf(slot), br.Bits(), br.t);
      }
      ok, sym := br.HuffDecode(shelf(slot), tables(slot));
    }

    /** A value of n bits. */
    method ReadValue(n: nat) returns (ok: bool, v: int)
      requires Ready() && 0 < n <= 15
      modifies br`getBuffer, br`bitsLeft, br`insufficient, br`t, br.input`pos, br.input`unread, br.input`n
      ensures Ready() && (!ok ==> br.Paused())
      ensures ok ==> v == Extend(Peek(br.Bits(), old(br.t), n), n) && br.t == old(br.t) + n
    {
      var x;
      ok, x := br.GetBits(n);
      v := Extend(x, n);
    }

    /** A value of n bits, stored as the k-th coefficient. */
    method StoreValue(tbl: nat, block0: Block, k: nat, n: nat, ghost from: Reading) returns (ok: bool, block: Block)
      requires Ready() && 0 < n <= 15
      requires var v := Extend(Peek(br.Bits(), br.t, n), n);
               Leads(rd, br.Bits(), scan, tbl, from, Reading(br.t + n, block0[Spot(scan, k) := Jcoef(v)], k + 1))
      modifies br`getBuffer, br`bitsLeft, br`insufficient, br`t, br.input`pos, br.input`unread, br.input`n
      ensures Ready() && (!ok ==> br.Paused()) && (ok ==> Leads(rd, br.Bits(), scan, tbl, from, Reading(br.t, block, k + 1)))
    {
      var v;
      ok, v := ReadValue(n);
      block := block0[Spot(scan, k) := Jcoef(v)];
    }

    /** The coefficient that a symbol announces, after a run of zeros. */
    method DecodeCoef(tbl: nat, block0: Block, k: nat, sym: nat, ghost from: Reading, ghost at: Reading) returns (ok: bool, block: Block)
      requires Ready() && at.block == block0 && at.k == k <= scan.limSe && sym % 16 != 0
      requires Leads(rd, br.Bits(), scan, tbl, from, at) && rd(AcTable(tbl), at.t) == (sym, br.t)
      modifies br`getBuffer, br`bitsLeft, br`insufficient, br`t, br.input`pos, br.input`unread, br.input`n
      ensures Ready() && (!ok ==> br.Paused())
      ensures ok ==> Leads(rd, br.Bits(), scan, tbl, from, Reading(br.t, block, k + sym / 16 + 1))
    {
      LeadsPastCoef(rd, br.Bits(), scan, tbl, from, at, sym, br.t);
      ok, block := StoreValue(tbl, block0, k + sym / 16, sym % 16, from);
    }

    /** Section F.2.2.2. */
    method DecodeAc(tbl: nat, block0: Block, first: nat) returns (ok: bool, block: Block)
      requires Ready()
      modifies br`getBuffer, br`bitsLeft, br`insufficient, br`t, br.input`pos, br.input`unread, br.input`n
      ensures Ready() && (!ok ==> br.Paused())
      ensures ok ==> var (b, t1) := ReadAc(rd, br.Bits(), old(br.t), scan, tbl, block0, first); block == b && br.t == t1
    {
      block := block0;
      var k, more := first, true;
      ok := true;
      ghost var from := Reading(br.t, block, k);
      while k <= scan.limSe
        invariant Ready() && ok && Leads(rd, br.Bits(), scan, tbl, from, Reading(br.t, block, k))
        decreases scan.limSe + 1 - k
      {
        ok, more, block, k := DecodeSymbol(tbl, block, k, from);
        if !ok || !more {
          assert Look(Yielding, 0);
          return;
        }
      }
      assert Look(Yielding, 0);
    }

    /** One symbol: a coefficient, sixteen zeros, or the end of the block. */
    method DecodeSymbol(tbl: nat, block0: Block, k0: nat, ghost from: Reading) returns (ok: bool, more: bool, block: Block, k: nat)
      requires Ready() && k0 <= scan.limSe && Leads(rd, br.Bits(), scan, tbl, from, Reading(br.t, block0, k0))
      modifies br`getBuffer, br`bitsLeft, br`insufficient, br`t, br.input`pos, br.input`unread, br.input`n
      ensures Ready() && (if ok then (more ==> k > k0) else br.Paused())
      ensures ok ==> if more then Leads(rd, br.Bits(), scan, tbl, from, Reading(br.t, block, k))
                     else Yields(rd, br.Bits(), scan, tbl, from, (block, br.t))
    {
      more, block, k := true, block0, k0;
      ghost var at := Reading(br.t, block, k);
      var sym;
      ok, sym := Symbol(AcTable(tbl));
      if !ok {
        return;
      }
      var r, n := sym / 16, sym % 16;
      if n != 0 {
        ok, block := DecodeCoef(tbl, block, k, sym, from, at);
        k := k + r + 1;
      } else {
        LeadsPastZeros(rd, br.Bits(), scan, tbl, from, at, sym, br.t);
        more := r == 15;
        k := k + 16;
      }
    }

    method DecodeDiff(tbl: nat) returns (ok: bool, diff: int)
      requires Ready()
      modifies br`getBuffer, br`bitsLeft, br`insufficient, br`t, br.input`pos, br.input`unread, br.input`n
      ensures Ready() && (!ok ==> br.Paused())
      ensures ok ==> var (d, t1) := ReadDiff(rd, br.Bits(), old(br.t), tbl); diff == d && br.t == t1
    {
      var n;
      ok, n := Symbol(DcTable(tbl));
      diff := 0;
      if ok && n != 0 {
        ok, diff := ReadValue(n);
      }
    }

    method DecodeBlock(ci: nat) returns (ok: bool, block: Block)
      requires Ready() && ci < |scan.dcTbl|
      modifies this`last, br`getBuffer, br`bitsLeft, br`insufficient, br`t, br.input`pos, br.input`unread, br.input`n
      ensures Ready() && |last| == |old(last)| && (!ok ==> br.Paused())
      ensures ok ==> var (b, dc, t) := ReadBlock(rd, br.Bits(), old(br.t), scan, old(last), ci);
                     block == b && last == old(last)[ci := dc] && br.t == t
    {
      block := Zeroes();
      var diff;
      ok, diff := DecodeDiff(scan.dcTbl[ci]);
      if ok {
        var dc := last[ci] + diff;
        last := last[ci := dc];
        ok, block := DecodeAc(scan.acTbl[ci], Zeroes()[0 := Jcoef(dc)], 1);
      }
    }

    method DecodeBlocks() returns (ok: bool, mcu: Mcu)
      requires Ready()
      modifies this`last, br`getBuffer, br`bitsLeft, br`insufficient, br`t, br.input`pos, br.input`unread, br.input`n
      ensures Ready() && (!ok ==> br.Paused())
      ensures ok ==> var (m, l, t) := ReadBlocks(rd, br.Bits(), old(br.t), scan, old(last), |scan.membership|);
                     mcu == m && last == l && br.t == t
    {
      mcu := [];
      for blkn := 0 to |scan.membership|
        invariant Ready()
        invariant var (m, l, t) := ReadBlocks(rd, br.Bits(), old(br.t), scan, old(last), blkn); mcu == m && last == l && br.t == t
      {
        var block;
        ok, block := DecodeBlock(scan.membership[blkn]);
        if !ok {
          return;
        }
        mcu := mcu + [block];
      }
      ok := true;
    }

    /** Between MCUs predictions and position are those of the decoding function. */
    ghost predicate Valid()
      reads this, br, br.input
    {
      Ready() && br.permT == br.t && last == Read(asked).1 && br.t == Read(asked).2
    }

    ghost function Read(n: nat): (r: (seq<Mcu>, seq<int>, nat))
      requires ValidScan(scan)
      reads this`rd, br.input
      ensures |r.0| == n
    {
      ReadInterval(rd, br.Bits(), br.End(), scan, n)
    }

    /**
      decode_mcu within a restart interval: one more MCU by the decoding function. If the source pauses nothing
      has changed, and it does not pause if it has delivered the whole segment.
    */
    method DecodeMcu() returns (done: bool, mcu: Mcu)
      requires Valid()
      modifies this`last, this`asked, br`getBuffer, br`bitsLeft, br`insufficient, br`t, br.input`pos, br.input`unread, br.input`n, br`permBuffer, br`permLeft, br`permPos, br`permT, br`permN
      ensures Valid()
      ensures !done ==> br.Paused() && asked == old(asked) && last == old(last) && br.t == old(br.t)
      ensures !done ==> br.getBuffer == old(br.permBuffer) && br.bitsLeft == old(br.permLeft) && br.input.pos == old(br.permPos)
      ensures done ==> asked == old(asked) + 1 && mcu == Read(asked).0[asked - 1]
    {
      br.FlagMeans();
      if !br.insufficient {
        done, mcu := DecodeOrUndo();
      } else {
        done, mcu := true, BlankMcu(scan);
      }
      if done {
        asked := asked + 1;
      }
    }

    /** The blocks of an MCU; if the source pauses, the saved state is kept. */
    method DecodeOrUndo() returns (done: bool, mcu: Mcu)
      requires Ready() && br.permT == br.t
      modifies this`last, br`getBuffer, br`bitsLeft, br`insufficient, br`t, br.input`pos, br.input`unread, br.input`n, br`permBuffer, br`permLeft, br`permPos, br`permT, br`permN
      ensures Ready() && br.permT == br.t
      ensures !done ==> br.Paused() && last == old(last) && br.t == old(br.t)
      ensures !done ==> br.getBuffer == old(br.permBuffer) && br.bitsLeft == old(br.permLeft) && br.input.pos == old(br.permPos)
      ensures done ==> var (m, l, t) := ReadBlocks(rd, br.Bits(), old(br.t), scan, old(last), |scan.membership|);
                       mcu == m && last == l && br.t == t
    {
      var state := last;
      done, mcu := DecodeBlocks();
      if done {
        br.Save();
      } else {
        last := state;
        br.Rewind();
      }
    }

    lemma ReadIsHeard()
      requires Ready() && asked > 0
      ensures Read(asked).0[asked - 1] == HeardMcu(shelf, scan, br.input.seg.data, asked - 1)
    {
      assert Look(Machine, 0);
    }

    /** The source delivers k more bytes. */
    method Deliver(k: nat)
      requires Ready()
      modifies br.input`avail
      ensures Ready() && br.input.avail == old(br.input.avail) + k
      ensures old(Valid()) ==> Valid()
    {
      assert Look(Machine, 0);
      br.Deliver(k);
    }

    /** process_restart: the next segment is entered exactly if its marker is the expected one. */
    method Restart(num: nat) returns (r: Restarted)
      requires Ready() && num < 8
      modifies this, br, br.input`pos, br.input`unread, br.input`n, br.input`seg
      ensures match r
              case Synced => Valid() && asked == 0 && old(br.input.seg).marker == 0xD0 + num
                             && br.input.seg == Unstuff(br.input.src, old(br.input.seg).end)
              case Unexpected => br.input.seg == old(br.input.seg) && br.input.seg.marker != 0xD0 + num
              case Waiting => Ready() && asked == old(asked) && br.permT == br.t && br.input.seg == old(br.input.seg) && br.Paused()
    {
      r := br.Restart(num);
      if r.Synced? {
        last, asked := seq(|scan.dcTbl|, _ => 0), 0;
        rd := HuffmanSymbols(shelf, br.Bits());
      } else {
        assert Look(Machine, 0);
      }
    }
  }

  // ---- The round trip ----

  /** Padded data begins with the bits that were padded. */
  lemma {:induction false} PaddedMatches(data: seq<byte>, bits: seq<bool>)
    requires OnePadded(data, bits)
    ensures Matches(DataBits(data), 0, bits)
  {
  }

  lemma {:induction false} SizesAgree(book: Book, shelf: Shelf)
    requires forall slot :: Agree(book, shelf, slot)
    ensures forall slot, sym {:trigger SymbolBits(book(slot), sym)} :: |SymbolBits(book(slot), sym)| == SizeOf(book(slot), sym)
  {
    forall slot, sym ensures |SymbolBits(book(slot), sym)| == SizeOf(book(slot), sym) {
      assert Agree(book, shelf, slot);
    }
  }

  /** The items of the first n MCUs stand in front of those of the others. */
  lemma {:induction false} FrontOf(scan: Scan, mcus: seq<Mcu>, n: nat, m: nat, rest: Items) returns (more: Items)
    requires ValidScan(scan) && AreMcus(scan, mcus) && n <= m <= |mcus|
    ensures McusItems(scan, mcus, m, rest) == McusItems(scan, mcus, n, more)
    decreases m
  {
    more := rest;
    if n < m {
      more := FrontOf(scan, mcus, n, m - 1, BlocksItems(scan, LastOf(scan, mcus, m - 1), mcus[m - 1], |mcus[m - 1]|, rest));
    }
  }

  /** Reading the first n MCUs of a stream that carries all of them. */
  lemma {:induction false} FrontComesBack(rd: Symbols, book: Book, s: Stream, scan: Scan, mcus: seq<Mcu>, n: nat, t': nat)
    requires ValidScan(scan) && Faithful(rd, book, s) && AreMcus(scan, mcus) && RangeKept(scan, mcus) && n <= |mcus|
    requires Carries(book, s, 0, McusItems(scan, mcus, |mcus|, End)) && t' == Len(book, McusItems(scan, mcus, |mcus|, End))
    ensures var (out, last, t) := ReadMcus(rd, s, 0, scan, n);
            out == SentMcus(scan, mcus, n) && last == LastOf(scan, mcus, n) && t <= t'
  {
    var more := FrontOf(scan, mcus, n, |mcus|, End);
    var t1 := McusComeBack(rd, book, s, 0, scan, mcus, n, more, t', End);
    assert Look(Supply, 0);
  }

  /** With tables built on both sides from the same tables, the MCUs of an interval come back, from within the data. */
  lemma {:induction false} IntervalRoundTrip(book: Book, shelf: Shelf, scan: Scan, mcus: seq<Mcu>, data: seq<byte>, n: nat)
    requires ValidScan(scan) && AreMcus(scan, mcus) && RangeKept(scan, mcus) && n <= |mcus|
    requires forall slot :: Agree(book, shelf, slot)
    requires var items := McusItems(scan, mcus, |mcus|, End); Codable(book, items) && OnePadded(data, Bits(book, items))
    ensures var (out, last, t) := ReadMcus(HuffmanSymbols(shelf, DataBits(data)), DataBits(data), 0, scan, n);
            out == SentMcus(scan, mcus, n) && last == LastOf(scan, mcus, n) && t <= 8 * |data|
  {
    var items, s := McusItems(scan, mcus, |mcus|, End), DataBits(data);
    HuffmanIsFaithful(book, shelf, s);
    PaddedMatches(data, Bits(book, items));
    SizesAgree(book, shelf);
    MatchingCarries(book, s, 0, items);
    FrontComesBack(HuffmanSymbols(shelf, s), book, s, scan, mcus, n, |Bits(book, items)|);
  }

  /** What decoding gives for MCU j of an interval. */
  function HeardMcu(shelf: Shelf, scan: Scan, data: seq<byte>, j: nat): (mcu: Mcu)
    requires ValidScan(scan)
  {
    ReadInterval(HuffmanSymbols(shelf, DataBits(data)), DataBits(data), 8 * |data|, scan, j + 1).0[j]
  }

  lemma {:induction false} SentAt(scan: Scan, mcus: seq<Mcu>, n: nat, j: nat)
    requires ValidScan(scan) && j < n <= |mcus|
    ensures |SentMcus(scan, mcus, n)| == n && SentMcus(scan, mcus, n)[j] == SentBlocks(scan, mcus[j], |mcus[j]|)
  {
    if j < n - 1 {
      SentAt(scan, mcus, n - 1, j);
    } else if n > 1 {
      SentAt(scan, mcus, n - 1, 0);
    }
  }

  /** Every MCU of a coded interval is decoded to what was sent. */
  lemma {:induction false} PieceHeard(book: Book, shelf: Shelf, scan: Scan, piece: Piece<Mcu>, j: nat)
    requires ValidScan(scan) && Coded(book, scan, piece) && j < |piece.mcus| && forall slot :: Agree(book, shelf, slot)
    ensures HeardMcu(shelf, scan, piece.code, j) == SentBlocks(scan, piece.mcus[j], |piece.mcus[j]|)
  {
    assert Look(Filing, 0);
    var s := DataBits(piece.code);
    forall i | 0 <= i <= j ensures ReadMcus(HuffmanSymbols(shelf, s), s, 0, scan, i).2 <= 8 * |piece.code| {
      IntervalRoundTrip(book, shelf, scan, piece.mcus, piece.code, i);
    }
    DataLasts(HuffmanSymbols(shelf, s), s, 8 * |piece.code|, scan, j + 1);
    IntervalRoundTrip(book, shelf, scan, piece.mcus, piece.code, j + 1);
    SentAt(scan, piece.mcus, j + 1, j);
  }

  lemma {:induction false} AgreeIsProper(h: HuffTable, e: EncoderTable)
    requires Usable(h) && Encodes(h, e)
    ensures ProperTable(e)
  {
    forall i | 0 <= i < 256 ensures e.ehufsi[i] <= 16 {
      if e.ehufsi[i] != 0 {
        var p :| 0 <= p < All(h.bits) && h.huffval[p] == i;
      }
    }
  }
}
