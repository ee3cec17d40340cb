/** Sequential Huffman encoding: encode_mcu_huff of jchuff.c. */
module HuffmanEncoder {
  import opened Numbers
  import opened ByteStuffing
  import opened HuffmanTables
  import opened BitStrings
  import opened Blocks
  import opened HuffmanBlocks
  import opened HuffmanOutput
  import opened RestartIntervals
  import opened Opening

  const MAX_COEF_BITS: nat := 10

  // ---- Items in front of others ----

  lemma {:induction false} JoinAssoc(a: Items, b: Items, c: Items)
    ensures Join(Join(a, b), c) == Join(a, Join(b, c))
  {
    if a.Item? {
      JoinAssoc(a.rest, b, c);
    }
  }

  lemma {:induction false} RunJoin(tbl: nat, r: nat, v: int, rest: Items)
    ensures RunItems(tbl, r, v, rest) == Join(RunItems(tbl, r, v, End), rest)
  {
    if r > 15 {
      RunJoin(tbl, r - 16, v, rest);
    }
  }

  lemma {:induction false} AcJoin(scan: Scan, tbl: nat, block: Block, n: nat, r: nat, rest: Items)
    requires ValidScan(scan) && n <= scan.limSe + 1
    ensures AcItems(scan, tbl, block, n, r, rest) == Join(AcItems(scan, tbl, block, n, r, End), rest)
  {
    if n > 0 {
      var v := Coef(scan, block, scan.limSe + 1 - n);
      if v == 0 {
        AcJoin(scan, tbl, block, n - 1, r + 1, rest);
      } else {
        AcJoin(scan, tbl, block, n - 1, 0, rest);
        RunJoin(tbl, r, v, AcItems(scan, tbl, block, n - 1, 0, rest));
        RunJoin(tbl, r, v, AcItems(scan, tbl, block, n - 1, 0, End));
        JoinAssoc(RunItems(tbl, r, v, End), AcItems(scan, tbl, block, n - 1, 0, End), rest);
      }
    }
  }

  lemma {:induction false} BlockJoin(scan: Scan, last: seq<int>, ci: nat, block: Block, rest: Items)
    requires ValidScan(scan) && ci < |scan.dcTbl| == |last|
    ensures BlockItems(scan, last, ci, block, rest) == Join(BlockItems(scan, last, ci, block, End), rest)
  {
    AcJoin(scan, scan.acTbl[ci], block, scan.limSe, 0, rest);
  }

  lemma {:induction false} BlocksJoin(scan: Scan, last: seq<int>, mcu: Mcu, n: nat, rest: Items)
    requires ValidScan(scan) && IsMcu(scan, mcu) && n <= |mcu| && |last| == |scan.dcTbl|
    ensures BlocksItems(scan, last, mcu, n, rest) == Join(BlocksItems(scan, last, mcu, n, End), rest)
    decreases n
  {
    if n > 0 {
      var last1, ci, block := LastAfter(scan, last, mcu, n - 1), scan.membership[n - 1], mcu[n - 1];
      BlocksJoin(scan, last, mcu, n - 1, BlockItems(scan, last1, ci, block, rest));
      BlocksJoin(scan, last, mcu, n - 1, BlockItems(scan, last1, ci, block, End));
      BlockJoin(scan, last1, ci, block, rest);
      JoinAssoc(BlocksItems(scan, last, mcu, n - 1, End), BlockItems(scan, last1, ci, block, End), rest);
    }
  }

  lemma {:induction false} McusJoin(scan: Scan, mcus: seq<Mcu>, n: nat, rest: Items)
    requires ValidScan(scan) && AreMcus(scan, mcus) && n <= |mcus|
    ensures McusItems(scan, mcus, n, rest) == Join(McusItems(scan, mcus, n, End), rest)
    decreases n
  {
    if n > 0 {
      var last, mcu := LastOf(scan, mcus, n - 1), mcus[n - 1];
      McusJoin(scan, mcus, n - 1, BlocksItems(scan, last, mcu, |mcu|, rest));
      McusJoin(scan, mcus, n - 1, BlocksItems(scan, last, mcu, |mcu|, End));
      BlocksJoin(scan, last, mcu, |mcu|, rest);
      JoinAssoc(McusItems(scan, mcus, n - 1, End), BlocksItems(scan, last, mcu, |mcu|, End), rest);
    }
  }

  /** Only the first n MCUs matter. */
  lemma {:induction false} SameFront(scan: Scan, mcus: seq<Mcu>, mcu: Mcu, n: nat, rest: Items)
    requires ValidScan(scan) && AreMcus(scan, mcus) && IsMcu(scan, mcu) && n <= |mcus|
    ensures AreMcus(scan, mcus + [mcu])
    ensures LastOf(scan, mcus + [mcu], n) == LastOf(scan, mcus, n)
    ensures McusItems(scan, mcus + [mcu], n, rest) == McusItems(scan, mcus, n, rest)
    decreases n
  {
    if n > 0 {
      assert (mcus + [mcu])[n - 1] == mcus[n - 1];
      SameFront(scan, mcus, mcu, n - 1, BlocksItems(scan, LastOf(scan, mcus, n - 1), mcus[n - 1], |mcus[n - 1]|, rest));
    }
  }

  /** The items of one more MCU come behind those of the others. */
  lemma {:induction false} OneMore(scan: Scan, mcus: seq<Mcu>, mcu: Mcu)
    requires ValidScan(scan) && AreMcus(scan, mcus) && IsMcu(scan, mcu)
    ensures AreMcus(scan, mcus + [mcu])
    ensures LastOf(scan, mcus + [mcu], |mcus| + 1) == LastAfter(scan, LastOf(scan, mcus, |mcus|), mcu, |mcu|)
    ensures McusItems(scan, mcus + [mcu], |mcus| + 1, End)
         == Join(McusItems(scan, mcus, |mcus|, End), BlocksItems(scan, LastOf(scan, mcus, |mcus|), mcu, |mcu|, End))
  {
    var items := BlocksItems(scan, LastOf(scan, mcus, |mcus|), mcu, |mcu|, End);
    SameFront(scan, mcus, mcu, |mcus|, items);
    McusJoin(scan, mcus, |mcus|, items);
    assert (mcus + [mcu])[|mcus|] == mcu;
  }

  // ---- Values as extra bits ----

  /** A C int as an unsigned int. */
  function Unsigned(x: int): (u: nat)
    requires -0x8000_0000 <= x < 0x8000_0000
  {
    if x < 0 then x + 0x1_0000_0000 else x
  }

  /** Two's complement: the low n bits of -m. */
  lemma {:induction false} LowNegative(m: nat, n: nat, w: nat)
    requires 1 <= m <= Shl(1, n) && n <= w
    ensures m <= Shl(1, w) && Low(Shl(1, w) - m, n) == Shl(1, n) - m
    decreases n
  {
    ShlGrows(1, n, w);
    if n > 0 {
      LowNegative((m + 1) / 2, n - 1, w - 1);
      assert (Shl(1, w) - m) / 2 == Shl(1, w - 1) - (m + 1) / 2;
    }
  }

  /** The low bits of v, or of v - 1 for negative v, are the extra bits of v. */
  lemma {:induction false} ExtraAsCode(v: int, w: nat)
    requires -0x10000 <= v <= 0x10000 && w == 32
    ensures BitsOf(Unsigned(if v < 0 then v - 1 else v), NumBits(Abs(v))) == Extra(v)
  {
    var n := NumBits(Abs(v));
    NumBitsBounds(Abs(v));
    if v < 0 {
      Shl16(1, w - 16);
      Shl16(Shl(1, w - 16), w - 16);
      ShlShl(1, w - 16, w - 16);
      NumBitsLimit(Abs(v), w);
      LowNegative(Abs(v) + 1, n, w);
      BitsOfLow(Shl(1, w) - (Abs(v) + 1), n);
    }
  }

  /** Count the bits of a magnitude. */
  method CountBits(v: nat) returns (nbits: nat)
    ensures nbits == NumBits(v)
  {
    var temp := v;
    nbits := 0;
    while temp != 0
      invariant nbits + NumBits(temp) == NumBits(v)
    {
      nbits := nbits + 1;
      temp := temp / 2;
    }
  }

  // ---- Emission ----

  lemma {:induction false} OneBit(before: seq<bool>, bits: seq<bool>, i: nat)
    requires i < |bits|
    ensures before + bits[..i] + BitsOf(if bits[i] then 1 else 0, 1) == before + bits[..i + 1]
  {
    var bit := if bits[i] then 1 else 0;
    assert BitsOf(bit, 1) == BitsOf(bit / 2, 0) + [bit % 2 == 1];
    assert BitsOf(bit / 2, 0) == [];
    assert bits[..i + 1] == bits[..i] + [bits[i]];
  }

  lemma {:induction false} ItemBehind(book: Book, items: Items, slot: Slot, sym: nat, extra: seq<bool>)
    ensures var all := Join(items, Item(slot, sym, extra, End));
            && Bits(book, all) == Bits(book, items) + SymbolBits(book(slot), sym) + extra
            && Codable(book, all) == (Codable(book, items) && SizeOf(book(slot), sym) != 0)
  {
    JoinBits(book, items, Item(slot, sym, extra, End));
  }

  predicate ProperTable(e: EncoderTable)
  {
    |e.ehufco| == |e.ehufsi| == 256 && forall i :: 0 <= i < 256 ==> e.ehufsi[i] <= 16
  }

  lemma {:induction false} ItemsBehind(book: Book, items: Items, slot: Slot, sym: nat, a: seq<bool>, b: seq<bool>)
    ensures var all := Join(items, Item(slot, sym, a + b, End));
            && Bits(book, all) == Bits(book, items) + SymbolBits(book(slot), sym) + a + b
            && Codable(book, all) == (Codable(book, items) && SizeOf(book(slot), sym) != 0)
  {
    ItemBehind(book, items, slot, sym, a + b);
  }

  /** Writes symbols and extra bits. */
  class ItemWriter {
    const book: Book
    const w: BitWriter
    /** What has been written in the current segment. */
    ghost var items: Items

    ghost predicate Written()
      reads this, w
    {
      w.Valid() && w.sent == Bits(book, items) && forall slot :: ProperTable(book(slot))
    }

    ghost predicate Valid()
      reads this, w
    {
      Codable(book, items) && forall x {:trigger Look(Machine, x)} :: Look(Machine, x) ==> Written()
    }

    constructor (book: Book)
      requires forall slot :: ProperTable(book(slot))
      ensures Valid() && items == End && this.book == book && fresh(w) && w.done == []
    {
      this.book := book;
      w := new BitWriter();
      items := End;
    }

    /** A symbol and n extra bits; fails if the symbol has no code. */
    method Emit(slot: Slot, sym: nat, code: nat, n: nat) returns (ok: bool)
      requires Valid() && sym < 256 && n <= 16
      modifies this`items, w`out, w`putBuffer, w`putBits, w`data, w`q, w`sent
      ensures ok == (SizeOf(book(slot), sym) != 0)
      ensures ok ==> Valid() && items == Join(old(items), Item(slot, sym, BitsOf(code, n), End))
    {
      assert Look(Machine, 0) && ProperTable(book(slot));
      ok := EmitCode(book(slot), sym, code, n);
      if ok {
        ItemBehind(book, items, slot, sym, BitsOf(code, n));
        items := Join(items, Item(slot, sym, BitsOf(code, n), End));
      }
    }

    /** A symbol, n extra bits, and then buffered bits, one at a time. */
    method EmitWith(slot: Slot, sym: nat, code: nat, n: nat, buffered: seq<bool>) returns (ok: bool)
      requires Valid() && sym < 256 && n <= 16
      modifies this`items, w`out, w`putBuffer, w`putBits, w`data, w`q, w`sent
      ensures ok == (SizeOf(book(slot), sym) != 0)
      ensures ok ==> Valid() && items == Join(old(items), Item(slot, sym, BitsOf(code, n) + buffered, End))
    {
      assert Look(Machine, 0) && ProperTable(book(slot));
      ok := EmitCode(book(slot), sym, code, n);
      if ok {
        EmitBuffered(buffered);
        ItemsBehind(book, items, slot, sym, BitsOf(code, n), buffered);
        items := Join(items, Item(slot, sym, BitsOf(code, n) + buffered, End));
      }
    }

    /** emit_buffered_bits. */
    method EmitBuffered(buffered: seq<bool>)
      requires w.Valid()
      modifies w`out, w`putBuffer, w`putBits, w`data, w`q, w`sent
      ensures w.Valid() && w.sent == old(w.sent) + buffered
    {
      for i := 0 to |buffered|
        invariant w.Valid() && w.sent == old(w.sent) + buffered[..i]
      {
        OneBit(old(w.sent), buffered, i);
        var more := w.EmitBits(if buffered[i] then 1 else 0, 1);
      }
      assert buffered[..|buffered|] == buffered;
    }

    method EmitCode(e: EncoderTable, sym: nat, code: nat, n: nat) returns (ok: bool)
      requires w.Valid() && ProperTable(e) && sym < 256 && n <= 16
      modifies w`out, w`putBuffer, w`putBits, w`data, w`q, w`sent
      ensures w.Valid() && ok == (SizeOf(e, sym) != 0)
      ensures ok ==> w.sent == old(w.sent) + SymbolBits(e, sym) + BitsOf(code, n)
    {
      ok := w.EmitBits(e.ehufco[sym], e.ehufsi[sym]);
      if ok && n != 0 {
        var more := w.EmitBits(code, n);
      }
    }

    /** A run of r zeros and then the coefficient v. */
    method EmitRun(tbl: nat, r0: nat, v: int) returns (ok: bool)
      requires Valid() && v != 0 && -0x8000 <= v < 0x8000
      modifies this`items, w`out, w`putBuffer, w`putBits, w`data, w`q, w`sent
      ensures ok == (NumBits(Abs(v)) <= MAX_COEF_BITS && Codable(book, RunItems(tbl, r0, v, End)))
      ensures ok ==> Valid() && items == Join(old(items), RunItems(tbl, r0, v, End))
    {
      var r: nat := r0;
      while r > 15
        invariant Valid() && Join(items, RunItems(tbl, r, v, End)) == Join(old(items), RunItems(tbl, r0, v, End))
        invariant Codable(book, RunItems(tbl, r, v, End)) == Codable(book, RunItems(tbl, r0, v, End))
      {
        JoinAssoc(items, Item(AcTable(tbl), 0xF0, [], End), RunItems(tbl, r - 16, v, End));
        ok := Emit(AcTable(tbl), 0xF0, 0, 0);
        if !ok {
          return;
        }
        r := r - 16;
      }
      var nbits := CountBits(Abs(v));
      if nbits > MAX_COEF_BITS {
        return false;
      }
      ExtraAsCode(v, 32);
      ok := Emit(AcTable(tbl), 16 * r + nbits, Unsigned(if v < 0 then v - 1 else v), nbits);
    }

    /** Section F.1.2.2. */
    method EncodeAc(scan: Scan, tbl: nat, block: Block) returns (ok: bool)
      requires Valid() && ValidScan(scan)
      modifies this`items, w`out, w`putBuffer, w`putBits, w`data, w`q, w`sent
      ensures ok == (AcSendable(scan, block) && Codable(book, AcItems(scan, tbl, block, scan.limSe, 0, End)))
      ensures ok ==> Valid() && items == Join(old(items), AcItems(scan, tbl, block, scan.limSe, 0, End))
    {
      var r: nat := 0;
      ghost var all := AcItems(scan, tbl, block, scan.limSe, 0, End);
      JoinBits(book, items, all);
      for k := 1 to scan.limSe + 1
        invariant Valid() && Remaining(book, Join(old(items), all), items, AcItems(scan, tbl, block, scan.limSe + 1 - k, r, End))
        invariant forall j :: 1 <= j < k ==> NumBits(Abs(Coef(scan, block, j))) <= MAX_COEF_BITS
      {
        var v := block[scan.order[k]];
        if v == 0 {
          r := r + 1;
        } else {
          RunBefore(book, items, scan, tbl, block, k, r);
          ok := EmitRun(tbl, r, v);
          if !ok {
            return;
          }
          r := 0;
        }
      }
      ok := true;
      if r > 0 {
        ok := Emit(AcTable(tbl), 0, 0, 0);
      } else {
        JoinEnd(items);
      }
    }

    /** encode_one_block; fails on coefficients out of range and on symbols without a code. */
    method EncodeOneBlock(scan: Scan, last: seq<int>, ci: nat, block: Block) returns (ok: bool)
      requires Valid() && ValidScan(scan) && ci < |scan.dcTbl| == |last| && -0x8000 <= last[ci] < 0x8000
      modifies this`items, w`out, w`putBuffer, w`putBits, w`data, w`q, w`sent
      ensures ok == (BlockSendable(scan, last, ci, block) && Codable(book, BlockItems(scan, last, ci, block, End)))
      ensures ok ==> Valid() && items == Join(old(items), BlockItems(scan, last, ci, block, End))
    {
      var diff, tbl := block[0] - last[ci], scan.dcTbl[ci];
      var nbits := CountBits(Abs(diff));
      if nbits > MAX_COEF_BITS + 1 {
        return false;
      }
      ExtraAsCode(diff, 32);
      ok := Emit(DcTable(tbl), nbits, Unsigned(if diff < 0 then diff - 1 else diff), nbits);
      if ok {
        ghost var ac := AcItems(scan, scan.acTbl[ci], block, scan.limSe, 0, End);
        JoinAssoc(old(items), DcItem(tbl, diff, End), ac);
        ok := EncodeAc(scan, scan.acTbl[ci], block);
      }
    }
  }

  /** The rest completes the whole, and it has codes if the whole has. */
  predicate Remaining(book: Book, whole: Items, items: Items, rest: Items)
  {
    Join(items, rest) == whole && Codable(book, rest) == Codable(book, whole)
  }

  predicate AcSendable(scan: Scan, block: Block)
    requires ValidScan(scan)
  {
    forall k :: 1 <= k <= scan.limSe ==> NumBits(Abs(Coef(scan, block, k))) <= MAX_COEF_BITS
  }

  /** All values are within the range that the encoder admits. */
  predicate BlockSendable(scan: Scan, last: seq<int>, ci: nat, block: Block)
    requires ValidScan(scan) && ci < |scan.dcTbl| == |last|
  {
    NumBits(Abs(block[0] - last[ci])) <= MAX_COEF_BITS + 1 && AcSendable(scan, block)
  }

  lemma {:induction false} JoinEnd(a: Items)
    ensures Join(a, End) == a
  {
    if a.Item? {
      JoinEnd(a.rest);
    }
  }

  lemma {:induction false} RunBefore(book: Book, items: Items, scan: Scan, tbl: nat, block: Block, k: nat, r: nat)
    requires ValidScan(scan) && k <= scan.limSe && Coef(scan, block, k) != 0
    ensures var run, more := RunItems(tbl, r, Coef(scan, block, k), End), AcItems(scan, tbl, block, scan.limSe - k, 0, End);
            var all := AcItems(scan, tbl, block, scan.limSe + 1 - k, r, End);
            && Join(items, all) == Join(Join(items, run), more)
            && Codable(book, all) == (Codable(book, run) && Codable(book, more))
  {
    var v, more := Coef(scan, block, k), AcItems(scan, tbl, block, scan.limSe - k, 0, End);
    RunJoin(tbl, r, v, more);
    JoinBits(book, RunItems(tbl, r, v, End), more);
    JoinAssoc(items, RunItems(tbl, r, v, End), more);
  }

  // ---- MCUs ----

  /** The first n blocks are within range. */
  predicate BlocksSendable(scan: Scan, last: seq<int>, mcu: Mcu, n: nat)
    requires ValidScan(scan) && IsMcu(scan, mcu) && n <= |mcu| && |last| == |scan.dcTbl|
  {
    n == 0 || (BlocksSendable(scan, last, mcu, n - 1)
               && BlockSendable(scan, LastAfter(scan, last, mcu, n - 1), scan.membership[n - 1], mcu[n - 1]))
  }

  /** The first n blocks can be written: they are within range and have codes. */
  predicate Writable(book: Book, scan: Scan, last: seq<int>, mcu: Mcu, n: nat)
    requires ValidScan(scan) && IsMcu(scan, mcu) && n <= |mcu| && |last| == |scan.dcTbl|
  {
    BlocksSendable(scan, last, mcu, n) && Codable(book, BlocksItems(scan, last, mcu, n, End))
  }

  /** The items of the first n + 1 blocks are those of the first n and those of one more. */
  lemma {:induction false} NextItems(items: Items, scan: Scan, last: seq<int>, mcu: Mcu, n: nat)
    requires ValidScan(scan) && IsMcu(scan, mcu) && n < |mcu| && |last| == |scan.dcTbl|
    ensures var block := BlockItems(scan, LastAfter(scan, last, mcu, n), scan.membership[n], mcu[n], End);
            && BlocksItems(scan, last, mcu, n + 1, End) == Join(BlocksItems(scan, last, mcu, n, End), block)
            && Join(items, BlocksItems(scan, last, mcu, n + 1, End)) == Join(Join(items, BlocksItems(scan, last, mcu, n, End)), block)
  {
    var block := BlockItems(scan, LastAfter(scan, last, mcu, n), scan.membership[n], mcu[n], End);
    BlocksJoin(scan, last, mcu, n, block);
    JoinAssoc(items, BlocksItems(scan, last, mcu, n, End), block);
  }

  lemma {:induction false} NextBlock(book: Book, scan: Scan, last: seq<int>, mcu: Mcu, n: nat)
    requires ValidScan(scan) && IsMcu(scan, mcu) && n < |mcu| && |last| == |scan.dcTbl|
    ensures Writable(book, scan, last, mcu, n + 1) <==>
              && Writable(book, scan, last, mcu, n)
              && Codable(book, BlockItems(scan, LastAfter(scan, last, mcu, n), scan.membership[n], mcu[n], End))
              && BlockSendable(scan, LastAfter(scan, last, mcu, n), scan.membership[n], mcu[n])
  {
    NextItems(End, scan, last, mcu, n);
    JoinBits(book, BlocksItems(scan, last, mcu, n, End),
             BlockItems(scan, LastAfter(scan, last, mcu, n), scan.membership[n], mcu[n], End));
  }

  lemma {:induction false} WritableFront(book: Book, scan: Scan, last: seq<int>, mcu: Mcu, m: nat, n: nat)
    requires ValidScan(scan) && IsMcu(scan, mcu) && m <= n <= |mcu| && |last| == |scan.dcTbl|
    requires Writable(book, scan, last, mcu, n)
    ensures Writable(book, scan, last, mcu, m)
    decreases n
  {
    if m < n {
      NextBlock(book, scan, last, mcu, n - 1);
      WritableFront(book, scan, last, mcu, m, n - 1);
    }
  }

  /** The DC predictions for the next MCU of an interval. */
  function Predictions(scan: Scan, mcus: seq<Mcu>): (last: seq<int>)
    requires ValidScan(scan) && AreMcus(scan, mcus)
    ensures |last| == |scan.dcTbl|
  {
    LastOf(scan, mcus, |mcus|)
  }

  predicate Small(last: seq<int>) { forall i :: 0 <= i < |last| ==> -0x8000 <= last[i] < 0x8000 }

  /** Coding these MCUs leads to these DC predictions and these items. */
  ghost predicate LedTo(scan: Scan, mcus: seq<Mcu>, last: seq<int>, items: Items)
  {
    forall x {:trigger Look(Course, x)} :: Look(Course, x) ==>
      && ValidScan(scan) && AreMcus(scan, mcus) && RangeKept(scan, mcus)
      && last == LastOf(scan, mcus, |mcus|) && items == McusItems(scan, mcus, |mcus|, End)
  }

  lemma {:induction false} NothingYet(scan: Scan, last: seq<int>)
    requires ValidScan(scan) && last == seq(|scan.dcTbl|, _ => 0)
    ensures LedTo(scan, [], last, End)
  {
  }

  lemma {:induction false} LastLed(scan: Scan, mcus: seq<Mcu>, last: seq<int>, items: Items)
    requires LedTo(scan, mcus, last, items)
    ensures ValidScan(scan) && AreMcus(scan, mcus) && last == LastOf(scan, mcus, |mcus|)
  {
    assert Look(Course, 0);
  }

  lemma {:induction false} LedOn(scan: Scan, mcus: seq<Mcu>, last: seq<int>, items: Items, mcu: Mcu)
    requires LedTo(scan, mcus, last, items) && ValidScan(scan) && IsMcu(scan, mcu) && |last| == |scan.dcTbl|
    requires BlocksSendable(scan, last, mcu, |mcu|)
    ensures AreMcus(scan, mcus + [mcu])
    ensures LedTo(scan, mcus + [mcu], LastAfter(scan, last, mcu, |mcu|), Join(items, BlocksItems(scan, last, mcu, |mcu|, End)))
  {
    assert Look(Course, 0);
    OneMore(scan, mcus, mcu);
    SendableInRange(scan, last, mcu, |mcu|);
  }

  /** DC predictions around the writer, within one restart interval. */
  class McuWriter {
    const scan: Scan
    const writer: ItemWriter
    var last: seq<int>
    /** The MCUs of the interval so far. */
    ghost var mcus: seq<Mcu>

    ghost predicate Valid()
      reads this, writer, writer.w
    {
      ValidScan(scan) && AreMcus(scan, mcus) && Small(last) && writer.Valid() && LedTo(scan, mcus, last, writer.items)
    }

    constructor (book: Book, scan: Scan)
      requires ValidScan(scan) && forall slot :: ProperTable(book(slot))
      ensures Valid() && mcus == [] && this.scan == scan && writer.book == book && writer.w.done == []
      ensures fresh(writer) && fresh(writer.w)
    {
      this.scan := scan;
      writer := new ItemWriter(book);
      last, mcus := seq(|scan.dcTbl|, _ => 0), [];
      new;
      NothingYet(scan, last);
    }

    method EncodeBlocks(mcu: Mcu) returns (ok: bool)
      requires ValidScan(scan) && writer.Valid() && Small(last) && |last| == |scan.dcTbl| && IsMcu(scan, mcu)
      modifies this`last, writer`items, writer.w`out, writer.w`putBuffer, writer.w`putBits, writer.w`data, writer.w`q, writer.w`sent
      ensures ok == Writable(writer.book, scan, old(last), mcu, |mcu|)
      ensures ok ==> writer.Valid() && Small(last) && last == LastAfter(scan, old(last), mcu, |mcu|)
      ensures ok ==> writer.items == Join(old(writer.items), BlocksItems(scan, old(last), mcu, |mcu|, End))
    {
      JoinEnd(writer.items);
      for blkn := 0 to |mcu|
        invariant writer.Valid() && Small(last) && last == LastAfter(scan, old(last), mcu, blkn)
        invariant writer.items == Join(old(writer.items), BlocksItems(scan, old(last), mcu, blkn, End))
        invariant Writable(writer.book, scan, old(last), mcu, blkn)
      {
        var ci := scan.membership[blkn];
        NextItems(old(writer.items), scan, old(last), mcu, blkn);
        NextBlock(writer.book, scan, old(last), mcu, blkn);
        ok := writer.EncodeOneBlock(scan, last, ci, mcu[blkn]);
        if !ok {
          if Writable(writer.book, scan, old(last), mcu, |mcu|) {
            WritableFront(writer.book, scan, old(last), mcu, blkn + 1, |mcu|);
          }
          return;
        }
        last := last[ci := mcu[blkn][0]];
      }
      ok := true;
    }

    /** encode_mcu_huff within a restart interval. */
    method EncodeMcu(mcu: Mcu) returns (ok: bool)
      requires Valid() && IsMcu(scan, mcu)
      modifies this, writer`items, writer.w`out, writer.w`putBuffer, writer.w`putBits, writer.w`data, writer.w`q, writer.w`sent
      ensures ok == (ValidScan(scan) && AreMcus(scan, old(mcus))
                     && Writable(writer.book, scan, LastOf(scan, old(mcus), |old(mcus)|), mcu, |mcu|))
      ensures ok ==> Valid() && mcus == old(mcus) + [mcu]
    {
      LastLed(scan, mcus, last, writer.items);
      ok := EncodeBlocks(mcu);
      if ok {
        LedOn(scan, mcus, old(last), old(writer.items), mcu);
        mcus := mcus + [mcu];
      }
    }

    /** flush_bits at the end of the interval: the segment's bytes hold the interval's bits, padded with ones. */
    method Finish() returns (ghost data: seq<byte>)
      requires Valid()
      modifies writer.w`out, writer.w`putBuffer, writer.w`putBits, writer.w`data, writer.w`q, writer.w`sent
      ensures data == writer.w.data && writer.w.out == writer.w.done + Stuff(data) && writer.w.putBits == writer.w.putBuffer == 0
      ensures Coded(writer.book, scan, Piece(mcus, data)) && forall slot :: ProperTable(writer.book(slot))
    {
      assert Look(Course, 0) && Look(Machine, 0);
      writer.w.FlushBits();
      data := writer.w.data;
    }

    /** emit_restart: close the interval, write a marker, and forget the predictions. */
    method Restart(m: byte) returns (ghost data: seq<byte>)
      requires Valid()
      modifies this`last, this`mcus, writer`items
      modifies writer.w`out, writer.w`putBuffer, writer.w`putBits, writer.w`data, writer.w`q, writer.w`sent, writer.w`done
      ensures Valid() && mcus == [] && Coded(writer.book, scan, Piece(old(mcus), data))
      ensures SegmentAdded(old(writer.w.done), data, m, writer.w.done)
    {
      data := Finish();
      writer.w.EmitMarker(m);
      last, mcus, writer.items := seq(|scan.dcTbl|, _ => 0), [], End;
      NothingYet(scan, last);
    }
  }

  /** The data hold the coded MCUs of an interval, padded with ones. */
  ghost predicate Coded(book: Book, scan: Scan, piece: Piece<Mcu>)
  {
    forall x {:trigger Look(Filing, x)} :: Look(Filing, x) ==>
      && ValidScan(scan) && AreMcus(scan, piece.mcus) && RangeKept(scan, piece.mcus)
      && var items := McusItems(scan, piece.mcus, |piece.mcus|, End); Codable(book, items) && OnePadded(piece.code, Bits(book, items))
  }

  predicate RangeKept(scan: Scan, mcus: seq<Mcu>)
    requires ValidScan(scan)
  {
    forall i :: 0 <= i < |mcus| ==> AllInRange(scan, mcus[i])
  }

  lemma {:induction false} SendableInRange(scan: Scan, last: seq<int>, mcu: Mcu, n: nat)
    requires ValidScan(scan) && IsMcu(scan, mcu) && n <= |mcu| && |last| == |scan.dcTbl| && BlocksSendable(scan, last, mcu, n)
    ensures forall i :: 0 <= i < n ==> AcInRange(scan, mcu[i])
  {
    if n > 0 {
      SendableInRange(scan, last, mcu, n - 1);
    }
  }
}
