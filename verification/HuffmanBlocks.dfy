/** Sequential Huffman coding of blocks as symbols and extra bits (sections F.1.2 and F.2.2 of ITU-T T.81). */
module HuffmanBlocks {
  import opened Numbers
  import opened HuffmanCode
  import opened HuffmanTables
  import opened BitStrings
  import opened HuffmanInput
  import opened Blocks
  import opened Opening

  // ---- Coded items ----

  /** A table: which of the DC or AC tables. */
  datatype Slot = DcTable(i: nat) | AcTable(i: nat)

  /** Symbols to be coded with a table, each followed by extra bits. */
  datatype Items = End | Item(slot: Slot, sym: nat, extra: seq<bool>, rest: Items)

  function Join(a: Items, b: Items): (r: Items)
  {
    match a
    case End => b
    case Item(slot, sym, extra, rest) => Item(slot, sym, extra, Join(rest, b))
  }

  type Book = Slot -> EncoderTable

  /** Code length of a symbol, 0 if it has none. */
  function SizeOf(e: EncoderTable, sym: nat): (n: nat)
  {
    if sym < |e.ehufsi| then e.ehufsi[sym] else 0
  }

  function SymbolBits(e: EncoderTable, sym: nat): (bits: seq<bool>)
  {
    if sym < |e.ehufco| then BitsOf(e.ehufco[sym], SizeOf(e, sym)) else []
  }

  function Bits(book: Book, items: Items): (bits: seq<bool>)
  {
    match items
    case End => []
    case Item(slot, sym, extra, rest) => SymbolBits(book(slot), sym) + extra + Bits(book, rest)
  }

  /** Every symbol has a code. */
  predicate Codable(book: Book, items: Items)
  {
    match items
    case End => true
    case Item(slot, sym, extra, rest) => SizeOf(book(slot), sym) != 0 && Codable(book, rest)
  }

  /** How often a symbol is coded with a table. */
  function Count(items: Items, slot: Slot, sym: nat): (n: nat)
  {
    match items
    case End => 0
    case Item(slot', sym', _, rest) => (if slot' == slot && sym' == sym then 1 else 0) + Count(rest, slot, sym)
  }

  lemma {:induction false} JoinBits(book: Book, a: Items, b: Items)
    ensures Bits(book, Join(a, b)) == Bits(book, a) + Bits(book, b)
    ensures Codable(book, Join(a, b)) == (Codable(book, a) && Codable(book, b))
  {
    if a.Item? {
      JoinBits(book, a.rest, b);
    }
  }

  lemma {:induction false} JoinCount(a: Items, b: Items, slot: Slot, sym: nat)
    ensures Count(Join(a, b), slot, sym) == Count(a, slot, sym) + Count(b, slot, sym)
  {
    if a.Item? {
      JoinCount(a.rest, b, slot, sym);
    }
  }

  /** All coded symbols have codes exactly when all counted symbols have. */
  lemma {:induction false} CountedAreCodable(book: Book, items: Items)
    requires forall slot, sym :: Count(items, slot, sym) > 0 ==> SizeOf(book(slot), sym) != 0
    ensures Codable(book, items)
  {
    if items.Item? {
      assert Count(items, items.slot, items.sym) > 0;
      forall slot, sym | Count(items.rest, slot, sym) > 0 ensures SizeOf(book(slot), sym) != 0 {
        assert Count(items, slot, sym) > 0;
      }
      CountedAreCodable(book, items.rest);
    }
  }

  // ---- Reading symbols back ----

  /** A decoder of symbols: given a table and a position, the symbol there and the position behind it. */
  type Symbols = (Slot, nat) -> (nat, nat)

  /** A symbol coded in the stream is recognised. */
  predicate Recognises(rd: Symbols, book: Book, s: Stream, slot: Slot, sym: nat, t: nat)
  {
    SizeOf(book(slot), sym) != 0 && Matches(s, t, SymbolBits(book(slot), sym)) ==>
      var (y, t1) := rd(slot, t); y == sym && t1 == t + SizeOf(book(slot), sym)
  }

  ghost predicate Faithful(rd: Symbols, book: Book, s: Stream)
  {
    forall slot, sym, t {:trigger Recognises(rd, book, s, slot, sym, t)} :: Recognises(rd, book, s, slot, sym, t)
  }

  /** The stream carries the items, all of which have codes. */
  predicate Carries(book: Book, s: Stream, t: nat, items: Items)
    decreases items
  {
    match items
    case End => true
    case Item(slot, sym, extra, rest) =>
      && SizeOf(book(slot), sym) != 0 && Matches(s, t, SymbolBits(book(slot), sym))
      && Matches(s, t + SizeOf(book(slot), sym), extra)
      && Carries(book, s, t + SizeOf(book(slot), sym) + |extra|, rest)
  }

  /** Number of bits. */
  function Len(book: Book, items: Items): (n: nat)
  {
    match items
    case End => 0
    case Item(slot, sym, extra, rest) => SizeOf(book(slot), sym) + |extra| + Len(book, rest)
  }

  lemma {:induction false} MatchingCarries(book: Book, s: Stream, t: nat, items: Items)
    requires Codable(book, items) && Matches(s, t, Bits(book, items))
    requires forall slot, sym {:trigger SymbolBits(book(slot), sym)} :: |SymbolBits(book(slot), sym)| == SizeOf(book(slot), sym)
    ensures Carries(book, s, t, items) && Len(book, items) == |Bits(book, items)|
    decreases items
  {
    if items.Item? {
      var code := SymbolBits(book(items.slot), items.sym);
      MatchesJoin(s, t, code + items.extra, Bits(book, items.rest));
      MatchesJoin(s, t, code, items.extra);
      MatchingCarries(book, s, t + |code| + |items.extra|, items.rest);
    }
  }

  /** The stream carries the items from t on; behind them, from t' on, come the items of the rest. */
  ghost predicate Ahead(book: Book, s: Stream, t: nat, items: Items, t': nat, rest: Items)
  {
    forall x {:trigger Look(Supply, x)} :: Look(Supply, x) ==>
      Carries(book, s, t, items) && t' + Len(book, rest) == t + Len(book, items)
  }

  /** The first item is recognised. */
  lemma {:induction false} ItemComesBack(rd: Symbols, book: Book, s: Stream, t: nat, items: Items, t': nat, rest: Items)
    requires Faithful(rd, book, s) && items.Item? && Ahead(book, s, t, items, t', rest)
    ensures var (sym, t1) := rd(items.slot, t);
            sym == items.sym && Matches(s, t1, items.extra) && Ahead(book, s, t1 + |items.extra|, items.rest, t', rest)
  {
    assert Recognises(rd, book, s, items.slot, items.sym, t);
    FirstAhead(book, s, t, items, t', rest);
  }

  /** The first item and what comes behind it. */
  lemma {:induction false} FirstAhead(book: Book, s: Stream, t: nat, items: Items, t': nat, rest: Items)
    requires items.Item? && Ahead(book, s, t, items, t', rest)
    ensures SizeOf(book(items.slot), items.sym) != 0 && Matches(s, t, SymbolBits(book(items.slot), items.sym))
    ensures var t1 := t + SizeOf(book(items.slot), items.sym);
            Matches(s, t1, items.extra) && Ahead(book, s, t1 + |items.extra|, items.rest, t', rest)
  {
    assert Look(Supply, 0);
  }

  lemma {:induction false} NothingAhead(book: Book, s: Stream, t: nat, rest: Items, t': nat)
    requires Ahead(book, s, t, rest, t', rest)
    ensures t == t'
  {
    assert Look(Supply, 0);
  }

  /** The tables that the decoder has. */
  type Shelf = Slot -> HuffTable

  predicate Usable(h: HuffTable) { ValidTable(h) && Accepted(h.bits) }

  /** The Huffman decoder as a decoder of symbols. */
  function HuffmanSymbols(shelf: Shelf, s: Stream): Symbols
  {
    (slot: Slot, t: nat) => if Usable(shelf(slot)) then ReadSymbol(shelf(slot), s, t) else (0, t)
  }

  /** The encoder's tables and the decoder's tables in a slot belong together. */
  predicate Agree(book: Book, shelf: Shelf, slot: Slot) { Usable(shelf(slot)) && Encodes(shelf(slot), book(slot)) }

  lemma {:induction false} CodeMatches(bits: Counts, s: Stream, t: nat, c: Code)
    requires Fits(bits) && IsCode(bits, c) && Matches(s, t, BitsOf(Value(bits, c), c.l))
    ensures Reads(s, t, bits, c)
  {
    NotAllOnes(bits, c);
    LowAll(Value(bits, c), c.l);
    PeekMatches(s, t, Value(bits, c), c.l);
  }

  lemma {:induction false} SymbolComesBack(h: HuffTable, e: EncoderTable, s: Stream, t: nat, sym: nat)
    requires Usable(h) && Encodes(h, e) && SizeOf(e, sym) != 0 && Matches(s, t, SymbolBits(e, sym))
    ensures var (y, t1) := ReadSymbol(h, s, t); y == sym && t1 == t + SizeOf(e, sym)
  {
    assert sym in h.huffval[..All(h.bits)];
    var p :| 0 <= p < All(h.bits) && h.huffval[p] == sym;
    var c := CodeAt(h.bits, p);
    assert SizeOf(e, sym) == c.l;
    CodeMatches(h.bits, s, t, c);
    CodeRead(h, s, t, p);
  }

  lemma {:induction false} HuffmanRecognises(book: Book, shelf: Shelf, s: Stream, slot: Slot, sym: nat, t: nat)
    requires Agree(book, shelf, slot)
    ensures Recognises(HuffmanSymbols(shelf, s), book, s, slot, sym, t)
  {
    if SizeOf(book(slot), sym) != 0 && Matches(s, t, SymbolBits(book(slot), sym)) {
      SymbolComesBack(shelf(slot), book(slot), s, t, sym);
    }
  }

  /** With the tables built by both sides from the same table, the decoder recognises what the encoder writes. */
  lemma {:induction false} HuffmanIsFaithful(book: Book, shelf: Shelf, s: Stream)
    requires forall slot :: Agree(book, shelf, slot)
    ensures Faithful(HuffmanSymbols(shelf, s), book, s)
  {
    forall slot, sym, t ensures Recognises(HuffmanSymbols(shelf, s), book, s, slot, sym, t) {
      HuffmanRecognises(book, shelf, s, slot, sym, t);
    }
  }

  // ---- Magnitude categories ----

  function NumBits(v: nat): (n: nat)
  {
    if v == 0 then 0 else 1 + NumBits(v / 2)
  }

  lemma {:induction false} NumBitsBounds(v: nat)
    ensures v < Shl(1, NumBits(v)) && (v > 0 ==> Shl(1, NumBits(v) - 1) <= v)
  {
    if v > 0 {
      NumBitsBounds(v / 2);
    }
  }

  lemma {:induction false} NumBitsLimit(v: nat, n: nat)
    ensures NumBits(v) <= n <==> v < Shl(1, n)
  {
    if v > 0 {
      if n > 0 {
        NumBitsLimit(v / 2, n - 1);
      }
    }
  }

  /** The low bits of v, or of v - 1 if v is negative. */
  function ExtraBits(v: int): (x: nat)
  {
    NumBitsBounds(Abs(v));
    if v < 0 then Shl(1, NumBits(Abs(v))) - 1 + v else v
  }

  function Extra(v: int): (bits: seq<bool>) { BitsOf(ExtraBits(v), NumBits(Abs(v))) }

  /** HUFF_EXTEND. */
  function Extend(x: nat, n: nat): (v: int)
    requires n > 0
  {
    if x < Shl(1, n - 1) then x - (Shl(1, n) - 1) else x
  }

  /** A value is determined by its number of bits and its extra bits. */
  lemma {:induction false} ExtendExtra(s: Stream, t: nat, v: int)
    requires v != 0 && Matches(s, t, Extra(v))
    ensures NumBits(Abs(v)) > 0 && Extend(Peek(s, t, NumBits(Abs(v))), NumBits(Abs(v))) == v
  {
    var n := NumBits(Abs(v));
    NumBitsBounds(Abs(v));
    LowAll(ExtraBits(v), n);
    PeekMatches(s, t, ExtraBits(v), n);
  }

  // ---- Scans ----

  /** Component ci of the scan names this table; AC tables are not needed without AC coefficients. */
  predicate NamedBy(scan: Scan, ci: nat, slot: Slot)
    requires ValidScan(scan) && ci < |scan.dcTbl|
  {
    slot == DcTable(scan.dcTbl[ci]) || (slot == AcTable(scan.acTbl[ci]) && scan.limSe > 0)
  }

  predicate Names(scan: Scan, slot: Slot)
    requires ValidScan(scan)
  {
    exists ci :: 0 <= ci < |scan.dcTbl| && NamedBy(scan, ci, slot)
  }

  /** Where position k of the scan order is stored; positions beyond the end are redirected to the last coefficient. */
  function Spot(scan: Scan, k: nat): (p: nat)
    requires ValidScan(scan)
    ensures p < DCTSIZE2
  {
    if k <= scan.limSe then scan.order[k] else DCTSIZE2 - 1
  }

  function Coef(scan: Scan, block: Block, k: nat): (v: int)
    requires ValidScan(scan) && k <= scan.limSe
  {
    block[scan.order[k]]
  }

  // ---- AC coefficients ----

  /** A run of r zeros and then the coefficient v. */
  function RunItems(tbl: nat, r: nat, v: int, rest: Items): (items: Items)
  {
    if r > 15 then Item(AcTable(tbl), 0xF0, [], RunItems(tbl, r - 16, v, rest))
    else Item(AcTable(tbl), 16 * r + NumBits(Abs(v)), Extra(v), rest)
  }

  /** The last n coefficients of the scan order, with r zeros pending before them. */
  function AcItems(scan: Scan, tbl: nat, block: Block, n: nat, r: nat, rest: Items): (items: Items)
    requires ValidScan(scan) && n <= scan.limSe + 1
  {
    if n == 0 then (if r > 0 then Item(AcTable(tbl), 0, [], rest) else rest)
    else
      var v := Coef(scan, block, scan.limSe + 1 - n);
      if v == 0 then AcItems(scan, tbl, block, n - 1, r + 1, rest)
      else RunItems(tbl, r, v, AcItems(scan, tbl, block, n - 1, 0, rest))
  }

  /** Section F.2.2.2. */
  function ReadAc(rd: Symbols, s: Stream, t: nat, scan: Scan, tbl: nat, block: Block, k: nat): (r: (Block, nat))
    requires ValidScan(scan)
    decreases DCTSIZE2 - k
  {
    if k > scan.limSe then (block, t)
    else
      var (sym, t1) := rd(AcTable(tbl), t);
      var run, n := sym / 16, sym % 16;
      if n != 0 then
        ReadAc(rd, s, t1 + n, scan, tbl, block[Spot(scan, k + run) := Jcoef(Extend(Peek(s, t1, n), n))], k + run + 1)
      else if run == 15 then ReadAc(rd, s, t1, scan, tbl, block, k + 16)
      else (block, t1)
  }

  /** All AC coefficients of the scan are within the range for which there are symbols. */
  predicate AcInRange(scan: Scan, block: Block)
    requires ValidScan(scan)
  {
    forall k :: 1 <= k <= scan.limSe ==> NumBits(Abs(Coef(scan, block, k))) <= 15
  }

  /** Where a block is being read: position in the stream, the block so far, and the next coefficient. */
  datatype Reading = Reading(t: nat, block: Block, k: nat)

  /** Reading on from here ends with this block at this position. */
  ghost predicate Yields(rd: Symbols, s: Stream, scan: Scan, tbl: nat, at: Reading, out: (Block, nat))
  {
    forall x {:trigger Look(Yielding, x)} :: Look(Yielding, x) ==> ValidScan(scan) && ReadAc(rd, s, at.t, scan, tbl, at.block, at.k) == out
  }

  lemma {:induction false} ReadZeros(rd: Symbols, s: Stream, scan: Scan, tbl: nat, at: Reading, t1: nat, out: (Block, nat))
    requires at.k <= scan.limSe && rd(AcTable(tbl), at.t) == (0xF0, t1)
    requires Yields(rd, s, scan, tbl, Reading(t1, at.block, at.k + 16), out)
    ensures Yields(rd, s, scan, tbl, at, out)
  {
    assert Look(Yielding, 0);
  }

  lemma {:induction false} ReadCoef(rd: Symbols, s: Stream, scan: Scan, tbl: nat, at: Reading, t1: nat, r: nat, v: int, out: (Block, nat))
    requires ValidScan(scan) && at.k + r <= scan.limSe && r <= 15 && v != 0 && NumBits(Abs(v)) <= 15 && -0x8000 <= v < 0x8000
    requires rd(AcTable(tbl), at.t) == (16 * r + NumBits(Abs(v)), t1) && Matches(s, t1, Extra(v))
    requires Yields(rd, s, scan, tbl, Reading(t1 + NumBits(Abs(v)), at.block[scan.order[at.k + r] := v], at.k + r + 1), out)
    ensures Yields(rd, s, scan, tbl, at, out)
  {
    ExtendExtra(s, t1, v);
    ReadValue(rd, s, scan, tbl, at, t1, r, NumBits(Abs(v)), v, out);
  }

  lemma {:induction false} ReadValue(rd: Symbols, s: Stream, scan: Scan, tbl: nat, at: Reading, t1: nat, r: nat, n: nat, v: int, out: (Block, nat))
    requires ValidScan(scan) && at.k + r <= scan.limSe && r <= 15 && 1 <= n <= 15 && -0x8000 <= v < 0x8000
    requires rd(AcTable(tbl), at.t) == (16 * r + n, t1) && Extend(Peek(s, t1, n), n) == v
    requires Yields(rd, s, scan, tbl, Reading(t1 + n, at.block[scan.order[at.k + r] := v], at.k + r + 1), out)
    ensures Yields(rd, s, scan, tbl, at, out)
  {
    var sym := 16 * r + n;
    assert sym / 16 == r && sym % 16 == n;
    assert Look(Yielding, 0);
  }

  lemma {:induction false} ReadEnd(rd: Symbols, s: Stream, scan: Scan, tbl: nat, at: Reading, t1: nat)
    requires ValidScan(scan)
    requires if at.k <= scan.limSe then rd(AcTable(tbl), at.t) == (0, t1) else at.t == t1
    ensures Yields(rd, s, scan, tbl, at, (at.block, t1))
  {
  }

  /** A coefficient after up to fifteen zeros, from d on, is read. */
  lemma {:induction false} CoefComesBack(rd: Symbols, book: Book, s: Stream, t: nat, scan: Scan, tbl: nat, v: int, k: nat, r: nat, d: nat,
                                         part: Block, part': Block, more: Items, t': nat, rest: Items, out: (Block, nat)) returns (t1: nat)
    requires ValidScan(scan) && Faithful(rd, book, s) && 1 <= k <= scan.limSe && d + r == k && r <= 15
    requires v != 0 && NumBits(Abs(v)) <= 15 && -0x8000 <= v < 0x8000 && part' == part[scan.order[k] := v]
    requires Ahead(book, s, t, Item(AcTable(tbl), 16 * r + NumBits(Abs(v)), Extra(v), more), t', rest)
    ensures Ahead(book, s, t1, more, t', rest)
    ensures Yields(rd, s, scan, tbl, Reading(t1, part', k + 1), out) ==> Yields(rd, s, scan, tbl, Reading(t, part, d), out)
  {
    var sym, extra := 16 * r + NumBits(Abs(v)), Extra(v);
    ItemComesBack(rd, book, s, t, Item(AcTable(tbl), sym, extra, more), t', rest);
    var t2 := rd(AcTable(tbl), t).1;
    t1 := t2 + |extra|;
    if Yields(rd, s, scan, tbl, Reading(t1, part', k + 1), out) {
      ReadCoef(rd, s, scan, tbl, Reading(t, part, d), t2, r, v, out);
    }
  }

  /** A run of zeros, from d on, and its coefficient are read; the stream position behind them is returned. */
  lemma {:induction false} RunComesBack(rd: Symbols, book: Book, s: Stream, t: nat, scan: Scan, tbl: nat, block: Block, k: nat, r: nat, d: nat,
                                        items: Items, part: Block, part': Block, more: Items, t': nat, rest: Items, out: (Block, nat))
    returns (t1: nat)
    requires ValidScan(scan) && Faithful(rd, book, s) && 1 <= k <= scan.limSe && d + r == k
    requires var v := Coef(scan, block, k); v != 0 && NumBits(Abs(v)) <= 15 && part' == part[scan.order[k] := v]
    requires items == RunItems(tbl, r, Coef(scan, block, k), more) && Ahead(book, s, t, items, t', rest)
    ensures Ahead(book, s, t1, more, t', rest)
    ensures Yields(rd, s, scan, tbl, Reading(t1, part', k + 1), out) ==> Yields(rd, s, scan, tbl, Reading(t, part, d), out)
    decreases r
  {
    if r > 15 {
      ItemComesBack(rd, book, s, t, items, t', rest);
      var at := Reading(t, part, d);
      var t2 := rd(AcTable(tbl), t).1;
      t1 := RunComesBack(rd, book, s, t2, scan, tbl, block, k, r - 16, d + 16, items.rest, part, part', more, t', rest, out);
      if Yields(rd, s, scan, tbl, Reading(t2, part, d + 16), out) {
        ReadZeros(rd, s, scan, tbl, at, t2, out);
      }
    } else {
      t1 := CoefComesBack(rd, book, s, t, scan, tbl, Coef(scan, block, k), k, r, d, part, part', more, t', rest, out);
    }
  }

  lemma {:induction false} AcEnds(rd: Symbols, book: Book, s: Stream, t: nat, scan: Scan, tbl: nat, block: Block, r: nat, d: nat,
                                  items: Items, rest: Items, t': nat, out: (Block, nat))
    requires ValidScan(scan) && Faithful(rd, book, s) && d + r == scan.limSe + 1 && out.0 == block && out.1 == t'
    requires items == (if r > 0 then Item(AcTable(tbl), 0, [], rest) else rest) && Ahead(book, s, t, items, t', rest)
    ensures Ahead(book, s, t', rest, t', rest)
    ensures Yields(rd, s, scan, tbl, Reading(t, block, d), out)
  {
    if r > 0 {
      ItemComesBack(rd, book, s, t, items, t', rest);
      NothingAhead(book, s, rd(AcTable(tbl), t).1, rest, t');
    } else {
      NothingAhead(book, s, t, rest, t');
    }
    ReadEnd(rd, s, scan, tbl, Reading(t, block, d), t');
    assert (block, t') == out;
  }

  /** Section F.2.2.2 undoes section F.1.2.2: n coefficients are left, r zeros are pending, and the decoder stands at d. */
  lemma {:induction false} AcComesBack(rd: Symbols, book: Book, s: Stream, t: nat, scan: Scan, tbl: nat, block: Block, n: nat, k: nat,
                                       r: nat, d: nat, items: Items, part: Block, rest: Items, t': nat, out: (Block, nat))
    requires ValidScan(scan) && Faithful(rd, book, s) && AcInRange(scan, block) && d >= 1 && d + r == k && n + k == scan.limSe + 1
    requires items == AcItems(scan, tbl, block, n, r, rest) && Ahead(book, s, t, items, t', rest)
    requires part == Partial(scan.order, block, k) && out.0 == Sent(scan, block) && out.1 == t'
    ensures Ahead(book, s, t', rest, t', rest)
    ensures Yields(rd, s, scan, tbl, Reading(t, part, d), out)
    decreases n
  {
    if n == 0 {
      AcEnds(rd, book, s, t, scan, tbl, part, r, d, items, rest, t', out);
    } else if Coef(scan, block, k) == 0 {
      assert scan.limSe + 1 - n == k;
      PartialSkip(scan.order, block, k);
      AcComesBack(rd, book, s, t, scan, tbl, block, n - 1, k + 1, r + 1, d, items, part, rest, t', out);
    } else {
      assert scan.limSe + 1 - n == k;
      var more := AcItems(scan, tbl, block, n - 1, 0, rest);
      var part' := Partial(scan.order, block, k + 1);
      var t1 := RunComesBack(rd, book, s, t, scan, tbl, block, k, r, d, items, part, part', more, t', rest, out);
      AcComesBack(rd, book, s, t1, scan, tbl, block, n - 1, k + 1, 0, k + 1, more, part', rest, t', out);
    }
  }

  // ---- Blocks ----

  /** A difference to be coded with a DC table. */
  function DcItem(tbl: nat, diff: int, rest: Items): (items: Items)
  {
    Item(DcTable(tbl), NumBits(Abs(diff)), Extra(diff), rest)
  }

  /** Section F.2.2.1. */
  function ReadDiff(rd: Symbols, s: Stream, t: nat, tbl: nat): (r: (int, nat))
  {
    var (n, t1) := rd(DcTable(tbl), t);
    if n == 0 then (0, t1) else (Extend(Peek(s, t1, n), n), t1 + n)
  }

  lemma {:induction false} DiffComesBack(rd: Symbols, book: Book, s: Stream, t: nat, tbl: nat, diff: int, more: Items, t': nat, rest: Items)
    requires Faithful(rd, book, s) && Ahead(book, s, t, DcItem(tbl, diff, more), t', rest)
    ensures var (d, t1) := ReadDiff(rd, s, t, tbl); d == diff && Ahead(book, s, t1, more, t', rest)
  {
    ItemComesBack(rd, book, s, t, DcItem(tbl, diff, more), t', rest);
    if diff != 0 {
      ExtendExtra(s, rd(DcTable(tbl), t).1, diff);
    }
  }

  function BlockItems(scan: Scan, last: seq<int>, ci: nat, block: Block, rest: Items): (items: Items)
    requires ValidScan(scan) && ci < |scan.dcTbl| == |last|
  {
    DcItem(scan.dcTbl[ci], block[0] - last[ci], AcItems(scan, scan.acTbl[ci], block, scan.limSe, 0, rest))
  }

  /** One block, and the prediction that it leaves behind. */
  function ReadBlock(rd: Symbols, s: Stream, t: nat, scan: Scan, last: seq<int>, ci: nat): (r: (Block, int, nat))
    requires ValidScan(scan) && ci < |scan.dcTbl| == |last|
  {
    var (diff, t1) := ReadDiff(rd, s, t, scan.dcTbl[ci]);
    var dc := last[ci] + diff;
    var (block, t2) := ReadAc(rd, s, t1, scan, scan.acTbl[ci], Zeroes()[0 := Jcoef(dc)], 1);
    (block, dc, t2)
  }

  lemma {:induction false} BlockComesBack(rd: Symbols, book: Book, s: Stream, t: nat, scan: Scan, last: seq<int>, ci: nat,
                                          block: Block, more: Items, t': nat, rest: Items) returns (t1: nat)
    requires ValidScan(scan) && Faithful(rd, book, s) && AcInRange(scan, block) && ci < |scan.dcTbl| == |last|
    requires Ahead(book, s, t, BlockItems(scan, last, ci, block, more), t', rest)
    ensures Ahead(book, s, t1, more, t', rest)
    ensures ReadBlock(rd, s, t, scan, last, ci) == (Sent(scan, block), block[0], t1)
  {
    var ac, part := AcItems(scan, scan.acTbl[ci], block, scan.limSe, 0, more), Partial(scan.order, block, 1);
    DiffComesBack(rd, book, s, t, scan.dcTbl[ci], block[0] - last[ci], ac, t', rest);
    var t0 := ReadDiff(rd, s, t, scan.dcTbl[ci]).1;
    AcGrows(book, scan, scan.acTbl[ci], block, scan.limSe, 0, more);
    t1 := SplitAhead(book, s, t0, ac, more, t', rest);
    FirstPartial(scan.order, block);
    AcComesBack(rd, book, s, t0, scan, scan.acTbl[ci], block, scan.limSe, 1, 0, 1, ac, part, more, t1, (Sent(scan, block), t1));
    JoinAhead(book, s, t0, ac, t1, more, t', rest);
    assert Look(Yielding, 0);
  }

  /** Items that end with others: the position where those begin. */
  lemma {:induction false} SplitAhead(book: Book, s: Stream, t: nat, items: Items, more: Items, t': nat, rest: Items) returns (t1: nat)
    requires Ahead(book, s, t, items, t', rest) && Len(book, more) <= Len(book, items)
    ensures Ahead(book, s, t, items, t1, more)
  {
    t1 := t + Len(book, items) - Len(book, more);
    assert Look(Supply, 0);
  }

  lemma {:induction false} JoinAhead(book: Book, s: Stream, t: nat, items: Items, t1: nat, more: Items, t': nat, rest: Items)
    requires Ahead(book, s, t, items, t1, more) && Ahead(book, s, t, items, t', rest) && Ahead(book, s, t1, more, t1, more)
    ensures Ahead(book, s, t1, more, t', rest)
  {
    assert Look(Supply, 0);
  }

  lemma {:induction false} RunGrows(book: Book, tbl: nat, r: nat, v: int, rest: Items)
    ensures Len(book, RunItems(tbl, r, v, rest)) >= Len(book, rest)
  {
    if r > 15 {
      RunGrows(book, tbl, r - 16, v, rest);
    }
  }

  lemma {:induction false} AcGrows(book: Book, scan: Scan, tbl: nat, block: Block, n: nat, r: nat, rest: Items)
    requires ValidScan(scan) && n <= scan.limSe + 1
    ensures Len(book, AcItems(scan, tbl, block, n, r, rest)) >= Len(book, rest)
  {
    if n > 0 {
      AcGrows(book, scan, tbl, block, n - 1, r + 1, rest);
      AcGrows(book, scan, tbl, block, n - 1, 0, rest);
      RunGrows(book, tbl, r, Coef(scan, block, scan.limSe + 1 - n), AcItems(scan, tbl, block, n - 1, 0, rest));
    }
  }

  // ---- MCUs: the first n blocks ----

  /** DC predictions after n blocks. */
  function LastAfter(scan: Scan, last: seq<int>, mcu: Mcu, n: nat): (r: seq<int>)
    requires ValidScan(scan) && IsMcu(scan, mcu) && n <= |mcu| && |last| == |scan.dcTbl|
    ensures |r| == |last|
  {
    if n == 0 then last else LastAfter(scan, last, mcu, n - 1)[scan.membership[n - 1] := mcu[n - 1][0]]
  }

  function BlocksItems(scan: Scan, last: seq<int>, mcu: Mcu, n: nat, rest: Items): (items: Items)
    requires ValidScan(scan) && IsMcu(scan, mcu) && n <= |mcu| && |last| == |scan.dcTbl|
  {
    if n == 0 then rest
    else BlocksItems(scan, last, mcu, n - 1,
                     BlockItems(scan, LastAfter(scan, last, mcu, n - 1), scan.membership[n - 1], mcu[n - 1], rest))
  }

  function ReadBlocks(rd: Symbols, s: Stream, t: nat, scan: Scan, last: seq<int>, n: nat): (r: (Mcu, seq<int>, nat))
    requires ValidScan(scan) && n <= |scan.membership| && |last| == |scan.dcTbl|
    ensures |r.0| == n && |r.1| == |last|
  {
    if n == 0 then ([], last, t)
    else
      var (mcu, last1, t1) := ReadBlocks(rd, s, t, scan, last, n - 1);
      var (block, dc, t2) := ReadBlock(rd, s, t1, scan, last1, scan.membership[n - 1]);
      (mcu + [block], last1[scan.membership[n - 1] := dc], t2)
  }

  predicate AllInRange(scan: Scan, mcu: Mcu)
    requires ValidScan(scan)
  {
    forall i :: 0 <= i < |mcu| ==> AcInRange(scan, mcu[i])
  }

  lemma {:induction false} BlocksComeBack(rd: Symbols, book: Book, s: Stream, t: nat, scan: Scan, last: seq<int>,
                                          mcu: Mcu, n: nat, more: Items, t': nat, rest: Items) returns (t1: nat)
    requires ValidScan(scan) && Faithful(rd, book, s) && IsMcu(scan, mcu) && AllInRange(scan, mcu) && n <= |mcu| && |last| == |scan.dcTbl|
    requires Ahead(book, s, t, BlocksItems(scan, last, mcu, n, more), t', rest)
    ensures Ahead(book, s, t1, more, t', rest)
    ensures ReadBlocks(rd, s, t, scan, last, n) == (SentBlocks(scan, mcu, n), LastAfter(scan, last, mcu, n), t1)
    decreases n
  {
    if n == 0 {
      t1 := t;
    } else {
      var last1, ci := LastAfter(scan, last, mcu, n - 1), scan.membership[n - 1];
      var t2 := BlocksComeBack(rd, book, s, t, scan, last, mcu, n - 1, BlockItems(scan, last1, ci, mcu[n - 1], more), t', rest);
      t1 := BlockComesBack(rd, book, s, t2, scan, last1, ci, mcu[n - 1], more, t', rest);
    }
  }

  // ---- The MCUs of one restart interval ----

  function LastOf(scan: Scan, mcus: seq<Mcu>, n: nat): (r: seq<int>)
    requires ValidScan(scan) && AreMcus(scan, mcus) && n <= |mcus|
    ensures |r| == |scan.dcTbl|
  {
    if n == 0 then seq(|scan.dcTbl|, _ => 0) else LastAfter(scan, LastOf(scan, mcus, n - 1), mcus[n - 1], |mcus[n - 1]|)
  }

  function McusItems(scan: Scan, mcus: seq<Mcu>, n: nat, rest: Items): (items: Items)
    requires ValidScan(scan) && AreMcus(scan, mcus) && n <= |mcus|
  {
    if n == 0 then rest
    else McusItems(scan, mcus, n - 1, BlocksItems(scan, LastOf(scan, mcus, n - 1), mcus[n - 1], |mcus[n - 1]|, rest))
  }

  function ReadMcus(rd: Symbols, s: Stream, t: nat, scan: Scan, n: nat): (r: (seq<Mcu>, seq<int>, nat))
    requires ValidScan(scan)
    ensures |r.0| == n && |r.1| == |scan.dcTbl|
  {
    if n == 0 then ([], seq(|scan.dcTbl|, _ => 0), t)
    else
      var (mcus, last, t1) := ReadMcus(rd, s, t, scan, n - 1);
      var (mcu, last', t2) := ReadBlocks(rd, s, t1, scan, last, |scan.membership|);
      (mcus + [mcu], last', t2)
  }

  /** The MCUs of an interval come back. */
  lemma {:induction false} McusComeBack(rd: Symbols, book: Book, s: Stream, t: nat, scan: Scan, mcus: seq<Mcu>, n: nat,
                                        more: Items, t': nat, rest: Items) returns (t1: nat)
    requires ValidScan(scan) && Faithful(rd, book, s) && AreMcus(scan, mcus) && n <= |mcus|
    requires forall i :: 0 <= i < |mcus| ==> AllInRange(scan, mcus[i])
    requires Ahead(book, s, t, McusItems(scan, mcus, n, more), t', rest)
    ensures Ahead(book, s, t1, more, t', rest)
    ensures ReadMcus(rd, s, t, scan, n) == (SentMcus(scan, mcus, n), LastOf(scan, mcus, n), t1)
    decreases n
  {
    if n == 0 {
      t1 := t;
    } else {
      var last, mcu := LastOf(scan, mcus, n - 1), mcus[n - 1];
      var t2 := McusComeBack(rd, book, s, t, scan, mcus, n - 1, BlocksItems(scan, last, mcu, |mcu|, more), t', rest);
      t1 := BlocksComeBack(rd, book, s, t2, scan, last, mcu, |mcu|, more, t', rest);
    }
  }
}
