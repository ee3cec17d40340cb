/** MCU decoding on top of the arithmetic decoder: decode_mcu and process_restart of jdarith.c. */
module ArithMcuDecoder {
  import opened Numbers
  import opened ByteStuffing
  import opened SegmentSource
  import opened IntervalCoder
  import opened ArithDecoder
  import opened Binarisation
  import opened Blocks
  import opened McuCoding
  import opened ArithSegment
  import opened Opening

  /** In this state and for this bin the channel is the arithmetic decoder. */
  ghost predicate IsDecoder(ch: Channel, tab: Table, data: seq<byte>, s: Coder, b: Bin)
  {
    Able(s) && Allocated(b) ==> ch(s, b) == Decode(tab, data, s, b)
  }

  ghost predicate AlwaysDecoder(ch: Channel, tab: Table, data: seq<byte>)
  {
    forall s, b {:trigger IsDecoder(ch, tab, data, s, b)} :: IsDecoder(ch, tab, data, s, b)
  }

  lemma {:induction false} ArithmeticDecodes(tab: Table, data: seq<byte>)
    ensures AlwaysDecoder(Arithmetic(tab, data), tab, data)
  {
  }

  /** Doubling the mask reaches 8000 exactly after exponent 14. */
  lemma {:induction false} FifteenBitMask(e: nat)
    requires e <= 14
    ensures 2 * Shl(1, e) == 0x8000 <==> e == 14
  {
    ShlGrows(1, e + 1, 15);
    Shl16(1, 16);
    if e < 14 {
      ShlGrows(1, e + 1, 14);
    }
  }

  lemma {:induction false} PatternTop(ch: Channel, s: Coder, b: Bin, j: nat)
    requires Allocated(b)
    ensures ReadPattern(ch, s, b, j).0 > 0 && Log(ReadPattern(ch, s, b, j).0) == j
  {
    if j > 0 {
      PatternTop(ch, s, b, j - 1);
    }
  }

  /** The number read has the exponent that its category announced. */
  lemma {:induction false} NumberTop(ch: Channel, s: Coder, area: Area, st: nat, e0: nat, e: nat)
    requires area.tbl < NUM_ARITH_TBLS && e0 <= 14 && st + 28 < Bins(area) + e0
    requires ReadNumber(ch, s, area, st, e0).Good? && ReadCategory(ch, s, area, st, e0).value.1 == e
    ensures Top(ReadNumber(ch, s, area, st, e0).value) == Shl(1, e)
  {
    var c := ReadCategory(ch, s, area, st, e0);
    PatternTop(ch, c.s, At(area, c.value.0 + 14), e);
  }

  /** The rest of ReadRun once its flag has been read. */
  function AfterFlag(ch: Channel, s: Coder, p: AcParams, block: Block, k: nat, nonzero: bool): (r: Parsed<Block>)
    requires ValidAc(p) && 0 < k <= p.limSe
  {
    if !nonzero then (if k >= p.limSe then Bad else ReadRun(ch, s, p, block, k + 1))
    else
      match ReadCoef(ch, s, p, k)
      case Bad => Bad
      case Good(v, s2) =>
        var block' := block[p.order[k] := v];
        if k < p.limSe then ReadAc(ch, s2, p, block', k) else Good(block', s2)
  }

  /** Decoding bins, magnitudes and coefficients: the inner routines of decode_mcu. */
  class BinDecoder {
    const coder: Decoder
    /** The ideal decoder that the registers stand for, and the channel that it is. */
    ghost var at: Coder
    ghost var ch: Channel

    constructor (tab: Table, src: seq<byte>)
      ensures fresh(coder) && fresh(coder.input) && Valid() && at == Start() && Blank(coder.stats)
      ensures ch == Arithmetic(tab, Unstuff(src, 0).data)
      ensures coder.tab == tab && coder.input.src == src && coder.input.seg == Unstuff(src, 0)
    {
      coder := new Decoder(tab, src, FreshStats());
      at, ch := Start(), Arithmetic(tab, Unstuff(src, 0).data);
      new;
      ArithmeticDecodes(tab, Unstuff(src, 0).data);
    }

    ghost predicate Backed()
      reads this, coder, coder.input
    {
      && coder.Valid() && coder.State() == at && Able(at)
      && AlwaysDecoder(ch, coder.tab, coder.input.seg.data)
    }

    ghost predicate Valid()
      reads this, coder, coder.input
    {
      forall x {:trigger Look(Machine, x)} :: Look(Machine, x) ==> Backed()
    }

    method DecodeBin(b: Bin) returns (bit: bool)
      requires Valid() && Allocated(b)
      modifies this`at, coder, coder.input`pos, coder.input`unread, coder.input`n
      ensures Valid() && (bit, at) == Ask(ch, old(at), b)
    {
      assert Look(Machine, 0) && IsDecoder(ch, coder.tab, coder.input.seg.data, at, b);
      bit := coder.ArithDecode(b);
      at := coder.State();
    }

    /** Even when the data is corrupt, input and statistics are in order. */
    ghost predicate Standing()
      reads coder, coder.input
    {
      && coder.input.Valid()
      && forall x {:trigger Look(Machine, x)} :: Look(Machine, x) ==>
           ValidStats(coder.stats) && Complete(coder.stats) && Settled(coder.stats)
    }

    lemma NotAnError()
      requires Valid()
      ensures coder.ct != -1 && Standing()
    {
      assert Look(Machine, 0);
    }

    /** The loop of Figure F.23. */
    method DecodeCategory(area: Area, first: nat, m0: nat, ghost e0: nat) returns (ok: bool, st: nat, m: nat, ghost e: nat)
      requires Valid() && area.tbl < NUM_ARITH_TBLS && e0 <= 14 && first + 28 < Bins(area) + e0 && m0 == Shl(1, e0)
      modifies this`at, coder, coder.input`pos, coder.input`unread, coder.input`n
      ensures Valid() && m == Shl(1, e)
      ensures ReadCategory(ch, old(at), area, first, e0) == if ok then Good((st, e), at) else Bad
    {
      ok, st, m, e := true, first, m0, e0;
      var bit := DecodeBin(At(area, st));
      while bit
        invariant Valid() && m == Shl(1, e) && e <= 14 && st + 28 < Bins(area) + e && ok
        invariant ReadCategory(ch, old(at), area, first, e0)
               == if !bit then Good((st, e), at) else if e == 14 then Bad else ReadCategory(ch, at, area, st + 1, e + 1)
        decreases 14 - e, bit
      {
        FifteenBitMask(e);
        m := 2 * m;
        if m == 0x8000 {
          ok := false;
          e := e + 1;
          return;
        }
        e := e + 1;
        st := st + 1;
        bit := DecodeBin(At(area, st));
      }
    }

    /** The loop of Figure F.24. */
    method DecodePattern(b: Bin, m0: nat, ghost e: nat) returns (v: nat)
      requires Valid() && Allocated(b) && m0 == Shl(1, e)
      modifies this`at, coder, coder.input`pos, coder.input`unread, coder.input`n
      ensures Valid() && (v, at) == ReadPattern(ch, old(at), b, e)
    {
      var m := m0;
      v := m;
      ghost var j: nat, acc: nat := e, 1;
      while m / 2 != 0
        invariant Valid() && j <= e && m == Shl(1, j) && v == Shl(acc, j)
        invariant (acc, at) == ReadPattern(ch, old(at), b, e - j)
        decreases j
      {
        m := m / 2;
        j := j - 1;
        ShlDouble(acc, j);
        ShlAdd(2 * acc, 1, j);
        var bit := DecodeBin(b);
        if bit {
          v := v + m;
        }
        acc := 2 * acc + (if bit then 1 else 0);
      }
    }

    method DecodeNumber(area: Area, first: nat, m0: nat, ghost e0: nat) returns (ok: bool, v: nat, m: nat, ghost e: nat)
      requires Valid() && area.tbl < NUM_ARITH_TBLS && e0 <= 14 && first + 28 < Bins(area) + e0 && m0 == Shl(1, e0)
      modifies this`at, coder, coder.input`pos, coder.input`unread, coder.input`n
      ensures Valid() && m == Shl(1, e)
      ensures ok ==> ReadCategory(ch, old(at), area, first, e0).Good? && ReadCategory(ch, old(at), area, first, e0).value.1 == e
      ensures ReadNumber(ch, old(at), area, first, e0) == if ok then Good(v, at) else Bad
    {
      var st;
      v := 0;
      ok, st, m, e := DecodeCategory(area, first, m0, e0);
      if ok {
        v := DecodePattern(At(area, st + 14), m, e);
      }
    }

    method DecodeDcMagnitude(tbl: nat, st: nat) returns (ok: bool, v: nat, m: nat)
      requires Valid() && tbl < NUM_ARITH_TBLS && st < 20
      modifies this`at, coder, coder.input`pos, coder.input`unread, coder.input`n
      ensures Valid() && (ok ==> m == Top(v))
      ensures ReadDcMagnitude(ch, old(at), DcArea(tbl), st) == if ok then Good(v, at) else Bad
    {
      ok, v, m := true, 0, 0;
      var more := DecodeBin(Dc(tbl, st));
      if more {
        ghost var s, e := at, 0;
        ok, v, m, e := DecodeNumber(DcArea(tbl), 20, 1, 0);
        if ok {
          NumberTop(ch, s, DcArea(tbl), 20, 0, e);
        }
      }
    }

    method DecodeAcMagnitude(tbl: nat, st: nat, x: nat) returns (ok: bool, v: nat)
      requires Valid() && tbl < NUM_ARITH_TBLS && st < 189 && x <= 217
      modifies this`at, coder, coder.input`pos, coder.input`unread, coder.input`n
      ensures Valid()
      ensures ReadAcMagnitude(ch, old(at), AcArea(tbl), st, x) == if ok then Good(v, at) else Bad
    {
      ok, v := true, 0;
      var more := DecodeBin(Ac(tbl, st));
      if more {
        more := DecodeBin(Ac(tbl, st));
        if more {
          var m;
          ghost var e;
          ok, v, m, e := DecodeNumber(AcArea(tbl), x, 2, 1);
        } else {
          v := 1;
        }
      }
    }

    /** Figure F.19: a DC difference, and the highest power of two in its magnitude less one. */
    method DecodeDiff(tbl: nat, ctx: nat) returns (ok: bool, diff: int, m: nat)
      requires Valid() && tbl < NUM_ARITH_TBLS && ctx <= 16
      modifies this`at, coder, coder.input`pos, coder.input`unread, coder.input`n
      ensures Valid() && (ok && diff != 0 ==> m == Top(Abs(diff) - 1))
      ensures ReadDc(ch, old(at), tbl, ctx) == if ok then Good(diff, at) else Bad
    {
      ok, diff, m := true, 0, 0;
      var nonzero := DecodeBin(Dc(tbl, ctx));
      if nonzero {
        var v: int;
        var sign := DecodeBin(Dc(tbl, ctx + 1));
        ok, v, m := DecodeDcMagnitude(tbl, ctx + (if sign then 3 else 2));
        diff := if sign then -(v + 1) else v + 1;
      }
    }

    /** Sign and magnitude of the coefficient at position k. */
    method DecodeCoef(p: AcParams, k: nat) returns (ok: bool, v: int)
      requires Valid() && ValidAc(p) && 0 < k < DCTSIZE2
      modifies this`at, coder, coder.input`pos, coder.input`unread, coder.input`n
      ensures Valid() && -0x8000 <= v < 0x8000
      ensures ReadCoef(ch, old(at), p, k) == if ok then Good(v, at) else Bad
    {
      var m: int;
      var sign := DecodeBin(Fixed);
      ok, m := DecodeAcMagnitude(p.tbl, 3 * k - 1, if k <= p.kx then 189 else 217);
      v := Jcoef(if sign then -(m + 1) else m + 1);
    }

    /** Skip zeros from position k0; returns the position of the coefficient flagged as nonzero. */
    method DecodeZeros(p: AcParams, k0: nat, ghost block: Block) returns (ok: bool, k: nat)
      requires Valid() && ValidAc(p) && 0 < k0 <= p.limSe
      modifies this`at, coder, coder.input`pos, coder.input`unread, coder.input`n
      ensures Valid() && k0 <= k <= p.limSe
      ensures ReadRun(ch, old(at), p, block, k0) == if ok then AfterFlag(ch, at, p, block, k, true) else Bad
    {
      ok, k := true, k0;
      var nonzero := DecodeBin(Ac(p.tbl, 3 * k - 2));
      while !nonzero
        invariant Valid() && k0 <= k <= p.limSe
        invariant ReadRun(ch, old(at), p, block, k0) == AfterFlag(ch, at, p, block, k, nonzero)
        decreases p.limSe - k, !nonzero
      {
        if k >= p.limSe {
          ok := false;
          return;
        }
        k := k + 1;
        nonzero := DecodeBin(Ac(p.tbl, 3 * k - 2));
      }
    }

    /** Figure F.20: the AC coefficients of a block, stored into it. */
    method DecodeAc(p: AcParams, block0: Block) returns (ok: bool, block: Block)
      requires Valid() && ValidAc(p)
      modifies this`at, coder, coder.input`pos, coder.input`unread, coder.input`n
      ensures Valid()
      ensures ReadAcPart(ch, old(at), p, block0) == if ok then Good(block, at) else Bad
    {
      ok, block := true, block0;
      var k := 0;
      while k < p.limSe
        invariant Valid() && k <= p.limSe && ok
        invariant ReadAcPart(ch, old(at), p, block0) == if k < p.limSe then ReadAc(ch, at, p, block, k) else Good(block, at)
      {
        var eob := DecodeBin(Ac(p.tbl, 3 * k));
        if eob {
          return;
        }
        ok, k := DecodeZeros(p, k + 1, block);
        if !ok {
          return;
        }
        var v;
        ok, v := DecodeCoef(p, k);
        if !ok {
          return;
        }
        block := block[p.order[k] := v];
      }
    }

    /** process_restart, as far as the coder is concerned: go on to the next segment, with the statistics areas zeroed. */
    method Restart(num: nat) returns (ok: bool)
      requires Standing() && num < 8
      modifies this, coder, coder.input
      ensures Standing() && ok == (old(coder.input.seg).marker == 0xD0 + num)
      ensures ok ==> Valid() && at == Start() && Blank(coder.stats) && coder.input.seg == Unstuff(coder.input.src, old(coder.input.seg).end)
      ensures ok ==> ch == Arithmetic(coder.tab, coder.input.seg.data)
      ensures !ok ==> coder.input.seg == old(coder.input.seg)
    {
      assert Look(Machine, 0);
      ok := coder.input.ReadRestartMarker(num);
      if ok {
        coder.Reset(ClearedStats(coder.stats));
        at, ch := Start(), Arithmetic(coder.tab, coder.input.seg.data);
        ArithmeticDecodes(coder.tab, coder.input.seg.data);
      }
    }
  }

  // ---- Blocks and MCUs of one restart interval ----

  /** Predictions around the coder, within one restart interval. */
  class IntervalDecoder {
    const scan: Scan
    const bins: BinDecoder
    var last: seq<int>
    var ctx: seq<nat>
    /** The MCUs of the interval decoded so far. */
    ghost var mcus: seq<Mcu>

    ghost function Pred(): Prediction
      reads this
    {
      Prediction(last, ctx)
    }

    /** Statistics and predictions are those of the beginning. */
    ghost predicate Fresh()
      reads this, bins, bins.coder
    {
      && Blank(bins.coder.stats) && |last| == |ctx| == |scan.dcTbl|
      && forall i :: 0 <= i < |last| ==> last[i] == 0 && ctx[i] == 0
    }

    /** What has been decoded is what the decoding function makes of the code string. */
    ghost predicate Led()
      reads this, bins, bins.coder, bins.coder.input
    {
      && Conditioned(scan) && bins.Valid()
      && ReadMcus(bins.ch, Start(), scan, |mcus|) == Good((mcus, Pred()), bins.at)
    }

    ghost predicate Valid()
      reads this, bins, bins.coder, bins.coder.input
    {
      forall x {:trigger Look(Course, x)} :: Look(Course, x) ==> Led()
    }

    constructor (tab: Table, scan: Scan, src: seq<byte>)
      requires Conditioned(scan)
      ensures Valid() && mcus == [] && this.scan == scan && Fresh()
      ensures bins.coder.tab == tab && bins.coder.input.src == src && bins.coder.input.seg == Unstuff(src, 0)
      ensures bins.ch == Arithmetic(tab, Unstuff(src, 0).data)
      ensures fresh(bins) && fresh(bins.coder) && fresh(bins.coder.input)
    {
      this.scan := scan;
      bins := new BinDecoder(tab, src);
      last, ctx, mcus := NoPrediction(scan).last, NoPrediction(scan).ctx, [];
    }

    method DecodeDc(ci: nat) returns (ok: bool)
      requires bins.Valid() && Conditioned(scan) && ValidPrediction(scan, Pred()) && ci < |scan.dcTbl|
      modifies this`last, this`ctx, bins`at, bins.coder, bins.coder.input`pos, bins.coder.input`unread, bins.coder.input`n
      ensures bins.Valid()
      ensures var r := ReadDc(bins.ch, old(bins.at), scan.dcTbl[ci], old(ctx)[ci]);
              if ok then r.Good? && r.s == bins.at && Pred() == AfterDiff(scan, old(Pred()), ci, r.value) else r.Bad?
    {
      var tbl, diff, m := scan.dcTbl[ci], 0, 0;
      ok, diff, m := bins.DecodeDiff(tbl, ctx[ci]);
      if ok {
        if diff == 0 || m < Shl(1, scan.lower[tbl]) / 2 {
          ctx := ctx[ci := 0];
        } else {
          var sign := if diff < 0 then 4 else 0;
          ctx := ctx[ci := (if m > Shl(1, scan.upper[tbl]) / 2 then 12 else 4) + sign];
        }
        last := last[ci := last[ci] + diff];
      }
    }

    method DecodeBlock(ci: nat) returns (ok: bool, block: Block)
      requires bins.Valid() && Conditioned(scan) && ValidPrediction(scan, Pred()) && ci < |scan.dcTbl|
      modifies this`last, this`ctx, bins`at, bins.coder, bins.coder.input`pos, bins.coder.input`unread, bins.coder.input`n
      ensures bins.Valid()
      ensures ReadBlock(bins.ch, old(bins.at), scan, old(Pred()), ci) == if ok then Good((block, Pred()), bins.at) else Bad
    {
      block := Zeroes();
      ok := DecodeDc(ci);
      if ok {
        ok, block := bins.DecodeAc(AcOf(scan, ci), Zeroes()[0 := Jcoef(last[ci])]);
      }
    }

    method DecodeBlocks() returns (ok: bool, mcu: Mcu)
      requires bins.Valid() && Conditioned(scan) && ValidPrediction(scan, Pred())
      modifies this`last, this`ctx, bins`at, bins.coder, bins.coder.input`pos, bins.coder.input`unread, bins.coder.input`n
      ensures bins.Valid()
      ensures ReadBlocks(bins.ch, old(bins.at), scan, old(Pred()), |scan.membership|)
           == if ok then Good((mcu, Pred()), bins.at) else Bad
    {
      ok, mcu := true, [];
      for blkn := 0 to |scan.membership|
        invariant bins.Valid() && ok && |mcu| == blkn
        invariant ReadBlocks(bins.ch, old(bins.at), scan, old(Pred()), blkn) == Good((mcu, Pred()), bins.at)
      {
        ok, mcu := DecodeNext(mcu, old(bins.at), old(Pred()));
        if !ok {
          BadStaysBad(bins.ch, old(bins.at), scan, old(Pred()), blkn + 1, |scan.membership|);
          return;
        }
      }
    }

    /** The block behind the first ones of an MCU. */
    method DecodeNext(mcu0: Mcu, ghost s: Coder, ghost p: Prediction) returns (ok: bool, mcu: Mcu)
      requires bins.Valid() && Conditioned(scan) && ValidPrediction(scan, p) && |mcu0| < |scan.membership|
      requires ReadBlocks(bins.ch, s, scan, p, |mcu0|) == Good((mcu0, Pred()), bins.at)
      modifies this`last, this`ctx, bins`at, bins.coder, bins.coder.input`pos, bins.coder.input`unread, bins.coder.input`n
      ensures bins.Valid() && |mcu| == |mcu0| + 1
      ensures ReadBlocks(bins.ch, s, scan, p, |mcu|) == if ok then Good((mcu, Pred()), bins.at) else Bad
    {
      ghost var p1, s1 := Pred(), bins.at;
      var block;
      ok, block := DecodeBlock(scan.membership[|mcu0|]);
      NextRead(bins.ch, s, scan, p, |mcu0| + 1, mcu0, p1, s1, if ok then Good((block, Pred()), bins.at) else Bad);
      mcu := mcu0 + [block];
    }

    /** Decode one more MCU of the interval, or find the data corrupt and say so in ct. */
    method DecodeMcu() returns (ok: bool, mcu: Mcu)
      requires Valid()
      modifies this, bins`at, bins.coder, bins.coder.input`pos, bins.coder.input`unread, bins.coder.input`n
      ensures bins.Standing()
      ensures Conditioned(scan) && ok == ReadMcus(bins.ch, Start(), scan, |old(mcus)| + 1).Good?
      ensures if ok then Valid() && bins.coder.ct != -1 && mcus == old(mcus) + [mcu]
                         && ReadMcus(bins.ch, Start(), scan, |mcus|).value.0 == mcus
              else bins.coder.ct == -1
    {
      assert Look(Course, 0) && Look(Machine, 0);
      ok, mcu := DecodeBlocks();
      if ok {
        mcus := mcus + [mcu];
        NotAnError();
      } else {
        bins.NotAnError();
        bins.coder.ct := -1;
      }
    }

    /** No decision leaves the shift counter at the value that signals an error. */
    lemma NotAnError()
      requires Valid()
      ensures bins.coder.ct != -1 && Conditioned(scan) && bins.Standing()
    {
      assert Look(Course, 0) && Look(Machine, 0);
      bins.NotAnError();
    }

    /** process_restart: go on to the next segment, with fresh statistics and predictions. */
    method Restart(num: nat) returns (ok: bool)
      requires bins.Standing() && Conditioned(scan) && num < 8
      modifies this, bins, bins.coder, bins.coder.input
      ensures bins.Standing() && ok == (old(bins.coder.input.seg).marker == 0xD0 + num)
      ensures ok ==> Valid() && mcus == [] && Fresh() && bins.coder.ct != -1
      ensures ok ==> bins.coder.input.seg == Unstuff(bins.coder.input.src, old(bins.coder.input.seg).end)
      ensures ok ==> bins.ch == Arithmetic(bins.coder.tab, bins.coder.input.seg.data)
    {
      ok := bins.Restart(num);
      last, ctx, mcus := NoPrediction(scan).last, NoPrediction(scan).ctx, [];
      if ok {
        NotAnError();
      }
    }
  }

  lemma {:induction false} BadStaysBad(ch: Channel, s: Coder, scan: Scan, p: Prediction, n: nat, m: nat)
    requires Conditioned(scan) && ValidPrediction(scan, p) && n <= m <= |scan.membership| && ReadBlocks(ch, s, scan, p, n).Bad?
    ensures ReadBlocks(ch, s, scan, p, m).Bad?
    decreases m
  {
    if n < m {
      BadStaysBad(ch, s, scan, p, n, m - 1);
    }
  }
}
