/** MCU encoding on top of the arithmetic encoder: encode_mcu, emit_restart and finish_pass of jcarith.c. */
module ArithMcuEncoder {
  import opened Numbers
  import opened ByteStuffing
  import opened IntervalCoder
  import opened CarryOutput
  import opened ArithEncoder
  import opened Binarisation
  import opened Blocks
  import opened McuCoding
  import opened ArithSegment
  import opened RestartIntervals
  import opened Opening

  // ---- Testing the bits of a number with a moving mask ----

  lemma {:induction false} LeadingOne(v: nat)
    requires v > 0
    ensures Shr(v, Log(v)) == 1
  {
    if v / 2 != 0 {
      LeadingOne(v / 2);
      ShrFront(v, Log(v));
    }
  }

  /** `(mask & v) != 0` for a mask with a single bit set. */
  predicate Tests(mask: nat, v: nat)
  {
    if mask <= 1 then v % 2 == 1 else Tests(mask / 2, v / 2)
  }

  lemma {:induction false} TestsBit(v: nat, j: nat)
    ensures Tests(Shl(1, j), v) == (Shr(v, j) % 2 == 1)
    decreases j
  {
    if j > 0 {
      TestsBit(v / 2, j - 1);
      ShrFront(v, j);
    }
  }

  /** Coding bins, magnitudes and coefficients: the inner routines of encode_mcu. */
  class BinEncoder {
    const coder: Encoder
    /** The ideal coder that the registers stand for. */
    ghost var at: Coder
    ghost const w: Writer

    constructor (tab: Table)
      ensures AlwaysArithmetic(w, coder.tab)
      ensures fresh(coder) && fresh(coder.output) && Valid() && at == Start() && Blank(coder.stats)
      ensures coder.tab == tab && coder.output.out == coder.output.done == []
    {
      coder := new Encoder(tab, FreshStats());
      at := Start();
      w := (s: Coder, d: Decision) => if Usable(s) && Allocated(d.bin) then Encode(tab, s, d.bin, d.bit) else s;
    }

    /** The registers stand for the ideal coder. */
    ghost predicate Backed()
      reads this, coder, coder.output
    {
      coder.Valid() && coder.State() == at
    }

    /** Clients need not look into the registers, so `Backed` is shown only to those who ask with `Look`. */
    ghost predicate Valid()
      reads this, coder, coder.output
    {
      Usable(at) && AlwaysArithmetic(w, coder.tab) && forall x {:trigger Look(Machine, x)} :: Look(Machine, x) ==> Backed()
    }

    /** The coder has moved along a plan, and what earlier segments wrote has stayed. */
    twostate predicate Moved(plan: Plan)
      reads this, coder, coder.output
    {
      Valid() && at == Written(w, old(at), plan) && coder.output.done == old(coder.output.done)
    }

    method EncodeBin(b: Bin, val: bool)
      requires Valid() && Allocated(b)
      modifies this`at, coder, coder.output
      ensures Moved(One(Decision(b, val)))
    {
      assert Look(Machine, 0) && IsArithmetic(w, coder.tab, at, Decision(b, val));
      coder.ArithEncode(b, val);
      at := coder.State();
    }

    /** The loop of Figure F.8; returns the bin reached and m doubled along the way. */
    method EncodeCategory(area: Area, first: nat, u: nat, m0: nat) returns (st: nat, m: nat)
      requires Valid() && u > 0 && InBounds(Category(area, first, u))
      modifies this`at, coder, coder.output
      ensures Moved(Category(area, first, u))
      ensures st == first + Log(u) && m == Shl(m0, Log(u))
    {
      st, m := first, m0;
      var v2 := u / 2;
      ghost var cur := u;
      while v2 != 0
        invariant Valid() && coder.output.done == old(coder.output.done)
        invariant cur > 0 && v2 == cur / 2 && InBounds(Category(area, st, cur))
        invariant Written(w, at, Category(area, st, cur)) == Written(w, old(at), Category(area, first, u))
        invariant st + Log(cur) == first + Log(u) && Shl(m, Log(cur)) == Shl(m0, Log(u))
      {
        EncodeBin(At(area, st), true);
        ShlDouble(m, Log(v2));
        m := 2 * m;
        st := st + 1;
        cur := v2;
        v2 := v2 / 2;
      }
      EncodeBin(At(area, st), false);
    }

    /** The loop of Figure F.9: the bits of v below m, high to low. */
    method EncodePattern(b: Bin, m0: nat, v: nat)
      requires Valid() && InBounds(Pattern(b, v)) && v > 0 && m0 == Top(v)
      modifies this`at, coder, coder.output
      ensures Moved(Pattern(b, v))
    {
      assert v / 2 != 0 ==> Allocated(b);
      LeadingOne(v);
      var m := m0;
      ghost var j := Log(v);
      while m / 2 != 0
        invariant Valid() && coder.output.done == old(coder.output.done)
        invariant m == Shl(1, j) && Shr(v, j) > 0 && (j > 0 ==> v / 2 != 0)
        invariant at == Written(w, old(at), Pattern(b, Shr(v, j)))
        decreases j
      {
        m := m / 2;
        j := j - 1;
        TestsBit(v, j);
        EncodeBin(b, Tests(m, v));
      }
    }

    /** Category of u and pattern of v; returns the highest power of two in v. */
    method EncodeNumber(area: Area, first: nat, u: nat, v: nat, m0: nat) returns (m: nat)
      requires Valid() && u > 0 && v > 0 && InBounds(Number(area, first, u, v)) && Shl(m0, Log(u)) == Top(v)
      modifies this`at, coder, coder.output
      ensures Moved(Number(area, first, u, v)) && m == Top(v)
    {
      var st;
      st, m := EncodeCategory(area, first, u, m0);
      EncodePattern(At(area, st + 14), m, v);
    }

    /** Magnitude of a DC difference, less one; returns its highest power of two. */
    method EncodeDcMagnitude(tbl: nat, st: nat, v: nat) returns (m: nat)
      requires Valid() && InBounds(DcMagnitude(DcArea(tbl), st, v))
      modifies this`at, coder, coder.output
      ensures Moved(DcMagnitude(DcArea(tbl), st, v)) && m == Top(v)
    {
      m := 0;
      if v != 0 {
        EncodeBin(Dc(tbl, st), true);
        m := EncodeNumber(DcArea(tbl), 20, v, v, 1);
      } else {
        EncodeBin(Dc(tbl, st), false);
      }
    }

    /** Figure F.4: a DC difference; returns the highest power of two in its magnitude less one. */
    method EncodeDiff(tbl: nat, ctx: nat, diff: int) returns (m: nat)
      requires Valid() && InBounds(DcDecisions(tbl, ctx, diff))
      modifies this`at, coder, coder.output
      ensures Moved(DcDecisions(tbl, ctx, diff)) && (diff != 0 ==> m == Top(Abs(diff) - 1))
    {
      m := 0;
      if diff == 0 {
        EncodeBin(Dc(tbl, ctx), false);
      } else {
        assert InBounds(Both(One(Decision(Dc(tbl, ctx + 1), diff < 0)),
                             DcMagnitude(DcArea(tbl), ctx + (if diff > 0 then 2 else 3), Abs(diff) - 1)));
        ghost var e := Decision(Dc(tbl, ctx + 1), diff < 0);
        assert InBounds(One(e));
        EncodeBin(Dc(tbl, ctx), true);
        EncodeBin(Dc(tbl, ctx + 1), diff < 0);
        m := EncodeDcMagnitude(tbl, ctx + (if diff > 0 then 2 else 3), Abs(diff) - 1);
      }
    }

    /** Magnitude of an AC coefficient, less one. */
    method EncodeAcMagnitude(tbl: nat, st: nat, x: nat, v: nat)
      requires Valid() && InBounds(AcMagnitude(AcArea(tbl), st, x, v))
      modifies this`at, coder, coder.output
      ensures Moved(AcMagnitude(AcArea(tbl), st, x, v))
    {
      if v != 0 {
        assert InBounds(AcLarge(AcArea(tbl), st, x, v));
        EncodeBin(Ac(tbl, st), true);
        if v / 2 != 0 {
          ShlDouble(1, Log(v / 2));
          EncodeBin(Ac(tbl, st), true);
          var m := EncodeNumber(AcArea(tbl), x, v / 2, v, 2);
        } else {
          EncodeBin(Ac(tbl, st), false);
        }
      } else {
        EncodeBin(Ac(tbl, st), false);
      }
    }

    /** Sign and magnitude of the nonzero coefficient at position k. */
    method EncodeCoef(p: AcParams, k: nat, v: int)
      requires Valid() && k > 0 && v != 0 && InBounds(CoefDecisions(p, k, v))
      modifies this`at, coder, coder.output
      ensures Moved(CoefDecisions(p, k, v))
    {
      EncodeBin(Fixed, v < 0);
      EncodeAcMagnitude(p.tbl, 3 * k - 1, if k <= p.kx then 189 else 217, Abs(v) - 1);
    }

    /** Skip zeros from position k + 1 and code the coefficient behind them; returns its position. */
    method EncodeRun(p: AcParams, block: Block, k0: nat, ghost ke: nat) returns (k: nat)
      requires Valid() && ValidAc(p) && 0 < k0 <= ke <= p.limSe && Coef(p, block, ke) != 0
      requires InBounds(RunDecisions(p, block, k0, ke))
      modifies this`at, coder, coder.output
      ensures k0 <= k <= ke && InBounds(AcDecisions(p, block, k, ke)) && Valid()
      ensures Written(w, at, AcDecisions(p, block, k, ke)) == Written(w, old(at), RunDecisions(p, block, k0, ke))
      ensures coder.output.done == old(coder.output.done)
    {
      k := k0;
      while block[p.order[k]] == 0
        invariant Valid() && coder.output.done == old(coder.output.done)
        invariant k0 <= k <= ke && InBounds(RunDecisions(p, block, k, ke))
        invariant Written(w, at, RunDecisions(p, block, k, ke)) == Written(w, old(at), RunDecisions(p, block, k0, ke))
        decreases ke - k
      {
        EncodeBin(Ac(p.tbl, 3 * k - 2), false);
        k := k + 1;
      }
      var v := block[p.order[k]];
      assert InBounds(Both(CoefDecisions(p, k, v), AcDecisions(p, block, k, ke)));
      EncodeBin(Ac(p.tbl, 3 * k - 2), true);
      EncodeCoef(p, k, v);
    }

    /** Figure F.5: the AC coefficients of a block. */
    method EncodeAc(p: AcParams, block: Block)
      requires Valid() && ValidAc(p) && InBounds(AcPart(p, block))
      modifies this`at, coder, coder.output
      ensures Moved(AcPart(p, block))
    {
      var ke := p.limSe;
      if ke == 0 {
        return;
      }
      while ke > 0 && block[p.order[ke]] == 0
        invariant 0 <= ke <= p.limSe && EndIndex(p, block, ke) == EndIndex(p, block, p.limSe)
      {
        ke := ke - 1;
      }
      var k := 0;
      while k < ke
        invariant Valid() && coder.output.done == old(coder.output.done)
        invariant k <= ke && InBounds(AcDecisions(p, block, k, ke))
        invariant Written(w, at, AcDecisions(p, block, k, ke)) == Written(w, old(at), AcDecisions(p, block, 0, ke))
      {
        EncodeBin(Ac(p.tbl, 3 * k), false);
        k := EncodeRun(p, block, k + 1, ke);
      }
      if k < p.limSe {
        EncodeBin(Ac(p.tbl, 3 * k), true);
      }
    }

    lemma Arithmetic()
      requires Valid()
      ensures AlwaysArithmetic(w, coder.tab)
    {
      assert Look(Machine, 0);
    }

    /** End the segment, write a restart marker and start afresh. */
    method Restart(m: byte) returns (ghost code: seq<byte>)
      requires Valid()
      modifies this`at, coder, coder.output
      ensures Valid() && at == Start() && Blank(coder.stats) && Hits(code, old(at).iv)
      ensures SegmentAdded(old(coder.output.done), code, m, coder.output.done)
    {
      assert Look(Machine, 0);
      coder.FinishPass();
      code := coder.output.sent;
      coder.output.EmitMarker(m);
      Clear();
    }

    /** Zero the statistics areas, leave the fixed bin alone, and start a new segment. */
    method Clear()
      requires ValidStats(coder.stats) && Complete(coder.stats) && Settled(coder.stats) && AlwaysArithmetic(w, coder.tab)
      modifies this`at, coder, coder.output
      ensures Valid() && at == Start() && Blank(coder.stats) && coder.output.done == old(coder.output.out)
    {
      coder.Reset(ClearedStats(coder.stats));
      at := Start();
    }

    /** End the last segment. */
    method Finish() returns (ghost code: seq<byte>)
      requires Valid()
      modifies this`at, coder, coder.output
      ensures Hits(code, old(at).iv)
      ensures coder.output.out == old(coder.output.done) + Stuff(code)
    {
      assert Look(Machine, 0);
      coder.FinishPass();
      code := coder.output.sent;
    }
  }

  // ---- The current restart interval ----

  function PlanOf(scan: Scan, mcus: seq<Mcu>): (plan: Plan)
    requires Conditioned(scan) && AreMcus(scan, mcus)
  {
    McusDecisions(scan, mcus, |mcus|)
  }

  function PredOf(scan: Scan, mcus: seq<Mcu>): (p: Prediction)
    requires Conditioned(scan) && AreMcus(scan, mcus)
    ensures ValidPrediction(scan, p)
  {
    AfterMcus(scan, mcus, |mcus|)
  }

  lemma {:induction false} OneMore(scan: Scan, mcus: seq<Mcu>, mcu: Mcu)
    requires Conditioned(scan) && AreMcus(scan, mcus) && IsMcu(scan, mcu)
    ensures AreMcus(scan, mcus + [mcu])
    ensures PredOf(scan, mcus + [mcu]) == AfterBlocks(scan, PredOf(scan, mcus), mcu, |mcu|)
    ensures PlanOf(scan, mcus + [mcu]) == Both(PlanOf(scan, mcus), BlocksDecisions(scan, PredOf(scan, mcus), mcu, |mcu|))
  {
    assert (mcus + [mcu])[..|mcus|] == mcus[..|mcus|];
    SameFront(scan, mcus + [mcu], mcus, |mcus|);
    assert (mcus + [mcu])[|mcus|] == mcu;
  }

  /** Coding these MCUs from the start leads to this prediction and this state of the coder. */
  ghost predicate LedTo(w: Writer, scan: Scan, mcus: seq<Mcu>, p: Prediction, at: Coder)
  {
    forall x {:trigger Look(Course, x)} :: Look(Course, x) ==>
      && Conditioned(scan) && AreMcus(scan, mcus) && p == PredOf(scan, mcus)
      && at == Written(w, Start(), PlanOf(scan, mcus))
  }

  lemma {:induction false} NothingYet(w: Writer, scan: Scan)
    requires Conditioned(scan)
    ensures LedTo(w, scan, [], NoPrediction(scan), Start())
  {
  }

  /** Predictions stay within the range of coefficients. */
  lemma {:induction false} LedInBounds(w: Writer, scan: Scan, mcus: seq<Mcu>, p: Prediction, at: Coder)
    requires LedTo(w, scan, mcus, p, at)
    ensures Conditioned(scan) && ValidPrediction(scan, p) && Jpeg16(p)
  {
    assert Look(Course, 0);
    McusInBounds(scan, mcus, |mcus|);
  }

  /** Coding the first n blocks of an MCU from prediction p0 and state s leads to this prediction and this state. */
  ghost predicate BlocksLed(w: Writer, s: Coder, scan: Scan, p0: Prediction, mcu: Mcu, n: nat, p: Prediction, at: Coder)
  {
    forall x {:trigger Look(Blocks, x)} :: Look(Blocks, x) ==>
      && Conditioned(scan) && ValidPrediction(scan, p0) && Jpeg16(p0) && IsMcu(scan, mcu) && n <= |mcu|
      && p == AfterBlocks(scan, p0, mcu, n) && at == Written(w, s, BlocksDecisions(scan, p0, mcu, n))
  }

  lemma {:induction false} NoBlocksYet(w: Writer, s: Coder, scan: Scan, p: Prediction, mcu: Mcu)
    requires Conditioned(scan) && ValidPrediction(scan, p) && Jpeg16(p) && IsMcu(scan, mcu)
    ensures BlocksLed(w, s, scan, p, mcu, 0, p, s)
  {
  }

  /** Coding the next block: its bins are in range, and it extends what was coded. */
  lemma {:induction false} NextBlock(w: Writer, s: Coder, scan: Scan, p0: Prediction, mcu: Mcu, n: nat, p: Prediction, at: Coder)
    requires BlocksLed(w, s, scan, p0, mcu, n, p, at) && Conditioned(scan) && IsMcu(scan, mcu) && n < |mcu|
    ensures var ci := scan.membership[n];
            && ValidPrediction(scan, p) && InBounds(BlockDecisions(scan, p, ci, mcu[n]))
            && BlocksLed(w, s, scan, p0, mcu, n + 1, AfterDiff(scan, p, ci, mcu[n][0] - p.last[ci]),
                         Written(w, at, BlockDecisions(scan, p, ci, mcu[n])))
  {
    assert Look(Blocks, 0);
    BlocksInBounds(scan, p0, mcu, n);
    BlockInBounds(scan, p, scan.membership[n], mcu[n]);
  }

  lemma {:induction false} LedOn(w: Writer, scan: Scan, mcus: seq<Mcu>, p0: Prediction, at0: Coder, mcu: Mcu, p: Prediction, at: Coder)
    requires LedTo(w, scan, mcus, p0, at0) && BlocksLed(w, at0, scan, p0, mcu, |mcu|, p, at)
    ensures LedTo(w, scan, mcus + [mcu], p, at)
  {
    assert Look(Course, 0) && Look(Blocks, 0);
    OneMore(scan, mcus, mcu);
  }

  /** A code string found inside the interval that the coder was led to is a code string for the MCUs. */
  lemma {:induction false} CodeFound(w: Writer, tab: Table, scan: Scan, mcus: seq<Mcu>, p: Prediction, at: Coder, code: seq<byte>)
    requires LedTo(w, scan, mcus, p, at) && AlwaysArithmetic(w, tab) && Hits(code, at.iv)
    ensures Coded(tab, scan, Piece(mcus, code))
  {
    assert Look(Course, 0);
    McusInBounds(scan, mcus, |mcus|);
    WrittenPlan(w, tab, Start(), PlanOf(scan, mcus));
  }

  ghost predicate Coded(tab: Table, scan: Scan, piece: Piece<Mcu>)
  {
    CodeFor(tab, scan, piece.mcus, piece.code)
  }

  /** Predictions around the coder, within one restart interval. */
  class IntervalEncoder {
    const scan: Scan
    const bins: BinEncoder
    var last: seq<int>
    var ctx: seq<nat>
    /** The MCUs of the interval so far. */
    ghost var mcus: seq<Mcu>

    ghost function Pred(): Prediction
      reads this
    {
      Prediction(last, ctx)
    }

    /** Statistics and predictions are those of the beginning. */
    ghost predicate Fresh()
      reads this, bins, bins.coder
    {
      && Blank(bins.coder.stats) && |last| == |ctx| == |scan.dcTbl|
      && forall i :: 0 <= i < |last| ==> last[i] == 0 && ctx[i] == 0
    }

    /** The predictions and the coder are where the MCUs of the interval have led them. */
    ghost predicate Valid()
      reads this, bins, bins.coder, bins.coder.output
    {
      Conditioned(scan) && bins.Valid() && LedTo(bins.w, scan, mcus, Pred(), bins.at)
    }

    constructor (tab: Table, scan: Scan)
      requires Conditioned(scan)
      ensures Valid() && mcus == [] && this.scan == scan && bins.coder.tab == tab && Fresh()
      ensures bins.coder.output.out == bins.coder.output.done == []
      ensures fresh(bins) && fresh(bins.coder) && fresh(bins.coder.output)
    {
      this.scan := scan;
      bins := new BinEncoder(tab);
      last, ctx, mcus := NoPrediction(scan).last, NoPrediction(scan).ctx, [];
      new;
      NothingYet(bins.w, scan);
    }

    /** Code a DC difference and move the prediction of component ci. */
    method EncodeDc(ci: nat, value: int)
      requires bins.Valid() && Conditioned(scan) && ValidPrediction(scan, Pred()) && ci < |scan.dcTbl|
      requires InBounds(DcDecisions(scan.dcTbl[ci], ctx[ci], value - last[ci]))
      modifies this`last, this`ctx, bins`at, bins.coder, bins.coder.output
      ensures bins.Moved(DcDecisions(scan.dcTbl[ci], old(ctx)[ci], value - old(last)[ci]))
      ensures Pred() == AfterDiff(scan, old(Pred()), ci, value - old(last)[ci])
    {
      var tbl, v := scan.dcTbl[ci], value - last[ci];
      var m := bins.EncodeDiff(tbl, ctx[ci], v);
      Classify(ci, v, m);
      last := last[ci := value];
    }

    /** The conditioning category for the next difference of the component, by the size of this one. */
    method Classify(ci: nat, v: int, m: nat)
      requires Conditioned(scan) && ValidPrediction(scan, Pred()) && ci < |scan.dcTbl| && (v != 0 ==> m == Top(Abs(v) - 1))
      modifies this`ctx
      ensures ctx == AfterDiff(scan, old(Pred()), ci, v).ctx
    {
      var tbl := scan.dcTbl[ci];
      var small := if v > 0 then 4 else 8;
      if v == 0 || m < Shl(1, scan.lower[tbl]) / 2 {
        ctx := ctx[ci := 0];
      } else if m > Shl(1, scan.upper[tbl]) / 2 {
        ctx := ctx[ci := small + 8];
      } else {
        ctx := ctx[ci := small];
      }
    }

    /** Code one block. */
    method EncodeBlock(ci: nat, block: Block)
      requires bins.Valid() && Conditioned(scan) && ValidPrediction(scan, Pred()) && ci < |scan.dcTbl|
      requires InBounds(BlockDecisions(scan, Pred(), ci, block))
      modifies this`last, this`ctx, bins`at, bins.coder, bins.coder.output
      ensures bins.Moved(BlockDecisions(scan, old(Pred()), ci, block))
      ensures Pred() == AfterDiff(scan, old(Pred()), ci, block[0] - old(last)[ci])
    {
      EncodeDc(ci, block[0]);
      bins.EncodeAc(AcOf(scan, ci), block);
    }

    /** Code the blocks of an MCU. */
    method EncodeBlocks(mcu: Mcu)
      requires bins.Valid() && Conditioned(scan) && ValidPrediction(scan, Pred()) && Jpeg16(Pred()) && IsMcu(scan, mcu)
      modifies this`last, this`ctx, bins`at, bins.coder, bins.coder.output
      ensures bins.Valid() && bins.coder.output.done == old(bins.coder.output.done)
      ensures BlocksLed(bins.w, old(bins.at), scan, old(Pred()), mcu, |mcu|, Pred(), bins.at)
    {
      NoBlocksYet(bins.w, bins.at, scan, Pred(), mcu);
      for blkn := 0 to |mcu|
        invariant bins.Valid() && bins.coder.output.done == old(bins.coder.output.done)
        invariant BlocksLed(bins.w, old(bins.at), scan, old(Pred()), mcu, blkn, Pred(), bins.at)
      {
        NextBlock(bins.w, old(bins.at), scan, old(Pred()), mcu, blkn, Pred(), bins.at);
        EncodeBlock(scan.membership[blkn], mcu[blkn]);
      }
    }

    /** Code one more MCU. */
    method Add(mcu: Mcu)
      requires Valid() && IsMcu(scan, mcu)
      modifies this, bins`at, bins.coder, bins.coder.output
      ensures Valid() && mcus == old(mcus) + [mcu] && bins.coder.output.done == old(bins.coder.output.done)
    {
      LedInBounds(bins.w, scan, mcus, Pred(), bins.at);
      EncodeBlocks(mcu);
      LedOn(bins.w, scan, mcus, old(Pred()), old(bins.at), mcu, Pred(), bins.at);
      mcus := mcus + [mcu];
    }

    /** emit_restart: close the interval, write a marker, forget predictions and statistics. */
    method Restart(m: byte) returns (ghost code: seq<byte>)
      requires Valid()
      modifies this, bins`at, bins.coder, bins.coder.output
      ensures Valid() && mcus == [] && Fresh() && Coded(bins.coder.tab, scan, Piece(old(mcus), code))
      ensures SegmentAdded(old(bins.coder.output.done), code, m, bins.coder.output.done)
    {
      ghost var at := bins.at;
      bins.Arithmetic();
      code := bins.Restart(m);
      CodeFound(bins.w, bins.coder.tab, scan, mcus, Pred(), at, code);
      last, ctx, mcus := NoPrediction(scan).last, NoPrediction(scan).ctx, [];
      NothingYet(bins.w, scan);
    }

    /** finish_pass. */
    method Finish() returns (ghost code: seq<byte>)
      requires Valid()
      modifies bins`at, bins.coder, bins.coder.output
      ensures Coded(bins.coder.tab, scan, Piece(mcus, code))
      ensures bins.coder.output.out == old(bins.coder.output.done) + Stuff(code)
    {
      ghost var at := bins.at;
      bins.Arithmetic();
      code := bins.Finish();
      CodeFound(bins.w, bins.coder.tab, scan, mcus, Pred(), at, code);
    }
  }

  // ---- A whole scan ----

  /** Every piece holds a code string for its MCUs. */
  ghost predicate Archived(tab: Table, scan: Scan, pieces: seq<Piece<Mcu>>)
  {
    forall p {:trigger Coded(tab, scan, p)} :: p in pieces ==> Coded(tab, scan, p)
  }

  /** What has been written consists of regular, finished pieces. */
  ghost predicate Filed(tab: Table, scan: Scan, interval: nat, pieces: seq<Piece<Mcu>>, written: seq<byte>)
  {
    forall x {:trigger Look(Filing, x)} :: Look(Filing, x) ==>
      Archived(tab, scan, pieces) && Regular(interval, pieces) && written == Segments(pieces)
  }

  lemma {:induction false} NothingFiled(tab: Table, scan: Scan, interval: nat)
    ensures Filed(tab, scan, interval, [], [])
  {
  }

  lemma {:induction false} FileOne(tab: Table, scan: Scan, interval: nat, pieces: seq<Piece<Mcu>>, p: Piece<Mcu>, before: seq<byte>, after: seq<byte>)
    requires Filed(tab, scan, interval, pieces, before) && Coded(tab, scan, p) && interval == |p.mcus| > 0
    requires SegmentAdded(before, p.code, 0xD0 + |pieces| % 8, after)
    ensures Filed(tab, scan, interval, pieces + [p], after)
  {
    assert Look(Filing, 0) && Look(Growth, 0);
    assert (pieces + [p])[..|pieces|] == pieces;
    assert Full(interval, p);
  }

  lemma {:induction false} FileLast(tab: Table, scan: Scan, interval: nat, pieces: seq<Piece<Mcu>>, p: Piece<Mcu>, before: seq<byte>)
    requires Filed(tab, scan, interval, pieces, before) && Coded(tab, scan, p)
    ensures Archived(tab, scan, pieces + [p]) && before == Segments(pieces)
  {
    assert Look(Filing, 0);
  }

  /** Restart bookkeeping around the intervals. */
  class ScanEncoder {
    const restartInterval: nat
    const inner: IntervalEncoder
    var restartsToGo: nat
    var nextRestart: nat
    /** Intervals written. */
    ghost var pieces: seq<Piece<Mcu>>

    /** Full intervals and restart markers have been written; the MCUs since belong to the interval in progress. */
    ghost predicate Valid()
      reads this, inner, inner.bins, inner.bins.coder, inner.bins.coder.output
    {
      && inner.Valid()
      && Filed(inner.bins.coder.tab, inner.scan, restartInterval, pieces, inner.bins.coder.output.done)
      && nextRestart == |pieces| % 8
      && (restartInterval > 0 ==> restartsToGo + |inner.mcus| == restartInterval)
    }

    constructor (tab: Table, scan: Scan, restartInterval: nat)
      requires Conditioned(scan)
      ensures Valid() && pieces == [] && inner.mcus == [] && inner.scan == scan && inner.Fresh()
      ensures this.restartInterval == restartInterval && inner.bins.coder.tab == tab
      ensures fresh(inner) && fresh(inner.bins) && fresh(inner.bins.coder) && fresh(inner.bins.coder.output)
    {
      this.restartInterval := restartInterval;
      inner := new IntervalEncoder(tab, scan);
      restartsToGo, nextRestart := restartInterval, 0;
      pieces := [];
      NothingFiled(tab, scan, restartInterval);
    }

    method EmitRestart() returns (ghost p: Piece<Mcu>)
      requires Valid() && restartInterval > 0 && restartsToGo == 0
      modifies this, inner, inner.bins`at, inner.bins.coder, inner.bins.coder.output
      ensures Valid() && inner.mcus == [] && restartsToGo == restartInterval && inner.Fresh()
      ensures pieces == old(pieces) + [p] && p.mcus == old(inner.mcus)
    {
      ghost var mcus, before := inner.mcus, inner.bins.coder.output.done;
      ghost var code := inner.Restart(0xD0 + nextRestart);
      p := Piece(mcus, code);
      FileOne(inner.bins.coder.tab, inner.scan, restartInterval, pieces, p, before, inner.bins.coder.output.done);
      NextInterval(p);
    }

    /** Bookkeeping for the interval that begins with the next MCU. */
    method NextInterval(ghost p: Piece<Mcu>)
      requires inner.Valid() && inner.mcus == [] && nextRestart == |pieces| % 8
      requires Filed(inner.bins.coder.tab, inner.scan, restartInterval, pieces + [p], inner.bins.coder.output.done)
      modifies this`restartsToGo, this`nextRestart, this`pieces
      ensures Valid() && restartsToGo == restartInterval && pieces == old(pieces) + [p]
    {
      restartsToGo := restartInterval;
      nextRestart := (nextRestart + 1) % 8;
      pieces := pieces + [p];
      assert inner.Valid();
    }

    /** encode_mcu: the MCU joins the current interval, after a restart if that is full. */
    method EncodeMcu(mcu: Mcu)
      requires Valid() && IsMcu(inner.scan, mcu)
      modifies this, inner, inner.bins`at, inner.bins.coder, inner.bins.coder.output
      ensures Valid()
      ensures if restartInterval > 0 && |old(inner.mcus)| == restartInterval
              then |pieces| > 0 && pieces[..|pieces| - 1] == old(pieces)
                   && pieces[|pieces| - 1].mcus == old(inner.mcus) && inner.mcus == [mcu]
              else pieces == old(pieces) && inner.mcus == old(inner.mcus) + [mcu]
    {
      if restartInterval > 0 && restartsToGo == 0 {
        ghost var p := EmitRestart();
      }
      inner.Add(mcu);
      if restartInterval > 0 {
        restartsToGo := restartsToGo - 1;
      }
    }

    /** finish_pass: the output is a scan of all the MCUs handed in. */
    method FinishPass() returns (ghost code: seq<byte>)
      requires Valid()
      modifies inner.bins`at, inner.bins.coder, inner.bins.coder.output
      ensures inner.bins.coder.output.out == Segments(pieces) + Stuff(code)
      ensures Archived(inner.bins.coder.tab, inner.scan, pieces + [Piece(inner.mcus, code)])
    {
      ghost var before := inner.bins.coder.output.done;
      code := inner.Finish();
      FileLast(inner.bins.coder.tab, inner.scan, restartInterval, pieces, Piece(inner.mcus, code), before);
    }
  }
}
