/** Blocks and MCUs as binary decisions: the sequential encode_mcu and decode_mcu of jcarith.c and jdarith.c. */
module McuCoding {
  import opened IntervalCoder
  import opened Binarisation
  import opened Numbers
  import opened Blocks

  /** The table numbers and conditioning values of an arithmetic-coded scan are in place. */
  predicate Conditioned(scan: Scan)
  {
    && ValidScan(scan) && |scan.lower| == |scan.upper| == |scan.kx| == NUM_ARITH_TBLS
    && (forall i :: 0 <= i < |scan.dcTbl| ==> scan.dcTbl[i] < NUM_ARITH_TBLS && scan.acTbl[i] < NUM_ARITH_TBLS)
  }

  // ---- DC ----

  function DcDecisions(tbl: nat, ctx: nat, diff: int): (plan: Plan)
  {
    if diff == 0 then One(Decision(Dc(tbl, ctx), false))
    else Both(One(Decision(Dc(tbl, ctx), true)),
              Both(One(Decision(Dc(tbl, ctx + 1), diff < 0)),
                   DcMagnitude(DcArea(tbl), ctx + (if diff > 0 then 2 else 3), Abs(diff) - 1)))
  }

  /** The highest power of two in a magnitude, 0 for 0. */
  function Top(v: nat): (m: nat)
  {
    if v == 0 then 0 else Shl(1, Log(v))
  }

  /** Section F.1.4.4.1.2: the conditioning category that a difference leaves behind. */
  function NextContext(lower: nat, upper: nat, diff: int): (ctx: nat)
    ensures ctx <= 16
  {
    if diff == 0 then 0
    else
      var m := Top(Abs(diff) - 1);
      if m < Shl(1, lower) / 2 then 0
      else (if m > Shl(1, upper) / 2 then 12 else 4) + (if diff < 0 then 4 else 0)
  }

  /** Figure F.19. */
  function ReadDc(ch: Channel, s: Coder, tbl: nat, ctx: nat): (r: Parsed<int>)
    requires tbl < NUM_ARITH_TBLS && ctx <= 16
  {
    var (nonzero, s1) := Ask(ch, s, Dc(tbl, ctx));
    if !nonzero then Good(0, s1)
    else
      var (sign, s2) := Ask(ch, s1, Dc(tbl, ctx + 1));
      match ReadDcMagnitude(ch, s2, DcArea(tbl), ctx + (if sign then 3 else 2))
      case Bad => Bad
      case Good(v, s3) => Good(if sign then -(v + 1) else v + 1, s3)
  }

  /** A DC difference comes back exactly when its magnitude is at most 2 to the power 15. */
  lemma {:induction false} DcComesBack(ch: Channel, s: Coder, tbl: nat, ctx: nat, diff: int)
    requires tbl < NUM_ARITH_TBLS && ctx <= 16 && Holds(ch, s, DcDecisions(tbl, ctx, diff))
    ensures ReadDc(ch, s, tbl, ctx)
         == if Abs(diff) <= 0x8000 then Good(diff, After(ch, s, DcDecisions(tbl, ctx, diff))) else Bad
  {
    if diff != 0 {
      var d, e := Decision(Dc(tbl, ctx), true), Decision(Dc(tbl, ctx + 1), diff < 0);
      var st := ctx + (if diff > 0 then 2 else 3);
      var m := DcMagnitude(DcArea(tbl), st, Abs(diff) - 1);
      Next(ch, s, d, Both(One(e), m));
      var s1 := Ask(ch, s, d.bin).1;
      Next(ch, s1, e, m);
      DcMagnitudeComesBack(ch, Ask(ch, s1, e.bin).1, DcArea(tbl), st, Abs(diff) - 1);
    }
  }

  // ---- AC ----

  /** Parameters of the AC coding of one block. */
  datatype AcParams = AcParams(tbl: nat, kx: nat, limSe: nat, order: seq<nat>)

  predicate ValidAc(p: AcParams)
  {
    p.tbl < NUM_ARITH_TBLS && p.limSe < DCTSIZE2 && ValidOrder(p.order)
  }

  function Coef(p: AcParams, block: Block, k: nat): (r: int)
    requires ValidAc(p) && k < DCTSIZE2
  {
    block[p.order[k]]
  }

  /** End-of-block index: the last nonzero coefficient among the first k, 0 if there is none. */
  function EndIndex(p: AcParams, block: Block, k: nat): (ke: nat)
    requires ValidAc(p) && k < DCTSIZE2
    ensures ke <= k && (ke > 0 ==> Coef(p, block, ke) != 0)
    ensures forall i :: ke < i <= k ==> Coef(p, block, i) == 0
  {
    if k == 0 || Coef(p, block, k) != 0 then k else EndIndex(p, block, k - 1)
  }

  /** Sign and magnitude of the nonzero coefficient at position k. */
  function CoefDecisions(p: AcParams, k: nat, v: int): (plan: Plan)
    requires k > 0 && v != 0
  {
    Both(One(Decision(Fixed, v < 0)),
         AcMagnitude(AcArea(p.tbl), 3 * k - 1, if k <= p.kx then 189 else 217, Abs(v) - 1))
  }

  function ReadCoef(ch: Channel, s: Coder, p: AcParams, k: nat): (r: Parsed<int>)
    requires ValidAc(p) && 0 < k < DCTSIZE2
  {
    var (sign, s1) := Ask(ch, s, Fixed);
    match ReadAcMagnitude(ch, s1, AcArea(p.tbl), 3 * k - 1, if k <= p.kx then 189 else 217)
    case Bad => Bad
    case Good(v, s2) => Good(Jcoef(if sign then -(v + 1) else v + 1), s2)
  }

  lemma {:induction false} CoefComesBack(ch: Channel, s: Coder, p: AcParams, k: nat, v: int)
    requires ValidAc(p) && 0 < k < DCTSIZE2 && v != 0 && -0x8000 <= v < 0x8000
    requires Holds(ch, s, CoefDecisions(p, k, v))
    ensures ReadCoef(ch, s, p, k) == Good(v, After(ch, s, CoefDecisions(p, k, v)))
  {
    var x := if k <= p.kx then 189 else 217;
    AcMagnitudeComesBack(ch, Ask(ch, s, Fixed).1, AcArea(p.tbl), 3 * k - 1, x, Abs(v) - 1);
  }

  /** Figure F.5 from position k: coefficients 1 to k are done. */
  function AcDecisions(p: AcParams, block: Block, k: nat, ke: nat): (plan: Plan)
    requires ValidAc(p) && k <= ke <= p.limSe && (k < ke ==> Coef(p, block, ke) != 0)
    decreases ke - k, 1
  {
    if k < ke then Both(One(Decision(Ac(p.tbl, 3 * k), false)), RunDecisions(p, block, k + 1, ke))
    else if k < p.limSe then One(Decision(Ac(p.tbl, 3 * k), true))
    else Done
  }

  /** Zeros up to the next nonzero coefficient, and that coefficient. */
  function RunDecisions(p: AcParams, block: Block, k: nat, ke: nat): (plan: Plan)
    requires ValidAc(p) && 0 < k <= ke <= p.limSe && Coef(p, block, ke) != 0
    decreases ke - k + 1, 0
  {
    var v := Coef(p, block, k);
    if v == 0 then Both(One(Decision(Ac(p.tbl, 3 * k - 2), false)), RunDecisions(p, block, k + 1, ke))
    else Both(One(Decision(Ac(p.tbl, 3 * k - 2), true)), Both(CoefDecisions(p, k, v), AcDecisions(p, block, k, ke)))
  }

  /** Figure F.20 from position k. */
  function ReadAc(ch: Channel, s: Coder, p: AcParams, block: Block, k: nat): (r: Parsed<Block>)
    requires ValidAc(p) && k < p.limSe
    decreases p.limSe - k, 1
  {
    var (eob, s1) := Ask(ch, s, Ac(p.tbl, 3 * k));
    if eob then Good(block, s1) else ReadRun(ch, s1, p, block, k + 1)
  }

  function ReadRun(ch: Channel, s: Coder, p: AcParams, block: Block, k: nat): (r: Parsed<Block>)
    requires ValidAc(p) && 0 < k <= p.limSe
    decreases p.limSe - k + 1, 0
  {
    var (nonzero, s1) := Ask(ch, s, Ac(p.tbl, 3 * k - 2));
    if !nonzero then (if k >= p.limSe then Bad else ReadRun(ch, s1, p, block, k + 1))
    else
      match ReadCoef(ch, s1, p, k)
      case Bad => Bad
      case Good(v, s2) =>
        var block' := block[p.order[k] := v];
        if k < p.limSe then ReadAc(ch, s2, p, block', k) else Good(block', s2)
  }

  /** AC coefficients come back: the block ends up holding the first limSe + 1 coefficients of the original. */
  lemma {:induction false} AcComesBack(ch: Channel, s: Coder, p: AcParams, block: Block, k: nat, ke: nat)
    requires ValidAc(p) && k <= ke <= p.limSe && k < p.limSe && (k < ke ==> Coef(p, block, ke) != 0)
    requires forall i :: ke < i <= p.limSe ==> Coef(p, block, i) == 0
    requires Holds(ch, s, AcDecisions(p, block, k, ke))
    ensures ReadAc(ch, s, p, Partial(p.order, block, k + 1), k)
         == Good(Partial(p.order, block, p.limSe + 1), After(ch, s, AcDecisions(p, block, k, ke)))
    decreases ke - k, 1
  {
    if k < ke {
      RunComesBack(ch, Ask(ch, s, Ac(p.tbl, 3 * k)).1, p, block, k + 1, ke);
    } else {
      PartialTail(p, block, k, p.limSe);
    }
  }

  lemma {:induction false} PartialTail(p: AcParams, block: Block, k: nat, n: nat)
    requires ValidAc(p) && k <= n < DCTSIZE2 && forall i :: k < i <= n ==> Coef(p, block, i) == 0
    ensures Partial(p.order, block, n + 1) == Partial(p.order, block, k + 1)
    decreases n
  {
    if k < n {
      PartialTail(p, block, k, n - 1);
      assert Coef(p, block, n) == 0;
      PartialSkip(p.order, block, n);
    }
  }

  lemma {:induction false} RunComesBack(ch: Channel, s: Coder, p: AcParams, block: Block, k: nat, ke: nat)
    requires ValidAc(p) && 0 < k <= ke <= p.limSe && Coef(p, block, ke) != 0
    requires forall i :: ke < i <= p.limSe ==> Coef(p, block, i) == 0
    requires Holds(ch, s, RunDecisions(p, block, k, ke))
    ensures ReadRun(ch, s, p, Partial(p.order, block, k), k)
         == Good(Partial(p.order, block, p.limSe + 1), After(ch, s, RunDecisions(p, block, k, ke)))
    decreases ke - k + 1, 0
  {
    var v := Coef(p, block, k);
    var s1 := Ask(ch, s, Ac(p.tbl, 3 * k - 2)).1;
    if v == 0 {
      PartialSkip(p.order, block, k);
      RunComesBack(ch, s1, p, block, k + 1, ke);
    } else {
      Next(ch, s, Decision(Ac(p.tbl, 3 * k - 2), true), Both(CoefDecisions(p, k, v), AcDecisions(p, block, k, ke)));
      CoefComesBack(ch, s1, p, k, v);
      assert Partial(p.order, block, k)[p.order[k] := v] == Partial(p.order, block, k + 1);
      if k < p.limSe {
        AcComesBack(ch, After(ch, s1, CoefDecisions(p, k, v)), p, block, k, ke);
      }
    }
  }

  // ---- Blocks ----

  /** Per component: the last DC value and the conditioning category. */
  datatype Prediction = Prediction(last: seq<int>, ctx: seq<nat>)

  predicate ValidPrediction(scan: Scan, p: Prediction)
  {
    |p.last| == |p.ctx| == |scan.dcTbl| && forall i :: 0 <= i < |p.ctx| ==> p.ctx[i] <= 16
  }

  function NoPrediction(scan: Scan): (p: Prediction)
    ensures ValidPrediction(scan, p)
    ensures forall i :: 0 <= i < |scan.dcTbl| ==> p.last[i] == 0 && p.ctx[i] == 0
  {
    Prediction(seq(|scan.dcTbl|, _ => 0), seq(|scan.dcTbl|, _ => 0))
  }

  function AcOf(scan: Scan, ci: nat): (p: AcParams)
    requires Conditioned(scan) && ci < |scan.dcTbl|
    ensures ValidAc(p)
  {
    AcParams(scan.acTbl[ci], scan.kx[scan.acTbl[ci]], scan.limSe, scan.order)
  }

  /** The prediction after a block of component ci whose DC difference was `diff`. */
  function AfterDiff(scan: Scan, p: Prediction, ci: nat, diff: int): (r: Prediction)
    requires Conditioned(scan) && ValidPrediction(scan, p) && ci < |scan.dcTbl|
    ensures ValidPrediction(scan, r)
  {
    var tbl := scan.dcTbl[ci];
    Prediction(p.last[ci := p.last[ci] + diff], p.ctx[ci := NextContext(scan.lower[tbl], scan.upper[tbl], diff)])
  }

  function AcPart(ac: AcParams, block: Block): (plan: Plan)
    requires ValidAc(ac)
  {
    if ac.limSe == 0 then Done else AcDecisions(ac, block, 0, EndIndex(ac, block, ac.limSe))
  }

  function BlockDecisions(scan: Scan, p: Prediction, ci: nat, block: Block): (plan: Plan)
    requires Conditioned(scan) && ValidPrediction(scan, p) && ci < |scan.dcTbl|
  {
    Both(DcDecisions(scan.dcTbl[ci], p.ctx[ci], block[0] - p.last[ci]), AcPart(AcOf(scan, ci), block))
  }

  function ReadAcPart(ch: Channel, s: Coder, ac: AcParams, block: Block): (r: Parsed<Block>)
    requires ValidAc(ac)
  {
    if ac.limSe == 0 then Good(block, s) else ReadAc(ch, s, ac, block, 0)
  }

  function ReadBlock(ch: Channel, s: Coder, scan: Scan, p: Prediction, ci: nat): (r: Parsed<(Block, Prediction)>)
    requires Conditioned(scan) && ValidPrediction(scan, p) && ci < |scan.dcTbl|
    ensures r.Good? ==> ValidPrediction(scan, r.value.1)
  {
    match ReadDc(ch, s, scan.dcTbl[ci], p.ctx[ci])
    case Bad => Bad
    case Good(diff, s1) =>
      var p' := AfterDiff(scan, p, ci, diff);
      match ReadAcPart(ch, s1, AcOf(scan, ci), Zeroes()[0 := Jcoef(p'.last[ci])])
      case Bad => Bad
      case Good(block, s2) => Good((block, p'), s2)
  }

  lemma {:induction false} AcPartComesBack(ch: Channel, s: Coder, ac: AcParams, block: Block)
    requires ValidAc(ac) && Holds(ch, s, AcPart(ac, block))
    ensures ReadAcPart(ch, s, ac, Zeroes()[0 := block[0]])
         == Good(Partial(ac.order, block, ac.limSe + 1), After(ch, s, AcPart(ac, block)))
  {
    assert Partial(ac.order, block, 1) == Partial(ac.order, block, 0)[0 := block[0]];
    if ac.limSe > 0 {
      AcComesBack(ch, s, ac, block, 0, EndIndex(ac, block, ac.limSe));
    }
  }

  /** Whether the decoder can represent the DC difference of a block. */
  predicate FitsDc(p: Prediction, ci: nat, block: Block)
    requires ci < |p.last|
  {
    Abs(block[0] - p.last[ci]) <= 0x8000
  }

  lemma {:induction false} BlockComesBack(ch: Channel, s: Coder, scan: Scan, p: Prediction, ci: nat, block: Block)
    requires Conditioned(scan) && ValidPrediction(scan, p) && ci < |scan.dcTbl|
    requires Holds(ch, s, BlockDecisions(scan, p, ci, block))
    ensures ReadBlock(ch, s, scan, p, ci)
         == if FitsDc(p, ci, block) then Good((Sent(scan, block), AfterDiff(scan, p, ci, block[0] - p.last[ci])),
                                              After(ch, s, BlockDecisions(scan, p, ci, block)))
            else Bad
  {
    var tbl, diff := scan.dcTbl[ci], block[0] - p.last[ci];
    var dc := DcDecisions(tbl, p.ctx[ci], diff);
    DcComesBack(ch, s, tbl, p.ctx[ci], diff);
    if FitsDc(p, ci, block) {
      AcPartComesBack(ch, After(ch, s, dc), AcOf(scan, ci), block);
    }
  }

  // ---- MCUs: the first n blocks ----

  function AfterBlocks(scan: Scan, p: Prediction, mcu: Mcu, n: nat): (r: Prediction)
    requires Conditioned(scan) && ValidPrediction(scan, p) && IsMcu(scan, mcu) && n <= |mcu|
    ensures ValidPrediction(scan, r)
  {
    if n == 0 then p
    else
      var p', ci := AfterBlocks(scan, p, mcu, n - 1), scan.membership[n - 1];
      AfterDiff(scan, p', ci, mcu[n - 1][0] - p'.last[ci])
  }

  function BlocksDecisions(scan: Scan, p: Prediction, mcu: Mcu, n: nat): (plan: Plan)
    requires Conditioned(scan) && ValidPrediction(scan, p) && IsMcu(scan, mcu) && n <= |mcu|
  {
    if n == 0 then Done else Both(BlocksDecisions(scan, p, mcu, n - 1), LastBlock(scan, p, mcu, n))
  }

  /** Block n - 1 after the ones before it. */
  function LastBlock(scan: Scan, p: Prediction, mcu: Mcu, n: nat): (plan: Plan)
    requires Conditioned(scan) && ValidPrediction(scan, p) && IsMcu(scan, mcu) && 0 < n <= |mcu|
  {
    BlockDecisions(scan, AfterBlocks(scan, p, mcu, n - 1), scan.membership[n - 1], mcu[n - 1])
  }

  predicate FitsBlocks(scan: Scan, p: Prediction, mcu: Mcu, n: nat)
    requires Conditioned(scan) && ValidPrediction(scan, p) && IsMcu(scan, mcu) && n <= |mcu|
  {
    n == 0 || (FitsBlocks(scan, p, mcu, n - 1)
               && FitsDc(AfterBlocks(scan, p, mcu, n - 1), scan.membership[n - 1], mcu[n - 1]))
  }

  function ReadBlocks(ch: Channel, s: Coder, scan: Scan, p: Prediction, n: nat): (r: Parsed<(Mcu, Prediction)>)
    requires Conditioned(scan) && ValidPrediction(scan, p) && n <= |scan.membership|
    ensures r.Good? ==> |r.value.0| == n && ValidPrediction(scan, r.value.1)
  {
    if n == 0 then Good(([], p), s)
    else
      match ReadBlocks(ch, s, scan, p, n - 1)
      case Bad => Bad
      case Good((blocks, p1), s1) =>
        match ReadBlock(ch, s1, scan, p1, scan.membership[n - 1])
        case Bad => Bad
        case Good((block, p2), s2) => Good((blocks + [block], p2), s2)
  }

  /** Reading one block more. */
  lemma {:induction false} NextRead(ch: Channel, s: Coder, scan: Scan, p: Prediction, n: nat, blocks: Mcu, p1: Prediction, s1: Coder,
                                    r: Parsed<(Block, Prediction)>)
    requires Conditioned(scan) && ValidPrediction(scan, p) && 0 < n <= |scan.membership|
    requires ReadBlocks(ch, s, scan, p, n - 1) == Good((blocks, p1), s1)
    requires r == ReadBlock(ch, s1, scan, p1, scan.membership[n - 1])
    ensures ReadBlocks(ch, s, scan, p, n) == if r.Bad? then Bad else Good((blocks + [r.value.0], r.value.1), r.s)
  {
  }

  /** The next block of an MCU. */
  lemma {:induction false} NextBlockComesBack(ch: Channel, s: Coder, scan: Scan, p: Prediction, mcu: Mcu, n: nat, s1: Coder,
                                              blocks: Mcu, p1: Prediction)
    requires Conditioned(scan) && ValidPrediction(scan, p) && IsMcu(scan, mcu) && 0 < n <= |mcu|
    requires blocks == SentBlocks(scan, mcu, n - 1) && p1 == AfterBlocks(scan, p, mcu, n - 1)
    requires ReadBlocks(ch, s, scan, p, n - 1) == Good((blocks, p1), s1)
    requires Holds(ch, s1, LastBlock(scan, p, mcu, n))
    ensures ReadBlocks(ch, s, scan, p, n)
         == if FitsDc(p1, scan.membership[n - 1], mcu[n - 1])
            then Good((SentBlocks(scan, mcu, n), AfterBlocks(scan, p, mcu, n)), After(ch, s1, LastBlock(scan, p, mcu, n)))
            else Bad
  {
    var ci, block := scan.membership[n - 1], mcu[n - 1];
    NextRead(ch, s, scan, p, n, blocks, p1, s1, ReadBlock(ch, s1, scan, p1, ci));
    BlockComesBack(ch, s1, scan, p1, ci, block);
    assert AfterBlocks(scan, p, mcu, n) == AfterDiff(scan, p1, ci, block[0] - p1.last[ci]);
  }

  /** Decisions that hold for n blocks hold for the blocks but the last, and from there on for the last. */
  lemma {:induction false} BlocksHold(ch: Channel, s: Coder, scan: Scan, p: Prediction, mcu: Mcu, n: nat)
    requires Conditioned(scan) && ValidPrediction(scan, p) && IsMcu(scan, mcu) && 0 < n <= |mcu|
    requires Holds(ch, s, BlocksDecisions(scan, p, mcu, n))
    ensures Holds(ch, s, BlocksDecisions(scan, p, mcu, n - 1))
    ensures var s' := After(ch, s, BlocksDecisions(scan, p, mcu, n - 1));
            Holds(ch, s', LastBlock(scan, p, mcu, n)) && After(ch, s, BlocksDecisions(scan, p, mcu, n)) == After(ch, s', LastBlock(scan, p, mcu, n))
  {
  }

  lemma {:induction false} BlocksComeBack(ch: Channel, s: Coder, scan: Scan, p: Prediction, mcu: Mcu, n: nat)
    requires Conditioned(scan) && ValidPrediction(scan, p) && IsMcu(scan, mcu) && n <= |mcu|
    requires Holds(ch, s, BlocksDecisions(scan, p, mcu, n))
    ensures ReadBlocks(ch, s, scan, p, n)
         == if FitsBlocks(scan, p, mcu, n) then Good((SentBlocks(scan, mcu, n), AfterBlocks(scan, p, mcu, n)),
                                                     After(ch, s, BlocksDecisions(scan, p, mcu, n)))
            else Bad
  {
    if n > 0 {
      BlocksHold(ch, s, scan, p, mcu, n);
      BlocksComeBack(ch, s, scan, p, mcu, n - 1);
      if FitsBlocks(scan, p, mcu, n - 1) {
        NextBlockComesBack(ch, s, scan, p, mcu, n, After(ch, s, BlocksDecisions(scan, p, mcu, n - 1)),
                           SentBlocks(scan, mcu, n - 1), AfterBlocks(scan, p, mcu, n - 1));
      }
    }
  }

  // ---- The MCUs of one restart interval ----

  function AfterMcus(scan: Scan, mcus: seq<Mcu>, n: nat): (r: Prediction)
    requires Conditioned(scan) && AreMcus(scan, mcus) && n <= |mcus|
    ensures ValidPrediction(scan, r)
  {
    if n == 0 then NoPrediction(scan)
    else AfterBlocks(scan, AfterMcus(scan, mcus, n - 1), mcus[n - 1], |mcus[n - 1]|)
  }

  function McusDecisions(scan: Scan, mcus: seq<Mcu>, n: nat): (plan: Plan)
    requires Conditioned(scan) && AreMcus(scan, mcus) && n <= |mcus|
  {
    if n == 0 then Done else Both(McusDecisions(scan, mcus, n - 1), LastMcu(scan, mcus, n))
  }

  /** MCU n - 1 after the ones before it. */
  function LastMcu(scan: Scan, mcus: seq<Mcu>, n: nat): (plan: Plan)
    requires Conditioned(scan) && AreMcus(scan, mcus) && 0 < n <= |mcus|
  {
    BlocksDecisions(scan, AfterMcus(scan, mcus, n - 1), mcus[n - 1], |mcus[n - 1]|)
  }

  predicate FitsLast(scan: Scan, mcus: seq<Mcu>, n: nat)
    requires Conditioned(scan) && AreMcus(scan, mcus) && 0 < n <= |mcus|
  {
    FitsBlocks(scan, AfterMcus(scan, mcus, n - 1), mcus[n - 1], |mcus[n - 1]|)
  }

  /** Every DC difference of the interval fits. */
  predicate FitsMcus(scan: Scan, mcus: seq<Mcu>, n: nat)
    requires Conditioned(scan) && AreMcus(scan, mcus) && n <= |mcus|
  {
    n == 0 || (FitsMcus(scan, mcus, n - 1) && FitsLast(scan, mcus, n))
  }

  function ReadMcus(ch: Channel, s: Coder, scan: Scan, n: nat): (r: Parsed<(seq<Mcu>, Prediction)>)
    requires Conditioned(scan)
    ensures r.Good? ==> |r.value.0| == n && ValidPrediction(scan, r.value.1)
  {
    if n == 0 then Good(([], NoPrediction(scan)), s)
    else
      match ReadMcus(ch, s, scan, n - 1)
      case Bad => Bad
      case Good((mcus, p1), s1) =>
        match ReadBlocks(ch, s1, scan, p1, |scan.membership|)
        case Bad => Bad
        case Good((mcu, p2), s2) => Good((mcus + [mcu], p2), s2)
  }

  /** Only the first n MCUs of an interval matter to the n-th. */
  lemma {:induction false} SameFront(scan: Scan, mcus: seq<Mcu>, mcus': seq<Mcu>, n: nat)
    requires Conditioned(scan) && AreMcus(scan, mcus) && AreMcus(scan, mcus') && n <= |mcus| && n <= |mcus'|
    requires mcus[..n] == mcus'[..n]
    ensures AfterMcus(scan, mcus, n) == AfterMcus(scan, mcus', n)
    ensures McusDecisions(scan, mcus, n) == McusDecisions(scan, mcus', n)
    ensures FitsMcus(scan, mcus, n) == FitsMcus(scan, mcus', n)
  {
    if n > 0 {
      assert mcus[..n - 1] == mcus[..n][..n - 1] == mcus'[..n - 1];
      assert mcus[n - 1] == mcus[..n][n - 1] == mcus'[n - 1];
      SameFront(scan, mcus, mcus', n - 1);
    }
  }

  /** The next MCU of an interval. */
  lemma {:induction false} NextMcu(ch: Channel, s: Coder, scan: Scan, mcus: seq<Mcu>, n: nat, s1: Coder)
    requires Conditioned(scan) && AreMcus(scan, mcus) && 0 < n <= |mcus|
    requires ReadMcus(ch, s, scan, n - 1) == Good((SentMcus(scan, mcus, n - 1), AfterMcus(scan, mcus, n - 1)), s1)
    requires Holds(ch, s1, LastMcu(scan, mcus, n))
    ensures ReadMcus(ch, s, scan, n)
         == if FitsLast(scan, mcus, n) then Good((SentMcus(scan, mcus, n), AfterMcus(scan, mcus, n)), After(ch, s1, LastMcu(scan, mcus, n)))
            else Bad
  {
    BlocksComeBack(ch, s1, scan, AfterMcus(scan, mcus, n - 1), mcus[n - 1], |mcus[n - 1]|);
  }

  /** The MCUs of an interval come back, exactly when every DC difference fits; otherwise the decoder reports corrupt data. */
  lemma {:induction false} McusComeBack(ch: Channel, s: Coder, scan: Scan, mcus: seq<Mcu>, n: nat)
    requires Conditioned(scan) && AreMcus(scan, mcus) && n <= |mcus|
    requires Holds(ch, s, McusDecisions(scan, mcus, n))
    ensures ReadMcus(ch, s, scan, n)
         == if FitsMcus(scan, mcus, n) then Good((SentMcus(scan, mcus, n), AfterMcus(scan, mcus, n)),
                                                 After(ch, s, McusDecisions(scan, mcus, n)))
            else Bad
  {
    if n > 0 {
      McusHold(ch, s, scan, mcus, n);
      McusComeBack(ch, s, scan, mcus, n - 1);
      if FitsMcus(scan, mcus, n - 1) {
        NextMcu(ch, s, scan, mcus, n, After(ch, s, McusDecisions(scan, mcus, n - 1)));
      }
    }
  }

  /** Decisions that hold for an interval hold for its MCUs but the last, and from there on for the last. */
  lemma {:induction false} McusHold(ch: Channel, s: Coder, scan: Scan, mcus: seq<Mcu>, n: nat)
    requires Conditioned(scan) && AreMcus(scan, mcus) && 0 < n <= |mcus|
    requires Holds(ch, s, McusDecisions(scan, mcus, n))
    ensures Holds(ch, s, McusDecisions(scan, mcus, n - 1))
    ensures var s' := After(ch, s, McusDecisions(scan, mcus, n - 1));
            Holds(ch, s', LastMcu(scan, mcus, n)) && After(ch, s, McusDecisions(scan, mcus, n)) == After(ch, s', LastMcu(scan, mcus, n))
  {
  }

  /** Nothing is lost when blocks are zero beyond limSe; in particular for full-size blocks. */
  lemma {:induction false} NothingLost(scan: Scan, block: Block)
    requires Conditioned(scan)
    requires forall p :: 0 <= p < 64 && p !in scan.order[..scan.limSe + 1] ==> block[p] == 0
    ensures Sent(scan, block) == block
  {
    forall p | 0 <= p < 64
      ensures Sent(scan, block)[p] == block[p]
    {
      PartialAt(scan.order, block, scan.limSe + 1, p);
    }
  }
}
