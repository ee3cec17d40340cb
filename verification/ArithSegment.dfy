/** One restart interval through the arithmetic coder: MCUs to code string and back. */
module ArithSegment {
  import opened Numbers
  import opened IntervalCoder
  import opened ArithRoundTrip
  import opened Binarisation
  import opened Blocks
  import opened McuCoding
  import opened Opening

  /** Nothing has been learnt: every bin of the statistics areas is zero, and the fixed bin in the state that is never left. */
  ghost predicate Blank(stats: Stats)
  {
    Fixed in stats && forall b :: b in stats ==> stats[b] == if b == Fixed then 113 else 0
  }

  /** Statistics with all bins zero but for the fixed one. */
  function ZeroStats(fixed: nat): (stats: Stats)
    requires fixed < 256 && fixed % 128 < 114
    ensures ValidStats(stats) && Complete(stats) && stats[Fixed] == fixed
    ensures forall b :: b in stats && b != Fixed ==> stats[b] == 0
  {
    (map t: nat, i: nat | t < NUM_ARITH_TBLS && i < DC_STAT_BINS :: Dc(t, i) := 0)
    + (map t: nat, i: nat | t < NUM_ARITH_TBLS && i < AC_STAT_BINS :: Ac(t, i) := 0)
    + map[Fixed := fixed]
  }

  /** Statistics at the start of a scan: the fixed bin is in its state. */
  function FreshStats(): (stats: Stats)
    ensures ValidStats(stats) && Complete(stats) && Settled(stats) && Blank(stats)
  {
    ZeroStats(FIXED_STATE)
  }

  /** At a restart the statistics areas are zeroed and the fixed bin is left alone. That amounts to starting afresh. */
  function ClearedStats(stats: Stats): (r: Stats)
    requires ValidStats(stats) && Complete(stats)
    ensures ValidStats(r) && Complete(r) && r[Fixed] == stats[Fixed]
    ensures forall b :: b in r && b != Fixed ==> r[b] == 0
    ensures Settled(stats) ==> r == FreshStats()
  {
    ZeroStats(stats[Fixed])
  }

  function Start(): (s: Coder)
    ensures Usable(s)
  {
    Coder(WHOLE, FreshStats())
  }

  // ---- Encoding a plan ----

  predicate InBounds(p: Plan)
  {
    match p
    case Done => true
    case One(d) => Allocated(d.bin)
    case Both(a, b) => InBounds(a) && InBounds(b)
  }

  ghost predicate Usable(s: Coder) { Ready(s) && Complete(s.stats) && Settled(s.stats) }

  ghost function EncodePlan(tab: Table, s: Coder, p: Plan): (r: Coder)
    requires Usable(s) && InBounds(p)
    ensures Usable(r)
    decreases p
  {
    match p
    case Done => s
    case One(d) => Encode(tab, s, d.bin, d.bit)
    case Both(a, b) => EncodePlan(tab, EncodePlan(tab, s, a), b)
  }

  /** An encoder seen from outside: given a decision it moves to another state. */
  type Writer = (Coder, Decision) -> Coder

  /** The state after the decisions of a plan. */
  function Written(w: Writer, s: Coder, p: Plan): (r: Coder)
    decreases p
  {
    match p
    case Done => s
    case One(d) => w(s, d)
    case Both(a, b) => Written(w, Written(w, s, a), b)
  }

  /** In this state and for this decision the writer is the arithmetic coder. */
  ghost predicate IsArithmetic(w: Writer, tab: Table, s: Coder, d: Decision)
  {
    Usable(s) && Allocated(d.bin) ==> w(s, d) == Encode(tab, s, d.bin, d.bit)
  }

  ghost predicate AlwaysArithmetic(w: Writer, tab: Table)
  {
    forall s, d {:trigger IsArithmetic(w, tab, s, d)} :: IsArithmetic(w, tab, s, d)
  }

  lemma {:induction false} WrittenPlan(w: Writer, tab: Table, s: Coder, p: Plan)
    requires AlwaysArithmetic(w, tab) && Usable(s) && InBounds(p)
    ensures Written(w, s, p) == EncodePlan(tab, s, p)
    decreases p
  {
    match p
    case Done =>
    case One(d) =>
      assert IsArithmetic(w, tab, s, d);
    case Both(a, b) =>
      WrittenPlan(w, tab, s, a);
      WrittenPlan(w, tab, EncodePlan(tab, s, a), b);
  }

  lemma {:induction false} EncodeAllConcat(tab: Table, s: Coder, a: seq<Decision>, b: seq<Decision>)
    requires Ready(s) && Known(a, s.stats) && Known(b, s.stats)
    ensures Known(a + b, s.stats)
    ensures EncodeAll(tab, s, a + b) == EncodeAll(tab, EncodeAll(tab, s, a), b)
  {
    if b == [] {
      assert a + b == a;
    } else {
      var init, d := b[..|b| - 1], b[|b| - 1];
      assert b == init + [d];
      assert a + b == (a + init) + [d];
      EncodeAllConcat(tab, s, a, init);
      EncodeAllSnoc(tab, s, a + init, d);
      EncodeAllSnoc(tab, EncodeAll(tab, s, a), init, d);
    }
  }

  lemma {:induction false} EncodeAllSnoc(tab: Table, s: Coder, a: seq<Decision>, d: Decision)
    requires Ready(s) && Known(a, s.stats) && d.bin in s.stats
    ensures Known(a + [d], s.stats)
    ensures EncodeAll(tab, s, a + [d]) == Encode(tab, EncodeAll(tab, s, a), d.bin, d.bit)
  {
    assert (a + [d])[..|a|] == a;
  }

  lemma {:induction false} PlanAsSequence(tab: Table, s: Coder, p: Plan)
    requires Usable(s) && InBounds(p)
    ensures Known(Flatten(p), s.stats) && EncodeAll(tab, s, Flatten(p)) == EncodePlan(tab, s, p)
    decreases p
  {
    match p
    case Done =>
    case One(d) =>
      assert [d][..0] == [];
    case Both(a, b) =>
      PlanAsSequence(tab, s, a);
      PlanAsSequence(tab, EncodePlan(tab, s, a), b);
      EncodeAllConcat(tab, s, Flatten(a), Flatten(b));
  }

  // ---- The arithmetic decoder as a channel ----

  ghost predicate Able(s: Coder) { ValidCoder(s) && Complete(s.stats) && Settled(s.stats) }

  /** The decoder reading a code string, asked one bin at a time. */
  ghost function Arithmetic(tab: Table, data: seq<byte>): Channel
  {
    (s: Coder, b: Bin) => if Able(s) && Allocated(b) then Decode(tab, data, s, b) else (false, s)
  }

  lemma {:induction false} FollowerHolds(tab: Table, data: seq<byte>, t: Coder, p: Plan)
    requires Able(t) && Follows(tab, data, t, Flatten(p))
    ensures Holds(Arithmetic(tab, data), t, p) && Able(After(Arithmetic(tab, data), t, p))
    ensures Known(Flatten(p), t.stats)
    ensures After(Arithmetic(tab, data), t, p) == DecodeAll(tab, data, t, Flatten(p))
    decreases p
  {
    match p
    case Done =>
    case One(d) =>
      assert [d][1..] == [];
    case Both(a, b) =>
      FollowsSplit(tab, data, t, Flatten(a), Flatten(b));
      FollowerHolds(tab, data, t, a);
      FollowerHolds(tab, data, DecodeAll(tab, data, t, Flatten(a)), b);
      DecodeAllConcat(tab, data, t, Flatten(a), Flatten(b));
  }

  lemma {:induction false} DecodeAllConcat(tab: Table, data: seq<byte>, t: Coder, a: seq<Decision>, b: seq<Decision>)
    requires ValidCoder(t) && Known(a, t.stats) && Known(b, t.stats)
    ensures Known(a + b, t.stats)
    ensures DecodeAll(tab, data, t, a + b) == DecodeAll(tab, data, DecodeAll(tab, data, t, a), b)
    decreases |a|
  {
    if a == [] {
      assert a + b == b;
    } else {
      assert (a + b)[1..] == a[1..] + b;
      DecodeAllConcat(tab, data, Decode(tab, data, t, a[0].bin).1, a[1..], b);
    }
  }

  /** Any plan: from a code string inside the encoder's final interval the decoder gives back the plan's bits. */
  lemma {:induction false} PlanComesBack(tab: Table, data: seq<byte>, n: nat, s: Coder, p: Plan)
    requires Usable(s) && InBounds(p) && Inside(data, n, EncodePlan(tab, s, p).iv)
    ensures Holds(Arithmetic(tab, data), s, p)
    ensures var t := After(Arithmetic(tab, data), s, p);
            ValidCoder(t) && Renormed(t) == EncodePlan(tab, s, p)
  {
    PlanAsSequence(tab, s, p);
    assert Renormed(s) == s;
    DecoderFollowsEncoder(tab, data, n, s, Flatten(p));
    FollowerHolds(tab, data, s, p);
  }

  // ---- Every bin that the encoder uses is in range ----

  lemma {:induction false} LogAtMost(u: nat, k: nat)
    requires 0 < u < 0x10000 && k == 15
    ensures Log(u) <= k
  {
    LogBound(u, k);
    Shl16(1, k + 1);
  }

  lemma {:induction false} CategoryInBounds(area: Area, st: nat, u: nat)
    requires area.tbl < NUM_ARITH_TBLS && u > 0 && st + Log(u) < Bins(area)
    ensures InBounds(Category(area, st, u))
    decreases u
  {
    if u / 2 != 0 {
      CategoryInBounds(area, st + 1, u / 2);
    }
  }

  lemma {:induction false} PatternInBounds(b: Bin, v: nat)
    requires Allocated(b)
    ensures InBounds(Pattern(b, v))
  {
    if v / 2 != 0 {
      PatternInBounds(b, v / 2);
    }
  }

  lemma {:induction false} NumberInBounds(area: Area, st: nat, u: nat, v: nat)
    requires area.tbl < NUM_ARITH_TBLS && u > 0 && st + Log(u) + 14 < Bins(area)
    ensures InBounds(Number(area, st, u, v))
  {
    CategoryInBounds(area, st, u);
    PatternInBounds(At(area, st + Log(u) + 14), v);
  }

  lemma {:induction false} DcInBounds(tbl: nat, ctx: nat, diff: int)
    requires tbl < NUM_ARITH_TBLS && ctx <= 16 && Abs(diff) <= 0xFFFF
    ensures InBounds(DcDecisions(tbl, ctx, diff))
  {
    if diff != 0 && Abs(diff) - 1 != 0 {
      LogAtMost(Abs(diff) - 1, 15);
      NumberInBounds(DcArea(tbl), 20, Abs(diff) - 1, Abs(diff) - 1);
    }
    if diff != 0 {
      assert InBounds(DcMagnitude(DcArea(tbl), ctx + (if diff > 0 then 2 else 3), Abs(diff) - 1));
    }
  }

  lemma {:induction false} CoefInBounds(p: AcParams, k: nat, v: int)
    requires ValidAc(p) && 0 < k < DCTSIZE2 && v != 0 && -0x8000 <= v < 0x8000
    ensures InBounds(CoefDecisions(p, k, v))
  {
    var m, x := Abs(v) - 1, if k <= p.kx then 189 else 217;
    if m / 2 != 0 {
      FifteenBits(m, 14);
      NumberInBounds(AcArea(p.tbl), x, m / 2, m);
    }
    if m != 0 {
      assert InBounds(AcLarge(AcArea(p.tbl), 3 * k - 1, x, m));
    }
    assert InBounds(AcMagnitude(AcArea(p.tbl), 3 * k - 1, x, m));
  }

  lemma {:induction false} AcInBounds(p: AcParams, block: Block, k: nat, ke: nat)
    requires ValidAc(p) && k <= ke <= p.limSe && (k < ke ==> Coef(p, block, ke) != 0)
    ensures InBounds(AcDecisions(p, block, k, ke))
    decreases ke - k, 1
  {
    if k < ke {
      RunInBounds(p, block, k + 1, ke);
    }
  }

  lemma {:induction false} RunInBounds(p: AcParams, block: Block, k: nat, ke: nat)
    requires ValidAc(p) && 0 < k <= ke <= p.limSe && Coef(p, block, ke) != 0
    ensures InBounds(RunDecisions(p, block, k, ke))
    decreases ke - k + 1, 0
  {
    var v := Coef(p, block, k);
    if v == 0 {
      RunInBounds(p, block, k + 1, ke);
    } else {
      CoefInBounds(p, k, v);
      AcInBounds(p, block, k, ke);
    }
  }

  /** DC predictions are values of the 16-bit coefficient type. */
  predicate Jpeg16(p: Prediction)
  {
    forall i :: 0 <= i < |p.last| ==> -0x8000 <= p.last[i] < 0x8000
  }

  lemma {:induction false} BlockInBounds(scan: Scan, p: Prediction, ci: nat, block: Block)
    requires Conditioned(scan) && ValidPrediction(scan, p) && ci < |scan.dcTbl| && Jpeg16(p)
    ensures InBounds(BlockDecisions(scan, p, ci, block))
    ensures Jpeg16(AfterDiff(scan, p, ci, block[0] - p.last[ci]))
  {
    DcInBounds(scan.dcTbl[ci], p.ctx[ci], block[0] - p.last[ci]);
    var ac := AcOf(scan, ci);
    AcInBounds(ac, block, 0, EndIndex(ac, block, ac.limSe));
  }

  lemma {:induction false} BlocksInBounds(scan: Scan, p: Prediction, mcu: Mcu, n: nat)
    requires Conditioned(scan) && ValidPrediction(scan, p) && IsMcu(scan, mcu) && n <= |mcu| && Jpeg16(p)
    ensures InBounds(BlocksDecisions(scan, p, mcu, n)) && Jpeg16(AfterBlocks(scan, p, mcu, n))
  {
    if n > 0 {
      BlocksInBounds(scan, p, mcu, n - 1);
      BlockInBounds(scan, AfterBlocks(scan, p, mcu, n - 1), scan.membership[n - 1], mcu[n - 1]);
    }
  }

  /** Whatever the coefficients, an encoder stays inside its statistics areas. */
  lemma {:induction false} McusInBounds(scan: Scan, mcus: seq<Mcu>, n: nat)
    requires Conditioned(scan) && AreMcus(scan, mcus) && n <= |mcus|
    ensures InBounds(McusDecisions(scan, mcus, n)) && Jpeg16(AfterMcus(scan, mcus, n))
  {
    if n > 0 {
      McusInBounds(scan, mcus, n - 1);
      BlocksInBounds(scan, AfterMcus(scan, mcus, n - 1), mcus[n - 1], |mcus[n - 1]|);
    }
  }

  // ---- The whole interval ----

  /** The code string points into the interval. */
  ghost predicate Hits(code: seq<byte>, iv: Interval)
  {
    forall x {:trigger Look(Target, x)} :: Look(Target, x) ==> exists n :: Inside(code, n, iv)
  }

  ghost predicate LeadsTo(tab: Table, plan: Plan, code: seq<byte>)
  {
    InBounds(plan) && Hits(code, EncodePlan(tab, Start(), plan).iv)
  }

  /** A code string for the MCUs of one restart interval: it points into the interval that their decisions lead to. */
  ghost predicate CodeFor(tab: Table, scan: Scan, mcus: seq<Mcu>, code: seq<byte>)
  {
    forall x {:trigger Look(Code, x)} :: Look(Code, x) ==>
      Conditioned(scan) && AreMcus(scan, mcus) && LeadsTo(tab, McusDecisions(scan, mcus, |mcus|), code)
  }

  lemma {:induction false} HoldsFront(ch: Channel, s: Coder, scan: Scan, mcus: seq<Mcu>, n: nat, m: nat)
    requires Conditioned(scan) && AreMcus(scan, mcus) && n <= m <= |mcus| && Holds(ch, s, McusDecisions(scan, mcus, m))
    ensures Holds(ch, s, McusDecisions(scan, mcus, n))
    decreases m
  {
    if n < m {
      HoldsFront(ch, s, scan, mcus, n, m - 1);
    }
  }

  /**
    From any code string for some MCUs the decoder rebuilds the MCUs, as far as the scan transmits them,
    up to the first DC difference of magnitude above 2 to the power 15, where it reports corrupt data.
  */
  lemma {:induction false} IntervalRoundTrip(tab: Table, scan: Scan, mcus: seq<Mcu>, code: seq<byte>, n: nat)
    requires Conditioned(scan) && AreMcus(scan, mcus) && CodeFor(tab, scan, mcus, code) && n <= |mcus|
    ensures var r := ReadMcus(Arithmetic(tab, code), Start(), scan, n);
            if FitsMcus(scan, mcus, n) then r.Good? && r.value.0 == SentMcus(scan, mcus, n) else r.Bad?
  {
    var plan := McusDecisions(scan, mcus, |mcus|);
    assert Look(Code, 0) && Look(Target, 0);
    var k :| Inside(code, k, EncodePlan(tab, Start(), plan).iv);
    PlanComesBack(tab, code, k, Start(), plan);
    HoldsFront(Arithmetic(tab, code), Start(), scan, mcus, n, |mcus|);
    McusComeBack(Arithmetic(tab, code), Start(), scan, mcus, n);
  }
}
