/**
  The decisions that stand for a block, written out bin by bin: section F.1.4 of ITU-T T.81 in plain numbers. Encoder
  and decoder follow the plans of Binarisation and McuCoding; these are the plans seen from outside.
*/
module DecisionLists {
  import opened Numbers
  import opened IntervalCoder
  import opened Binarisation
  import opened Blocks
  import opened McuCoding
  import opened Sequences

  // ---- Magnitudes ----

  /** To go on n times and then to stop, in successive bins of an area from bin `first` on. */
  function Steps(area: Area, first: nat, n: nat): (ds: seq<Decision>)
  {
    seq(n + 1, i requires 0 <= i => Decision(if area.DcArea? then Dc(area.tbl, first + i) else Ac(area.tbl, first + i), i < n))
  }

  /** The n low bits of v, high to low, all in one bin. */
  function LowBits(b: Bin, v: nat, n: nat): (ds: seq<Decision>)
  {
    seq(n, i requires 0 <= i < n => Decision(b, Shr(v, n - 1 - i) % 2 == 1))
  }

  lemma {:induction false} CategoryListed(area: Area, st: nat, u: nat, n: nat)
    requires Shl(1, n) <= u < Shl(1, n + 1)
    ensures u > 0 && Log(u) == n && Flatten(Category(area, st, u)) == Steps(area, st, n)
    decreases n
  {
    PowerPositive(n);
    if n > 0 {
      CategoryListed(area, st + 1, u / 2, n - 1);
      assert Steps(area, st, n) == [Decision(At(area, st), true)] + Steps(area, st + 1, n - 1);
    }
  }

  lemma {:induction false} PowerPositive(n: nat)
    ensures Shl(1, n) >= 1
  {
    if n > 0 {
      PowerPositive(n - 1);
    }
  }

  lemma {:induction false} PatternListed(b: Bin, v: nat, n: nat)
    requires Shl(1, n) <= v < Shl(1, n + 1)
    ensures Flatten(Pattern(b, v)) == LowBits(b, v, n)
    decreases n
  {
    if n > 0 {
      PatternListed(b, v / 2, n - 1);
      forall i | 0 <= i < n - 1 ensures LowBits(b, v, n)[i] == LowBits(b, v / 2, n - 1)[i] {
        ShrFront(v, n - 1 - i);
      }
      assert LowBits(b, v, n)[n - 1] == Decision(b, Shr(v, 0) % 2 == 1);
      assert LowBits(b, v, n) == LowBits(b, v / 2, n - 1) + [Decision(b, v % 2 == 1)];
    }
  }

  // ---- DC ----

  /** Figure F.4 for the difference 0, and for 1 and -1. */
  lemma {:induction false} SmallDcListed(tbl: nat, ctx: nat, diff: int)
    requires -1 <= diff <= 1
    ensures Flatten(DcDecisions(tbl, ctx, diff))
         == if diff == 0 then [Decision(Dc(tbl, ctx), false)]
            else [Decision(Dc(tbl, ctx), true), Decision(Dc(tbl, ctx + 1), diff < 0),
                  Decision(Dc(tbl, if diff > 0 then ctx + 2 else ctx + 3), false)]
  {
    if diff != 0 {
      TwoFirst(Decision(Dc(tbl, ctx), true), Decision(Dc(tbl, ctx + 1), diff < 0),
                 One(Decision(Dc(tbl, if diff > 0 then ctx + 2 else ctx + 3), false)));
    }
  }

  /** Two decisions and what follows. */
  lemma {:induction false} TwoFirst(d: Decision, e: Decision, p: Plan)
    ensures Flatten(Both(One(d), Both(One(e), p))) == [d, e] + Flatten(p)
  {
    assert Flatten(Both(One(e), p)) == [e] + Flatten(p);
    assert [d] + ([e] + Flatten(p)) == [d, e] + Flatten(p);
  }

  /**
    Figures F.4, F.6, F.8 and F.9 for all other differences, by the number v that is one less than the magnitude and has n bits
    below its leading one: nonzero, sign, not 1, the category from bin 20 on, and the bits in bin 34 + n.
  */
  lemma {:induction false} DcListed(tbl: nat, ctx: nat, diff: int, v: nat, n: nat)
    requires (diff == v + 1 || diff == -1 - v) && Shl(1, n) <= v < Shl(1, n + 1)
    ensures Flatten(DcDecisions(tbl, ctx, diff))
         == [Decision(Dc(tbl, ctx), true), Decision(Dc(tbl, ctx + 1), diff < 0),
             Decision(Dc(tbl, if diff > 0 then ctx + 2 else ctx + 3), true)]
            + Steps(DcArea(tbl), 20, n) + LowBits(Dc(tbl, 34 + n), v, n)
  {
    PowerPositive(n);
    CategoryListed(DcArea(tbl), 20, v, n);
    PatternListed(Dc(tbl, 34 + n), v, n);
    var st := if diff > 0 then ctx + 2 else ctx + 3;
    TwoFirst(Decision(Dc(tbl, ctx), true), Decision(Dc(tbl, ctx + 1), diff < 0), DcMagnitude(DcArea(tbl), st, v));
    assert Flatten(DcMagnitude(DcArea(tbl), st, v)) == [Decision(Dc(tbl, st), true)] + Flatten(Number(DcArea(tbl), 20, v, v));
  }

  /**
    Section F.1.4.4.1.2: the conditioning category that a difference leaves behind, by its size alone. It is small if its
    magnitude less one is below half of 2 to the power L, and large if its magnitude exceeds 2 to the power U.
  */
  lemma {:induction false} ContextBySize(lower: nat, upper: nat, diff: int)
    ensures NextContext(lower, upper, diff)
         == if diff == 0 || Abs(diff) - 1 < Shl(1, lower) / 2 then 0
            else if Abs(diff) <= Shl(1, upper) then (if diff > 0 then 4 else 8)
            else (if diff > 0 then 12 else 16)
  {
    if diff != 0 && Abs(diff) > 1 {
      var v := Abs(diff) - 1;
      TopBelow(v, lower);
      TopAbove(v, upper);
    } else {
      PowerPositive(upper);
    }
  }

  lemma {:induction false} LogIs(v: nat)
    requires v > 0
    ensures Shl(1, Log(v)) <= v < Shl(1, Log(v) + 1)
  {
    if v / 2 > 0 {
      LogIs(v / 2);
    }
  }

  lemma {:induction false} TopBelow(v: nat, n: nat)
    requires v > 0
    ensures Top(v) < Shl(1, n) / 2 <==> v < Shl(1, n) / 2
  {
    LogIs(v);
    if n > 0 {
      if Log(v) < n - 1 {
        ShlGrows(1, Log(v) + 1, n - 1);
      } else {
        ShlGrows(1, n - 1, Log(v));
      }
    }
  }

  lemma {:induction false} TopAbove(v: nat, n: nat)
    requires v > 0
    ensures Top(v) > Shl(1, n) / 2 <==> v >= Shl(1, n)
  {
    LogIs(v);
    PowerPositive(n);
    if Log(v) < n {
      ShlGrows(1, Log(v) + 1, n);
    } else {
      ShlGrows(1, n, Log(v));
    }
  }

  // ---- AC ----

  /** Figure F.7 for the coefficients 1, -1, 2 and -2 at place k. */
  lemma {:induction false} SmallCoefListed(p: AcParams, k: nat, v: int)
    requires k > 0 && (1 <= v <= 2 || -2 <= v <= -1)
    ensures Flatten(CoefDecisions(p, k, v))
         == [Decision(Fixed, v < 0)]
            + if v == 1 || v == -1 then [Decision(Ac(p.tbl, 3 * k - 1), false)]
              else [Decision(Ac(p.tbl, 3 * k - 1), true), Decision(Ac(p.tbl, 3 * k - 1), false)]
  {
    if v == 2 || v == -2 {
      TwoFirst(Decision(Fixed, v < 0), Decision(Ac(p.tbl, 3 * k - 1), true), One(Decision(Ac(p.tbl, 3 * k - 1), false)));
    }
  }

  /**
    Figures F.7 to F.9 for all other coefficients, by the number w that is one less than the magnitude and has n bits below its
    leading one: sign, neither 1 nor 2, the category from bin 189 or 217 on, and the bits 14 bins behind its end.
  */
  lemma {:induction false} CoefListed(p: AcParams, k: nat, v: int, w: nat, n: nat, x: nat)
    requires k > 0 && n > 0 && (v == w + 1 || v == -1 - w) && Shl(1, n) <= w < Shl(1, n + 1) && x == (if k <= p.kx then 189 else 217)
    ensures Flatten(CoefDecisions(p, k, v))
         == [Decision(Fixed, v < 0), Decision(Ac(p.tbl, 3 * k - 1), true), Decision(Ac(p.tbl, 3 * k - 1), true)]
            + Steps(AcArea(p.tbl), x, n - 1) + LowBits(Ac(p.tbl, x + n + 13), w, n)
  {
    PowerPositive(n - 1);
    CategoryListed(AcArea(p.tbl), x, w / 2, n - 1);
    PatternListed(Ac(p.tbl, x + n + 13), w, n);
    var d, e := Decision(Fixed, v < 0), Decision(Ac(p.tbl, 3 * k - 1), true);
    TwoFirst(d, e, AcLarge(AcArea(p.tbl), 3 * k - 1, x, w));
    assert Flatten(AcLarge(AcArea(p.tbl), 3 * k - 1, x, w)) == [e] + Flatten(Number(AcArea(p.tbl), x, w / 2, w));
    Regroup([d, e], [e], [], Steps(AcArea(p.tbl), x, n - 1), LowBits(Ac(p.tbl, x + n + 13), w, n));
    assert [d, e] + [e] + [] == [d, e, e];
  }

  /**
    What stands for place i of a block: at the first place and behind every nonzero coefficient, that the block goes on; then whether
    the coefficient is nonzero; and the coefficient, if it is.
  */
  function Place(p: AcParams, block: Block, i: nat): (ds: seq<Decision>)
    requires ValidAc(p) && 1 <= i < DCTSIZE2
  {
    var v := Coef(p, block, i);
    (if i == 1 || Coef(p, block, i - 1) != 0 then [Decision(Ac(p.tbl, 3 * (i - 1)), false)] else [])
    + [Decision(Ac(p.tbl, 3 * i - 2), v != 0)]
    + (if v != 0 then Flatten(CoefDecisions(p, i, v)) else [])
  }

  /** Places from i up to and including n. */
  function Places(p: AcParams, block: Block, i: nat, n: nat): (ds: seq<Decision>)
    requires ValidAc(p) && 1 <= i && n < DCTSIZE2
    decreases n + 1 - i
  {
    if i > n then [] else Place(p, block, i) + Places(p, block, i + 1, n)
  }

  /** Figure F.5: the places up to the last nonzero coefficient, and that nothing follows, unless the band is full. */
  lemma {:induction false} AcListed(p: AcParams, block: Block, ke: nat)
    requires ValidAc(p) && p.limSe > 0 && ke <= p.limSe && (ke > 0 ==> Coef(p, block, ke) != 0)
    requires forall i :: ke < i <= p.limSe ==> Coef(p, block, i) == 0
    ensures Flatten(AcPart(p, block)) == Places(p, block, 1, ke) + if ke < p.limSe then [Decision(Ac(p.tbl, 3 * ke), true)] else []
  {
    assert EndIndex(p, block, p.limSe) == ke by {
      EndIs(p, block, p.limSe, ke);
    }
    FromPlace(p, block, 0, ke);
  }

  lemma {:induction false} EndIs(p: AcParams, block: Block, n: nat, ke: nat)
    requires ValidAc(p) && ke <= n < DCTSIZE2 && (ke > 0 ==> Coef(p, block, ke) != 0)
    requires forall i :: ke < i <= n ==> Coef(p, block, i) == 0
    ensures EndIndex(p, block, n) == ke
  {
    if n > ke {
      EndIs(p, block, n - 1, ke);
    }
  }

  /** From behind a nonzero coefficient, or from the first place. */
  lemma {:induction false} FromPlace(p: AcParams, block: Block, k: nat, ke: nat)
    requires ValidAc(p) && k <= ke <= p.limSe && (k < ke ==> Coef(p, block, ke) != 0) && (k > 0 ==> Coef(p, block, k) != 0)
    ensures Flatten(AcDecisions(p, block, k, ke))
         == Places(p, block, k + 1, ke) + if ke < p.limSe then [Decision(Ac(p.tbl, 3 * ke), true)] else []
    decreases ke - k, 1
  {
    if k < ke {
      FromZero(p, block, k + 1, ke);
    }
  }

  lemma {:induction false} Regroup<T>(a: seq<T>, b: seq<T>, c: seq<T>, d: seq<T>, e: seq<T>)
    ensures a + (b + (c + (d + e))) == (a + b + c) + d + e
    ensures c == [] ==> a + (b + (d + e)) == (a + b + c) + d + e
  {
    Assoc(a, b, c + (d + e));
    Assoc(a + b, c, d + e);
    Assoc(a + b + c, d, e);
  }

  /** From a place in a run of zeros: that the block goes on has been said before. */
  lemma {:induction false} FromZero(p: AcParams, block: Block, k: nat, ke: nat)
    requires ValidAc(p) && 0 < k <= ke <= p.limSe && Coef(p, block, ke) != 0
    ensures (if k == 1 || Coef(p, block, k - 1) != 0 then [Decision(Ac(p.tbl, 3 * (k - 1)), false)] else [])
            + Flatten(RunDecisions(p, block, k, ke))
         == Places(p, block, k, ke) + if ke < p.limSe then [Decision(Ac(p.tbl, 3 * ke), true)] else []
    decreases ke - k + 1, 0
  {
    var v, rest, end := Coef(p, block, k), Places(p, block, k + 1, ke), if ke < p.limSe then [Decision(Ac(p.tbl, 3 * ke), true)] else [];
    var flag := [Decision(Ac(p.tbl, 3 * k - 2), v != 0)];
    if v == 0 {
      FromZero(p, block, k + 1, ke);
      var next := Flatten(RunDecisions(p, block, k + 1, ke));
      assert [] + next == next;
      assert Flatten(One(Decision(Ac(p.tbl, 3 * k - 2), false))) == flag;
      assert Flatten(RunDecisions(p, block, k, ke)) == flag + next;
      Assembled(p, block, k, ke, flag, [], rest, end, Flatten(RunDecisions(p, block, k, ke)));
    } else {
      FromPlace(p, block, k, ke);
      assert Flatten(Both(CoefDecisions(p, k, v), AcDecisions(p, block, k, ke))) == Flatten(CoefDecisions(p, k, v)) + (rest + end);
      assert Flatten(One(Decision(Ac(p.tbl, 3 * k - 2), true))) == flag;
      Assembled(p, block, k, ke, flag, Flatten(CoefDecisions(p, k, v)), rest, end, Flatten(RunDecisions(p, block, k, ke)));
    }
  }

  lemma {:induction false} Assembled(p: AcParams, block: Block, k: nat, n: nat, flag: seq<Decision>, coef: seq<Decision>, rest: seq<Decision>,
                                     end: seq<Decision>, run: seq<Decision>)
    requires ValidAc(p) && 1 <= k <= n < DCTSIZE2 && rest == Places(p, block, k + 1, n)
    requires flag == [Decision(Ac(p.tbl, 3 * k - 2), Coef(p, block, k) != 0)]
    requires coef == if Coef(p, block, k) != 0 then Flatten(CoefDecisions(p, k, Coef(p, block, k))) else []
    requires run == flag + (coef + (rest + end)) || (coef == [] && run == flag + (rest + end))
    ensures (if k == 1 || Coef(p, block, k - 1) != 0 then [Decision(Ac(p.tbl, 3 * (k - 1)), false)] else []) + run
         == Places(p, block, k, n) + end
  {
    var before := if k == 1 || Coef(p, block, k - 1) != 0 then [Decision(Ac(p.tbl, 3 * (k - 1)), false)] else [];
    Regroup(before, flag, coef, rest, end);
  }

  /** A block: its DC difference with the component's DC table, then its places with the component's AC table and that table's Kx. */
  lemma {:induction false} BlockListed(scan: Scan, p: Prediction, ci: nat, block: Block, ac: AcParams, ke: nat)
    requires Conditioned(scan) && ValidPrediction(scan, p) && ci < |scan.dcTbl| && ke <= scan.limSe
    requires ac == AcParams(scan.acTbl[ci], scan.kx[scan.acTbl[ci]], scan.limSe, scan.order)
    requires forall i :: ke < i <= scan.limSe ==> block[scan.order[i]] == 0
    requires ke > 0 ==> block[scan.order[ke]] != 0
    ensures Flatten(BlockDecisions(scan, p, ci, block))
         == Flatten(DcDecisions(scan.dcTbl[ci], p.ctx[ci], block[0] - p.last[ci]))
            + (Places(ac, block, 1, ke) + if ke < scan.limSe then [Decision(Ac(ac.tbl, 3 * ke), true)] else [])
  {
    if scan.limSe > 0 {
      forall i | ke < i <= scan.limSe ensures Coef(ac, block, i) == 0 {
      }
      AcListed(ac, block, ke);
    }
  }

  /** The prediction behind a block is its DC value, and the category that of its difference. */
  lemma {:induction false} PredictionBehind(scan: Scan, p: Prediction, mcu: Mcu, n: nat, q: Prediction)
    requires Conditioned(scan) && ValidPrediction(scan, p) && IsMcu(scan, mcu) && n < |mcu| && q == AfterBlocks(scan, p, mcu, n)
    ensures var ci, r := scan.membership[n], AfterBlocks(scan, p, mcu, n + 1);
            && r.last == q.last[ci := mcu[n][0]]
            && r.ctx == q.ctx[ci := NextContext(scan.lower[scan.dcTbl[ci]], scan.upper[scan.dcTbl[ci]], mcu[n][0] - q.last[ci])]
  {
  }
}
