/**
  Coefficients as sequences of binary decisions, and back: sections F.1.4 and F.2.4 of ITU-T T.81, as
  coded by encode_mcu and decode_mcu in jcarith.c and jdarith.c. The decoder side is given for any data.
*/
module Binarisation {
  import opened Numbers
  import opened IntervalCoder

  const DC_STAT_BINS := 64
  const AC_STAT_BINS := 256
  const NUM_ARITH_TBLS := 16

  // ---- Statistics areas ----

  /** One table of bins, of which `At` picks a bin. */
  datatype Area = DcArea(tbl: nat) | AcArea(tbl: nat)

  function At(area: Area, i: nat): (b: Bin)
  {
    match area
    case DcArea(t) => Dc(t, i)
    case AcArea(t) => Ac(t, i)
  }

  predicate Allocated(b: Bin)
  {
    match b
    case Dc(t, i) => t < NUM_ARITH_TBLS && i < DC_STAT_BINS
    case Ac(t, i) => t < NUM_ARITH_TBLS && i < AC_STAT_BINS
    case Fixed => true
  }

  function Bins(area: Area): (n: nat)
  {
    if area.DcArea? then DC_STAT_BINS else AC_STAT_BINS
  }

  /** There is a bin for every index of every table and no other, so that reading a bin checks the index. */
  ghost predicate Complete(stats: Stats)
  {
    forall b :: b in stats <==> Allocated(b)
  }

  // ---- A channel that answers one decision at a time ----

  /** Asked for a bin, a channel in some state answers with a bit and its next state. */
  type Channel = (Coder, Bin) -> (bool, Coder)

  /** What a decoding routine returns: a value and the state of the channel, or the verdict that the data is corrupt. */
  datatype Parsed<T> = Bad | Good(value: T, s: Coder)

  /** Only allocated bins are ever asked for. */
  function Ask(ch: Channel, s: Coder, b: Bin): (r: (bool, Coder))
    requires Allocated(b)
  {
    ch(s, b)
  }

  // ---- Decisions in sequence ----

  /** Decisions to be coded one after the other. */
  datatype Plan = Done | One(d: Decision) | Both(first: Plan, second: Plan)

  function Flatten(p: Plan): (ds: seq<Decision>)
  {
    match p
    case Done => []
    case One(d) => [d]
    case Both(a, b) => Flatten(a) + Flatten(b)
  }

  /** The state of the channel once the bins of a plan have been asked for. */
  function After(ch: Channel, s: Coder, p: Plan): (r: Coder)
    decreases p
  {
    match p
    case Done => s
    case One(d) => ch(s, d.bin).1
    case Both(a, b) => After(ch, After(ch, s, a), b)
  }

  /** The channel will answer the bins of a plan with its bits. */
  predicate Holds(ch: Channel, s: Coder, p: Plan)
    decreases p
  {
    match p
    case Done => true
    case One(d) => Allocated(d.bin) && ch(s, d.bin).0 == d.bit
    case Both(a, b) => Holds(ch, s, a) && Holds(ch, After(ch, s, a), b)
  }

  lemma {:induction false} Next(ch: Channel, s: Coder, d: Decision, p: Plan)
    requires Holds(ch, s, Both(One(d), p))
    ensures Allocated(d.bin) && Ask(ch, s, d.bin).0 == d.bit
    ensures Holds(ch, Ask(ch, s, d.bin).1, p) && After(ch, s, Both(One(d), p)) == After(ch, Ask(ch, s, d.bin).1, p)
  {
  }

  // ---- Magnitudes ----

  /** floor(log2(u)). */
  function Log(u: nat): (n: nat)
    requires u > 0
  {
    if u / 2 == 0 then 0 else 1 + Log(u / 2)
  }

  lemma {:induction false} LogBound(u: nat, k: nat)
    requires u > 0
    ensures Log(u) <= k <==> u < 2 * Shl(1, k)
    decreases k
  {
    if k > 0 && u / 2 > 0 {
      LogBound(u / 2, k - 1);
    }
  }

  /** Fifteen bits of magnitude are the most that the decoder accepts. */
  lemma {:induction false} FifteenBits(u: nat, k: nat)
    requires u > 0 && k == 14
    ensures Log(u) <= k <==> u < 0x8000
  {
    LogBound(u, k);
    Shl16(1, k + 2);
  }

  /** Figure F.8: a unary magnitude category, one bin per step. */
  function Category(area: Area, st: nat, u: nat): (p: Plan)
    requires u > 0
    decreases u
  {
    if u / 2 == 0 then One(Decision(At(area, st), false))
    else Both(One(Decision(At(area, st), true)), Category(area, st + 1, u / 2))
  }

  /** Figure F.9: the bits of v below the leading one, high to low, all in one bin. */
  function Pattern(b: Bin, v: nat): (p: Plan)
  {
    if v / 2 == 0 then Done else Both(Pattern(b, v / 2), One(Decision(b, v % 2 == 1)))
  }

  /** Category and pattern of v, the category being that of u. */
  function Number(area: Area, st: nat, u: nat, v: nat): (p: Plan)
    requires u > 0
  {
    Both(Category(area, st, u), Pattern(At(area, st + Log(u) + 14), v))
  }

  /** Magnitude of a nonzero DC difference, less one. */
  function DcMagnitude(area: Area, st: nat, v: nat): (p: Plan)
  {
    if v == 0 then One(Decision(At(area, st), false))
    else Both(One(Decision(At(area, st), true)), Number(area, 20, v, v))
  }

  /** Magnitude of a nonzero AC coefficient, less one; `x` is 189 for low and 217 for high frequencies. */
  function AcMagnitude(area: Area, st: nat, x: nat, v: nat): (p: Plan)
  {
    if v == 0 then One(Decision(At(area, st), false))
    else Both(One(Decision(At(area, st), true)), AcLarge(area, st, x, v))
  }

  function AcLarge(area: Area, st: nat, x: nat, v: nat): (p: Plan)
    requires v > 0
  {
    if v / 2 == 0 then One(Decision(At(area, st), false))
    else Both(One(Decision(At(area, st), true)), Number(area, x, v / 2, v))
  }

  /**
    Figure F.23: read a category, starting from m = 2 to the power e and doubling; 2 to the power 15 is an
    overflow. Returns the bin index and the exponent reached.
  */
  function ReadCategory(ch: Channel, s: Coder, area: Area, st: nat, e: nat): (r: Parsed<(nat, nat)>)
    requires area.tbl < NUM_ARITH_TBLS && e <= 14 && st + 28 < Bins(area) + e
    ensures r.Good? ==> r.value.0 + 14 < Bins(area) && r.value.1 <= 14
    decreases 14 - e
  {
    var (bit, s1) := Ask(ch, s, At(area, st));
    if !bit then Good((st, e), s1)
    else if e == 14 then Bad
    else ReadCategory(ch, s1, area, st + 1, e + 1)
  }

  /** Figure F.24: a leading one and j bits behind it. */
  function ReadPattern(ch: Channel, s: Coder, b: Bin, j: nat): (r: (nat, Coder))
    requires Allocated(b)
  {
    if j == 0 then (1, s)
    else
      var (v, s1) := ReadPattern(ch, s, b, j - 1);
      var (bit, s2) := Ask(ch, s1, b);
      (2 * v + (if bit then 1 else 0), s2)
  }

  /** A category and the pattern that it announces. */
  function ReadNumber(ch: Channel, s: Coder, area: Area, st: nat, e: nat): (r: Parsed<nat>)
    requires area.tbl < NUM_ARITH_TBLS && e <= 14 && st + 28 < Bins(area) + e
  {
    match ReadCategory(ch, s, area, st, e)
    case Bad => Bad
    case Good((st', e'), s1) =>
      var (v, s2) := ReadPattern(ch, s1, At(area, st' + 14), e');
      Good(v, s2)
  }

  function ReadDcMagnitude(ch: Channel, s: Coder, area: Area, st: nat): (r: Parsed<nat>)
    requires area.DcArea? && area.tbl < NUM_ARITH_TBLS && st < 20
  {
    var (more, s1) := Ask(ch, s, At(area, st));
    if !more then Good(0, s1) else ReadNumber(ch, s1, area, 20, 0)
  }

  function ReadAcMagnitude(ch: Channel, s: Coder, area: Area, st: nat, x: nat): (r: Parsed<nat>)
    requires area.AcArea? && area.tbl < NUM_ARITH_TBLS && st < 189 && x <= 217
  {
    var (more, s1) := Ask(ch, s, At(area, st));
    if !more then Good(0, s1)
    else
      var (more2, s2) := Ask(ch, s1, At(area, st));
      if !more2 then Good(1, s2) else ReadNumber(ch, s2, area, x, 1)
  }

  // ---- Magnitudes come back, exactly when they fit ----

  lemma {:induction false} CategoryComesBack(ch: Channel, s: Coder, area: Area, st: nat, e: nat, u: nat)
    requires area.tbl < NUM_ARITH_TBLS && e <= 14 && st + 28 < Bins(area) + e && u > 0
    requires Holds(ch, s, Category(area, st, u))
    ensures ReadCategory(ch, s, area, st, e)
         == if e + Log(u) <= 14 then Good((st + Log(u), e + Log(u)), After(ch, s, Category(area, st, u))) else Bad
    decreases u
  {
    if u / 2 != 0 && e < 14 {
      CategoryComesBack(ch, Ask(ch, s, At(area, st)).1, area, st + 1, e + 1, u / 2);
    }
  }

  lemma {:induction false} PatternComesBack(ch: Channel, s: Coder, b: Bin, v: nat)
    requires Allocated(b) && v > 0 && Holds(ch, s, Pattern(b, v))
    ensures ReadPattern(ch, s, b, Log(v)) == (v, After(ch, s, Pattern(b, v)))
  {
    if v / 2 != 0 {
      PatternComesBack(ch, s, b, v / 2);
    }
  }

  /** A category from exponent e for the number u, and the pattern of a number v with e bits more. */
  lemma {:induction false} NumberComesBack(ch: Channel, s: Coder, area: Area, st: nat, e: nat, u: nat, v: nat)
    requires area.tbl < NUM_ARITH_TBLS && e <= 14 && st + 28 < Bins(area) + e
    requires u > 0 && v > 0 && Log(v) == e + Log(u)
    requires Holds(ch, s, Number(area, st, u, v))
    ensures ReadNumber(ch, s, area, st, e)
         == if v < 0x8000 then Good(v, After(ch, s, Number(area, st, u, v))) else Bad
  {
    CategoryComesBack(ch, s, area, st, e, u);
    FifteenBits(v, 14);
    if Log(v) <= 14 {
      PatternComesBack(ch, After(ch, s, Category(area, st, u)), At(area, st + Log(u) + 14), v);
    }
  }

  lemma {:induction false} DcMagnitudeComesBack(ch: Channel, s: Coder, area: Area, st: nat, v: nat)
    requires area.DcArea? && area.tbl < NUM_ARITH_TBLS && st < 20
    requires Holds(ch, s, DcMagnitude(area, st, v))
    ensures ReadDcMagnitude(ch, s, area, st)
         == if v < 0x8000 then Good(v, After(ch, s, DcMagnitude(area, st, v))) else Bad
  {
    if v != 0 {
      NumberComesBack(ch, Ask(ch, s, At(area, st)).1, area, 20, 0, v, v);
    }
  }

  lemma {:induction false} AcMagnitudeComesBack(ch: Channel, s: Coder, area: Area, st: nat, x: nat, v: nat)
    requires area.AcArea? && area.tbl < NUM_ARITH_TBLS && st < 189 && x <= 217
    requires Holds(ch, s, AcMagnitude(area, st, x, v))
    ensures ReadAcMagnitude(ch, s, area, st, x)
         == if v < 0x8000 then Good(v, After(ch, s, AcMagnitude(area, st, x, v))) else Bad
  {
    var d := Decision(At(area, st), true);
    if v != 0 {
      Next(ch, s, d, AcLarge(area, st, x, v));
      var s1 := Ask(ch, s, d.bin).1;
      if v / 2 != 0 {
        Next(ch, s1, d, Number(area, x, v / 2, v));
        NumberComesBack(ch, Ask(ch, s1, d.bin).1, area, x, 1, v / 2, v);
      }
    }
  }
}
