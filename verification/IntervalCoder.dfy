/**
  The ideal adaptive binary arithmetic coder of ITU-T T.81 Annex D: an interval of unbounded
  precision, subdivided and renormalised, with no registers, carries or bytes.
*/
module IntervalCoder {
  import opened Numbers

  // ---- Probability estimation table: one packed integer per state ----

  function Qe(entry: nat): (r: nat) { entry / 65536 }
  function NextMps(entry: nat): (r: nat) { entry / 256 % 256 }
  /** Next index after an LPS; bit 7 says that the sense of the MPS is switched. */
  function NextLps(entry: nat): (r: nat) { entry % 256 }

  predicate ValidEntry(entry: nat)
  {
    0 < Qe(entry) < 0x8000 && NextMps(entry) < 114 && NextLps(entry) % 128 < 114
  }

  /** The last state stands for a fixed probability of one half: it is never left. */
  const FIXED_STATE: nat := 113

  predicate ValidTable(t: seq<nat>)
  {
    && |t| == 114 && (forall i :: 0 <= i < 114 ==> ValidEntry(t[i]))
    && NextMps(t[FIXED_STATE]) == NextLps(t[FIXED_STATE]) == FIXED_STATE
  }

  type Table = t: seq<nat> | ValidTable(t) witness seq(114, _ => 65536 + 256 * FIXED_STATE + FIXED_STATE)

  // ---- Statistics bins: bit 7 is the MPS, the low bits index the table ----

  datatype Bin = Dc(tbl: nat, index: nat) | Ac(tbl: nat, index: nat) | Fixed

  type Stats = map<Bin, nat>

  predicate ValidStats(stats: Stats)
  {
    forall b :: b in stats ==> stats[b] < 256 && stats[b] % 128 < 114
  }

  /** The fixed bin is in its state. */
  predicate Settled(stats: Stats) { Fixed in stats && stats[Fixed] == FIXED_STATE }

  predicate Mps(sv: nat) { sv >= 128 }

  /** `(sv & 0x80) ^ next`. */
  function Switch(sv: nat, next: nat): (r: nat)
    requires sv < 256 && next < 256
    ensures r < 256 && r % 128 == next % 128
    ensures Mps(r) == (Mps(sv) != Mps(next))
  {
    if sv < 128 then next else if next < 128 then next + 128 else next - 128
  }

  // ---- Intervals ----

  /** [base, base + a) in units of 2 to the power -(16 + shifts). */
  datatype Interval = Interval(base: nat, a: nat, shifts: nat)

  const WHOLE := Interval(0, 0x10000, 0)

  predicate Normal(iv: Interval) { 0x8000 <= iv.a <= 0x10000 }
  predicate Proper(iv: Interval) { 0 < iv.a <= 0x10000 }

  function Shift(iv: Interval): (r: Interval)
  {
    Interval(2 * iv.base, 2 * iv.a, iv.shifts + 1)
  }

  function Renorm(iv: Interval): (r: Interval)
    requires Proper(iv)
    ensures Normal(r)
    decreases 0x8000 - iv.a
  {
    if iv.a >= 0x8000 then iv else Renorm(Shift(iv))
  }

  function Split(iv: Interval, qe: nat, upper: bool): (r: Interval)
    requires qe < iv.a
    ensures 0 < qe && iv.a <= 0x10000 ==> Proper(r)
  {
    if upper then Interval(iv.base + iv.a - qe, qe, iv.shifts)
    else Interval(iv.base, iv.a - qe, iv.shifts)
  }

  // ---- Coding one decision ----

  datatype Coder = Coder(iv: Interval, stats: Stats)

  predicate ValidCoder(s: Coder) { Proper(s.iv) && ValidStats(s.stats) }
  predicate Ready(s: Coder) { Normal(s.iv) && ValidStats(s.stats) }

  function Renormed(s: Coder): (r: Coder)
    requires ValidCoder(s)
    ensures Ready(r)
  {
    s.(iv := Renorm(s.iv))
  }

  /** The LPS gets the upper part, unless that is the larger one: conditional exchange. */
  predicate TakesUpper(iv: Interval, qe: nat, lps: bool)
  {
    lps <==> iv.a >= 2 * qe
  }

  /** State estimation: it moves exactly when the chosen interval needs renormalisation. */
  function Adapt(sv: nat, entry: nat, lps: bool, a: nat): (r: nat)
    requires sv < 256
  {
    if a >= 0x8000 then sv else Switch(sv, if lps then NextLps(entry) else NextMps(entry))
  }

  /** Narrow the interval to the part of `bit` and re-estimate the bin, without renormalising. */
  function Narrow(tab: Table, s: Coder, bin: Bin, bit: bool): (r: Coder)
    requires Ready(s) && bin in s.stats
    ensures ValidCoder(r) && r.stats.Keys == s.stats.Keys && (Settled(s.stats) ==> Settled(r.stats))
  {
    var sv := s.stats[bin];
    var entry := tab[sv % 128];
    var lps := bit != Mps(sv);
    var iv := Split(s.iv, Qe(entry), TakesUpper(s.iv, Qe(entry), lps));
    Coder(iv, s.stats[bin := Adapt(sv, entry, lps, iv.a)])
  }

  function Encode(tab: Table, s: Coder, bin: Bin, bit: bool): (r: Coder)
    requires Ready(s) && bin in s.stats
    ensures Ready(r) && r.stats.Keys == s.stats.Keys && (Settled(s.stats) ==> Settled(r.stats))
  {
    Renormed(Narrow(tab, s, bin, bit))
  }

  // ---- Decoding one decision from a code string ----

  /** Bytes of code string needed to decide at a given precision. */
  function BytesFor(shifts: nat): (n: nat)
    ensures 8 * n >= 16 + shifts && 8 * n <= 16 + shifts + 7
  {
    (shifts + 23) / 8
  }

  /** Whether the code string (continued by zeros) lies at or above the split point. */
  predicate AtOrAbove(data: seq<byte>, iv: Interval, point: nat)
  {
    var n := BytesFor(iv.shifts);
    Val(Padded(data, n)) >= Shl(point, 8 * n - 16 - iv.shifts)
  }

  predicate DecodedBit(tab: Table, data: seq<byte>, s: Coder, bin: Bin)
    requires Ready(s) && bin in s.stats
  {
    var sv := s.stats[bin];
    var qe := Qe(tab[sv % 128]);
    var upper := AtOrAbove(data, s.iv, s.iv.base + s.iv.a - qe);
    if upper == TakesUpper(s.iv, qe, true) then !Mps(sv) else Mps(sv)
  }

  /** The decoder renormalises lazily, at the start of the next decision. */
  function Decode(tab: Table, data: seq<byte>, s: Coder, bin: Bin): (r: (bool, Coder))
    requires ValidCoder(s) && bin in s.stats
    ensures ValidCoder(r.1) && r.1.stats.Keys == s.stats.Keys && (Settled(s.stats) ==> Settled(r.1.stats))
  {
    var s' := Renormed(s);
    var bit := DecodedBit(tab, data, s', bin);
    (bit, Narrow(tab, s', bin, bit))
  }

  // ---- Sequences of decisions ----

  datatype Decision = Decision(bin: Bin, bit: bool)

  predicate Known(ds: seq<Decision>, stats: Stats)
  {
    forall d :: d in ds ==> d.bin in stats
  }

  /** The coder after a run of decisions. */
  function EncodeAll(tab: Table, s: Coder, ds: seq<Decision>): (r: Coder)
    requires Ready(s) && Known(ds, s.stats)
    ensures Ready(r) && r.stats.Keys == s.stats.Keys
  {
    if ds == [] then s
    else
      var d := ds[|ds| - 1];
      Encode(tab, EncodeAll(tab, s, ds[..|ds| - 1]), d.bin, d.bit)
  }

  /** Asked for the bins of `ds` in turn, the decoder answers with the bits of `ds`. */
  predicate Follows(tab: Table, data: seq<byte>, s: Coder, ds: seq<Decision>)
    requires ValidCoder(s)
    decreases |ds|
  {
    ds == [] ||
    (ds[0].bin in s.stats &&
     var r := Decode(tab, data, s, ds[0].bin);
     r.0 == ds[0].bit && Follows(tab, data, r.1, ds[1..]))
  }

  /** The decoder after being asked for the bins of `ds`. */
  function DecodeAll(tab: Table, data: seq<byte>, s: Coder, ds: seq<Decision>): (r: Coder)
    requires ValidCoder(s) && Known(ds, s.stats)
    ensures ValidCoder(r) && r.stats.Keys == s.stats.Keys
    decreases |ds|
  {
    if ds == [] then s
    else
      var d := ds[0];
      DecodeAll(tab, data, Decode(tab, data, s, d.bin).1, ds[1..])
  }

  /** The first n bytes of the code string point into the interval. */
  predicate Inside(data: seq<byte>, n: nat, iv: Interval)
  {
    8 * n >= 16 + iv.shifts &&
    var w := 8 * n - 16 - iv.shifts;
    Shl(iv.base, w) <= Val(Padded(data, n)) < Shl(iv.base + iv.a, w)
  }
}
