/** The decoder follows the encoder: decisions come back from any code string inside the final interval. */
module ArithRoundTrip {
  import opened Numbers
  import opened IntervalCoder

  lemma {:induction false} InsideShift(data: seq<byte>, n: nat, iv: Interval)
    requires Inside(data, n, Shift(iv))
    ensures Inside(data, n, iv)
  {
    ShlDouble(iv.base, 8 * n - 17 - iv.shifts);
    ShlDouble(iv.base + iv.a, 8 * n - 17 - iv.shifts);
  }

  lemma {:induction false} InsideRenorm(data: seq<byte>, n: nat, iv: Interval)
    requires Proper(iv) && Inside(data, n, Renorm(iv))
    ensures Inside(data, n, iv)
    decreases 0x8000 - iv.a
  {
    if iv.a < 0x8000 {
      InsideRenorm(data, n, Shift(iv));
      InsideShift(data, n, iv);
    }
  }

  /** Comparing with a multiple of a power of two needs only the floor. */
  lemma {:induction false} FloorCompare(x: nat, v: nat, point: nat, k: nat, g: nat)
    requires Shl(v, g) <= x < Shl(v + 1, g)
    ensures v >= Shl(point, k) <==> x >= Shl(point, k + g)
  {
    ShlShl(point, k, g);
    ShlLess(v, Shl(point, k), g);
    ShlLess(v + 1, Shl(point, k), g);
  }

  /** Comparing the code string at working precision or at any higher precision gives the same answer. */
  lemma {:induction false} PrecisionIrrelevant(data: seq<byte>, n: nat, iv: Interval, point: nat)
    requires 8 * n >= 16 + iv.shifts
    ensures AtOrAbove(data, iv, point) <==> Val(Padded(data, n)) >= Shl(point, 8 * n - 16 - iv.shifts)
  {
    var n0 := BytesFor(iv.shifts);
    var x, v, k, g := Val(Padded(data, n)), Val(Padded(data, n0)), 8 * n0 - 16 - iv.shifts, 8 * (n - n0);
    PrefixFloor(data, n0, n - n0);
    FloorCompare(x, v, point, k, g);
    assert k + g == 8 * n - 16 - iv.shifts;
  }

  /** A code string inside one part of a split interval is inside the whole, and the comparison says which part. */
  lemma {:induction false} InsideSplit(data: seq<byte>, n: nat, iv: Interval, qe: nat, upper: bool)
    requires qe < iv.a && Inside(data, n, Split(iv, qe, upper))
    ensures Inside(data, n, iv)
    ensures AtOrAbove(data, iv, iv.base + iv.a - qe) == upper
  {
    var w, point := 8 * n - 16 - iv.shifts, iv.base + iv.a - qe;
    PrecisionIrrelevant(data, n, iv, point);
    ShlLess(iv.base, point, w);
    ShlLess(point, iv.base + iv.a, w);
  }

  /** The comparison that tells the parts apart tells the bit. */
  lemma {:induction false} PartTellsBit(tab: Table, data: seq<byte>, s: Coder, bin: Bin, bit: bool, upper: bool)
    requires Ready(s) && bin in s.stats
    requires var qe := Qe(tab[s.stats[bin] % 128]);
             AtOrAbove(data, s.iv, s.iv.base + s.iv.a - qe) == upper == TakesUpper(s.iv, qe, bit != Mps(s.stats[bin]))
    ensures DecodedBit(tab, data, s, bin) == bit
  {
  }

  /** One decision: a code string inside the encoder's next interval makes the decoder return the encoded bit. */
  lemma {:induction false} DecodesWhatWasEncoded(tab: Table, data: seq<byte>, n: nat, s: Coder, bin: Bin, bit: bool)
    requires Ready(s) && bin in s.stats
    requires Inside(data, n, Encode(tab, s, bin, bit).iv)
    ensures Inside(data, n, s.iv)
    ensures DecodedBit(tab, data, s, bin) == bit
  {
    var sv := s.stats[bin];
    var qe := Qe(tab[sv % 128]);
    assert ValidEntry(tab[sv % 128]);
    var lps, next := bit != Mps(sv), Narrow(tab, s, bin, bit).iv;
    var upper := TakesUpper(s.iv, qe, lps);
    assert next == Split(s.iv, qe, upper);
    InsideRenorm(data, n, next);
    InsideSplit(data, n, s.iv, qe, upper);
    PartTellsBit(tab, data, s, bin, bit, upper);
  }

  lemma {:induction false} EncodeAllFront(tab: Table, s: Coder, d: Decision, ds: seq<Decision>)
    requires Ready(s) && Known([d] + ds, s.stats)
    ensures d in [d] + ds && Known(ds, s.stats)
    ensures EncodeAll(tab, s, [d] + ds) == EncodeAll(tab, Encode(tab, s, d.bin, d.bit), ds)
  {
    assert forall e :: e in ds ==> e in [d] + ds;
    if ds == [] {
      assert ([d] + ds)[..0] == [];
    } else {
      var init := ds[..|ds| - 1];
      assert ([d] + ds)[..|ds|] == [d] + init;
      assert forall e :: e in [d] + init ==> e in [d] + ds;
      EncodeAllFront(tab, s, d, init);
    }
  }

  lemma {:induction false} InsideRun(tab: Table, data: seq<byte>, n: nat, s: Coder, ds: seq<Decision>)
    requires Ready(s) && Known(ds, s.stats) && Inside(data, n, EncodeAll(tab, s, ds).iv)
    ensures Inside(data, n, s.iv)
  {
    if ds != [] {
      var d, init := ds[|ds| - 1], ds[..|ds| - 1];
      DecodesWhatWasEncoded(tab, data, n, EncodeAll(tab, s, init), d.bin, d.bit);
      InsideRun(tab, data, n, s, init);
    }
  }

  /** Any run of decisions: the decoder answers every bin of the run with the encoded bit and ends with the same bins. */
  lemma {:induction false} DecoderFollowsEncoder(tab: Table, data: seq<byte>, n: nat, t: Coder, ds: seq<Decision>)
    requires ValidCoder(t) && Known(ds, t.stats)
    requires Inside(data, n, EncodeAll(tab, Renormed(t), ds).iv)
    ensures Follows(tab, data, t, ds)
    ensures Renormed(DecodeAll(tab, data, t, ds)) == EncodeAll(tab, Renormed(t), ds)
    decreases |ds|
  {
    if ds != [] {
      var d, rest, s := ds[0], ds[1..], Renormed(t);
      assert ds == [d] + rest;
      EncodeAllFront(tab, s, d, rest);
      InsideRun(tab, data, n, Encode(tab, s, d.bin, d.bit), rest);
      DecodesWhatWasEncoded(tab, data, n, s, d.bin, d.bit);
      DecoderFollowsEncoder(tab, data, n, Narrow(tab, s, d.bin, d.bit), rest);
    }
  }

  /** A follower of a whole run follows its first part, and then the rest. */
  lemma {:induction false} FollowsSplit(tab: Table, data: seq<byte>, t: Coder, ds: seq<Decision>, es: seq<Decision>)
    requires ValidCoder(t) && Follows(tab, data, t, ds + es)
    ensures Known(ds, t.stats) && Follows(tab, data, t, ds)
    ensures Follows(tab, data, DecodeAll(tab, data, t, ds), es)
    decreases |ds|
  {
    if ds == [] {
      assert ds + es == es;
    } else {
      assert (ds + es)[1..] == ds[1..] + es;
      FollowsSplit(tab, data, Decode(tab, data, t, ds[0].bin).1, ds[1..], es);
    }
  }
}
