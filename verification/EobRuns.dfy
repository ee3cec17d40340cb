/**
  How long end-of-band runs are kept open: emit_eobrun and the end of encode_mcu_AC_refine of jchuff.c in plain numbers. Bands
  without newly nonzero coefficients share one symbol until the run has 32767 bands, or more than 937 correction bits.
*/
module EobRuns {
  import opened Numbers
  import opened BitStrings
  import opened HuffmanBlocks
  import opened Refinement

  /** A band that has coefficients, none of which becomes nonzero now. */
  predicate Quiet(cs: Band) { cs != [] && NoneNew(cs, 0, |cs|) }

  /** What the rest of a quiet band adds: zeros, and the correction bits of all nonzero coefficients. */
  lemma {:induction false} QuietRest(tbl: nat, bands: seq<Band>, i: nat, k: nat, r: nat, br: seq<bool>, e: nat, be: seq<bool>)
    requires i < |bands| && Quiet(bands[i]) && k <= |bands[i]|
    ensures CodeBand(tbl, bands, i, k, r, br, e, be)
         == CodeBand(tbl, bands, i, |bands[i]|, r + Zeros(bands[i], k, |bands[i]|), br + CorrectionBits(bands[i], k, |bands[i]|), e, be)
    decreases |bands[i]| - k
  {
    var cs := bands[i];
    if k < |cs| {
      FirstBit(cs, k, |cs|);
      if cs[k].m == 0 {
        assert [] + CorrectionBits(cs, k + 1, |cs|) == CorrectionBits(cs, k + 1, |cs|);
        QuietRest(tbl, bands, i, k + 1, r + 1, br, e, be);
      } else {
        var bit := [cs[k].m % 2 == 1];
        QuietRest(tbl, bands, i, k + 1, r, br + bit, e, be);
        assert (br + bit) + CorrectionBits(cs, k + 1, |cs|) == br + (bit + CorrectionBits(cs, k + 1, |cs|));
      }
    } else {
      assert br + [] == br;
    }
  }

  lemma {:induction false} SomethingAdded(cs: Band)
    requires Quiet(cs)
    ensures Zeros(cs, 0, |cs|) > 0 || CorrectionBits(cs, 0, |cs|) != []
  {
    assert cs[|cs| - 1].m != 1;
  }

  /** A quiet band joins the run; the run is written at once if it has 32767 bands then, or more than 937 correction bits. */
  lemma {:induction false} QuietBand(tbl: nat, bands: seq<Band>, i: nat, e: nat, be: seq<bool>, all: seq<bool>)
    requires i < |bands| && Quiet(bands[i]) && all == be + CorrectionBits(bands[i], 0, |bands[i]|)
    ensures CodeBlocks(tbl, bands, i, e, be)
         == if e + 1 == 32767 || |all| > 937 then Flush(tbl, e + 1, all, CodeBlocks(tbl, bands, i + 1, 0, []))
            else CodeBlocks(tbl, bands, i + 1, e + 1, all)
  {
    var cs := bands[i];
    QuietRest(tbl, bands, i, 0, 0, [], e, be);
    SomethingAdded(cs);
    assert [] + CorrectionBits(cs, 0, |cs|) == CorrectionBits(cs, 0, |cs|);
  }

  /** Quiet bands join the run, up to band n. */
  lemma {:induction false} QuietBands(tbl: nat, bands: seq<Band>, n: nat)
    requires n <= |bands| && n < 32767 && (forall i :: 0 <= i < n ==> Quiet(bands[i])) && |RunBits(bands, 0, 0, n)| <= 937
    ensures CodeBlocks(tbl, bands, 0, 0, []) == CodeBlocks(tbl, bands, n, n, RunBits(bands, 0, 0, n))
  {
    if n > 0 {
      QuietBands(tbl, bands, n - 1);
      QuietBand(tbl, bands, n - 1, n - 1, RunBits(bands, 0, 0, n - 1), RunBits(bands, 0, 0, n));
    }
  }

  /**
    Up to 32767 quiet bands with at most 937 correction bits are coded as one item: the symbol tells the number of bits of their
    number n below the leading one, and these bits and then the correction bits follow.
  */
  lemma {:induction false} OneItem(tbl: nat, bands: seq<Band>, n: nat, bits: nat)
    requires n == |bands| && 1 <= n <= 32767 && (forall i :: 0 <= i < n ==> Quiet(bands[i])) && |RunBits(bands, 0, 0, n)| <= 937
    requires Shl(1, bits) <= n < Shl(1, bits + 1)
    ensures CodeBlocks(tbl, bands, 0, 0, []) == Item(AcTable(tbl), 16 * bits, BitsOf(n, bits) + RunBits(bands, 0, 0, n), End)
  {
    var before, all := RunBits(bands, 0, 0, n - 1), RunBits(bands, 0, 0, n);
    QuietBands(tbl, bands, n - 1);
    QuietBand(tbl, bands, n - 1, n - 1, before, all);
    NumBitsLimit(n, bits);
    NumBitsLimit(n, bits + 1);
  }

  /** The 32768th quiet band begins a new run. */
  lemma {:induction false} LongRun(tbl: nat, bands: seq<Band>, n: nat)
    requires n == 32767 < |bands| && (forall i :: 0 <= i < n ==> Quiet(bands[i])) && |RunBits(bands, 0, 0, n)| <= 937
    ensures CodeBlocks(tbl, bands, 0, 0, []) == Flush(tbl, n, RunBits(bands, 0, 0, n), CodeBlocks(tbl, bands, n, 0, []))
  {
    QuietBands(tbl, bands, n - 1);
    QuietBand(tbl, bands, n - 1, n - 1, RunBits(bands, 0, 0, n - 1), RunBits(bands, 0, 0, n));
  }
}
