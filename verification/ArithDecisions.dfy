/**
  Any sequence of decisions through both arithmetic coders: from arith_encode and finish_pass of jcarith.c, through
  stuffed bytes and up to any marker, to arith_decode of jdarith.c.
*/
module ArithDecisions {
  import opened Numbers
  import opened ByteStuffing
  import opened IntervalCoder
  import opened ArithRoundTrip
  import opened ArithEncoder
  import opened ArithDecoder
  import opened Opening

  /** The bytes for a run of decisions are a stuffed code string inside the final interval. */
  method EncodeDecisions(tab: Table, stats: Stats, ds: seq<Decision>) returns (out: seq<byte>, ghost data: seq<byte>, ghost n: nat)
    requires ValidStats(stats) && Known(ds, stats)
    ensures out == Stuff(data) && Inside(data, n, EncodeAll(tab, Coder(WHOLE, stats), ds).iv)
  {
    ghost var s := Coder(WHOLE, stats);
    var e := new Encoder(tab, stats);
    for i := 0 to |ds|
      invariant fresh(e) && fresh(e.output) && e.Valid() && e.tab == tab && e.output.done == []
      invariant e.State() == EncodeAll(tab, s, ds[..i])
    {
      assert ds[..i + 1][..i] == ds[..i];
      e.ArithEncode(ds[i].bin, ds[i].bit);
    }
    assert ds[..|ds|] == ds;
    n := |e.output.bytes| + 4;
    e.FinishPass();
    out, data := e.output.out, e.output.sent;
    assert [] + Stuff(data) == Stuff(data);
  }

  /** The data lead the decoder from state s through these decisions to a final state. */
  ghost predicate Leads(tab: Table, data: seq<byte>, s: Coder, ds: seq<Decision>, final: Coder)
  {
    forall x {:trigger Look(Course, x)} :: Look(Course, x) ==>
      ValidCoder(s) && Known(ds, s.stats) && Follows(tab, data, s, ds) && DecodeAll(tab, data, s, ds) == final
  }

  method DecodeOne(d: Decoder, bin: Bin, ghost ds: seq<Decision>, ghost final: Coder) returns (bit: bool)
    requires d.Valid() && ds != [] && bin == ds[0].bin && Leads(d.tab, d.input.seg.data, d.State(), ds, final)
    modifies d, d.input`pos, d.input`unread, d.input`n
    ensures d.Valid() && bit == ds[0].bit && Leads(d.tab, d.input.seg.data, d.State(), ds[1..], final)
  {
    assert Look(Course, 0);
    bit := d.ArithDecode(bin);
  }

  lemma {:induction false} Arrived(tab: Table, data: seq<byte>, s: Coder, ds: seq<Decision>, final: Coder)
    requires Leads(tab, data, s, ds, final) && ds == []
    ensures s == final
  {
    assert Look(Course, 0);
  }

  /** Asked for the bins of decisions that its data follows, the decoder returns the bits and ends with the ideal decoder's bins. */
  method DecodeDecisions(tab: Table, stats: Stats, src: seq<byte>, bins: seq<Bin>, ghost ds: seq<Decision>)
    returns (bits: seq<bool>, stats': Stats)
    requires ValidStats(stats) && Known(ds, stats) && |bins| == |ds| && forall i :: 0 <= i < |ds| ==> bins[i] == ds[i].bin
    requires Follows(tab, Unstuff(src, 0).data, Coder(WHOLE, stats), ds)
    ensures |bits| == |ds| && forall i :: 0 <= i < |ds| ==> bits[i] == ds[i].bit
    ensures stats' == DecodeAll(tab, Unstuff(src, 0).data, Coder(WHOLE, stats), ds).stats
  {
    ghost var data := Unstuff(src, 0).data;
    ghost var final := DecodeAll(tab, data, Coder(WHOLE, stats), ds);
    var d := new Decoder(tab, src, stats);
    Departed(tab, data, Coder(WHOLE, stats), ds, final);
    bits := DecodeBins(d, data, bins, ds, final);
    Arrived(tab, data, d.State(), [], final);
    stats' := d.stats;
  }

  lemma {:induction false} Departed(tab: Table, data: seq<byte>, s: Coder, ds: seq<Decision>, final: Coder)
    requires ValidCoder(s) && Known(ds, s.stats) && Follows(tab, data, s, ds) && final == DecodeAll(tab, data, s, ds)
    ensures Leads(tab, data, s, ds, final)
  {
  }

  /** Ask for one bin after the other. */
  method DecodeBins(d: Decoder, ghost data: seq<byte>, bins: seq<Bin>, ghost ds: seq<Decision>, ghost final: Coder) returns (bits: seq<bool>)
    requires d.Valid() && d.input.seg.data == data && Leads(d.tab, data, d.State(), ds, final)
    requires |bins| == |ds| && forall i :: 0 <= i < |ds| ==> bins[i] == ds[i].bin
    modifies d, d.input`pos, d.input`unread, d.input`n
    ensures |bits| == |ds| && forall i :: 0 <= i < |ds| ==> bits[i] == ds[i].bit
    ensures d.Valid() && d.input.seg.data == data && Leads(d.tab, data, d.State(), [], final)
  {
    bits := [];
    assert ds[0..] == ds;
    while |bits| < |bins|
      invariant d.Valid() && d.input.seg.data == data && |bits| <= |ds|
      invariant forall i :: 0 <= i < |bits| ==> bits[i] == ds[i].bit
      invariant Leads(d.tab, data, d.State(), ds[|bits|..], final)
    {
      ghost var left := ds[|bits|..];
      assert left[0] == ds[|bits|] && left[1..] == ds[|bits| + 1..];
      var bit := DecodeOne(d, bins[|bits|], left, final);
      bits := bits + [bit];
    }
    assert ds[|bits|..] == [];
  }

  /**
    For every sequence of decisions, from any valid statistics: the encoder's bytes, followed by fill bytes, any marker
    and anything, make the decoder return the same bits and leave the same statistics bins.
  */
  method EncodeThenDecode(tab: Table, stats: Stats, ds: seq<Decision>, fill: nat, marker: byte, rest: seq<byte>)
    returns (bits: seq<bool>, stats': Stats)
    requires ValidStats(stats) && Known(ds, stats) && fill >= 1 && marker !in {0, 0xFF}
    ensures |bits| == |ds| && forall i :: 0 <= i < |ds| ==> bits[i] == ds[i].bit
    ensures stats' == EncodeAll(tab, Coder(WHOLE, stats), ds).stats
  {
    var out;
    ghost var data, n;
    out, data, n := EncodeDecisions(tab, stats, ds);
    var src := out + Repeat(0xFF, fill) + [marker] + rest;
    assert src[0..|out|] == out;
    UnstuffStuff(src, 0, data, fill);
    DecoderFollowsEncoder(tab, data, n, Coder(WHOLE, stats), ds);
    bits, stats' := DecodeDecisions(tab, stats, src, seq(|ds|, i requires 0 <= i < |ds| => ds[i].bin), ds);
  }
}
