/** Whole scans: restart intervals on the decoding side, and the round trip of a scan through both coders. */
module ArithScan {
  import opened Numbers
  import opened ByteStuffing
  import opened IntervalCoder
  import opened ArithDecoder
  import opened Binarisation
  import opened Blocks
  import opened McuCoding
  import opened ArithSegment
  import opened RestartIntervals
  import opened Opening
  import opened ArithMcuEncoder
  import opened ArithMcuDecoder

  /** What became of an MCU. OutOfSync: the expected restart marker is missing, and resynchronisation would begin. */
  datatype Outcome = Decoded(mcu: Mcu) | Corrupt | OutOfSync

  /** The first n MCUs of an interval, read by the decoding function from a code string. */
  ghost function Heard(tab: Table, scan: Scan, data: seq<byte>, n: nat): (r: Parsed<(seq<Mcu>, Prediction)>)
    requires Conditioned(scan)
    ensures r.Good? ==> |r.value.0| == n
  {
    ReadMcus(Arithmetic(tab, data), Start(), scan, n)
  }

  /** The outcome for MCU j of an interval. */
  ghost function HeardMcu(tab: Table, scan: Scan, data: seq<byte>, j: nat): (r: Outcome)
    requires Conditioned(scan)
    ensures r != OutOfSync
  {
    match Heard(tab, scan, data, j + 1)
    case Bad => Corrupt
    case Good((mcus, _), _) => Decoded(mcus[j])
  }

  /** Once an interval is corrupt, its remaining MCUs are lost. */
  lemma {:induction false} StaysBad(tab: Table, scan: Scan, data: seq<byte>, n: nat)
    requires Conditioned(scan) && Heard(tab, scan, data, n).Bad?
    ensures Heard(tab, scan, data, n + 1).Bad?
  {
  }

  /** Restart bookkeeping around the intervals. */
  class ScanDecoder {
    const restartInterval: nat
    const inner: IntervalDecoder
    var restartsToGo: nat
    var nextRestart: nat
    /** Restarts passed, and MCUs asked for since. */
    ghost var restarts: nat
    ghost var asked: nat

    ghost function Data(): seq<byte>
      reads inner.bins.coder.input
    {
      inner.bins.coder.input.seg.data
    }

    ghost predicate Counting()
      reads this, inner.bins.coder.input
    {
      && inner.bins.coder.input.seg == SegmentAt(inner.bins.coder.input.src, restarts)
      && nextRestart == restarts % 8
      && (restartInterval > 0 ==> restartsToGo + asked == restartInterval)
    }

    /** Either all went well, or ct tells that the data of the interval is corrupt. */
    ghost predicate Valid()
      reads this, inner, inner.bins, inner.bins.coder, inner.bins.coder.input
    {
      && Counting() && inner.bins.Standing() && Conditioned(inner.scan)
      && if inner.bins.coder.ct != -1 then
           inner.Valid() && |inner.mcus| == asked && inner.bins.ch == Arithmetic(inner.bins.coder.tab, Data())
         else
           Heard(inner.bins.coder.tab, inner.scan, Data(), asked).Bad?
    }

    constructor (tab: Table, scan: Scan, restartInterval: nat, src: seq<byte>)
      requires Conditioned(scan)
      ensures Valid() && restarts == 0 && asked == 0 && inner.scan == scan && inner.bins.coder.tab == tab && inner.Fresh()
      ensures this.restartInterval == restartInterval && inner.bins.coder.input.src == src
      ensures fresh(inner) && fresh(inner.bins) && fresh(inner.bins.coder) && fresh(inner.bins.coder.input)
    {
      this.restartInterval := restartInterval;
      inner := new IntervalDecoder(tab, scan, src);
      restartsToGo, nextRestart, restarts, asked := restartInterval, 0, 0, 0;
      new;
      inner.NotAnError();
    }

    /** process_restart. */
    method ProcessRestart() returns (ok: bool)
      requires Valid() && restartInterval > 0 && restartsToGo == 0
      modifies this, inner, inner.bins, inner.bins.coder, inner.bins.coder.input
      ensures ok == (old(inner.bins.coder.input.seg).marker == 0xD0 + old(restarts) % 8)
      ensures ok ==> Valid() && restarts == old(restarts) + 1 && asked == 0 && inner.Fresh() && inner.bins.coder.ct != -1
    {
      ok := inner.Restart(nextRestart);
      if ok {
        NextInterval();
      }
    }

    /** Bookkeeping for the interval that begins with the next MCU. */
    method NextInterval()
      requires inner.Valid() && inner.mcus == [] && Conditioned(inner.scan) && inner.bins.Standing() && inner.bins.coder.ct != -1
      requires inner.bins.ch == Arithmetic(inner.bins.coder.tab, Data()) && nextRestart == restarts % 8
      requires inner.bins.coder.input.seg == SegmentAt(inner.bins.coder.input.src, restarts + 1)
      modifies this`restartsToGo, this`nextRestart, this`restarts, this`asked
      ensures Valid() && restarts == old(restarts) + 1 && asked == 0
    {
      nextRestart := (nextRestart + 1) % 8;
      restartsToGo := restartInterval;
      restarts, asked := restarts + 1, 0;
    }

    /** The part of decode_mcu behind the restart logic: once the interval is known to be corrupt, nothing is done. */
    method DecodeInside() returns (out: Outcome)
      requires Valid() && (restartInterval > 0 ==> restartsToGo > 0)
      modifies this`asked, this`restartsToGo, inner, inner.bins`at, inner.bins.coder
      modifies inner.bins.coder.input`pos, inner.bins.coder.input`unread, inner.bins.coder.input`n
      ensures Valid() && asked == old(asked) + 1
      ensures out == HeardMcu(inner.bins.coder.tab, inner.scan, Data(), old(asked))
    {
      if restartInterval > 0 {
        restartsToGo := restartsToGo - 1;
      }
      out := Corrupt;
      if inner.bins.coder.ct != -1 {
        var ok, mcu := inner.DecodeMcu();
        if ok {
          out := Decoded(mcu);
        }
      } else {
        StaysBad(inner.bins.coder.tab, inner.scan, Data(), asked);
      }
      asked := asked + 1;
    }

    /** decode_mcu. */
    method DecodeMcu() returns (out: Outcome)
      requires Valid()
      modifies this, inner, inner.bins, inner.bins.coder, inner.bins.coder.input
      ensures var due := restartInterval > 0 && old(asked) == restartInterval;
              && (out == OutOfSync <==> due && old(inner.bins.coder.input.seg).marker != 0xD0 + old(restarts) % 8)
              && (out != OutOfSync ==>
                    && Valid() && asked > 0 && out == HeardMcu(inner.bins.coder.tab, inner.scan, Data(), asked - 1)
                    && restarts == (if due then old(restarts) + 1 else old(restarts))
                    && asked == (if due then 1 else old(asked) + 1))
    {
      if restartInterval > 0 && restartsToGo == 0 {
        var ok := ProcessRestart();
        if !ok {
          return OutOfSync;
        }
      }
      out := DecodeInside();
    }

    /** decode_mcu for MCU i of the scan. */
    method DecodeNext(ghost i: nat) returns (out: Outcome)
      requires Valid() && NextPlace(restartInterval, restarts, asked, i)
      modifies this, inner, inner.bins, inner.bins.coder, inner.bins.coder.input
      ensures if out == OutOfSync then !InSync(inner.bins.coder.input.src, PlaceOf(restartInterval, i).r)
              else && Valid() && NextPlace(restartInterval, restarts, asked, i + 1)
                   && out == HeardAt(inner.bins.coder.tab, inner.scan, inner.bins.coder.input.src, PlaceOf(restartInterval, i))
    {
      ghost var r := restarts;
      out := DecodeMcu();
      if out == OutOfSync {
        assert !InSync(inner.bins.coder.input.src, r + 1);
      }
    }
  }

  /** Encode the MCUs of a scan: their restart intervals become segments, in order. */
  method EncodeScan(tab: Table, scan: Scan, interval: nat, mcus: seq<Mcu>) returns (out: seq<byte>, ghost pieces: seq<Piece<Mcu>>)
    requires Conditioned(scan) && AreMcus(scan, mcus)
    ensures |pieces| > 0 && Archived(tab, scan, pieces) && AllInPlace(interval, mcus, pieces, |mcus|)
    ensures var n := |pieces| - 1; out == Segments(pieces[..n]) + Stuff(pieces[n].code)
  {
    var e := new ScanEncoder(tab, scan, interval);
    for i := 0 to |mcus|
      invariant e.Valid() && e.inner.scan == scan && e.inner.bins.coder.tab == tab && e.restartInterval == interval
      invariant fresh(e) && fresh(e.inner) && fresh(e.inner.bins) && fresh(e.inner.bins.coder) && fresh(e.inner.bins.coder.output)
      invariant AllInPlace(interval, mcus, e.pieces + [Piece(e.inner.mcus, [])], i)
      invariant NextPlace(interval, |e.pieces|, |e.inner.mcus|, i)
    {
      ghost var before, current := e.pieces, e.inner.mcus;
      e.EncodeMcu(mcus[i]);
      FillPlace(interval, mcus, before, current, e.pieces, e.inner.mcus, i);
    }
    ghost var current := e.inner.mcus;
    ghost var code := e.FinishPass();
    out := e.inner.bins.coder.output.out;
    pieces := e.pieces + [Piece(current, code)];
    SamePlaces(interval, mcus, e.pieces, current, code);
  }

  // ---- Decoding a scan ----

  ghost function HeardAt(tab: Table, scan: Scan, src: seq<byte>, p: Place): (o: Outcome)
    requires Conditioned(scan)
  {
    HeardMcu(tab, scan, SegmentAt(src, p.r).data, p.j)
  }

  /** The outcomes are those of the decoding function, MCU by MCU. */
  ghost predicate AllHeard(tab: Table, scan: Scan, interval: nat, src: seq<byte>, outs: seq<Outcome>)
    requires Conditioned(scan)
  {
    forall i :: 0 <= i < |outs| ==> outs[i] == HeardAt(tab, scan, src, PlaceOf(interval, i))
  }

  lemma {:induction false} OneMoreHeard(tab: Table, scan: Scan, interval: nat, src: seq<byte>, outs: seq<Outcome>, out: Outcome)
    requires Conditioned(scan) && AllHeard(tab, scan, interval, src, outs)
    requires out == HeardAt(tab, scan, src, PlaceOf(interval, |outs|))
    ensures AllHeard(tab, scan, interval, src, outs + [out])
  {
  }

  /** Decode up to n MCUs; stops early only when a restart marker is not the expected one. */
  method DecodeScan(tab: Table, scan: Scan, interval: nat, src: seq<byte>, n: nat) returns (outs: seq<Outcome>)
    requires Conditioned(scan)
    ensures |outs| <= n && (|outs| < n ==> !InSync(src, PlaceOf(interval, |outs|).r))
    ensures AllHeard(tab, scan, interval, src, outs)
  {
    var d := new ScanDecoder(tab, scan, interval, src);
    outs := [];
    while |outs| < n
      invariant d.Valid() && d.inner.scan == scan && d.inner.bins.coder.tab == tab && d.restartInterval == interval
      invariant fresh(d) && fresh(d.inner) && fresh(d.inner.bins) && fresh(d.inner.bins.coder) && fresh(d.inner.bins.coder.input)
      invariant d.inner.bins.coder.input.src == src && |outs| <= n
      invariant NextPlace(interval, d.restarts, d.asked, |outs|) && AllHeard(tab, scan, interval, src, outs)
    {
      var out := d.DecodeNext(|outs|);
      if out == OutOfSync {
        return;
      }
      OneMoreHeard(tab, scan, interval, src, outs, out);
      outs := outs + [out];
    }
  }

  // ---- The round trip ----

  lemma {:induction false} SentAt(scan: Scan, mcus: seq<Mcu>, n: nat, j: nat)
    requires Conditioned(scan) && j < n <= |mcus|
    ensures |SentMcus(scan, mcus, n)| == n && SentMcus(scan, mcus, n)[j] == SentMcu(scan, mcus[j])
  {
    if j < n - 1 {
      SentAt(scan, mcus, n - 1, j);
    } else if n > 1 {
      SentAt(scan, mcus, n - 1, 0);
    }
  }

  function SentMcu(scan: Scan, mcu: Mcu): (r: Mcu)
    requires Conditioned(scan)
  {
    SentBlocks(scan, mcu, |mcu|)
  }

  /** The outcome for MCU j of an interval whose code string is intact. */
  lemma {:induction false} IntervalHeard(tab: Table, scan: Scan, piece: Piece<Mcu>, j: nat)
    requires Conditioned(scan) && Coded(tab, scan, piece) && AreMcus(scan, piece.mcus) && j < |piece.mcus|
    ensures HeardMcu(tab, scan, piece.code, j)
         == if FitsMcus(scan, piece.mcus, j + 1) then Decoded(SentMcu(scan, piece.mcus[j])) else Corrupt
  {
    IntervalRoundTrip(tab, scan, piece.mcus, piece.code, j + 1);
    SentAt(scan, piece.mcus, j + 1, j);
  }

  /** MCU i comes back if the DC differences of its interval have fitted so far; otherwise it is reported corrupt. */
  ghost function Expected(scan: Scan, interval: nat, mcus: seq<Mcu>, i: nat): (o: Outcome)
    requires Conditioned(scan) && AreMcus(scan, mcus) && i < |mcus|
  {
    var j := PlaceOf(interval, i).j;
    if FitsMcus(scan, mcus[i - j..i + 1], j + 1) then Decoded(SentMcu(scan, mcus[i])) else Corrupt
  }

  lemma {:induction false} FitsFront(scan: Scan, mcus: seq<Mcu>, mcus': seq<Mcu>, n: nat)
    requires Conditioned(scan) && AreMcus(scan, mcus) && AreMcus(scan, mcus') && n <= |mcus| && n <= |mcus'|
    requires mcus[..n] == mcus'[..n]
    ensures FitsMcus(scan, mcus, n) == FitsMcus(scan, mcus', n)
  {
    SameFront(scan, mcus, mcus', n);
  }

  lemma {:induction false} CodedMcus(tab: Table, scan: Scan, piece: Piece<Mcu>)
    requires Coded(tab, scan, piece)
    ensures AreMcus(scan, piece.mcus)
  {
    assert Look(Code, 0);
  }

  lemma {:induction false} McuHeard(tab: Table, scan: Scan, interval: nat, mcus: seq<Mcu>, pieces: seq<Piece<Mcu>>, src: seq<byte>, fill: nat, i: nat)
    requires Conditioned(scan) && AreMcus(scan, mcus) && |pieces| > 0 && i < |mcus|
    requires Archived(tab, scan, pieces) && AllInPlace(interval, mcus, pieces, |mcus|) && Holding(src, pieces, fill)
    ensures HeardAt(tab, scan, src, PlaceOf(interval, i)) == Expected(scan, interval, mcus, i)
    ensures InSync(src, PlaceOf(interval, i).r)
  {
    var p := PlaceOf(interval, i);
    PieceFront(interval, mcus, pieces, i);
    var piece := pieces[p.r];
    assert Coded(tab, scan, piece);
    CodedMcus(tab, scan, piece);
    ScanRead(src, pieces, fill, p.r);
    StaysInSync(src, pieces, fill, p.r);
    HeardInPiece(tab, scan, piece, p.j, mcus[i - p.j..i + 1]);
    ExpectedIs(scan, interval, mcus, i, p, mcus[i - p.j..i + 1]);
    HeardThere(tab, scan, src, p, piece.code);
  }

  lemma {:induction false} ExpectedIs(scan: Scan, interval: nat, mcus: seq<Mcu>, i: nat, p: Place, front: seq<Mcu>)
    requires Conditioned(scan) && AreMcus(scan, mcus) && i < |mcus| && p == PlaceOf(interval, i) && front == mcus[i - p.j..i + 1]
    ensures AreMcus(scan, front) && front[p.j] == mcus[i]
    ensures Expected(scan, interval, mcus, i) == if FitsMcus(scan, front, p.j + 1) then Decoded(SentMcu(scan, front[p.j])) else Corrupt
  {
  }

  lemma {:induction false} HeardThere(tab: Table, scan: Scan, src: seq<byte>, p: Place, code: seq<byte>)
    requires Conditioned(scan) && SegmentAt(src, p.r).data == code
    ensures HeardAt(tab, scan, src, p) == HeardMcu(tab, scan, code, p.j)
  {
  }

  lemma {:induction false} HeardInPiece(tab: Table, scan: Scan, piece: Piece<Mcu>, j: nat, front: seq<Mcu>)
    requires Conditioned(scan) && Coded(tab, scan, piece) && AreMcus(scan, piece.mcus) && j < |piece.mcus| && front == piece.mcus[..j + 1]
    ensures AreMcus(scan, front)
    ensures HeardMcu(tab, scan, piece.code, j) == if FitsMcus(scan, front, j + 1) then Decoded(SentMcu(scan, front[j])) else Corrupt
  {
    IntervalHeard(tab, scan, piece, j);
    FitsFront(scan, piece.mcus, front, j + 1);
  }

  /** Decoding what was encoded: every MCU of the scan has the expected outcome, and no restart marker is missed. */
  lemma {:induction false} ScanComesBack(tab: Table, scan: Scan, interval: nat, mcus: seq<Mcu>, pieces: seq<Piece<Mcu>>, src: seq<byte>, fill: nat, outs: seq<Outcome>)
    requires Conditioned(scan) && AreMcus(scan, mcus) && |pieces| > 0 && |outs| <= |mcus|
    requires Archived(tab, scan, pieces) && AllInPlace(interval, mcus, pieces, |mcus|) && Holding(src, pieces, fill)
    requires AllHeard(tab, scan, interval, src, outs) && (|outs| < |mcus| ==> !InSync(src, PlaceOf(interval, |outs|).r))
    ensures |outs| == |mcus| && forall i :: 0 <= i < |mcus| ==> outs[i] == Expected(scan, interval, mcus, i)
  {
    forall i | 0 <= i < |mcus|
      ensures HeardAt(tab, scan, src, PlaceOf(interval, i)) == Expected(scan, interval, mcus, i)
      ensures InSync(src, PlaceOf(interval, i).r)
    {
      McuHeard(tab, scan, interval, mcus, pieces, src, fill, i);
    }
  }

  /** The encoder's bytes, then fill bytes, any marker and anything, are decoded to what was encoded. */
  method EncodeThenDecode(tab: Table, scan: Scan, interval: nat, mcus: seq<Mcu>, fill: nat, marker: byte, rest: seq<byte>)
    returns (outs: seq<Outcome>)
    requires Conditioned(scan) && AreMcus(scan, mcus) && fill >= 1 && marker !in {0, 0xFF}
    ensures |outs| == |mcus| && forall i :: 0 <= i < |mcus| ==> outs[i] == Expected(scan, interval, mcus, i)
  {
    var out, pieces := EncodeScan(tab, scan, interval, mcus);
    var src := out + Repeat(0xFF, fill) + [marker] + rest;
    outs := DecodeScan(tab, scan, interval, src, |mcus|);
    ScanComesBack(tab, scan, interval, mcus, pieces, src, fill, outs);
  }

  // ---- A difference that does not come back ----

  /** A block with a DC coefficient and nothing else. */
  function DcBlock(dc: int): (b: Block)
    requires -0x8000 <= dc < 0x8000
  {
    Zeroes()[0 := dc]
  }

  /** The smallest 16-bit DC coefficient, and then the greatest one: the encoder takes both, the second one is reported corrupt. */
  lemma {:induction false} TooLargeADifference(scan: Scan, interval: nat)
    requires Conditioned(scan) && scan.membership == [0] && interval != 1
    ensures var mcus: seq<Mcu> := [[DcBlock(-0x8000)], [DcBlock(0x7FFF)]];
            && AreMcus(scan, mcus)
            && Expected(scan, interval, mcus, 0) == Decoded(SentMcu(scan, mcus[0])) && Expected(scan, interval, mcus, 1) == Corrupt
  {
    var mcus: seq<Mcu> := [[DcBlock(-0x8000)], [DcBlock(0x7FFF)]];
    assert PlaceOf(interval, 0) == Place(0, 0) && PlaceOf(interval, 1) == Place(0, 1);
    assert mcus[0..1] == [mcus[0]] && mcus[0..2] == mcus;
    FirstDifference(scan, mcus[0..1]);
    FirstDifference(scan, mcus);
    SecondDifference(scan, mcus);
  }

  lemma {:induction false} FirstDifference(scan: Scan, mcus: seq<Mcu>)
    requires Conditioned(scan) && scan.membership == [0] && AreMcus(scan, mcus) && |mcus| >= 1 && mcus[0][0][0] == -0x8000
    ensures FitsMcus(scan, mcus, 1) && AfterMcus(scan, mcus, 1).last[0] == -0x8000
  {
    OneBlock(scan, AfterMcus(scan, mcus, 0), mcus[0]);
    assert FitsMcus(scan, mcus, 0);
  }

  lemma {:induction false} SecondDifference(scan: Scan, mcus: seq<Mcu>)
    requires Conditioned(scan) && scan.membership == [0] && AreMcus(scan, mcus) && |mcus| >= 2 && mcus[1][0][0] == 0x7FFF
    requires AfterMcus(scan, mcus, 1).last[0] == -0x8000
    ensures !FitsMcus(scan, mcus, 2)
  {
    OneBlock(scan, AfterMcus(scan, mcus, 1), mcus[1]);
  }

  lemma {:induction false} OneBlock(scan: Scan, p: Prediction, mcu: Mcu)
    requires Conditioned(scan) && scan.membership == [0] && ValidPrediction(scan, p) && IsMcu(scan, mcu)
    ensures FitsBlocks(scan, p, mcu, |mcu|) == FitsDc(p, 0, mcu[0])
    ensures AfterBlocks(scan, p, mcu, |mcu|).last == p.last[0 := mcu[0][0]]
  {
    assert FitsBlocks(scan, p, mcu, 0) && AfterBlocks(scan, p, mcu, 0) == p;
  }
}
