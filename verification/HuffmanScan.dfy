/** Whole scans in sequential Huffman mode: restart intervals on both sides, and the round trip of a scan. */
module HuffmanScan {
  import opened Numbers
  import opened ByteStuffing
  import opened SegmentSource
  import opened Blocks
  import opened HuffmanBlocks
  import opened HuffmanInput
  import opened HuffmanEncoder
  import opened HuffmanDecoder
  import opened RestartIntervals
  import opened Opening

  // ---- Encoding ----

  ghost predicate Archived(book: Book, scan: Scan, pieces: seq<Piece<Mcu>>)
  {
    forall p {:trigger Coded(book, scan, p)} :: p in pieces ==> Coded(book, scan, p)
  }

  /** What has been written consists of regular, finished pieces. */
  ghost predicate Filed(book: Book, scan: Scan, interval: nat, pieces: seq<Piece<Mcu>>, written: seq<byte>)
  {
    forall x {:trigger Look(Filing, x)} :: Look(Filing, x) ==>
      Archived(book, scan, pieces) && Regular(interval, pieces) && written == Segments(pieces)
  }

  lemma {:induction false} NothingFiled(book: Book, scan: Scan, interval: nat)
    ensures Filed(book, scan, interval, [], [])
  {
  }

  lemma {:induction false} FileOne(book: Book, scan: Scan, interval: nat, pieces: seq<Piece<Mcu>>, p: Piece<Mcu>, before: seq<byte>, after: seq<byte>)
    requires Filed(book, scan, interval, pieces, before) && Coded(book, scan, p) && interval == |p.mcus| > 0
    requires SegmentAdded(before, p.code, 0xD0 + |pieces| % 8, after)
    ensures Filed(book, scan, interval, pieces + [p], after)
  {
    assert Look(Filing, 0) && Look(Growth, 0);
    assert (pieces + [p])[..|pieces|] == pieces;
    assert Full(interval, p);
  }

  lemma {:induction false} FileLast(book: Book, scan: Scan, interval: nat, pieces: seq<Piece<Mcu>>, p: Piece<Mcu>, before: seq<byte>)
    requires Filed(book, scan, interval, pieces, before) && Coded(book, scan, p)
    ensures Archived(book, scan, pieces + [p]) && before == Segments(pieces)
  {
    assert Look(Filing, 0);
  }

  /** An MCU can be written behind the others of its interval. */
  predicate CanFollow(book: Book, scan: Scan, mcus: seq<Mcu>, mcu: Mcu)
  {
    ValidScan(scan) && AreMcus(scan, mcus) && IsMcu(scan, mcu) && Writable(book, scan, Predictions(scan, mcus), mcu, |mcu|)
  }

  /** Restart bookkeeping around the intervals. */
  class ScanWriter {
    const restartInterval: nat
    const inner: McuWriter
    var restartsToGo: nat
    var nextRestart: nat
    /** Intervals written. */
    ghost var pieces: seq<Piece<Mcu>>

    /** Full intervals and restart markers have been written; the MCUs since belong to the interval in progress. */
    ghost predicate Valid()
      reads this, inner, inner.writer, inner.writer.w
    {
      && inner.Valid()
      && Filed(inner.writer.book, inner.scan, restartInterval, pieces, inner.writer.w.done)
      && nextRestart == |pieces| % 8
      && (restartInterval > 0 ==> restartsToGo + |inner.mcus| == restartInterval)
    }

    constructor (book: Book, scan: Scan, restartInterval: nat)
      requires ValidScan(scan) && forall slot :: ProperTable(book(slot))
      ensures Valid() && pieces == [] && inner.mcus == [] && inner.scan == scan && inner.writer.book == book
      ensures this.restartInterval == restartInterval && fresh(inner) && fresh(inner.writer) && fresh(inner.writer.w)
    {
      this.restartInterval := restartInterval;
      inner := new McuWriter(book, scan);
      restartsToGo, nextRestart := restartInterval, 0;
      pieces := [];
      NothingFiled(book, scan, restartInterval);
    }

    method EmitRestart()
      requires Valid() && restartInterval > 0 && restartsToGo == 0
      modifies this`restartsToGo, this`nextRestart, this`pieces, inner`last, inner`mcus, inner.writer`items, inner.writer.w`out, inner.writer.w`putBuffer, inner.writer.w`putBits, inner.writer.w`data, inner.writer.w`q, inner.writer.w`sent, inner.writer.w`done
      ensures Valid() && inner.mcus == [] && restartsToGo == restartInterval
      ensures |pieces| > 0 && pieces[..|pieces| - 1] == old(pieces) && pieces[|pieces| - 1].mcus == old(inner.mcus)
    {
      ghost var mcus, before := inner.mcus, inner.writer.w.done;
      ghost var code := inner.Restart(0xD0 + nextRestart);
      ghost var p := Piece(mcus, code);
      FileOne(inner.writer.book, inner.scan, restartInterval, pieces, p, before, inner.writer.w.done);
      NextInterval(p);
    }

    /** Bookkeeping for the interval that begins with the next MCU. */
    method NextInterval(ghost p: Piece<Mcu>)
      requires inner.Valid() && inner.mcus == [] && nextRestart == |pieces| % 8
      requires Filed(inner.writer.book, inner.scan, restartInterval, pieces + [p], inner.writer.w.done)
      modifies this`restartsToGo, this`nextRestart, this`pieces
      ensures Valid() && restartsToGo == restartInterval && pieces == old(pieces) + [p]
    {
      restartsToGo := restartInterval;
      nextRestart := (nextRestart + 1) % 8;
      pieces := pieces + [p];
    }

    /** encode_mcu_huff: the MCU joins the current interval, after a restart if that is full; fails if it cannot be written. */
    method EncodeMcu(mcu: Mcu) returns (ok: bool)
      requires Valid() && IsMcu(inner.scan, mcu)
      modifies this`restartsToGo, this`nextRestart, this`pieces, inner, inner.writer`items, inner.writer.w`out, inner.writer.w`putBuffer, inner.writer.w`putBits, inner.writer.w`data, inner.writer.w`q, inner.writer.w`sent, inner.writer.w`done
      ensures var due := restartInterval > 0 && |old(inner.mcus)| == restartInterval;
              && ok == CanFollow(inner.writer.book, inner.scan, if due then [] else old(inner.mcus), mcu)
              && (ok ==> Valid() && if due then |pieces| > 0 && pieces[..|pieces| - 1] == old(pieces)
                                                && pieces[|pieces| - 1].mcus == old(inner.mcus) && inner.mcus == [mcu]
                                    else pieces == old(pieces) && inner.mcus == old(inner.mcus) + [mcu])
    {
      if restartInterval > 0 && restartsToGo == 0 {
        EmitRestart();
      }
      ok := inner.EncodeMcu(mcu);
      if ok && restartInterval > 0 {
        restartsToGo := restartsToGo - 1;
      }
    }

    /** The first i MCUs of a scan have been handed in: they are in their places. */
    ghost predicate Underway(mcus: seq<Mcu>, i: nat)
      requires i <= |mcus|
      reads this, inner
    {
      && AllInPlace(restartInterval, mcus, pieces + [Piece(inner.mcus, [])], i)
      && NextPlace(restartInterval, |pieces|, |inner.mcus|, i) && InProgress(restartInterval, mcus, inner.mcus, i)
    }

    /** encode_mcu_huff for MCU i of a scan. */
    method EncodeNext(ghost mcus: seq<Mcu>, ghost i: nat, mcu: Mcu) returns (ok: bool)
      requires Valid() && i < |mcus| && mcu == mcus[i] && IsMcu(inner.scan, mcu) && Underway(mcus, i)
      modifies this`restartsToGo, this`nextRestart, this`pieces, inner, inner.writer`items, inner.writer.w`out, inner.writer.w`putBuffer, inner.writer.w`putBits, inner.writer.w`data, inner.writer.w`q, inner.writer.w`sent, inner.writer.w`done
      ensures ok == CanFollow(inner.writer.book, inner.scan, Preceding(restartInterval, mcus, i), mcu)
      ensures ok ==> Valid() && Underway(mcus, i + 1)
    {
      ghost var before, current := pieces, inner.mcus;
      Followed(restartInterval, mcus, |before|, current, i);
      ok := EncodeMcu(mcu);
      if ok {
        FillPlace(restartInterval, mcus, before, current, pieces, inner.mcus, i);
      }
    }

    /** finish_pass_huff: the output is a scan of all the MCUs handed in. */
    method FinishPass() returns (ghost code: seq<byte>)
      requires Valid()
      modifies inner.writer.w`out, inner.writer.w`putBuffer, inner.writer.w`putBits, inner.writer.w`data, inner.writer.w`q, inner.writer.w`sent
      ensures inner.writer.w.out == Segments(pieces) + Stuff(code)
      ensures Archived(inner.writer.book, inner.scan, pieces + [Piece(inner.mcus, code)])
    {
      ghost var before := inner.writer.w.done;
      code := inner.Finish();
      FileLast(inner.writer.book, inner.scan, restartInterval, pieces, Piece(inner.mcus, code), before);
    }
  }

  /** The first n MCUs of a scan can be written, in their intervals. */
  predicate ScanWritable(book: Book, scan: Scan, interval: nat, mcus: seq<Mcu>, n: nat)
    requires n <= |mcus|
  {
    forall i :: 0 <= i < n ==> CanFollow(book, scan, Preceding(interval, mcus, i), mcus[i])
  }

  /** Encode the MCUs of a scan: their restart intervals become segments, in order. */
  method EncodeScan(book: Book, scan: Scan, interval: nat, mcus: seq<Mcu>) returns (ok: bool, out: seq<byte>, ghost pieces: seq<Piece<Mcu>>)
    requires ValidScan(scan) && AreMcus(scan, mcus) && forall slot :: ProperTable(book(slot))
    ensures ok == ScanWritable(book, scan, interval, mcus, |mcus|)
    ensures ok ==> |pieces| > 0 && Archived(book, scan, pieces) && AllInPlace(interval, mcus, pieces, |mcus|)
    ensures ok ==> var n := |pieces| - 1; out == Segments(pieces[..n]) + Stuff(pieces[n].code)
  {
    out, pieces := [], [];
    var e := new ScanWriter(book, scan, interval);
    for i := 0 to |mcus|
      invariant e.Valid() && e.inner.scan == scan && e.inner.writer.book == book && e.restartInterval == interval
      invariant fresh(e) && fresh(e.inner) && fresh(e.inner.writer) && fresh(e.inner.writer.w)
      invariant e.Underway(mcus, i) && ScanWritable(book, scan, interval, mcus, i)
    {
      ok := e.EncodeNext(mcus, i, mcus[i]);
      if !ok {
        return;
      }
    }
    ghost var current := e.inner.mcus;
    ghost var code := e.FinishPass();
    ok, out := true, e.inner.writer.w.out;
    pieces := e.pieces + [Piece(current, code)];
    SamePlaces(interval, mcus, e.pieces, current, code);
  }

  // ---- Decoding ----

  /** What became of a call. Lost: the expected restart marker is missing, and resynchronisation would begin. */
  datatype Outcome = Decoded(mcu: Mcu) | Lost | Suspended

  /** Restart bookkeeping around the intervals. */
  class ScanReader {
    const restartInterval: nat
    const inner: McuReader
    var restartsToGo: nat
    var nextRestart: nat
    /** Restarts passed. */
    ghost var restarts: nat

    ghost function Src(): seq<byte>
      reads inner.br
    {
      inner.br.input.src
    }

    /** A restart is due before the next MCU. */
    ghost predicate Due()
      reads this
    {
      restartInterval > 0 && restartsToGo == 0
    }

    ghost predicate Valid()
      reads this, inner, inner.br, inner.br.input
    {
      && inner.br.input.seg == SegmentAt(Src(), restarts) && nextRestart == restarts % 8
      && (restartInterval > 0 ==> restartsToGo + inner.asked == restartInterval)
      && inner.Ready() && inner.br.permT == inner.br.t && (!Due() ==> inner.Valid())
    }

    constructor (shelf: Shelf, tables: DerivedTables, scan: Scan, restartInterval: nat, src: seq<byte>)
      requires ValidScan(scan) && forall slot :: Fitting(shelf, tables, slot)
      ensures Valid() && restarts == 0 && inner.asked == 0 && inner.scan == scan && inner.shelf == shelf
      ensures this.restartInterval == restartInterval && inner.br.input.src == src && inner.br.input.avail == 0
      ensures fresh(inner) && fresh(inner.br) && fresh(inner.br.input)
    {
      this.restartInterval := restartInterval;
      inner := new McuReader(scan, shelf, tables, src);
      restartsToGo, nextRestart, restarts := restartInterval, 0, 0;
    }

    /** process_restart. */
    method ProcessRestart() returns (r: Restarted)
      requires Valid() && Due()
      modifies this`restartsToGo, this`nextRestart, this`restarts, inner, inner.br
      modifies inner.br.input`pos, inner.br.input`unread, inner.br.input`n, inner.br.input`seg
      ensures match r
              case Synced => Valid() && !Due() && restarts == old(restarts) + 1 && inner.asked == 0
                             && old(inner.br.input.seg).marker == 0xD0 + old(restarts) % 8
              case Unexpected => old(inner.br.input.seg).marker != 0xD0 + old(restarts) % 8
              case Waiting => Valid() && Due() && restarts == old(restarts) && inner.asked == old(inner.asked) && inner.br.Paused()
    {
      ghost var was := inner.br.input.seg;
      r := inner.Restart(nextRestart);
      if r.Synced? {
        nextRestart := (nextRestart + 1) % 8;
        restartsToGo := restartInterval;
        restarts := restarts + 1;
      }
    }

    /** decode_mcu: restarts are passed once, however often the call is repeated after a suspension. */
    method DecodeMcu() returns (out: Outcome)
      requires Valid()
      modifies this`restartsToGo, this`nextRestart, this`restarts, inner, inner.br
      modifies inner.br.input`pos, inner.br.input`unread, inner.br.input`n, inner.br.input`seg
      ensures out == Lost ==> old(Due()) && old(inner.br.input.seg).marker != 0xD0 + old(restarts) % 8
      ensures out != Lost ==> Valid() && restarts == (if old(Due()) && !(out.Suspended? && Due()) then old(restarts) + 1 else old(restarts))
      ensures out.Suspended? ==> inner.br.Paused() && (Due() ==> old(Due()))
                                 && inner.asked == if restarts == old(restarts) then old(inner.asked) else 0
      ensures out.Decoded? ==> inner.asked == (if old(Due()) then 1 else old(inner.asked) + 1)
                               && out.mcu == HeardMcu(inner.shelf, inner.scan, inner.br.input.seg.data, inner.asked - 1)
    {
      if restartInterval > 0 && restartsToGo == 0 {
        var r := ProcessRestart();
        if r.Unexpected? {
          return Lost;
        }
        if r.Waiting? {
          return Suspended;
        }
      }
      out := DecodeInside();
    }

    /** The part of decode_mcu behind the restart logic. */
    method DecodeInside() returns (out: Outcome)
      requires Valid() && !Due()
      modifies this`restartsToGo, inner, inner.br, inner.br.input`pos, inner.br.input`unread, inner.br.input`n
      ensures Valid() && out != Lost
      ensures out.Suspended? ==> inner.br.Paused() && !Due() && inner.asked == old(inner.asked)
      ensures out.Decoded? ==> inner.asked == old(inner.asked) + 1
                               && out.mcu == HeardMcu(inner.shelf, inner.scan, inner.br.input.seg.data, inner.asked - 1)
    {
      var done, mcu := inner.DecodeMcu();
      if !done {
        return Suspended;
      }
      if restartInterval > 0 {
        restartsToGo := restartsToGo - 1;
      }
      inner.ReadIsHeard();
      out := Decoded(mcu);
    }

    /** decode_mcu for MCU i of the scan. */
    method DecodeNext(ghost i: nat) returns (out: Outcome)
      requires Valid() && NextPlace(restartInterval, restarts, inner.asked, i)
      modifies this`restartsToGo, this`nextRestart, this`restarts, inner, inner.br
      modifies inner.br.input`pos, inner.br.input`unread, inner.br.input`n, inner.br.input`seg
      ensures match out
              case Lost => !InSync(Src(), PlaceOf(restartInterval, i).r)
              case Suspended => Valid() && NextPlace(restartInterval, restarts, inner.asked, i) && inner.br.Paused()
                                && (Due() ==> old(Due())) && (Due() == old(Due()) ==> inner.br.input.seg == old(inner.br.input.seg))
              case Decoded(mcu) => Valid() && NextPlace(restartInterval, restarts, inner.asked, i + 1)
                                   && mcu == HeardAt(inner.shelf, inner.scan, Src(), PlaceOf(restartInterval, i))
    {
      ghost var r := restarts;
      out := DecodeMcu();
      if out == Lost {
        assert !InSync(Src(), r + 1);
      }
    }

    /** The source delivers k more bytes. */
    method Deliver(k: nat)
      requires Valid()
      modifies inner.br.input`avail
      ensures Valid() && Due() == old(Due()) && inner.br.input.avail == old(inner.br.input.avail) + k
    {
      inner.Deliver(k);
    }

    /** MCU i; the source delivers more whenever it has paused, as the deliveries from k0 on say, and then byte by byte. */
    method DecodePatiently(ghost i: nat, deliveries: seq<nat>, k0: nat) returns (ok: bool, mcu: Mcu, k: nat)
      requires Valid() && NextPlace(restartInterval, restarts, inner.asked, i) && k0 <= |deliveries|
      modifies this`restartsToGo, this`nextRestart, this`restarts, inner, inner.br
      modifies inner.br.input`pos, inner.br.input`unread, inner.br.input`n, inner.br.input`seg, inner.br.input`avail
      ensures k0 <= k <= |deliveries|
      ensures if ok then Valid() && NextPlace(restartInterval, restarts, inner.asked, i + 1)
                         && mcu == HeardAt(inner.shelf, inner.scan, Src(), PlaceOf(restartInterval, i))
              else !InSync(Src(), PlaceOf(restartInterval, i).r)
    {
      k := k0;
      while true
        invariant Valid() && NextPlace(restartInterval, restarts, inner.asked, i) && k0 <= k <= |deliveries|
        decreases |deliveries| - k, Due(), inner.br.input.seg.end - inner.br.input.avail
      {
        var out := DecodeNext(i);
        match out
        case Lost => return false, [], k;
        case Decoded(m) => return true, m, k;
        case Suspended =>
          if k < |deliveries| {
            Deliver(deliveries[k]);
            k := k + 1;
          } else {
            Deliver(1);
          }
      }
    }
  }

  /** The MCUs are those of the decoding function, one by one. */
  ghost predicate AllHeard(shelf: Shelf, scan: Scan, interval: nat, src: seq<byte>, outs: seq<Mcu>)
    requires ValidScan(scan)
  {
    forall i :: 0 <= i < |outs| ==> outs[i] == HeardAt(shelf, scan, src, PlaceOf(interval, i))
  }

  function HeardAt(shelf: Shelf, scan: Scan, src: seq<byte>, p: Place): (mcu: Mcu)
    requires ValidScan(scan)
  {
    HeardMcu(shelf, scan, SegmentAt(src, p.r).data, p.j)
  }

  lemma {:induction false} OneMoreHeard(shelf: Shelf, scan: Scan, interval: nat, src: seq<byte>, outs: seq<Mcu>, mcu: Mcu)
    requires ValidScan(scan) && AllHeard(shelf, scan, interval, src, outs)
    requires mcu == HeardAt(shelf, scan, src, PlaceOf(interval, |outs|))
    ensures AllHeard(shelf, scan, interval, src, outs + [mcu])
  {
  }

  /**
    Decode up to n MCUs; stops early only when a restart marker is not the expected one. The source delivers more
    whenever it has paused: as the deliveries say, and then byte by byte.
  */
  method DecodeScan(shelf: Shelf, tables: DerivedTables, scan: Scan, interval: nat, src: seq<byte>, n: nat, deliveries: seq<nat>)
    returns (outs: seq<Mcu>)
    requires ValidScan(scan) && forall slot :: Fitting(shelf, tables, slot)
    ensures |outs| <= n && (|outs| < n ==> !InSync(src, PlaceOf(interval, |outs|).r))
    ensures AllHeard(shelf, scan, interval, src, outs)
  {
    var d := new ScanReader(shelf, tables, scan, interval, src);
    outs := [];
    var k := 0;
    assert d.restartInterval == interval;
    while |outs| < n
      invariant d.Valid() && d.inner.scan == scan && d.inner.shelf == shelf && d.Src() == src
      invariant |outs| <= n && k <= |deliveries|
      invariant NextPlace(interval, d.restarts, d.inner.asked, |outs|) && AllHeard(shelf, scan, interval, src, outs)
    {
      var ok, mcu;
      ok, mcu, k := d.DecodePatiently(|outs|, deliveries, k);
      if !ok {
        return;
      }
      OneMoreHeard(shelf, scan, interval, src, outs, mcu);
      outs := outs + [mcu];
    }
  }

  // ---- The round trip ----

  /** Decoding what was encoded: every MCU of the scan comes back, and no restart marker is missed. */
  lemma {:induction false} ScanComesBack(book: Book, shelf: Shelf, scan: Scan, interval: nat, mcus: seq<Mcu>, pieces: seq<Piece<Mcu>>,
                                         src: seq<byte>, fill: nat, outs: seq<Mcu>)
    requires ValidScan(scan) && AreMcus(scan, mcus) && |pieces| > 0 && |outs| <= |mcus| && forall slot :: Agree(book, shelf, slot)
    requires Archived(book, scan, pieces) && AllInPlace(interval, mcus, pieces, |mcus|) && Holding(src, pieces, fill)
    requires AllHeard(shelf, scan, interval, src, outs) && (|outs| < |mcus| ==> !InSync(src, PlaceOf(interval, |outs|).r))
    ensures |outs| == |mcus| && forall i :: 0 <= i < |mcus| ==> outs[i] == SentBlocks(scan, mcus[i], |mcus[i]|)
  {
    forall i | 0 <= i < |mcus|
      ensures HeardAt(shelf, scan, src, PlaceOf(interval, i)) == SentBlocks(scan, mcus[i], |mcus[i]|)
      ensures InSync(src, PlaceOf(interval, i).r)
    {
      var p := PlaceOf(interval, i);
      assert InPlace(interval, mcus, pieces, i);
      assert Coded(book, scan, pieces[p.r]);
      ScanRead(src, pieces, fill, p.r);
      StaysInSync(src, pieces, fill, p.r);
      PieceHeard(book, shelf, scan, pieces[p.r], p.j);
    }
  }
}
