/**
  Whole refinement scans: restart intervals on both sides, and the round trip of a scan, which takes every coefficient
  from precision Al + 1 to precision Al.
*/
module RefinementScan {
  import opened Numbers
  import opened ByteStuffing
  import opened SegmentSource
  import opened HuffmanCode
  import opened HuffmanTables
  import opened BitStrings
  import opened Blocks
  import opened HuffmanBlocks
  import opened HuffmanInput
  import opened HuffmanOutput
  import opened HuffmanEncoder
  import opened HuffmanDecoder
  import opened Refinement
  import opened RefinementCoder
  import opened RefinementDecoder
  import opened RestartIntervals
  import opened Opening

  // ---- Encoding ----

  /** The coefficients of a band, as the encoder gets them. */
  type Values = seq<int>

  /** The items of a restart interval. */
  function IntervalItems(tbl: nat, al: nat, values: seq<Values>): (items: Items) { CodeBlocks(tbl, Bands(values, al), 0, 0, []) }

  /** The data hold the coded bands of an interval, padded with ones. */
  ghost predicate BandsCoded(book: Book, tbl: nat, al: nat, piece: Piece<Values>)
  {
    forall x {:trigger Look(Filing, x)} :: Look(Filing, x) ==>
      && (forall i :: 0 <= i < |piece.mcus| ==> |piece.mcus[i]| > 0)
      && Codable(book, IntervalItems(tbl, al, piece.mcus)) && OnePadded(piece.code, Bits(book, IntervalItems(tbl, al, piece.mcus)))
  }

  ghost predicate Archived(book: Book, tbl: nat, al: nat, pieces: seq<Piece<Values>>)
  {
    forall p {:trigger BandsCoded(book, tbl, al, p)} :: p in pieces ==> BandsCoded(book, tbl, al, p)
  }

  ghost predicate Filed(book: Book, tbl: nat, al: nat, interval: nat, pieces: seq<Piece<Values>>, written: seq<byte>)
  {
    forall x {:trigger Look(Target, x)} :: Look(Target, x) ==>
      Archived(book, tbl, al, pieces) && Regular(interval, pieces) && written == Segments(pieces)
  }

  lemma {:induction false} NothingFiled(book: Book, tbl: nat, al: nat, interval: nat)
    ensures Filed(book, tbl, al, interval, [], [])
  {
  }

  lemma {:induction false} FileOne(book: Book, tbl: nat, al: nat, interval: nat, pieces: seq<Piece<Values>>, p: Piece<Values>,
                                   before: seq<byte>, after: seq<byte>)
    requires Filed(book, tbl, al, interval, pieces, before) && BandsCoded(book, tbl, al, p) && interval == |p.mcus| > 0
    requires SegmentAdded(before, p.code, 0xD0 + |pieces| % 8, after)
    ensures Filed(book, tbl, al, interval, pieces + [p], after)
  {
    assert Look(Target, 0) && Look(Growth, 0);
    assert (pieces + [p])[..|pieces|] == pieces;
    assert Full(interval, p);
  }

  lemma {:induction false} FileLast(book: Book, tbl: nat, al: nat, interval: nat, pieces: seq<Piece<Values>>, p: Piece<Values>, before: seq<byte>)
    requires Filed(book, tbl, al, interval, pieces, before) && BandsCoded(book, tbl, al, p)
    ensures Archived(book, tbl, al, pieces + [p]) && before == Segments(pieces)
  {
    assert Look(Target, 0);
  }

  /** The bands of the restart interval that begins with band i. */
  function IntervalAt(interval: nat, values: seq<Values>, i: nat): (r: seq<Values>)
    requires i <= |values|
  {
    if interval > 0 && i + interval < |values| then values[i..i + interval] else values[i..]
  }

  predicate BandSizes(values: seq<Values>) { forall i :: 0 <= i < |values| ==> 1 <= |values[i]| <= 63 }

  /** The first i bands are in their places, and the current interval began with band `start`. */
  ghost predicate Placed(interval: nat, values: seq<Values>, pieces: seq<Piece<Values>>, start: nat, i: nat)
    requires start <= i <= |values|
  {
    forall x {:trigger Look(Course, x)} :: Look(Course, x) ==>
      && AllInPlace(interval, values, pieces + [Piece(values[start..i], [])], i)
      && NextPlace(interval, |pieces|, i - start, i) && PlaceOf(interval, start).j == 0
  }

  lemma {:induction false} NothingPlaced(interval: nat, values: seq<Values>)
    ensures Placed(interval, values, [], 0, 0)
  {
  }

  lemma {:induction false} OneMorePlaced(interval: nat, values: seq<Values>, pieces: seq<Piece<Values>>, start: nat, i: nat)
    requires start <= i < |values| && Placed(interval, values, pieces, start, i) && (interval > 0 ==> i - start < interval)
    ensures Placed(interval, values, pieces, start, i + 1)
  {
    assert Look(Course, 0);
    var current := values[start..i];
    assert current + [values[i]] == values[start..i + 1];
    FillPlace(interval, values, pieces, current, pieces, current + [values[i]], i);
  }

  lemma {:induction false} IntervalPlaced(interval: nat, values: seq<Values>, pieces: seq<Piece<Values>>, start: nat, i: nat, code: seq<byte>)
    requires start <= i <= |values| && Placed(interval, values, pieces, start, i) && interval > 0 && i - start == interval
    ensures Placed(interval, values, pieces + [Piece(values[start..i], code)], i, i)
  {
    assert Look(Course, 0);
    ClosePlace(interval, values, pieces, values[start..i], code, i);
    assert values[i..i] == [];
  }

  /** Between the first bands of two intervals there is no other one. */
  lemma {:induction false} NoneBetween(interval: nat, values: seq<Values>, pieces: seq<Piece<Values>>, start: nat, i: nat, k: nat)
    requires start < k < i <= |values| && Placed(interval, values, pieces, start, i)
    ensures PlaceOf(interval, k).j != 0
  {
    assert Look(Course, 0);
    PlaceFrom(interval, start, k - start);
  }

  lemma {:induction false} LastPlaced(interval: nat, values: seq<Values>, pieces: seq<Piece<Values>>, start: nat, code: seq<byte>)
    requires start <= |values| && Placed(interval, values, pieces, start, |values|)
    ensures AllInPlace(interval, values, pieces + [Piece(values[start..], code)], |values|)
  {
    assert Look(Course, 0);
    assert values[start..|values|] == values[start..];
    SamePlaces(interval, values, pieces, values[start..], code);
  }

  /** Restart bookkeeping around the intervals. */
  class RefineScanEncoder {
    const restartInterval: nat
    const inner: RefineEncoder
    var restartsToGo: nat
    var nextRestart: nat
    /** All bands of the scan, how many have been handed in, and where the current interval began. */
    ghost const values: seq<Values>
    ghost var i: nat
    ghost var start: nat
    /** Intervals written. */
    ghost var pieces: seq<Piece<Values>>

    ghost predicate Valid()
      reads this, inner, inner.writer, inner.writer.w, inner.bitBuffer
    {
      && inner.Valid() && BandSizes(values) && start <= i <= |values| && inner.done == i - start
      && inner.bands == Bands(IntervalAt(restartInterval, values, start), inner.al)
      && Filed(inner.writer.book, inner.tbl, inner.al, restartInterval, pieces, inner.writer.w.done)
      && nextRestart == |pieces| % 8 && (restartInterval > 0 ==> restartsToGo + (i - start) == restartInterval)
      && Placed(restartInterval, values, pieces, start, i) && AllCoded(start)
    }

    /** All intervals that begin before band n can be coded. */
    ghost predicate AllCoded(n: nat)
      requires n <= |values|
      reads inner, inner.writer
    {
      forall k :: 0 <= k < n && PlaceOf(restartInterval, k).j == 0 ==> CanBeCoded(k)
    }

    lemma BeginsHere()
      requires Valid()
      ensures PlaceOf(restartInterval, start).j == 0 && (!CanBeCoded(start) ==> Stuck())
    {
      assert Look(Course, 0);
    }

    /** The interval that begins with band k has codes for all its symbols. */
    ghost predicate CanBeCoded(k: nat)
      requires k <= |values|
      reads inner, inner.writer
    {
      Codable(inner.writer.book, IntervalItems(inner.tbl, inner.al, IntervalAt(restartInterval, values, k)))
    }

    /** Some interval that has begun cannot be coded. */
    ghost predicate Stuck()
      reads this, inner, inner.writer
    {
      exists k :: 0 <= k <= i && k <= |values| && PlaceOf(restartInterval, k).j == 0 && !CanBeCoded(k)
    }

    constructor (book: Book, tbl: nat, al: nat, restartInterval: nat, ghost values: seq<Values>)
      requires BandSizes(values) && forall slot :: ProperTable(book(slot))
      ensures Valid() && i == start == 0 && pieces == [] && this.values == values && this.restartInterval == restartInterval
      ensures inner.writer.book == book && inner.tbl == tbl && inner.al == al
      ensures fresh(inner) && fresh(inner.writer) && fresh(inner.writer.w) && fresh(inner.bitBuffer)
    {
      this.restartInterval := restartInterval;
      inner := new RefineEncoder(book, tbl, al, Bands(IntervalAt(restartInterval, values, 0), al));
      restartsToGo, nextRestart := restartInterval, 0;
      this.values, i, start, pieces := values, 0, 0, [];
      NothingFiled(book, tbl, al, restartInterval);
      NothingPlaced(restartInterval, values);
    }

    /** The codes of a full interval, and a marker. */
    method CloseInterval(ghost whole: seq<Values>) returns (ok: bool, ghost data: seq<byte>)
      requires inner.Valid() && inner.done == |inner.bands| && inner.bands == Bands(whole, inner.al) && i <= |values| && nextRestart < 8
      requires forall k :: 0 <= k < |whole| ==> |whole[k]| > 0
      modifies inner`eobrun, inner`be, inner`bands, inner`done, inner.writer`items, inner.writer.w`out, inner.writer.w`putBuffer, inner.writer.w`putBits, inner.writer.w`data, inner.writer.w`q, inner.writer.w`sent, inner.writer.w`done
      ensures ok == Codable(inner.writer.book, IntervalItems(inner.tbl, inner.al, whole))
      ensures ok ==> inner.Valid() && inner.bands == Bands(IntervalAt(restartInterval, values, i), inner.al) && inner.done == 0
                     && BandsCoded(inner.writer.book, inner.tbl, inner.al, Piece(whole, data))
                     && SegmentAdded(old(inner.writer.w.done), data, 0xD0 + nextRestart, inner.writer.w.done)
    {
      ok, data := inner.Restart(0xD0 + nextRestart, Bands(IntervalAt(restartInterval, values, i), inner.al));
    }

    method EmitRestart() returns (ok: bool)
      requires Valid() && restartInterval > 0 && restartsToGo == 0 && i < |values|
      modifies this`restartsToGo, this`nextRestart, this`start, this`pieces
      modifies inner`eobrun, inner`be, inner`bands, inner`done, inner.writer`items, inner.writer.w`out, inner.writer.w`putBuffer, inner.writer.w`putBits, inner.writer.w`data, inner.writer.w`q, inner.writer.w`sent, inner.writer.w`done
      ensures if ok then Valid() && start == i && restartsToGo == restartInterval else Stuck()
    {
      ghost var whole, before := IntervalAt(restartInterval, values, start), inner.writer.w.done;
      assert whole == values[start..i];
      BeginsHere();
      ghost var data;
      ok, data := CloseInterval(whole);
      if ok {
        FileOne(inner.writer.book, inner.tbl, inner.al, restartInterval, pieces, Piece(whole, data), before, inner.writer.w.done);
        IntervalPlaced(restartInterval, values, pieces, start, i, data);
        NextCoded();
        NextInterval(Piece(whole, data));
      }
    }

    /** Bookkeeping for the interval that begins with the next band. */
    method NextInterval(ghost p: Piece<Values>)
      requires inner.Valid() && BandSizes(values) && i <= |values| && inner.done == 0 && nextRestart == |pieces| % 8
      requires inner.bands == Bands(IntervalAt(restartInterval, values, i), inner.al)
      requires Filed(inner.writer.book, inner.tbl, inner.al, restartInterval, pieces + [p], inner.writer.w.done)
      requires Placed(restartInterval, values, pieces + [p], i, i) && AllCoded(i)
      modifies this`restartsToGo, this`nextRestart, this`start, this`pieces
      ensures Valid() && start == i && restartsToGo == restartInterval
    {
      restartsToGo, start := restartInterval, i;
      nextRestart := (nextRestart + 1) % 8;
      pieces := pieces + [p];
    }

    lemma NextCoded()
      requires start <= i <= |values| && AllCoded(start) && CanBeCoded(start) && Placed(restartInterval, values, pieces, start, i)
      ensures AllCoded(i)
    {
      forall k | 0 <= k < i && PlaceOf(restartInterval, k).j == 0 ensures CanBeCoded(k) {
        if start < k {
          NoneBetween(restartInterval, values, pieces, start, i, k);
        }
      }
    }

    /** encode_mcu_AC_refine: the band joins the current interval, after a restart if that is full. */
    method EncodeMcu(v: Values) returns (ok: bool)
      requires Valid() && i < |values| && v == values[i]
      modifies this`restartsToGo, this`nextRestart, this`start, this`pieces, this`i
      modifies inner`eobrun, inner`be, inner`bands, inner`done, inner.bitBuffer, inner.writer`items, inner.writer.w`out, inner.writer.w`putBuffer, inner.writer.w`putBits, inner.writer.w`data, inner.writer.w`q, inner.writer.w`sent, inner.writer.w`done
      ensures if ok then Valid() && i == old(i) + 1 else Stuck()
    {
      if restartInterval > 0 && restartsToGo == 0 {
        ok := EmitRestart();
        if !ok {
          return;
        }
      }
      ok := Add(v);
    }

    method Add(v: Values) returns (ok: bool)
      requires Valid() && i < |values| && v == values[i] && (restartInterval > 0 ==> restartsToGo > 0)
      modifies this`i, this`restartsToGo, inner`eobrun, inner`be, inner`done, inner.bitBuffer, inner.writer`items, inner.writer.w`out, inner.writer.w`putBuffer, inner.writer.w`putBits, inner.writer.w`data, inner.writer.w`q, inner.writer.w`sent
      ensures if ok then Valid() && i == old(i) + 1 else Stuck()
    {
      assert IntervalAt(restartInterval, values, start)[i - start] == v;
      BeginsHere();
      ok := inner.EncodeMcu(v);
      if ok {
        CountBand();
      }
    }

    /** Bookkeeping for a band that has joined the interval. */
    method CountBand()
      requires i < |values| && start <= i && inner.Valid() && BandSizes(values) && inner.done == i + 1 - start
      requires inner.bands == Bands(IntervalAt(restartInterval, values, start), inner.al)
      requires Filed(inner.writer.book, inner.tbl, inner.al, restartInterval, pieces, inner.writer.w.done)
      requires nextRestart == |pieces| % 8 && (restartInterval > 0 ==> restartsToGo > 0 && restartsToGo + (i - start) == restartInterval)
      requires Placed(restartInterval, values, pieces, start, i) && AllCoded(start)
      modifies this`i, this`restartsToGo
      ensures Valid() && i == old(i) + 1
    {
      OneMorePlaced(restartInterval, values, pieces, start, i);
      i := i + 1;
      if restartInterval > 0 {
        restartsToGo := restartsToGo - 1;
      }
    }

    /** finish_pass_huff: the output is a scan of all the bands handed in. */
    method FinishPass() returns (ok: bool, ghost code: seq<byte>)
      requires Valid() && i == |values|
      modifies inner`eobrun, inner`be, inner.writer`items, inner.writer.w`out, inner.writer.w`putBuffer, inner.writer.w`putBits, inner.writer.w`data, inner.writer.w`q, inner.writer.w`sent
      ensures !ok ==> Stuck()
      ensures ok ==> inner.writer.w.out == Segments(pieces) + Stuff(code) && AllCoded(start) && CanBeCoded(start)
                     && Archived(inner.writer.book, inner.tbl, inner.al, pieces + [Piece(values[start..], code)])
    {
      ghost var before := inner.writer.w.done;
      BeginsHere();
      ok, code := inner.Finish();
      if ok {
        FileLast(inner.writer.book, inner.tbl, inner.al, restartInterval, pieces, Piece(values[start..], code), before);
      }
    }
  }

  /** Every interval of the scan has codes for all its symbols. */
  ghost predicate ScanCodable(book: Book, tbl: nat, al: nat, interval: nat, values: seq<Values>)
  {
    forall k :: 0 <= k <= |values| && PlaceOf(interval, k).j == 0 ==> Codable(book, IntervalItems(tbl, al, IntervalAt(interval, values, k)))
  }

  /** Encode a refinement scan; fails exactly if some interval needs a symbol without a code. */
  method EncodeScan(book: Book, tbl: nat, al: nat, interval: nat, values: seq<Values>)
    returns (ok: bool, out: seq<byte>, ghost pieces: seq<Piece<Values>>)
    requires BandSizes(values) && forall slot :: ProperTable(book(slot))
    ensures ok == ScanCodable(book, tbl, al, interval, values)
    ensures ok ==> |pieces| > 0 && Archived(book, tbl, al, pieces) && AllInPlace(interval, values, pieces, |values|)
    ensures ok ==> var n := |pieces| - 1; out == Segments(pieces[..n]) + Stuff(pieces[n].code)
  {
    out, pieces := [], [];
    var e := new RefineScanEncoder(book, tbl, al, interval, values);
    for i := 0 to |values|
      invariant e.Valid() && e.i == i && e.values == values && e.restartInterval == interval
      invariant e.inner.writer.book == book && e.inner.tbl == tbl && e.inner.al == al
      invariant fresh(e) && fresh(e.inner) && fresh(e.inner.writer) && fresh(e.inner.writer.w) && fresh(e.inner.bitBuffer)
    {
      ok := e.EncodeMcu(values[i]);
      if !ok {
        return;
      }
    }
    ghost var code;
    ok, code := e.FinishPass();
    if ok {
      out, pieces := e.inner.writer.w.out, e.pieces + [Piece(values[e.start..], code)];
      LastPlaced(interval, values, e.pieces, e.start, code);
      AllOfThem(e);
    }
  }

  lemma {:induction false} AllOfThem(e: RefineScanEncoder)
    requires e.start <= |e.values| == e.i && Placed(e.restartInterval, e.values, e.pieces, e.start, e.i)
    requires e.AllCoded(e.start) && e.CanBeCoded(e.start)
    ensures ScanCodable(e.inner.writer.book, e.inner.tbl, e.inner.al, e.restartInterval, e.values)
  {
    forall k | 0 <= k <= |e.values| && PlaceOf(e.restartInterval, k).j == 0 ensures e.CanBeCoded(k) {
      if k == |e.values| {
        NothingToCode(e.inner.writer.book, e.inner.tbl, e.inner.al, IntervalAt(e.restartInterval, e.values, k));
      } else if e.start < k {
        NoneBetween(e.restartInterval, e.values, e.pieces, e.start, e.i, k);
      }
    }
  }

  lemma {:induction false} NothingToCode(book: Book, tbl: nat, al: nat, values: seq<Values>)
    requires values == []
    ensures Codable(book, IntervalItems(tbl, al, values))
  {
  }

  // ---- Decoding ----

  /** What became of a call. Lost: the expected restart marker is missing, and resynchronisation would begin. */
  datatype Outcome = Decoded | Lost | Suspended

  /**
    The first n bands of an interval, refined, when the decoder held ds before; once bits behind the end of the data have
    been used, the others are left alone.
  */
  function RefineInterval(rd: Symbols, s: Stream, end: nat, tbl: nat, al: nat, ds: seq<Values>, n: nat): (r: (seq<Values>, nat, int))
    requires n <= |ds|
    ensures |r.0| == n
  {
    if n == 0 then ([], 0, 0)
    else
      var (outs, t, e) := RefineInterval(rd, s, end, tbl, al, ds, n - 1);
      if t > end then (outs + [ds[n - 1]], t, e)
      else
        var (d, t', e') := RefineBlock(rd, s, t, tbl, al, ds[n - 1], e);
        (outs + [d], t', e')
  }

  lemma {:induction false} FrontAlike(rd: Symbols, s: Stream, end: nat, tbl: nat, al: nat, ds: seq<Values>, ds': seq<Values>, n: nat)
    requires n <= |ds| && n <= |ds'| && ds[..n] == ds'[..n]
    ensures RefineInterval(rd, s, end, tbl, al, ds, n) == RefineInterval(rd, s, end, tbl, al, ds', n)
  {
    if n > 0 {
      assert ds[..n - 1] == ds[..n][..n - 1] == ds'[..n - 1];
      assert ds[n - 1] == ds[..n][n - 1] == ds'[n - 1];
      FrontAlike(rd, s, end, tbl, al, ds, ds', n - 1);
    }
  }

  /** What decoding makes of the last one of these bands, the first of which begins the interval. */
  function HeardBand(h: HuffTable, tbl: nat, al: nat, data: seq<byte>, ds: seq<Values>): (d: Values)
    requires |ds| > 0
  {
    RefineInterval(HuffmanSymbols(OneTable(h), DataBits(data)), DataBits(data), 8 * |data|, tbl, al, ds, |ds|).0[|ds| - 1]
  }

  /** Restart bookkeeping around the intervals. */
  class RefineScanDecoder {
    const restartInterval: nat
    const inner: RefineDecoder
    var restartsToGo: nat
    var nextRestart: nat
    /** Restarts passed, and the bands of the current interval as they were before they were refined. */
    ghost var restarts: nat
    ghost var before: seq<Values>

    ghost function Src(): seq<byte>
      reads inner.br
    {
      inner.br.input.src
    }

    ghost predicate Due()
      reads this
    {
      restartInterval > 0 && restartsToGo == 0
    }

    /** Position and run are those of the decoding function. */
    ghost predicate InStep()
      reads this, inner, inner.br, inner.br.input
    {
      var (outs, t, e) := RefineInterval(inner.rd, inner.br.Bits(), inner.br.End(), inner.tbl, inner.al, before, |before|);
      inner.br.t == t && inner.eobrun == e
    }

    ghost predicate Valid()
      reads this, inner, inner.br, inner.br.input
    {
      && inner.br.input.seg == SegmentAt(Src(), restarts) && nextRestart == restarts % 8
      && (restartInterval > 0 ==> restartsToGo + |before| == restartInterval)
      && inner.Valid() && (!Due() ==> InStep())
    }

    /** The block that is being refined, perhaps with some corrections already made. */
    ghost predicate Pending(was: Values, now: Values)
      reads this, inner, inner.br, inner.br.input
    {
      if Due() || inner.br.t > inner.br.End() then now == was
      else SameOutcome(inner.rd, inner.br.Bits(), inner.br.t, inner.tbl, inner.al, was, now, inner.eobrun)
    }

    constructor (h: HuffTable, d: DecoderTable, tbl: nat, al: nat, restartInterval: nat, src: seq<byte>)
      requires Usable(h) && Decodes(h, d)
      ensures Valid() && restarts == 0 && before == [] && inner.h == h && inner.tbl == tbl && inner.al == al
      ensures this.restartInterval == restartInterval && inner.br.input.src == src && inner.br.input.avail == 0
      ensures fresh(inner) && fresh(inner.br) && fresh(inner.br.input)
    {
      this.restartInterval := restartInterval;
      inner := new RefineDecoder(tbl, al, h, d, src);
      restartsToGo, nextRestart, restarts, before := restartInterval, 0, 0, [];
    }

    /** process_restart. */
    method ProcessRestart() returns (r: Restarted)
      requires Valid() && Due()
      modifies this`restartsToGo, this`nextRestart, this`restarts, this`before, inner, inner.br
      modifies inner.br.input`pos, inner.br.input`unread, inner.br.input`n, inner.br.input`seg
      ensures match r
              case Synced => Valid() && !Due() && restarts == old(restarts) + 1 && before == []
                             && old(inner.br.input.seg).marker == 0xD0 + old(restarts) % 8
              case Unexpected => old(inner.br.input.seg).marker != 0xD0 + old(restarts) % 8
              case Waiting => Valid() && Due() && restarts == old(restarts) && before == old(before) && inner.br.Paused()
    {
      r := inner.Restart(nextRestart);
      if r.Synced? {
        nextRestart := (nextRestart + 1) % 8;
        restartsToGo := restartInterval;
        restarts, before := restarts + 1, [];
      }
    }

    /** The part of decode_mcu_AC_refine behind the restart logic. */
    method DecodeInside(block: array<int>, ghost was: Values) returns (done: bool)
      requires Valid() && !Due() && Pending(was, block[..])
      modifies this`restartsToGo, this`before, inner`eobrun, block, inner.br`getBuffer, inner.br`bitsLeft, inner.br`insufficient, inner.br`t, inner.br.input`pos, inner.br.input`unread, inner.br.input`n, inner.br`permBuffer, inner.br`permLeft, inner.br`permPos, inner.br`permT, inner.br`permN
      ensures Valid()
      ensures if done then before == old(before) + [was] && block[..] == HeardBand(inner.h, inner.tbl, inner.al, inner.br.input.seg.data, before)
              else !Due() && before == old(before) && inner.br.Paused() && Pending(was, block[..])
    {
      assert (before + [was])[..|before|] == before;
      FrontAlike(inner.rd, inner.br.Bits(), inner.br.End(), inner.tbl, inner.al, before, before + [was], |before|);
      done := inner.DecodeMcu(block);
      if done {
        if restartInterval > 0 {
          restartsToGo := restartsToGo - 1;
        }
        before := before + [was];
        inner.SymbolsAre();
      } else {
        inner.br.PausedInside();
      }
    }

    /** decode_mcu_AC_refine: restarts are passed once, however often the call is repeated after a suspension. */
    method DecodeMcu(block: array<int>, ghost was: Values) returns (out: Outcome)
      requires Valid() && Pending(was, block[..])
      modifies this`restartsToGo, this`nextRestart, this`restarts, this`before, inner, inner.br, block
      modifies inner.br.input`pos, inner.br.input`unread, inner.br.input`n, inner.br.input`seg
      ensures out == Lost ==> old(Due()) && old(inner.br.input.seg).marker != 0xD0 + old(restarts) % 8
      ensures out != Lost ==> Valid() && restarts == (if old(Due()) && !(out.Suspended? && Due()) then old(restarts) + 1 else old(restarts))
      ensures out.Suspended? ==> inner.br.Paused() && (Due() ==> old(Due())) && Pending(was, block[..])
                                 && before == if restarts == old(restarts) then old(before) else []
      ensures out.Decoded? ==> before == (if old(Due()) then [] else old(before)) + [was]
                               && block[..] == HeardBand(inner.h, inner.tbl, inner.al, inner.br.input.seg.data, before)
    {
      if restartInterval > 0 && restartsToGo == 0 {
        var r := ProcessRestart();
        if r.Unexpected? {
          return Lost;
        }
        if r.Waiting? {
          return Suspended;
        }
      }
      var done := DecodeInside(block, was);
      out := if done then Decoded else Suspended;
    }

    /** The source delivers k more bytes. */
    method Deliver(k: nat)
      requires Valid()
      modifies inner.br.input`avail
      ensures Valid() && Due() == old(Due()) && inner.br.input.avail == old(inner.br.input.avail) + k
      ensures inner.br.t == old(inner.br.t) && inner.br.Bits() == old(inner.br.Bits()) && inner.br.End() == old(inner.br.End())
    {
      inner.Deliver(k);
    }

    /** decode_mcu_AC_refine for band i of the scan. */
    method DecodeNext(block: array<int>, ghost ds: seq<Values>, ghost i: nat) returns (out: Outcome)
      requires Valid() && i < |ds| && Pending(ds[i], block[..]) && Reached(ds, i)
      modifies this`restartsToGo, this`nextRestart, this`restarts, this`before, inner, inner.br, block
      modifies inner.br.input`pos, inner.br.input`unread, inner.br.input`n, inner.br.input`seg
      ensures match out
              case Lost => !InSync(Src(), PlaceOf(restartInterval, i).r)
              case Suspended => Valid() && Reached(ds, i) && Pending(ds[i], block[..]) && inner.br.Paused()
                                && (Due() ==> old(Due())) && (Due() == old(Due()) ==> inner.br.input.seg == old(inner.br.input.seg))
              case Decoded => Valid() && Reached(ds, i + 1) && block[..] == HeardAt(inner.h, inner.tbl, inner.al, Src(), restartInterval, ds, i)
    {
      ghost var r, was := restarts, before;
      Followed(restartInterval, ds, r, was, i);
      out := DecodeMcu(block, ds[i]);
      if out == Lost {
        assert !InSync(Src(), r + 1);
      } else if out == Decoded {
        BandReached(inner.h, inner.tbl, inner.al, Src(), restartInterval, ds, i, r, was, restarts, before, block[..]);
      }
    }

    /** The bands before band i have been decoded. */
    ghost predicate Reached(ds: seq<Values>, i: nat)
      requires i <= |ds|
      reads this
    {
      InProgress(restartInterval, ds, before, i) && NextPlace(restartInterval, restarts, |before|, i)
    }

    /** Band i; the source delivers more whenever it has paused, as the deliveries from k0 on say, and then byte by byte. */
    method DecodePatiently(block: array<int>, ghost ds: seq<Values>, ghost i: nat, deliveries: seq<nat>, k0: nat) returns (ok: bool, k: nat)
      requires Valid() && i < |ds| && Pending(ds[i], block[..]) && Reached(ds, i) && k0 <= |deliveries|
      modifies this`restartsToGo, this`nextRestart, this`restarts, this`before, inner, inner.br, block
      modifies inner.br.input`pos, inner.br.input`unread, inner.br.input`n, inner.br.input`seg, inner.br.input`avail
      ensures k0 <= k <= |deliveries|
      ensures if ok then Valid() && Reached(ds, i + 1) && block[..] == HeardAt(inner.h, inner.tbl, inner.al, Src(), restartInterval, ds, i)
              else !InSync(Src(), PlaceOf(restartInterval, i).r)
    {
      k := k0;
      while true
        invariant Valid() && Reached(ds, i) && Pending(ds[i], block[..]) && k0 <= k <= |deliveries|
        decreases |deliveries| - k, Due(), inner.br.input.seg.end - inner.br.input.avail
      {
        var out := DecodeNext(block, ds, i);
        match out
        case Lost => return false, k;
        case Decoded => return true, k;
        case Suspended =>
          if k < |deliveries| {
            Deliver(deliveries[k]);
            k := k + 1;
          } else {
            Deliver(1);
          }
      }
    }

    /** Band i, in an array of its own. */
    method DecodeBand(ds: seq<Values>, i: nat, deliveries: seq<nat>, k0: nat) returns (ok: bool, band: Values, k: nat)
      requires Valid() && i < |ds| && Reached(ds, i) && k0 <= |deliveries|
      modifies this`restartsToGo, this`nextRestart, this`restarts, this`before, inner, inner.br
      modifies inner.br.input`pos, inner.br.input`unread, inner.br.input`n, inner.br.input`seg, inner.br.input`avail
      ensures k0 <= k <= |deliveries|
      ensures if ok then Valid() && Reached(ds, i + 1) && band == HeardAt(inner.h, inner.tbl, inner.al, Src(), restartInterval, ds, i)
              else !InSync(Src(), PlaceOf(restartInterval, i).r)
    {
      band := ds[i];
      var block := new int[|band|](k requires 0 <= k < |band| => band[k]);
      assert block[..] == band;
      ok, k := DecodePatiently(block, ds, i, deliveries, k0);
      band := block[..];
    }
  }

  /** What decoding makes of band i of a scan. */
  function HeardAt(h: HuffTable, tbl: nat, al: nat, src: seq<byte>, interval: nat, ds: seq<Values>, i: nat): (d: Values)
    requires i < |ds|
  {
    var p := PlaceOf(interval, i);
    HeardBand(h, tbl, al, SegmentAt(src, p.r).data, Preceding(interval, ds, i) + [ds[i]])
  }

  /** A band has been decoded behind the others of its interval, or as the first one of the next. */
  lemma {:induction false} BandReached(h: HuffTable, tbl: nat, al: nat, src: seq<byte>, interval: nat, ds: seq<Values>, i: nat,
                                       r: nat, was: seq<Values>, r': nat, now: seq<Values>, band: seq<int>)
    requires i < |ds| && InProgress(interval, ds, was, i) && NextPlace(interval, r, |was|, i)
    requires var due := interval > 0 && |was| == interval; r' == (if due then r + 1 else r) && now == (if due then [] else was) + [ds[i]]
    requires band == HeardBand(h, tbl, al, SegmentAt(src, r').data, now)
    ensures InProgress(interval, ds, now, i + 1) && NextPlace(interval, r', |now|, i + 1) && band == HeardAt(h, tbl, al, src, interval, ds, i)
  {
    Followed(interval, ds, r, was, i);
  }

  /** The bands are those of the decoding function, one by one. */
  ghost predicate AllHeard(h: HuffTable, tbl: nat, al: nat, src: seq<byte>, interval: nat, ds: seq<Values>, outs: seq<Values>)
    requires |outs| <= |ds|
  {
    forall i :: 0 <= i < |outs| ==> outs[i] == HeardAt(h, tbl, al, src, interval, ds, i)
  }

  lemma {:induction false} OneMoreHeard(h: HuffTable, tbl: nat, al: nat, src: seq<byte>, interval: nat, ds: seq<Values>, outs: seq<Values>, d: Values)
    requires |outs| < |ds| && AllHeard(h, tbl, al, src, interval, ds, outs) && d == HeardAt(h, tbl, al, src, interval, ds, |outs|)
    ensures AllHeard(h, tbl, al, src, interval, ds, outs + [d])
  {
  }

  /** Refine the bands ds of a scan; stops early only when a restart marker is not the expected one. */
  method DecodeScan(h: HuffTable, d: DecoderTable, tbl: nat, al: nat, interval: nat, src: seq<byte>, ds: seq<Values>, deliveries: seq<nat>)
    returns (outs: seq<Values>)
    requires Usable(h) && Decodes(h, d)
    ensures |outs| <= |ds| && (|outs| < |ds| ==> !InSync(src, PlaceOf(interval, |outs|).r))
    ensures AllHeard(h, tbl, al, src, interval, ds, outs)
  {
    var r := new RefineScanDecoder(h, d, tbl, al, interval, src);
    outs := [];
    var k := 0;
    while |outs| < |ds|
      invariant r.Valid() && r.inner.h == h && r.inner.tbl == tbl && r.inner.al == al && r.restartInterval == interval && r.Src() == src
      invariant fresh(r) && fresh(r.inner) && fresh(r.inner.br) && fresh(r.inner.br.input)
      invariant |outs| <= |ds| && k <= |deliveries| && r.Reached(ds, |outs|) && AllHeard(h, tbl, al, src, interval, ds, outs)
    {
      var ok, band;
      ok, band, k := r.DecodeBand(ds, |outs|, deliveries, k);
      if !ok {
        return;
      }
      OneMoreHeard(h, tbl, al, src, interval, ds, outs, band);
      outs := outs + [band];
    }
  }

  // ---- The round trip ----

  /** A coefficient at precision al: its magnitude truncated to a multiple of the al-th power of two. */
  function Truncated(v: int, al: nat): (x: int) { Signed(v < 0, Shl(Shr(Abs(v), al), al)) }

  function TruncatedBand(values: Values, al: nat): (d: Values)
    ensures |d| == |values|
  {
    seq(|values|, k requires 0 <= k < |values| => Truncated(values[k], al))
  }

  function AllTruncated(values: seq<Values>, al: nat): (ds: seq<Values>)
    ensures |ds| == |values|
  {
    seq(|values|, i requires 0 <= i < |values| => TruncatedBand(values[i], al))
  }

  lemma {:induction false} BandMeans(values: Values, al: nat)
    ensures Mix(BandOf(values, al), al, 0) == TruncatedBand(values, al + 1)
    ensures Mix(BandOf(values, al), al, |values|) == TruncatedBand(values, al)
  {
  }

  function OneCode(e: EncoderTable): Book { _ => e }

  /** The decoder will succeed on data that holds what was written. */
  lemma {:induction false} WrittenRuns(h: HuffTable, e: EncoderTable, tbl: nat, al: nat, piece: Piece<Values>) returns (c: Run)
    requires Usable(h) && Encodes(h, e) && BandsCoded(OneCode(e), tbl, al, piece)
    ensures c.s == DataBits(piece.code) && c.rd == HuffmanSymbols(OneTable(h), c.s) && c.tbl == tbl && c.al == al
    ensures c.bands == Bands(piece.mcus, al) && c.end <= 8 * |piece.code| && Runs(c, 0, 0, 0)
  {
    assert Look(Filing, 0);
    var book, items, s := OneCode(e), IntervalItems(tbl, al, piece.mcus), DataBits(piece.code);
    HuffmanIsFaithful(book, OneTable(h), s);
    MatchingCarries(book, s, 0, items);
    c := Run(book, HuffmanSymbols(OneTable(h), s), s, tbl, al, Bands(piece.mcus, al), Len(book, items));
    BlocksWork(c, 0, 0, [], 0, 0, 0, items);
  }

  /** An interval from which the decoder will succeed is refined, band after band. */
  lemma {:induction false} IntervalRefined(c: Run, end: nat, values: seq<Values>, n: nat)
    requires Runs(c, 0, 0, 0) && c.end <= end && c.bands == Bands(values, c.al) && n <= |values|
    ensures var (outs, t, e) := RefineInterval(c.rd, c.s, end, c.tbl, c.al, AllTruncated(values, c.al + 1), n);
            outs == AllTruncated(values, c.al)[..n] && Runs(c, n, t, e) && t <= c.end
  {
    var ds := AllTruncated(values, c.al + 1);
    if n > 0 {
      IntervalRefined(c, end, values, n - 1);
      var (outs, t, e) := RefineInterval(c.rd, c.s, end, c.tbl, c.al, ds, n - 1);
      BandMeans(values[n - 1], c.al);
      NextRefined(c, n - 1, t, e);
      assert AllTruncated(values, c.al)[..n] == AllTruncated(values, c.al)[..n - 1] + [TruncatedBand(values[n - 1], c.al)];
    }
    var (outs, t, e) := RefineInterval(c.rd, c.s, end, c.tbl, c.al, ds, n);
    RunsBound(c, n, t, e);
  }

  /** A band of a coded interval is taken from precision Al + 1 to precision Al. */
  lemma {:induction false} PieceHeard(h: HuffTable, e: EncoderTable, tbl: nat, al: nat, piece: Piece<Values>, ds: seq<Values>, j: nat)
    requires Usable(h) && Encodes(h, e) && BandsCoded(OneCode(e), tbl, al, piece) && j < |piece.mcus|
    requires |ds| == j + 1 && forall i :: 0 <= i <= j ==> ds[i] == TruncatedBand(piece.mcus[i], al + 1)
    ensures HeardBand(h, tbl, al, piece.code, ds) == TruncatedBand(piece.mcus[j], al)
  {
    var c := WrittenRuns(h, e, tbl, al, piece);
    IntervalRefined(c, 8 * |piece.code|, piece.mcus, j + 1);
    assert AllTruncated(piece.mcus, al + 1)[..j + 1] == ds[..j + 1];
    FrontAlike(c.rd, c.s, 8 * |piece.code|, tbl, al, AllTruncated(piece.mcus, al + 1), ds, j + 1);
  }

  lemma {:induction false} BandHeard(h: HuffTable, e: EncoderTable, tbl: nat, al: nat, interval: nat, values: seq<Values>, pieces: seq<Piece<Values>>,
                                     src: seq<byte>, fill: nat, i: nat)
    requires Usable(h) && Encodes(h, e) && |pieces| > 0 && i < |values|
    requires Archived(OneCode(e), tbl, al, pieces) && AllInPlace(interval, values, pieces, |values|) && Holding(src, pieces, fill)
    ensures HeardAt(h, tbl, al, src, interval, AllTruncated(values, al + 1), i) == TruncatedBand(values[i], al)
    ensures InSync(src, PlaceOf(interval, i).r)
  {
    var p, ds := PlaceOf(interval, i), AllTruncated(values, al + 1);
    PieceFront(interval, values, pieces, i);
    ScanRead(src, pieces, fill, p.r);
    StaysInSync(src, pieces, fill, p.r);
    BandInPiece(h, e, tbl, al, values, pieces[p.r], p.j, i, Preceding(interval, ds, i) + [ds[i]]);
  }

  lemma {:induction false} BandInPiece(h: HuffTable, e: EncoderTable, tbl: nat, al: nat, values: seq<Values>, piece: Piece<Values>, j: nat, i: nat,
                                       before: seq<Values>)
    requires Usable(h) && Encodes(h, e) && j <= i < |values| && BandsCoded(OneCode(e), tbl, al, piece)
    requires j < |piece.mcus| && piece.mcus[..j + 1] == values[i - j..i + 1]
    requires var ds := AllTruncated(values, al + 1); before == ds[i - j..i] + [ds[i]]
    ensures HeardBand(h, tbl, al, piece.code, before) == TruncatedBand(values[i], al)
  {
    SameBands(values, al, piece.mcus, j, i, before);
    PieceHeard(h, e, tbl, al, piece, before, j);
    assert piece.mcus[j] == piece.mcus[..j + 1][j] == values[i - j..i + 1][j];
  }

  /** The bands of an interval up to band i are those of the scan. */
  lemma {:induction false} SameBands(values: seq<Values>, al: nat, piece: seq<Values>, j: nat, i: nat, before: seq<Values>)
    requires j <= i < |values| && j < |piece| && piece[..j + 1] == values[i - j..i + 1]
    requires var ds := AllTruncated(values, al + 1); before == ds[i - j..i] + [ds[i]]
    ensures |before| == j + 1 && forall k :: 0 <= k <= j ==> before[k] == TruncatedBand(piece[k], al + 1)
  {
    forall k | 0 <= k <= j ensures before[k] == TruncatedBand(piece[k], al + 1) {
      assert piece[k] == piece[..j + 1][k] == values[i - j..i + 1][k] == values[i - j + k];
    }
  }

  /**
    Encoding a refinement scan and decoding it takes every coefficient from precision Al + 1 to precision Al, for any
    restart interval and however the data source delivers the bytes. The encoder fails exactly if its table is not
    accepted, or lacks a symbol that is needed.
  */
  method EncodeThenDecode(h: HuffTable, tbl: nat, al: nat, interval: nat, values: seq<Values>, fill: nat, marker: byte, rest: seq<byte>,
                          deliveries: seq<nat>) returns (started: bool, ok: bool, e: EncoderTable, outs: seq<Values>)
    requires ValidTable(h) && fill >= 1 && marker !in {0, 0xFF} && BandSizes(values)
    ensures started == EncoderAccepts(h, false)
    ensures started ==> Encodes(h, e) && ok == ScanCodable(OneCode(e), tbl, al, interval, values)
    ensures started && ok ==> outs == AllTruncated(values, al)
  {
    ok, outs := false, [];
    started, e := MakeEncoderTable(h, false);
    if started {
      AgreeIsProper(h, e);
      var out;
      ghost var pieces;
      ok, out, pieces := EncodeScan(OneCode(e), tbl, al, interval, values);
      if ok {
        var src := out + Repeat(0xFF, fill) + [marker] + rest;
        var fine, d := MakeDecoderTable(h, false);
        outs := DecodeScan(h, d, tbl, al, interval, src, AllTruncated(values, al + 1), deliveries);
        forall i | 0 <= i < |values|
          ensures HeardAt(h, tbl, al, src, interval, AllTruncated(values, al + 1), i) == TruncatedBand(values[i], al)
          ensures InSync(src, PlaceOf(interval, i).r)
        {
          BandHeard(h, e, tbl, al, interval, values, pieces, src, fill, i);
        }
      }
    }
  }
}
