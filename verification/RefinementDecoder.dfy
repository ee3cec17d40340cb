/** decode_mcu_AC_refine of jdhuff.c, with a data source that may pause anywhere. */
module RefinementDecoder {
  import opened Numbers
  import opened ByteStuffing
  import opened SegmentSource
  import opened HuffmanCode
  import opened HuffmanTables
  import opened BitStrings
  import opened HuffmanInput
  import opened HuffmanBlocks
  import opened Refinement
  import opened Suspension
  import opened Opening

  lemma {:induction false} SymbolBound(h: HuffTable, s: Stream, t: nat)
    requires Usable(h)
    ensures ReadSymbol(h, s, t).0 < 256
  {
    match Lookup(s, t, h.bits)
    case NoCode =>
    case Found(c) => AtIndex(h.bits, c);
  }

  /** A scan with AC coefficients of one component has one table. */
  function OneTable(h: HuffTable): Shelf { _ => h }

  /** Decoding a block from one state of the decoder is decoding it from another one. */
  ghost predicate SameOutcome(rd: Symbols, s: Stream, t: nat, tbl: nat, al: nat, d: seq<int>, d2: seq<int>, e: int)
  {
    RefineBlock(rd, s, t, tbl, al, d2, e) == RefineBlock(rd, s, t, tbl, al, d, e)
  }

  predicate Within(positions: seq<nat>, n: nat) { forall i :: 0 <= i < |positions| ==> positions[i] < n }

  class RefineDecoder {
    const tbl: nat
    const al: nat
    const h: HuffTable
    const d: DecoderTable
    const br: BitReader
    /** How symbols are to be read in the current segment, with the one table of the scan. */
    ghost var rd: Symbols
    var eobrun: int

    ghost predicate Ready()
      reads this, br, br.input
    {
      && br.Valid()
      && forall x {:trigger Look(Machine, x)} :: Look(Machine, x) ==>
           Usable(h) && Decodes(h, d) && rd == HuffmanSymbols(OneTable(h), br.Bits())
    }

    /** Between calls. */
    ghost predicate Valid()
      reads this, br, br.input
    {
      Ready() && br.permT == br.t
    }

    constructor (tbl: nat, al: nat, h: HuffTable, d: DecoderTable, src: seq<byte>)
      requires Usable(h) && Decodes(h, d)
      ensures Valid() && eobrun == 0 && br.t == 0 && this.tbl == tbl && this.al == al && this.h == h
      ensures fresh(br) && fresh(br.input) && br.input.src == src && br.input.seg == Unstuff(src, 0) && br.input.avail == 0
      ensures rd == HuffmanSymbols(OneTable(h), br.Bits())
    {
      this.tbl, this.al, this.h, this.d, eobrun := tbl, al, h, d, 0;
      br := new BitReader(src);
      rd := HuffmanSymbols(OneTable(h), DataBits(Unstuff(src, 0).data));
    }

    method GetBit() returns (ok: bool, bit: bool)
      requires Ready()
      modifies br`getBuffer, br`bitsLeft, br`insufficient, br`t, br.input`pos, br.input`unread, br.input`n
      ensures Ready() && (!ok ==> br.Paused()) && (ok ==> br.t == old(br.t) + 1 && bit == br.Bits()(old(br.t)))
    {
      var x;
      ok, x := br.GetBits(1);
      assert ok ==> x == 2 * Peek(br.Bits(), old(br.t), 0) + (if br.Bits()(old(br.t) + 1 - 1) then 1 else 0);
      bit := x == 1;
    }

    /** Read a correction bit for a nonzero coefficient. */
    method CorrectOne(block: array<int>, k: nat) returns (ok: bool)
      requires Ready() && k < block.Length && block[k] != 0
      modifies block, br`getBuffer, br`bitsLeft, br`insufficient, br`t, br.input`pos, br.input`unread, br.input`n
      ensures Ready() && (!ok ==> br.Paused() && block[..] == old(block[..]))
      ensures ok ==> br.t == old(br.t) + 1
                     && block[..] == if br.Bits()(old(br.t)) then old(block[..])[k := Bump(old(block[k]), al)] else old(block[..])
    {
      var bit;
      ok, bit := GetBit();
      if ok && bit {
        if !BitSet(block[k], al) {
          if block[k] >= 0 {
            block[k] := block[k] + Shl(1, al);
          } else {
            block[k] := block[k] - Shl(1, al);
          }
        }
      }
    }

    /** Correct all nonzero coefficients from `first` on; after a pause this can be started over. */
    method CorrectFrom(block: array<int>, first: nat) returns (ok: bool)
      requires Ready()
      modifies block, br`getBuffer, br`bitsLeft, br`insufficient, br`t, br.input`pos, br.input`unread, br.input`n
      ensures Ready() && (!ok ==> br.Paused() && SamePart(old(block[..]), block[..], 0, first))
      ensures ok ==> var (d, t) := Correct(br.Bits(), old(br.t), al, old(block[..]), first); block[..] == d && br.t == t
      ensures !ok ==> Correct(br.Bits(), old(br.t), al, block[..], first) == Correct(br.Bits(), old(br.t), al, old(block[..]), first)
    {
      var k := first;
      ok := true;
      ghost var s, t0 := br.Bits(), br.t;
      NothingCorrected(s, al, t0, block[..], first);
      while k < block.Length
        invariant Ready() && first <= k && ok && SamePart(old(block[..]), block[..], 0, first)
        invariant Correct(s, br.t, al, block[..], k) == Correct(s, t0, al, old(block[..]), first)
        invariant CorrectedUpTo(s, al, t0, first, br.t, block[..], k)
        decreases block.Length - k
      {
        ghost var was, t := block[..], br.t;
        if block[k] != 0 {
          CorrectedOne(s, al, t0, first, t, was, k);
          ok := CorrectOne(block, k);
          if !ok {
            assert SamePart(was, was, first, k) && Correct(s, t, al, was, k) == Correct(s, t0, al, was, first);
            return;
          }
        } else {
          CorrectedZero(s, al, t0, first, t, was, k);
        }
        k := k + 1;
      }
    }

    /** Advance over nonzero coefficients and r zero ones; after a pause this can be started over. */
    method AdvanceOver(block: array<int>, first: nat, r0: nat) returns (ok: bool, k: nat)
      requires Ready() && first < block.Length
      modifies block, br`getBuffer, br`bitsLeft, br`insufficient, br`t, br.input`pos, br.input`unread, br.input`n
      ensures Ready() && (!ok ==> br.Paused() && SamePart(old(block[..]), block[..], 0, first))
      ensures ok ==> var (d, t, k') := Advance(br.Bits(), old(br.t), al, old(block[..]), first, r0);
                     block[..] == d && br.t == t && k == k' && first <= k <= block.Length
      ensures !ok ==> Advance(br.Bits(), old(br.t), al, block[..], first, r0) == Advance(br.Bits(), old(br.t), al, old(block[..]), first, r0)
    {
      k, ok := first, true;
      var r: int := r0;
      ghost var s, t0 := br.Bits(), br.t;
      NothingAdvanced(s, al, t0, block[..], first, r0);
      while k < block.Length
        invariant Ready() && ok && first <= k <= block.Length && r >= 0 && SamePart(old(block[..]), block[..], 0, first)
        invariant Advance(s, br.t, al, block[..], k, r) == Advance(s, t0, al, old(block[..]), first, r0)
        invariant AdvancedUpTo(s, al, t0, first, r0, br.t, block[..], k, r)
      {
        ghost var was, t := block[..], br.t;
        if block[k] != 0 {
          AdvancedOne(s, al, t0, first, r0, t, was, k, r);
          ok := CorrectOne(block, k);
          if !ok {
            assert SamePart(was, was, first, k) && Advance(s, t, al, was, k, r) == Advance(s, t0, al, was, first, r0);
            return;
          }
        } else {
          if r > 0 {
            AdvancedZero(s, al, t0, first, r0, t, was, k, r);
          }
          r := r - 1;
          if r < 0 {
            break;
          }
        }
        k := k + 1;
      }
    }

    /** The next symbol. */
    method Symbol() returns (ok: bool, sym: nat)
      requires Ready()
      modifies br`getBuffer, br`bitsLeft, br`insufficient, br`t, br.input`pos, br.input`unread, br.input`n
      ensures Ready() && (!ok ==> br.Paused())
      ensures ok ==> (var (y, t) := rd(AcTable(tbl), old(br.t)); sym == y && br.t == t) && sym < 256
    {
      assert Look(Machine, 0);
      SymbolBound(h, br.Bits(), br.t);
      ok, sym := br.HuffDecode(h, d);
    }

    /** A run of zeros and perhaps a newly nonzero coefficient, and the position behind; after a pause this can be started over. */
    method DecodeCoef(block: array<int>, k0: nat, r: nat, isNew: bool) returns (ok: bool, k: nat)
      requires Ready() && k0 < block.Length
      modifies block, br`getBuffer, br`bitsLeft, br`insufficient, br`t, br.input`pos, br.input`unread, br.input`n
      ensures Ready() && (!ok ==> br.Paused() && SamePart(old(block[..]), block[..], 0, k0))
      ensures ok ==> var (d, t, k') := Continued(br.Bits(), al, Refinement.Symbol(old(br.t), r, isNew), old(block[..]), k0);
                     block[..] == d && br.t == t && k == k' && k0 <= k
      ensures !ok ==> var y := Refinement.Symbol(old(br.t), r, isNew);
                      Continued(br.Bits(), al, y, block[..], k0) == Continued(br.Bits(), al, y, old(block[..]), k0)
    {
      var s := 0;
      k := k0;
      if isNew {
        var bit;
        ok, bit := GetBit();
        if !ok {
          return;
        }
        s := Signed(!bit, Shl(1, al));
      }
      ok, k := AdvanceOver(block, k0, r);
      if ok && isNew && k < block.Length {
        block[k] := s;
      }
    }

    /** What follows an end-of-band symbol. */
    method EndOfBand(block: array<int>, k: nat, sym: nat, ghost t: nat, ghost out: Result) returns (ok: bool, e: int)
      requires Ready() && k < block.Length && Gives(rd, br.Bits(), tbl, al, t, block[..], k, out)
      requires rd(AcTable(tbl), t) == (sym, br.t) && sym < 256 && sym % 16 == 0 && sym / 16 != 15
      modifies block, br`getBuffer, br`bitsLeft, br`insufficient, br`t, br.input`pos, br.input`unread, br.input`n
      ensures Ready()
      ensures if ok then block[..] == out.0 && br.t == out.1 && e == out.2
              else br.Paused() && SamePart(old(block[..]), block[..], 0, k) && Gives(rd, br.Bits(), tbl, al, t, block[..], k, out)
    {
      ghost var was, t1 := block[..], br.t;
      var r := sym / 16;
      e := 0;
      GivesByEob(rd, br.Bits(), tbl, al, t, was, k, out, sym, t1);
      var x;
      ok, x := br.GetBits(r);
      if ok {
        e := Shl(1, r) + x - 1;
        ok := CorrectFrom(block, k);
        GivesByEob(rd, br.Bits(), tbl, al, t, block[..], k, out, sym, t1);
      }
    }

    /** What follows any other symbol. */
    method NextCoef(block: array<int>, k0: nat, sym: nat, newnz0: seq<nat>, ghost t0: nat, ghost t: nat, ghost out: Result)
      returns (ok: bool, k: nat, newnz: seq<nat>)
      requires Ready() && k0 < block.Length && Gives(rd, br.Bits(), tbl, al, t, block[..], k0, out)
      requires Restartable(rd, br.Bits(), tbl, al, t0, newnz0, t, block[..], k0, out) && Within(newnz0, block.Length)
      requires rd(AcTable(tbl), t) == (sym, br.t) && !(sym % 16 == 0 && sym / 16 != 15)
      modifies block, br`getBuffer, br`bitsLeft, br`insufficient, br`t, br.input`pos, br.input`unread, br.input`n
      ensures Ready()
      ensures ok ==> k > k0 && Gives(rd, br.Bits(), tbl, al, br.t, block[..], k, out)
                     && Restartable(rd, br.Bits(), tbl, al, t0, newnz, br.t, block[..], k, out) && Within(newnz, block.Length)
      ensures !ok ==> br.Paused() && SamePart(old(block[..]), block[..], 0, k0) && Gives(rd, br.Bits(), tbl, al, t, block[..], k0, out)
    {
      ghost var was, t1 := block[..], br.t;
      GivesBySymbol(rd, br.Bits(), tbl, al, t, was, k0, out, sym, t1);
      ok, k := DecodeCoef(block, k0, sym / 16, sym % 16 != 0);
      newnz := newnz0;
      if ok {
        RestartableOn(rd, br.Bits(), tbl, al, t0, newnz0, t, was, k0, out, sym, t1, block[..], br.t, k);
        if sym % 16 != 0 && k < block.Length {
          newnz := newnz + [k];
        }
        k := k + 1;
      } else {
        GivesBySymbol(rd, br.Bits(), tbl, al, t, block[..], k0, out, sym, t1);
      }
    }

    /** One symbol and what it stands for. */
    method DecodeSymbol(block: array<int>, k0: nat, newnz0: seq<nat>, ghost t0: nat, ghost out: Result)
      returns (ok: bool, more: bool, k: nat, newnz: seq<nat>, e: int)
      requires Ready() && k0 < block.Length && Gives(rd, br.Bits(), tbl, al, br.t, block[..], k0, out)
      requires Restartable(rd, br.Bits(), tbl, al, t0, newnz0, br.t, block[..], k0, out) && Within(newnz0, block.Length)
      modifies block, br`getBuffer, br`bitsLeft, br`insufficient, br`t, br.input`pos, br.input`unread, br.input`n
      ensures Ready()
      ensures ok && more ==> k > k0 && Gives(rd, br.Bits(), tbl, al, br.t, block[..], k, out)
                             && Restartable(rd, br.Bits(), tbl, al, t0, newnz, br.t, block[..], k, out) && Within(newnz, block.Length)
      ensures ok && !more ==> block[..] == out.0 && br.t == out.1 && e == out.2
      ensures !ok ==> br.Paused() && newnz == newnz0 && Gives(rd, br.Bits(), tbl, al, t0, Undo(block[..], newnz), 0, out)
    {
      ghost var t, was := br.t, block[..];
      more, k, newnz, e := true, k0, newnz0, 0;
      var sym;
      ok, sym := Symbol();
      if ok {
        if sym % 16 == 0 && sym / 16 != 15 {
          more := false;
          ok, e := EndOfBand(block, k, sym, t, out);
        } else {
          ok, k, newnz := NextCoef(block, k, sym, newnz, t0, t, out);
        }
      }
      if !ok {
        newnz := newnz0;
        assert SamePart(was, block[..], 0, k0) && Gives(rd, br.Bits(), tbl, al, t, block[..], k0, out);
      }
    }

    /** Re-zero the coefficients that were made newly nonzero. */
    method UndoIt(block: array<int>, newnz: seq<nat>)
      requires Within(newnz, block.Length)
      modifies block
      ensures block[..] == Undo(old(block[..]), newnz)
    {
      var n := |newnz|;
      while n > 0
        invariant 0 <= n <= |newnz| && block[..] == Undo(old(block[..]), newnz[n..])
      {
        n := n - 1;
        assert newnz[n..] == [newnz[n]] + newnz[n + 1..];
        block[newnz[n]] := 0;
      }
      assert newnz[0..] == newnz;
    }

    /** A block that does not begin within an end-of-band run. After a pause, newly nonzero coefficients are undone. */
    method DecodeBand(block: array<int>) returns (ok: bool, e: int)
      requires Ready()
      modifies block, br`getBuffer, br`bitsLeft, br`insufficient, br`t, br.input`pos, br.input`unread, br.input`n
      ensures Ready() && (!ok ==> br.Paused())
      ensures ok ==> var (d, t, e') := ReadBand(rd, br.Bits(), old(br.t), tbl, al, old(block[..]), 0); block[..] == d && br.t == t && e == e'
      ensures !ok ==> Gives(rd, br.Bits(), tbl, al, old(br.t), block[..], 0, ReadBand(rd, br.Bits(), old(br.t), tbl, al, old(block[..]), 0))
    {
      var k, more, newnz: seq<nat> := 0, true, [];
      ghost var t0, out := br.t, ReadBand(rd, br.Bits(), br.t, tbl, al, block[..], 0);
      RestartableAtFirst(rd, br.Bits(), tbl, al, t0, block[..], out);
      while k < block.Length
        invariant Ready() && k >= 0 && Gives(rd, br.Bits(), tbl, al, br.t, block[..], k, out)
        invariant Restartable(rd, br.Bits(), tbl, al, t0, newnz, br.t, block[..], k, out) && Within(newnz, block.Length)
        decreases block.Length - k
      {
        ok, more, k, newnz, e := DecodeSymbol(block, k, newnz, t0, out);
        if !ok {
          UndoIt(block, newnz);
          return;
        }
        if !more {
          return;
        }
      }
      GivesAtEnd(rd, br.Bits(), tbl, al, br.t, block[..], k, out);
      ok, e := true, 0;
    }

    /** The block and the run that it leaves, from the saved state. */
    method DecodeBlock(block: array<int>) returns (ok: bool, e: int)
      requires Ready()
      modifies block, br`getBuffer, br`bitsLeft, br`insufficient, br`t, br.input`pos, br.input`unread, br.input`n
      ensures Ready() && (!ok ==> br.Paused())
      ensures ok ==> var (d, t, e') := RefineBlock(rd, br.Bits(), old(br.t), tbl, al, old(block[..]), eobrun);
                     block[..] == d && br.t == t && e == e'
      ensures !ok ==> SameOutcome(rd, br.Bits(), old(br.t), tbl, al, old(block[..]), block[..], eobrun)
    {
      if eobrun > 0 {
        ok := CorrectFrom(block, 0);
        e := eobrun - 1;
      } else {
        ghost var t, was := br.t, block[..];
        ok, e := DecodeBand(block);
        if !ok {
          GivesMeans(rd, br.Bits(), tbl, al, t, was, block[..]);
        }
      }
    }

    /**
      decode_mcu_AC_refine within a restart interval; once the data has run out, blocks are left alone. If the source
      pauses, bit state and run are as before, and the block, perhaps with corrections made, still leads to the same
      outcome. It does not pause if it has delivered the whole segment.
    */
    method DecodeMcu(block: array<int>) returns (done: bool)
      requires Valid()
      modifies this`eobrun, block, br`getBuffer, br`bitsLeft, br`insufficient, br`t, br.input`pos, br.input`unread, br.input`n, br`permBuffer, br`permLeft, br`permPos, br`permT, br`permN
      ensures Valid()
      ensures !done ==> br.Paused() && br.t == old(br.t) && eobrun == old(eobrun)
                        && SameOutcome(rd, br.Bits(), br.t, tbl, al, old(block[..]), block[..], eobrun)
      ensures !done ==> br.getBuffer == old(br.permBuffer) && br.bitsLeft == old(br.permLeft) && br.input.pos == old(br.permPos)
      ensures done && old(br.t) <= br.End() ==>
                var (d, t, e) := RefineBlock(rd, br.Bits(), old(br.t), tbl, al, old(block[..]), old(eobrun));
                block[..] == d && br.t == t && eobrun == e
      ensures done && old(br.t) > br.End() ==> block[..] == old(block[..]) && br.t == old(br.t) && eobrun == old(eobrun)
    {
      done := true;
      br.FlagMeans();
      if !br.insufficient {
        var e;
        done, e := DecodeBlock(block);
        if done {
          eobrun := e;
          br.Save();
        } else {
          br.Rewind();
        }
      }
    }

    lemma SymbolsAre()
      requires Ready()
      ensures rd == HuffmanSymbols(OneTable(h), br.Bits())
    {
      assert Look(Machine, 0);
    }

    /** process_restart: the next segment is entered exactly if its marker is the expected one. */
    method Restart(num: nat) returns (r: Restarted)
      requires Ready() && num < 8
      modifies this`rd, this`eobrun, br, br.input`pos, br.input`unread, br.input`n, br.input`seg
      ensures match r
              case Synced => Valid() && br.t == 0 && eobrun == 0 && old(br.input.seg).marker == 0xD0 + num
                             && br.input.seg == Unstuff(br.input.src, old(br.input.seg).end)
              case Unexpected => br.input.seg == old(br.input.seg) && br.input.seg.marker != 0xD0 + num
              case Waiting => Valid() && eobrun == old(eobrun) && br.input.seg == old(br.input.seg) && br.Paused()
    {
      assert Look(Machine, 0);
      r := br.Restart(num);
      if r.Synced? {
        eobrun := 0;
        rd := HuffmanSymbols(OneTable(h), br.Bits());
      }
    }

    method Deliver(k: nat)
      requires Valid()
      modifies br.input`avail
      ensures Valid() && br.input.avail == old(br.input.avail) + k
    {
      assert Look(Machine, 0);
      br.Deliver(k);
    }

    /**
      A block, with the source delivering more whenever it has paused: as the deliveries say, and then byte by byte.
      The outcome is that of an uninterrupted run, however often and wherever the decoder was suspended.
    */
    method DecodePatiently(block: array<int>, deliveries: seq<nat>)
      requires Valid() && br.t <= br.End()
      modifies this`eobrun, block, br`getBuffer, br`bitsLeft, br`insufficient, br`t, br.input`pos, br.input`unread, br.input`n, br`permBuffer, br`permLeft, br`permPos, br`permT, br`permN, br.input`avail
      ensures Valid()
      ensures var (d, t, e) := RefineBlock(rd, br.Bits(), old(br.t), tbl, al, old(block[..]), old(eobrun));
              block[..] == d && br.t == t && eobrun == e
    {
      var n := 0;
      var done := false;
      while !done
        invariant Valid() && n <= |deliveries|
        invariant !done ==> br.t == old(br.t) && eobrun == old(eobrun)
                            && SameOutcome(rd, br.Bits(), br.t, tbl, al, old(block[..]), block[..], eobrun)
        invariant done ==> var (d, t, e) := RefineBlock(rd, br.Bits(), old(br.t), tbl, al, old(block[..]), old(eobrun));
                           block[..] == d && br.t == t && eobrun == e
        decreases !done, |deliveries| - n, br.input.seg.end - br.input.avail
      {
        done := DecodeMcu(block);
        if !done {
          if n < |deliveries| {
            Deliver(deliveries[n]);
            n := n + 1;
          } else {
            Deliver(1);
          }
        }
      }
    }
  }

  lemma {:induction false} GivesMeans(rd: Symbols, s: Stream, tbl: nat, al: nat, t: nat, d: seq<int>, d2: seq<int>)
    requires Gives(rd, s, tbl, al, t, d2, 0, ReadBand(rd, s, t, tbl, al, d, 0))
    ensures ReadBand(rd, s, t, tbl, al, d2, 0) == ReadBand(rd, s, t, tbl, al, d, 0)
  {
    assert Look(Refining, 0);
  }
}
