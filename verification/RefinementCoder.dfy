/** encode_mcu_AC_refine of jchuff.c, with its buffered correction bits. */
module RefinementCoder {
  import opened Numbers
  import opened ByteStuffing
  import opened BitStrings
  import opened HuffmanInput
  import opened Blocks
  import opened HuffmanBlocks
  import opened HuffmanOutput
  import opened HuffmanEncoder
  import opened RestartIntervals
  import opened Refinement
  import opened Opening

  // ---- Encoding ----

  /** The band of a block after the point transform. */
  function BandOf(values: seq<int>, al: nat): (cs: Band)
    ensures |cs| == |values|
  {
    seq(|values|, k requires 0 <= k < |values| => Coef(Shr(Abs(values[k]), al), values[k] < 0))
  }

  lemma {:induction false} FlushJoin(tbl: nat, e: nat, be: seq<bool>, rest: Items)
    ensures Flush(tbl, e, be, rest) == Join(Flush(tbl, e, be, End), rest)
  {
  }

  /** What is left to write completes the whole. */
  ghost predicate Completes(items: Items, rest: Items, total: Items)
  {
    forall x {:trigger Look(Course, x)} :: Look(Course, x) ==> Join(items, rest) == total
  }

  /** Writing a pending run and an item. */
  lemma {:induction false} WriteItem(tbl: nat, e: nat, be: seq<bool>, items: Items, item: Items, rest: Items, total: Items)
    requires item.Item? && item.rest == End
    requires Completes(items, Flush(tbl, e, be, Item(item.slot, item.sym, item.extra, rest)), total)
    ensures Completes(Join(Join(items, Flush(tbl, e, be, End)), item), rest, total)
  {
    assert Look(Course, 0);
    var both := Item(item.slot, item.sym, item.extra, rest);
    FlushJoin(tbl, e, be, both);
    JoinAssoc(items, Flush(tbl, e, be, End), both);
    assert both == Join(item, rest);
    JoinAssoc(Join(items, Flush(tbl, e, be, End)), item, rest);
  }

  lemma {:induction false} WriteRun(tbl: nat, e: nat, be: seq<bool>, items: Items, rest: Items, total: Items)
    requires Completes(items, Flush(tbl, e, be, rest), total)
    ensures Completes(Join(items, Flush(tbl, e, be, End)), rest, total)
  {
    assert Look(Course, 0);
    FlushJoin(tbl, e, be, rest);
    JoinAssoc(items, Flush(tbl, e, be, End), rest);
  }

  /** A symbol without a code in what is left makes the whole uncodable. */
  lemma {:induction false} Uncodable(book: Book, items: Items, rest: Items, total: Items)
    requires Completes(items, rest, total) && !Codable(book, rest)
    ensures !Codable(book, total)
  {
    assert Look(Course, 0);
    JoinBits(book, items, rest);
  }

  lemma {:induction false} UncodableItem(book: Book, tbl: nat, e: nat, be: seq<bool>, items: Items, item: Items, rest: Items, total: Items)
    requires item.Item? && item.rest == End && !(Codable(book, Flush(tbl, e, be, End)) && Codable(book, item))
    requires Completes(items, Flush(tbl, e, be, Item(item.slot, item.sym, item.extra, rest)), total)
    ensures !Codable(book, total)
  {
    var both := Item(item.slot, item.sym, item.extra, rest);
    assert both == Join(item, rest);
    JoinBits(book, item, rest);
    FlushJoin(tbl, e, be, both);
    JoinBits(book, Flush(tbl, e, be, End), both);
    Uncodable(book, items, Flush(tbl, e, be, both), total);
  }

  class RefineEncoder {
    const tbl: nat
    const al: nat
    const writer: ItemWriter
    const bitBuffer: array<bool>
    var eobrun: nat
    var be: nat
    /** The bands of the restart interval that will have been coded in the end, and how many have been so far. */
    ghost var bands: seq<Band>
    ghost var done: nat

    ghost function Total(): Items
      reads this
    {
      CodeBlocks(tbl, bands, 0, 0, [])
    }

    /** Between blocks: neither the run counter nor the correction bit buffer can overflow in the next block. */
    ghost predicate Valid()
      reads this, writer, writer.w, bitBuffer
    {
      && writer.Valid() && bitBuffer.Length == MAX_CORR_BITS && done <= |bands|
      && eobrun < MAX_EOBRUN && be <= 937 && (eobrun == 0 ==> be == 0)
      && Completes(writer.items, CodeBlocks(tbl, bands, done, eobrun, bitBuffer[..be]), Total())
    }

    constructor (book: Book, tbl: nat, al: nat, ghost bands: seq<Band>)
      requires forall slot :: ProperTable(book(slot))
      ensures Valid() && done == 0 && this.bands == bands && this.tbl == tbl && this.al == al && writer.book == book
      ensures fresh(writer) && fresh(writer.w) && fresh(bitBuffer) && writer.w.done == []
    {
      this.tbl, this.al := tbl, al;
      writer := new ItemWriter(book);
      bitBuffer := new bool[MAX_CORR_BITS](_ => false);
      eobrun, be := 0, 0;
      this.bands, done := bands, 0;
      new;
      assert bitBuffer[..be] == [];
    }

    /** emit_eobrun: write a pending run and its correction bits; the run length never needs more than 14 bits. */
    method EmitEobrun() returns (ok: bool)
      requires writer.Valid() && eobrun <= MAX_EOBRUN && be <= bitBuffer.Length && (eobrun == 0 ==> be == 0)
      modifies this`eobrun, this`be, writer`items
      modifies writer.w`out, writer.w`putBuffer, writer.w`putBits, writer.w`data, writer.w`q, writer.w`sent
      ensures ok == Codable(writer.book, Flush(tbl, old(eobrun), bitBuffer[..old(be)], End))
      ensures ok ==> writer.Valid() && eobrun == be == 0
                     && writer.items == Join(old(writer.items), Flush(tbl, old(eobrun), bitBuffer[..old(be)], End))
    {
      ok := true;
      if eobrun > 0 {
        var nbits := CountBits(eobrun);
        nbits := nbits - 1;
        NumBitsLimit(eobrun, 15);
        Shl16(1, 16);
        assert nbits <= 14;
        ok := writer.EmitWith(AcTable(tbl), 16 * nbits, eobrun, nbits, bitBuffer[..be]);
        eobrun, be := 0, 0;
      } else {
        JoinEnd(writer.items);
      }
    }

    /** A pending run, a symbol with extra bits, and the correction bits that belong to the symbol. */
    method EmitSymbol(sym: nat, code: nat, n: nat, start: nat, br: nat) returns (ok: bool)
      requires writer.Valid() && eobrun <= MAX_EOBRUN && be <= bitBuffer.Length && (eobrun == 0 ==> be == 0)
      requires sym < 256 && n <= 16 && start + br <= bitBuffer.Length
      modifies this`eobrun, this`be, writer`items
      modifies writer.w`out, writer.w`putBuffer, writer.w`putBits, writer.w`data, writer.w`q, writer.w`sent
      ensures var item := Item(AcTable(tbl), sym, BitsOf(code, n) + bitBuffer[start..start + br], End);
              var run := Flush(tbl, old(eobrun), bitBuffer[..old(be)], End);
              && ok == (Codable(writer.book, run) && Codable(writer.book, item))
              && (ok ==> writer.Valid() && eobrun == be == 0 && writer.items == Join(Join(old(writer.items), run), item))
    {
      ok := EmitEobrun();
      if ok {
        ok := writer.EmitWith(AcTable(tbl), sym, code, n, bitBuffer[start..start + br]);
      }
    }

    /** Within a block: r zeros and br correction bits behind the pending ones are not yet coded. */
    ghost predicate Scanning(k: nat, r: nat, br: nat)
      reads this, writer, writer.w, bitBuffer
    {
      && writer.Valid() && bitBuffer.Length == MAX_CORR_BITS && done < |bands| && k <= |bands[done]| <= 63
      && eobrun < MAX_EOBRUN && be <= 937 && (eobrun == 0 ==> be == 0) && br <= k
      && Completes(writer.items, CodeBand(tbl, bands, done, k, r, bitBuffer[be..be + br], eobrun, bitBuffer[..be]), Total())
    }

    /** Emit a run of sixteen zeros. */
    method EmitZrl(k: nat, r: nat, br: nat) returns (ok: bool)
      requires Scanning(k, r, br) && k < |bands[done]| && bands[done][k].m != 0 && r > 15 && k < EobIndex(bands[done], |bands[done]|)
      modifies this`eobrun, this`be, writer`items
      modifies writer.w`out, writer.w`putBuffer, writer.w`putBits, writer.w`data, writer.w`q, writer.w`sent
      ensures if ok then Scanning(k, r - 16, 0) else !Codable(writer.book, Total())
    {
      ghost var e, run, bits, items := eobrun, bitBuffer[..be], bitBuffer[be..be + br], writer.items;
      ghost var rest := CodeBand(tbl, bands, done, k, r - 16, [], 0, []);
      NoExtra(bits);
      ok := EmitSymbol(0xF0, 0, 0, be, br);
      if ok {
        WriteItem(tbl, e, run, items, Item(AcTable(tbl), 0xF0, bits, End), rest, Total());
        assert bitBuffer[be..be + 0] == [] && bitBuffer[..be] == [];
      } else {
        UncodableItem(writer.book, tbl, e, run, items, Item(AcTable(tbl), 0xF0, bits, End), rest, Total());
      }
    }

    /** Emit a newly nonzero coefficient. */
    method EmitNew(k: nat, r: nat, br: nat, neg: bool) returns (ok: bool)
      requires Scanning(k, r, br) && k < |bands[done]| && bands[done][k] == Coef(1, neg) && r <= 15
      modifies this`eobrun, this`be, writer`items
      modifies writer.w`out, writer.w`putBuffer, writer.w`putBits, writer.w`data, writer.w`q, writer.w`sent
      ensures if ok then Scanning(k + 1, 0, 0) else !Codable(writer.book, Total())
    {
      ghost var e, run, bits, items := eobrun, bitBuffer[..be], bitBuffer[be..be + br], writer.items;
      ghost var rest := CodeBand(tbl, bands, done, k + 1, 0, [], 0, []);
      SignBit(neg);
      ok := EmitSymbol(16 * r + 1, if neg then 0 else 1, 1, be, br);
      if ok {
        WriteItem(tbl, e, run, items, Item(AcTable(tbl), 16 * r + 1, [!neg] + bits, End), rest, Total());
        assert bitBuffer[be..be + 0] == [] && bitBuffer[..be] == [];
      } else {
        UncodableItem(writer.book, tbl, e, run, items, Item(AcTable(tbl), 16 * r + 1, [!neg] + bits, End), rest, Total());
      }
    }

    /** Buffer a correction bit; the buffer never overflows. */
    method BufferBit(k: nat, r: nat, br: nat, bit: bool)
      requires Scanning(k, r, br) && k < |bands[done]| && bands[done][k].m > 1 && bit == (bands[done][k].m % 2 == 1)
      requires !(r > 15 && k < EobIndex(bands[done], |bands[done]|))
      modifies bitBuffer
      ensures Scanning(k + 1, r, br + 1)
    {
      ghost var run, bits := bitBuffer[..be], bitBuffer[be..be + br];
      bitBuffer[be + br] := bit;
      assert bitBuffer[..be] == run && bitBuffer[be..be + br + 1] == bits + [bit];
    }

    /** Write the pending run at the end of a block. */
    method FlushRun() returns (ok: bool)
      requires writer.Valid() && bitBuffer.Length == MAX_CORR_BITS && done <= |bands|
      requires 0 < eobrun <= MAX_EOBRUN && be <= MAX_CORR_BITS
      requires Completes(writer.items, Flush(tbl, eobrun, bitBuffer[..be], CodeBlocks(tbl, bands, done, 0, [])), Total())
      modifies this`eobrun, this`be, writer`items
      modifies writer.w`out, writer.w`putBuffer, writer.w`putBits, writer.w`data, writer.w`q, writer.w`sent
      ensures if ok then Valid() else !Codable(writer.book, Total())
    {
      ghost var e, run, items, rest := eobrun, bitBuffer[..be], writer.items, CodeBlocks(tbl, bands, done, 0, []);
      ok := EmitEobrun();
      if ok {
        WriteRun(tbl, e, run, items, rest, Total());
        assert bitBuffer[..be] == [];
      } else {
        Uncodable(writer.book, items, Flush(tbl, e, run, rest), Total());
      }
    }

    /** The end of a block: trailing zeros and correction bits join the run, which is written before anything can overflow. */
    method EndBand(r: nat, br: nat) returns (ok: bool)
      requires done < |bands| && Scanning(|bands[done]|, r, br)
      modifies this`eobrun, this`be, this`done, writer`items
      modifies writer.w`out, writer.w`putBuffer, writer.w`putBits, writer.w`data, writer.w`q, writer.w`sent
      ensures if ok then Valid() && done == old(done) + 1 else !Codable(writer.book, Total())
    {
      ok := true;
      done := done + 1;
      if r > 0 || br > 0 {
        assert bitBuffer[..be] + bitBuffer[be..be + br] == bitBuffer[..be + br];
        eobrun, be := eobrun + 1, be + br;
        if eobrun == MAX_EOBRUN || be > MAX_CORR_BITS - DCTSIZE2 + 1 {
          ok := FlushRun();
        }
      } else {
        assert bitBuffer[be..be + br] == [];
      }
    }

    /** The pre-pass: absolute values after the point transform, and the position behind the last newly nonzero one. */
    method Prepass(values: seq<int>) returns (absvalues: seq<nat>, eob: nat)
      ensures |absvalues| == |values| && forall k :: 0 <= k < |values| ==> absvalues[k] == BandOf(values, al)[k].m
      ensures eob == EobIndex(BandOf(values, al), |values|)
    {
      absvalues, eob := [], 0;
      for k := 0 to |values|
        invariant |absvalues| == k && forall j :: 0 <= j < k ==> absvalues[j] == BandOf(values, al)[j].m
        invariant eob == EobIndex(BandOf(values, al), k)
      {
        var temp: nat := Shr(if values[k] < 0 then -values[k] else values[k], al);
        absvalues := absvalues + [temp];
        if temp == 1 {
          eob := k + 1;
        }
      }
    }

    /** A coefficient that is nonzero after the point transform. */
    method EncodeCoef(k: nat, r0: nat, br0: nat, temp: nat, neg: bool, eob: nat) returns (ok: bool, r: nat, br: nat)
      requires Scanning(k, r0, br0) && k < |bands[done]| && bands[done][k] == Coef(temp, neg) && temp != 0
      requires eob == EobIndex(bands[done], |bands[done]|)
      modifies this`eobrun, this`be, bitBuffer, writer`items
      modifies writer.w`out, writer.w`putBuffer, writer.w`putBits, writer.w`data, writer.w`q, writer.w`sent
      ensures if ok then Scanning(k + 1, r, br) else !Codable(writer.book, Total())
    {
      r, br := r0, br0;
      while r > 15 && k < eob
        invariant Scanning(k, r, br)
      {
        ok := EmitZrl(k, r, br);
        if !ok {
          return;
        }
        r, br := r - 16, 0;
      }
      if temp > 1 {
        BufferBit(k, r, br, temp % 2 == 1);
        ok, br := true, br + 1;
      } else {
        ok := EmitNew(k, r, br, neg);
        r, br := 0, 0;
      }
    }

    /** encode_mcu_AC_refine. */
    method EncodeMcu(values: seq<int>) returns (ok: bool)
      requires Valid() && done < |bands| && bands[done] == BandOf(values, al) && 1 <= |values| <= 63
      modifies this`eobrun, this`be, this`done, bitBuffer, writer`items
      modifies writer.w`out, writer.w`putBuffer, writer.w`putBits, writer.w`data, writer.w`q, writer.w`sent
      ensures if ok then Valid() && done == old(done) + 1 else !Codable(writer.book, Total())
    {
      var absvalues, eob := Prepass(values);
      var r: nat, br: nat := 0, 0;
      assert bitBuffer[be..be + br] == [];
      for k := 0 to |values|
        invariant Scanning(k, r, br) && done == old(done)
      {
        if absvalues[k] == 0 {
          r := r + 1;
        } else {
          ok, r, br := EncodeCoef(k, r, br, absvalues[k], values[k] < 0, eob);
          if !ok {
            return;
          }
        }
      }
      ok := EndBand(r, br);
    }

    /** finish_pass_huff: write a pending run and pad the last byte. */
    method Finish() returns (ok: bool, ghost data: seq<byte>)
      requires Valid() && done == |bands|
      modifies this`eobrun, this`be, writer`items
      modifies writer.w`out, writer.w`putBuffer, writer.w`putBits, writer.w`data, writer.w`q, writer.w`sent
      ensures ok == Codable(writer.book, Total())
      ensures ok ==> data == writer.w.data && writer.w.out == writer.w.done + Stuff(data) && writer.w.putBits == writer.w.putBuffer == 0
                     && OnePadded(data, Bits(writer.book, Total())) && be == eobrun == 0 && forall slot :: ProperTable(writer.book(slot))
    {
      data := [];
      ghost var e, run, items := eobrun, bitBuffer[..be], writer.items;
      ok := EmitEobrun();
      if ok {
        WriteRun(tbl, e, run, items, End, Total());
        assert Look(Course, 0) && Look(Machine, 0);
        JoinEnd(writer.items);
        writer.w.FlushBits();
        data := writer.w.data;
      } else {
        Uncodable(writer.book, items, Flush(tbl, e, run, End), Total());
      }
    }

    /** emit_restart: close the interval, and write a marker; `next` are the bands of the next interval. */
    method Restart(m: byte, ghost next: seq<Band>) returns (ok: bool, ghost data: seq<byte>)
      requires Valid() && done == |bands|
      modifies this`eobrun, this`be, this`bands, this`done, writer`items
      modifies writer.w`out, writer.w`putBuffer, writer.w`putBits, writer.w`data, writer.w`q, writer.w`sent, writer.w`done
      ensures ok == Codable(writer.book, CodeBlocks(tbl, old(bands), 0, 0, []))
      ensures ok ==> Valid() && bands == next && done == 0 && OnePadded(data, Bits(writer.book, CodeBlocks(tbl, old(bands), 0, 0, [])))
                     && SegmentAdded(old(writer.w.done), data, m, writer.w.done)
    {
      ok, data := Finish();
      if ok {
        writer.w.EmitMarker(m);
        eobrun, be := 0, 0;
        bands, done, writer.items := next, 0, End;
        assert bitBuffer[..be] == [];
        assert Completes(writer.items, Total(), Total());
      }
    }
  }

  lemma {:induction false} NoExtra(bits: seq<bool>)
    ensures BitsOf(0, 0) + bits == bits
  {
  }

  lemma {:induction false} SignBit(neg: bool)
    ensures BitsOf(if neg then 0 else 1, 1) == [!neg]
  {
    var code := if neg then 0 else 1;
    assert BitsOf(code, 1) == BitsOf(code / 2, 0) + [code % 2 == 1];
    assert BitsOf(code / 2, 0) == [];
  }

  function Bands(values: seq<seq<int>>, al: nat): (bands: seq<Band>)
    ensures |bands| == |values|
  {
    seq(|values|, i requires 0 <= i < |values| => BandOf(values[i], al))
  }
}
