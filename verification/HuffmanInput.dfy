/** Bit input and Huffman decoding of jdhuff.c: a bit buffer fed from a stuffed byte source, and lookahead decoding. */
module HuffmanInput {
  import opened Numbers
  import opened ByteStuffing
  import opened SegmentSource
  import opened HuffmanCode
  import opened HuffmanTables
  import opened BitStrings
  import opened Opening

  /** The symbol that the stream continues with, and the position behind it; without a code, 0 and 17 bits further on. */
  function ReadSymbol(h: HuffTable, s: Stream, t: nat): (r: (nat, nat))
    requires ValidTable(h) && All(h.bits) <= 256
  {
    match Lookup(s, t, h.bits)
    case NoCode => (0, t + LONGEST + 1)
    case Found(c) =>
      AtIndex(h.bits, c);
      (h.huffval[Index(h.bits, c)], t + c.l)
  }

  /** A listed symbol whose code is in the stream is read. */
  lemma {:induction false} CodeRead(h: HuffTable, s: Stream, t: nat, p: nat)
    requires ValidTable(h) && p < All(h.bits) <= 256 && Reads(s, t, h.bits, CodeAt(h.bits, p))
    ensures ReadSymbol(h, s, t) == (h.huffval[p], t + CodeAt(h.bits, p).l)
  {
    LookupExact(s, t, h.bits, CodeAt(h.bits, p));
  }

  // ---- Registers ----

  const BIT_BUF_SIZE: nat := 32
  const MIN_GET_BITS: nat := 25

  /** The low `left` bits of the buffer are the next bits of the stream. */
  predicate Buffered(s: Stream, t: nat, buffer: nat, left: nat) { Low(buffer, left) == Peek(s, t, left) }

  /** Taking n bits off the top of the buffered ones. */
  lemma {:induction false} TakeBits(s: Stream, t: nat, buffer: nat, left: nat, n: nat)
    requires Buffered(s, t, buffer, left) && n <= left
    ensures Low(Shr(buffer, left - n), n) == Peek(s, t, n)
    ensures Buffered(s, t + n, buffer, left - n)
  {
    var m := left - n;
    LowSplit(buffer, n, m);
    PeekJoin(s, t, n, m);
    LowBound(buffer, m);
    PeekBound(s, t + n, m);
    ShlUnique(Low(Shr(buffer, m), n), Low(buffer, m), Peek(s, t, n), Peek(s, t + n, m), m);
  }

  /** Shifting in m bits that come next in the stream, in a register of w bits. */
  lemma {:induction false} PutBits(s: Stream, t: nat, buffer: nat, left: nat, c: nat, m: nat, w: nat)
    requires Buffered(s, t, buffer, left) && c == Peek(s, t + left, m) && left + m <= w
    ensures Buffered(s, t, Low(Shl(buffer, m) + c, w), left + m)
  {
    PeekBound(s, t + left, m);
    LowShift(buffer, c, left, m);
    LowLow(Shl(buffer, m) + c, left + m, w);
    PeekJoin(s, t, left, m);
  }

  /** Bit-serial decoding: the limit at length l tells whether the bits read so far are a code. */
  lemma {:induction false} LimitTest(h: HuffTable, d: DecoderTable, s: Stream, t: nat, l: nat)
    requires ValidTable(h) && Decodes(h, d) && 1 <= l <= LONGEST + 1 && !Ends(s, t, h.bits, l - 1)
    ensures Peek(s, t, l) <= d.maxcode[l] <==> l == LONGEST + 1 || Ends(s, t, h.bits, l)
  {
    if l <= LONGEST {
      assert d.maxcode[l] == d.maxcode[..LONGEST + 1][l];
    } else {
      LastLimit(h, d, s, t, l);
    }
  }

  /** The limit for one bit more than the longest code stops every search. */
  lemma {:induction false} LastLimit(h: HuffTable, d: DecoderTable, s: Stream, t: nat, l: nat)
    requires ValidTable(h) && Decodes(h, d) && l == LONGEST + 1
    ensures Peek(s, t, l) <= d.maxcode[l]
  {
    PeekBound(s, t, l);
    Shl16(2, l - 1);
    ShlShl(1, 1, l - 1);
    assert Shl(1, 1) == 2;
  }

  /** The symbol's position follows from the code by the offset for its length. */
  lemma {:induction false} OffsetIndex(h: HuffTable, s: Stream, t: nat, l: nat, offset: int)
    requires ValidTable(h) && All(h.bits) <= 256 && 1 <= l <= LONGEST
    requires Ends(s, t, h.bits, l) && forall m :: 0 <= m < l ==> !Ends(s, t, h.bits, m)
    requires h.bits[l] > 0 ==> offset == Total(h.bits, l - 1) - 2 * Upto(h.bits, l - 1)
    ensures 0 <= Peek(s, t, l) + offset < 256
    ensures ReadSymbol(h, s, t) == (h.huffval[Peek(s, t, l) + offset], t + l)
  {
    EndsIsCode(s, t, h.bits, l);
    var c := Code.Code(l, Peek(s, t, l) - 2 * Upto(h.bits, l - 1));
    AtIndex(h.bits, c);
    LookupExact(s, t, h.bits, c);
  }

  /** The bits are above the limits for all lengths from minBits up to before l. */
  predicate Above(s: Stream, t: nat, maxcode: seq<int>, minBits: nat, l: nat)
    requires l <= |maxcode|
  {
    forall m :: minBits <= m < l ==> Peek(s, t, m) > maxcode[m]
  }

  /** The search from length minBits stops at length l. */
  ghost predicate Stops(s: Stream, t: nat, maxcode: seq<int>, minBits: nat, code: nat, l: nat)
    requires l < |maxcode|
  {
    forall x {:trigger Look(Yielding, x)} :: Look(Yielding, x) ==>
      code == Peek(s, t, l) <= maxcode[l] && Above(s, t, maxcode, minBits, l)
  }

  /** Where the search stops there is a code, and none before. */
  lemma {:induction false} FirstEnd(h: HuffTable, d: DecoderTable, s: Stream, t: nat, minBits: nat, l: nat)
    requires ValidTable(h) && Decodes(h, d) && 1 <= minBits <= l <= LONGEST + 1 && !Ends(s, t, h.bits, minBits - 1)
    requires Above(s, t, d.maxcode, minBits, l)
    ensures !Ends(s, t, h.bits, l - 1)
    decreases l
  {
    if l > minBits {
      FirstEnd(h, d, s, t, minBits, l - 1);
      LimitTest(h, d, s, t, l - 1);
    }
  }

  /** Bit-serial search by limits and offsets finds what the stream continues with. */
  lemma {:induction false} SerialRight(h: HuffTable, d: DecoderTable, s: Stream, t: nat, minBits: nat, code: nat, l: nat)
    requires ValidTable(h) && Decodes(h, d) && 1 <= minBits <= l <= LONGEST + 1 && !Ends(s, t, h.bits, minBits - 1)
    requires Stops(s, t, d.maxcode, minBits, code, l)
    ensures l <= LONGEST ==> 0 <= code + d.valoffset[l] < 256
    ensures ReadSymbol(h, s, t) == (if l > LONGEST then 0 else h.huffval[code + d.valoffset[l]], t + l)
  {
    assert Look(Yielding, 0);
    FirstEnd(h, d, s, t, minBits, l);
    LimitTest(h, d, s, t, l);
    if l > LONGEST {
      NoneEnds(h, s, t);
    } else {
      AllMiss(s, t, h.bits, l);
      assert LimitAt(h.bits, l, d.maxcode[..LONGEST + 1][l], d.valoffset[l]);
      OffsetIndex(h, s, t, l, d.valoffset[l]);
    }
  }

  /** A lookahead entry of a code that the bits begin with. */
  lemma {:induction false} LookaheadHit(h: HuffTable, s: Stream, t: nat, p: nat, n: nat)
    requires ValidTable(h) && p < All(h.bits) <= 256 && CodeAt(h.bits, p).l <= n
    requires Begins(h.bits, CodeAt(h.bits, p), Peek(s, t, n), n)
    ensures ReadSymbol(h, s, t) == (h.huffval[p], t + CodeAt(h.bits, p).l)
  {
    var c := CodeAt(h.bits, p);
    PeekFront(s, t, c.l, n);
    ShlLess(Value(h.bits, c), Peek(s, t, c.l) + 1, n - c.l);
    ShlLess(Peek(s, t, c.l), Value(h.bits, c) + 1, n - c.l);
    CodeRead(h, s, t, p);
  }

  lemma {:induction false} LookaheadMiss(s: Stream, t: nat, bits: Counts, n: nat, l: nat)
    requires l <= n <= LONGEST && !Ends(s, t, bits, n)
    ensures !Ends(s, t, bits, l)
  {
    if Ends(s, t, bits, l) {
      EndsPersists(s, t, bits, l, n);
    }
  }

  /** A filled lookahead entry is the code that the stream continues with; an empty one means a longer code. */
  lemma {:induction false} LookaheadRight(h: HuffTable, nbits: seq<nat>, sym: seq<nat>, s: Stream, t: nat, n: nat)
    requires ValidTable(h) && All(h.bits) <= 256 && n == HUFF_LOOKAHEAD && Filled(h, nbits, sym, Upto(h.bits, n))
    ensures Peek(s, t, n) < 256
    ensures var x := Peek(s, t, n);
            if nbits[x] != 0 then nbits[x] <= n && ReadSymbol(h, s, t) == (sym[x], t + nbits[x]) else !Ends(s, t, h.bits, n)
  {
    PeekBound(s, t, n);
    Shl8(1, n);
    var x := Peek(s, t, n);
    if x < Upto(h.bits, n) {
      var p :| 0 <= p < All(h.bits) && CodeAt(h.bits, p).l == nbits[x] && h.huffval[p] == sym[x]
               && Begins(h.bits, CodeAt(h.bits, p), x, n);
      LookaheadHit(h, s, t, p, n);
    }
  }

  /** The bit buffer and its source. */
  class BitReader {
    const input: PausingReader
    var getBuffer: nat
    var bitsLeft: nat
    var insufficient: bool
    /** Permanent state: where the MCU in progress began. Everything else is working state until it is saved. */
    var permBuffer: nat
    var permLeft: nat
    var permPos: nat
    /** Position in the bits of the segment; position and bytes read in the permanent state. */
    ghost var t: nat
    ghost var permT: nat
    ghost var permN: nat

    ghost function Bits(): Stream
      reads input
    {
      DataBits(input.seg.data)
    }

    /** Position of the end of the data. */
    ghost function End(): nat
      reads input
    {
      8 * |input.seg.data|
    }

    ghost predicate Loaded()
      reads this, input
    {
      && input.Valid() && Buffered(Bits(), t, getBuffer, bitsLeft)
      && (if input.unread == 0 then t + bitsLeft == 8 * input.n else t + bitsLeft >= End())
      && (t + bitsLeft > End() ==> insufficient) && Resumable()
    }

    /** The permanent state can be taken up again. Once the marker has been seen this is never necessary. */
    ghost predicate Resumable()
      reads this, input
    {
      input.unread == 0 ==>
        InStep(input.src, permPos, 0, permN, input.seg) && Buffered(Bits(), permT, permBuffer, permLeft) && permT + permLeft == 8 * permN
    }

    /** The flag tells exactly whether bits behind the end of the data have been used. */
    ghost predicate Valid()
      reads this, input
    {
      forall x {:trigger Look(Buffer, x)} :: Look(Buffer, x) ==> Loaded() && insufficient == (t > End())
    }

    lemma FlagMeans()
      requires Valid()
      ensures insufficient == (t > End())
    {
      assert Look(Buffer, 0);
    }

    lemma PausedInside()
      requires Valid() && Paused()
      ensures t <= End()
    {
      assert Look(Buffer, 0);
    }

    /** The source has paused within the segment, for want of bytes that belong to it. */
    ghost predicate Paused()
      reads input
    {
      input.unread == 0 && input.avail < input.seg.end
    }

    constructor (src: seq<byte>)
      ensures Valid() && t == permT == 0 && !insufficient && input.unread == 0 && input.avail == 0
      ensures fresh(input) && input.src == src && input.seg == Unstuff(src, 0)
    {
      input := new PausingReader(src);
      getBuffer, bitsLeft, insufficient, t := 0, 0, false, 0;
      permBuffer, permLeft, permPos, permT, permN := 0, 0, 0, 0, 0;
    }

    /**
      jpeg_fill_bit_buffer: load the buffer; behind the end of the data come zeros, if they are asked for.
      Fails if the source pauses; the state of the input is then still a valid one.
    */
    method Fill(nbits: nat) returns (ok: bool)
      requires Loaded() && nbits <= MIN_GET_BITS && bitsLeft < MIN_GET_BITS && (nbits > bitsLeft || nbits == 0)
      modifies this`getBuffer, this`bitsLeft, this`insufficient, input`pos, input`unread, input`n
      ensures Loaded() && (!ok ==> Paused() && insufficient == old(insufficient))
      ensures ok ==> nbits <= bitsLeft && insufficient == (old(insufficient) || (nbits > 0 && t + nbits > End()))
    {
      ok := true;
      if input.unread == 0 {
        ok := Load();
      }
      if ok && input.unread != 0 && nbits > bitsLeft {
        insufficient := true;
        ZeroBits(MIN_GET_BITS - bitsLeft);
        getBuffer := Low(Shl(getBuffer, MIN_GET_BITS - bitsLeft), BIT_BUF_SIZE);
        bitsLeft := MIN_GET_BITS;
      }
    }

    /** Load bytes until the buffer is full or the data ends; fails if the source pauses. */
    method Load() returns (ok: bool)
      requires Loaded() && input.unread == 0
      modifies this`getBuffer, this`bitsLeft, input`pos, input`unread, input`n
      ensures Loaded() && t + bitsLeft <= End() && (!ok ==> Paused())
      ensures ok && input.unread == 0 ==> bitsLeft >= MIN_GET_BITS
    {
      while bitsLeft < MIN_GET_BITS
        invariant Loaded() && input.unread == 0 && t + bitsLeft <= End()
      {
        ghost var n := input.n;
        var got := input.TryByte();
        match got
        case Byte(c) =>
          LoadByte(n, c);
          getBuffer := Low(getBuffer * 256 + c, BIT_BUF_SIZE);
          bitsLeft := bitsLeft + 8;
        case Marker => return true;
        case Paused => return false;
      }
      ok := true;
    }

    lemma ZeroBits(m: nat)
      requires Loaded() && t + bitsLeft >= End() && bitsLeft + m <= BIT_BUF_SIZE
      ensures Buffered(Bits(), t, Low(Shl(getBuffer, m), BIT_BUF_SIZE), bitsLeft + m)
    {
      PeekBehind(input.seg.data, t + bitsLeft, m);
      PutBits(Bits(), t, getBuffer, bitsLeft, 0, m, BIT_BUF_SIZE);
    }

    lemma LoadByte(n: nat, c: nat)
      requires Buffered(Bits(), t, getBuffer, bitsLeft) && bitsLeft < MIN_GET_BITS && t + bitsLeft == 8 * n
      requires n < |input.seg.data| && c == input.seg.data[n]
      ensures Buffered(Bits(), t, Low(getBuffer * 256 + c, BIT_BUF_SIZE), bitsLeft + 8)
    {
      PeekByte(input.seg.data, n, 8);
      PutBits(Bits(), t, getBuffer, bitsLeft, c, 8, BIT_BUF_SIZE);
      Shl8(getBuffer, 8);
    }

    /** PEEK_BITS. */
    method PeekBits(n: nat) returns (v: nat)
      requires Loaded() && n <= bitsLeft
      ensures v == Peek(Bits(), t, n)
    {
      TakeBits(Bits(), t, getBuffer, bitsLeft, n);
      v := Low(Shr(getBuffer, bitsLeft - n), n);
    }

    /** DROP_BITS. */
    method DropBits(n: nat)
      requires Loaded() && n <= bitsLeft && insufficient == (t > End() || t + n > End())
      modifies this`bitsLeft, this`t
      ensures Valid() && t == old(t) + n
    {
      TakeBits(Bits(), t, getBuffer, bitsLeft, n);
      bitsLeft := bitsLeft - n;
      t := t + n;
    }

    /** CHECK_BIT_BUFFER and GET_BITS. */
    method GetBits(n: nat) returns (ok: bool, v: nat)
      requires Valid() && n <= LONGEST
      modifies this`getBuffer, this`bitsLeft, this`insufficient, this`t, input`pos, input`unread, input`n
      ensures Valid() && (ok ==> v == Peek(Bits(), old(t), n) && t == old(t) + n) && (!ok ==> Paused())
    {
      assert Look(Buffer, 0);
      ok, v := true, 0;
      if bitsLeft < n {
        ok := Fill(n);
      }
      if ok {
        v := PeekBits(n);
        DropBits(n);
      }
    }

    /** The loop of jpeg_huff_decode: read bits until the code is within the limit for its length. */
    method SerialBits(maxcode: seq<int>, minBits: nat) returns (ok: bool, code: nat, l: nat)
      requires Valid() && 1 <= minBits <= LONGEST < |maxcode| && Peek(Bits(), t, |maxcode| - 1) <= maxcode[|maxcode| - 1]
      modifies this`getBuffer, this`bitsLeft, this`insufficient, this`t, input`pos, input`unread, input`n
      ensures Valid() && (!ok ==> Paused())
      ensures ok ==> minBits <= l < |maxcode| && t == old(t) + l && Stops(Bits(), old(t), maxcode, minBits, code, l)
    {
      ghost var s, t0 := Bits(), t;
      l := minBits;
      ok, code := GetBits(l);
      while ok && code > maxcode[l]
        invariant Valid() && minBits <= l < |maxcode| && (!ok ==> Paused())
        invariant ok ==> t == t0 + l && code == Peek(s, t0, l) && Above(s, t0, maxcode, minBits, l)
        decreases |maxcode| - l, ok
      {
        var bit;
        ok, bit := GetBits(1);
        if ok {
          code := 2 * code + bit;
          l := l + 1;
          NextBit(s, t0, l);
        }
      }
    }

    /** jpeg_huff_decode: bit-serial decoding, given that the code has at least minBits bits. */
    method SlowDecode(h: HuffTable, d: DecoderTable, minBits: nat) returns (ok: bool, sym: nat)
      requires Valid() && ValidTable(h) && Decodes(h, d) && 1 <= minBits <= LONGEST && !Ends(Bits(), t, h.bits, minBits - 1)
      modifies this`getBuffer, this`bitsLeft, this`insufficient, this`t, input`pos, input`unread, input`n
      ensures Valid() && (!ok ==> Paused())
      ensures ok ==> var (y, t1) := ReadSymbol(h, Bits(), old(t)); sym == y && t == t1
    {
      ghost var s, t0 := Bits(), t;
      LastLimit(h, d, s, t0, |d.maxcode| - 1);
      var code, l;
      ok, code, l := SerialBits(d.maxcode, minBits);
      sym := 0;
      if ok {
        SerialRight(h, d, s, t0, minBits, code, l);
        if l <= LONGEST {
          sym := h.huffval[code + d.valoffset[l]];
        }
      }
    }

    /** HUFF_DECODE: one lookup for short codes, bit-serial decoding for long ones and near the end of the data. */
    method HuffDecode(h: HuffTable, d: DecoderTable) returns (ok: bool, sym: nat)
      requires Valid() && ValidTable(h) && Decodes(h, d)
      modifies this`getBuffer, this`bitsLeft, this`insufficient, this`t, input`pos, input`unread, input`n
      ensures Valid() && (!ok ==> Paused())
      ensures ok ==> var (y, t1) := ReadSymbol(h, Bits(), old(t)); sym == y && t == t1
    {
      assert Look(Buffer, 0);
      sym := 0;
      if bitsLeft < HUFF_LOOKAHEAD {
        ok := Fill(0);
        if !ok {
          return;
        }
        if bitsLeft < HUFF_LOOKAHEAD {
          ok, sym := SlowDecode(h, d, 1);
          return;
        }
      }
      ok, sym := LookDecode(h, d.lookNbits, d.lookSym, HUFF_LOOKAHEAD);
      if !ok {
        ok, sym := SlowDecode(h, d, HUFF_LOOKAHEAD + 1);
      }
    }

    /** The lookahead part of HUFF_DECODE. */
    method LookDecode(h: HuffTable, nbits: seq<nat>, sym: seq<nat>, n: nat) returns (found: bool, r: nat)
      requires Loaded() && insufficient == (t > End()) && ValidTable(h) && All(h.bits) <= 256 && n == HUFF_LOOKAHEAD <= bitsLeft
      requires Filled(h, nbits, sym, Upto(h.bits, n))
      modifies this`bitsLeft, this`t
      ensures Valid()
      ensures if found then (var (y, t1) := ReadSymbol(h, Bits(), old(t)); r == y && t == t1) else t == old(t) && !Ends(Bits(), t, h.bits, n)
    {
      var look := PeekBits(n);
      LookaheadRight(h, nbits, sym, Bits(), t, n);
      var nb := nbits[look];
      found, r := nb != 0, sym[look];
      if found {
        DropBits(nb);
      }
    }

    /** The source delivers k more bytes. */
    method Deliver(k: nat)
      requires Valid()
      modifies input`avail
      ensures Valid() && input.avail == old(input.avail) + k
    {
      assert Look(Buffer, 0);
      input.Deliver(k);
    }

    /** BITREAD_SAVE_STATE. */
    method Save()
      requires Valid()
      modifies this`permBuffer, this`permLeft, this`permPos, this`permT, this`permN
      ensures Valid() && permT == t
    {
      assert Look(Buffer, 0);
      permBuffer, permLeft, permPos := getBuffer, bitsLeft, input.pos;
      permT, permN := t, input.n;
    }

    /** BITREAD_LOAD_STATE, after a suspension: the working state is given up. */
    method Rewind()
      requires Valid() && Paused()
      modifies this`getBuffer, this`bitsLeft, this`t, input`pos, input`n
      ensures Valid() && t == permT && getBuffer == permBuffer && bitsLeft == permLeft && input.pos == permPos
    {
      assert Look(Buffer, 0);
      getBuffer, bitsLeft, input.pos := permBuffer, permLeft, permPos;
      t, input.n := permT, permN;
    }

    /** The bit-input part of process_restart. */
    method Restart(num: nat) returns (r: Restarted)
      requires Valid() && num < 8
      modifies this, input`pos, input`unread, input`n, input`seg
      ensures match r
              case Synced => Valid() && t == permT == 0 && !insufficient && old(input.seg).marker == 0xD0 + num
                             && input.seg == Unstuff(input.src, old(input.seg).end)
              case Unexpected => input.seg == old(input.seg) && input.seg.marker != 0xD0 + num
              case Waiting => Valid() && t == permT && input.seg == old(input.seg) && Paused()
    {
      assert Look(Buffer, 0);
      bitsLeft := 0;
      r := input.ReadRestartMarker(num);
      t := 8 * input.n;
      if r.Synced? {
        insufficient := false;
      }
      permBuffer, permLeft, permPos, permT, permN := getBuffer, bitsLeft, input.pos, t, input.n;
    }
  }

  lemma {:induction false} NextBit(s: Stream, t: nat, l: nat)
    requires l > 0
    ensures Peek(s, t, l) == 2 * Peek(s, t, l - 1) + Peek(s, t + l - 1, 1)
  {
    PeekJoin(s, t, l - 1, 1);
    assert Shl(Peek(s, t, l - 1), 1) == 2 * Shl(Peek(s, t, l - 1), 0);
  }

  lemma {:induction false} AllMiss(s: Stream, t: nat, bits: Counts, l: nat)
    requires 1 <= l <= LONGEST + 1 && !Ends(s, t, bits, l - 1)
    ensures forall m :: 0 <= m < l ==> !Ends(s, t, bits, m)
  {
    forall m | 0 <= m < l ensures !Ends(s, t, bits, m) {
      LookaheadMiss(s, t, bits, l - 1, m);
    }
  }

  lemma {:induction false} NoneEnds(h: HuffTable, s: Stream, t: nat)
    requires ValidTable(h) && All(h.bits) <= 256 && !Ends(s, t, h.bits, LONGEST)
    ensures ReadSymbol(h, s, t) == (0, t + LONGEST + 1)
  {
    AllMiss(s, t, h.bits, LONGEST + 1);
  }
}
