/** Bit output of jchuff.c: a left-justified 24-bit buffer in front of a stuffed byte stream. */
module HuffmanOutput {
  import opened Numbers
  import opened ByteStuffing
  import opened RestartIntervals
  import opened Sequences
  import opened BitStrings

  /** x | y. */
  function Or(x: nat, y: nat): (r: nat)
    decreases x + y
  {
    if x == 0 && y == 0 then 0 else 2 * Or(x / 2, y / 2) + (if x % 2 == 1 || y % 2 == 1 then 1 else 0)
  }

  /** Merging bits into the free end of a register adds them. */
  lemma {:induction false} OrDisjoint(q: nat, y: nat, k: nat)
    requires y < Shl(1, k)
    ensures Or(Shl(q, k), y) == Shl(q, k) + y
    decreases k
  {
    if k == 0 {
      OrZero(q);
    } else if Shl(q, k) != 0 || y != 0 {
      OrDisjoint(q, y / 2, k - 1);
    }
  }

  lemma {:induction false} OrZero(q: nat)
    ensures Or(q, 0) == q
  {
    if q > 0 {
      OrZero(q / 2);
    }
  }

  lemma {:induction false} ShrShl(q: nat, a: nat, b: nat)
    ensures Shr(Shl(q, a), a + b) == Shr(q, b)
  {
    if a > 0 {
      ShrFront(Shl(q, a), a + b);
      ShrShl(q, a - 1, b);
    }
  }

  /** The bits sent are those of the data bytes, and then the low n bits of q. */
  predicate Held(sent: seq<bool>, data: seq<byte>, q: nat, n: nat) { sent == ByteBits(data) + BitsOf(q, n) }

  /** Adding `size` bits to a buffer that holds the low `n` bits of q, left-justified in w bits. */
  lemma {:induction false} AddBits(q: nat, n: nat, code: nat, size: nat, w: nat)
    requires n + size <= w
    ensures Or(Shl(q, w - n), Shl(Low(code, size), w - n - size)) == Shl(Shl(q, size) + Low(code, size), w - n - size)
  {
    var m := w - n - size;
    LowBound(code, size);
    ShlShl(1, size, m);
    ShlLess(Low(code, size), Shl(1, size), m);
    OrDisjoint(q, Shl(Low(code, size), m), w - n);
    ShlShl(q, size, m);
    ShlAdd(Shl(q, size), Low(code, size), m);
  }

  lemma {:induction false} HoldMore(sent: seq<bool>, data: seq<byte>, q: nat, n: nat, code: nat, size: nat)
    requires Held(sent, data, q, n)
    ensures Held(sent + BitsOf(code, size), data, Shl(q, size) + Low(code, size), n + size)
  {
    LowBound(code, size);
    BitsOfJoin(q, n, Low(code, size), size);
    BitsOfLow(code, size);
  }

  /** Removing the top byte of the buffer by shifting it out of a 32-bit register. */
  lemma {:induction false} RemoveByte(q: nat, n: nat, w: nat, e: nat)
    requires e == 8 <= n <= w == 24
    ensures Low(Shr(Shl(q, w - n), w - e), e) == Low(Shr(q, n - e), e) < 256
    ensures Low(Shl(Shl(q, w - n), e), w + e) == Shl(Low(q, n), w + e - n)
  {
    ShrShl(q, w - n, n - e);
    ShlShl(q, w - n, e);
    LowShift(q, 0, n, w + e - n);
    LowBound(Shr(q, n - e), e);
    Shl8(1, e);
  }

  lemma {:induction false} HoldLess(sent: seq<bool>, data: seq<byte>, q: nat, n: nat, c: byte, e: nat)
    requires Held(sent, data, q, n) && n >= e == 8 && c == Low(Shr(q, n - e), e)
    ensures Held(sent, data + [c], Low(q, n), n - e)
  {
    BitsSplit(q, e, n - e);
    BitsOfLow(Shr(q, n - e), e);
    LowLow(q, n - e, n);
    BitsOfLow(q, n - e);
    BitsOfLow(Low(q, n), n - e);
    assert (data + [c])[..|data|] == data;
  }

  lemma {:induction false} BitsSplit(q: nat, n: nat, m: nat)
    ensures BitsOf(q, n + m) == BitsOf(Shr(q, m), n) + BitsOf(q, m)
    decreases m
  {
    if m > 0 {
      BitsSplit(q / 2, n, m - 1);
      ShrFront(q, m);
      assert BitsOf(Shr(q, m), n) + BitsOf(q, m) == BitsOf(Shr(q, m), n) + BitsOf(q / 2, m - 1) + [q % 2 == 1];
    }
  }

  /** The bytes hold these bits, and ones up to the next byte boundary. */
  predicate OnePadded(data: seq<byte>, bits: seq<bool>)
  {
    && |bits| <= 8 * |data| < |bits| + 8
    && (forall i :: 0 <= i < |bits| ==> ByteBits(data)[i] == bits[i])
    && (forall i :: |bits| <= i < 8 * |data| ==> ByteBits(data)[i])
  }

  class BitWriter {
    var out: seq<byte>
    var putBuffer: nat
    var putBits: nat
    /** What was written before the current segment, and the data bytes of this segment. */
    ghost var done: seq<byte>
    ghost var data: seq<byte>
    /** All bits of the segment; the last putBits of them, the low bits of q, are still in the buffer. */
    ghost var sent: seq<bool>
    ghost var q: nat

    ghost predicate Holding()
      reads this
    {
      && putBits <= 24 && putBuffer == Shl(q, 24 - putBits)
      && out == done + Stuff(data) && Held(sent, data, q, putBits)
    }

    ghost predicate Valid()
      reads this
    {
      Holding() && putBits <= 7
    }

    constructor ()
      ensures Valid() && out == done == data == [] && sent == []
    {
      out, putBuffer, putBits := [], 0, 0;
      done, data, sent, q := [], [], [], 0;
      new;
      ShlZero(24);
    }

    method EmitByte(c: byte)
      modifies this`out
      ensures out == old(out) + [c]
    {
      out := out + [c];
    }

    /** One round of the output loop. */
    method ShiftOut()
      requires Holding() && putBits >= 8
      modifies this`out, this`putBuffer, this`putBits, this`data, this`q
      ensures Holding() && putBits == old(putBits) - 8
    {
      RemoveByte(q, putBits, 24, 8);
      var c: byte := Low(Shr(putBuffer, 16), 8);
      EmitStuffed(c);
      HoldLess(sent, data, q, putBits, c, 8);
      putBuffer := Low(Shl(putBuffer, 8), 32);
      data, q := data + [c], Low(q, putBits);
      putBits := putBits - 8;
    }

    /** A data byte, with a zero behind it if it is FF. */
    method EmitStuffed(c: byte)
      requires out == done + Stuff(data)
      modifies this`out
      ensures out == done + Stuff(data + [c])
    {
      EmitByte(c);
      if c == 0xFF {
        EmitByte(0);
      }
      StuffSnoc(data, c);
      Assoc(done, Stuff(data), StuffByte(c));
    }

    /** emit_bits: append the low `size` bits of the code; a code of length 0 does not exist. */
    method EmitBits(code: nat, size: nat) returns (ok: bool)
      requires Valid() && size <= 16
      modifies this`out, this`putBuffer, this`putBits, this`data, this`q, this`sent
      ensures Valid() && ok == (size != 0) && sent == old(sent) + BitsOf(code, size)
    {
      ok := size != 0;
      if ok {
        Append(code, size);
        while putBits >= 8
          invariant Holding() && sent == old(sent) + BitsOf(code, size)
        {
          ShiftOut();
        }
      }
    }

    method Append(code: nat, size: nat)
      requires Valid() && size <= 16
      modifies this`putBuffer, this`putBits, this`q, this`sent
      ensures Holding() && sent == old(sent) + BitsOf(code, size)
    {
      AddBits(q, putBits, code, size, 24);
      HoldMore(sent, data, q, putBits, code, size);
      putBuffer := Or(putBuffer, Shl(Low(code, size), 24 - putBits - size));
      putBits := putBits + size;
      q, sent := Shl(q, size) + Low(code, size), sent + BitsOf(code, size);
    }

    /** flush_bits: fill the last byte with ones. */
    method FlushBits()
      requires Valid()
      modifies this`out, this`putBuffer, this`putBits, this`data, this`q, this`sent
      ensures putBits == putBuffer == 0 && out == done + Stuff(data) && OnePadded(data, old(sent))
    {
      var ok := EmitBits(0x7F, 7);
      PaddedWithOnes(data, old(sent), sent, q, putBits, 7);
      putBuffer, putBits := 0, 0;
    }

    /** A marker, and the start of a new segment. */
    method EmitMarker(m: byte)
      requires putBits == putBuffer == 0 && out == done + Stuff(data)
      modifies this`out, this`done, this`data, this`q, this`sent
      ensures Valid() && sent == [] && SegmentAdded(old(done), old(data), m, done)
    {
      EmitByte(0xFF);
      EmitByte(m);
      assert out == done + Stuff(data) + [0xFF, m];
      done, data, sent, q := out, [], [], 0;
      ShlZero(24);
    }
  }

  lemma {:induction false} PaddedWithOnes(data: seq<byte>, bits: seq<bool>, sent: seq<bool>, q: nat, n: nat, k: nat)
    requires sent == bits + BitsOf(0x7F, k) && k == 7 && n <= k && Held(sent, data, q, n)
    ensures OnePadded(data, bits)
  {
    assert Shl(1, k) == 0x80;
    forall i | |bits| <= i < 8 * |data| ensures ByteBits(data)[i] {
      BitsOfOnes(k, i - |bits|);
      assert ByteBits(data)[i] == sent[i];
    }
    forall i | 0 <= i < |bits| && i < 8 * |data| ensures ByteBits(data)[i] == bits[i] {
      assert ByteBits(data)[i] == sent[i];
    }
  }
}
