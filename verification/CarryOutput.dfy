/** Byte output with deferred carries: the output half of the arithmetic encoder of jcarith.c. */
module CarryOutput {
  import opened Numbers
  import opened ByteStuffing
  import opened Sequences

  /**
    The output fields: `out` written so far, of which `done` belongs to earlier segments and the rest is
    `sent`, stuffed; then `zc` zeros that may yet be discarded, the byte in `buffer` (-1 if empty) and
    `sc` stacked FF bytes.
  */
  datatype Output = Output(zc: int, sc: int, buffer: int, out: seq<byte>, done: seq<byte>, sent: seq<byte>)

  /** The bytes committed to, up to a carry. */
  function Pending(o: Output): (r: seq<byte>)
    requires o.zc >= 0 && o.sc >= 0 && -1 <= o.buffer < 0xFF
  {
    o.sent + Repeat(0, o.zc) + (if o.buffer >= 0 then [o.buffer] else []) + Repeat(0xFF, o.sc)
  }

  predicate NoTrailingZero(s: seq<byte>)
  {
    s != [] ==> s[|s| - 1] != 0
  }

  ghost predicate Laid(o: Output)
  {
    && o.zc >= 0 && o.sc >= 0 && -1 <= o.buffer < 0xFF
    && (o.buffer < 0 ==> o.sent == [] && o.zc == 0)
    && o.out == o.done + Stuff(o.sent)
    && NoTrailingZero(o.sent)
  }

  /** Nothing is buffered or stacked: the written data and `zc` zeros behind it make up `bytes`. */
  ghost predicate Delivered(o: Output, bytes: seq<byte>)
  {
    && o.zc >= 0 && o.sc == 0
    && o.out == o.done + Stuff(o.sent)
    && NoTrailingZero(o.sent)
    && o.sent + Repeat(0, o.zc) == bytes
  }

  // ---- Carries ----

  predicate AllOnes(s: seq<byte>)
  {
    forall i :: 0 <= i < |s| ==> s[i] == 0xFF
  }

  /** The numeral one higher, in as many bytes. */
  function Increment(s: seq<byte>): (r: seq<byte>)
    requires !AllOnes(s)
    ensures |r| == |s|
  {
    var init, last := s[..|s| - 1], s[|s| - 1];
    if last < 0xFF then init + [last + 1]
    else
      assert !AllOnes(init);
      Increment(init) + [0]
  }

  lemma {:induction false} IncrementValue(s: seq<byte>)
    requires !AllOnes(s)
    ensures Val(Increment(s)) == Val(s) + 1
  {
    var init, last := s[..|s| - 1], s[|s| - 1];
    if last < 0xFF {
      ValSnoc(init, last + 1);
    } else {
      assert !AllOnes(init);
      IncrementValue(init);
      ValSnoc(Increment(init), 0);
    }
  }

  lemma {:induction false} IncrementRipples(x: seq<byte>, b: byte, n: nat)
    requires b < 0xFF
    ensures !AllOnes(x + [b] + Repeat(0xFF, n))
    ensures Increment(x + [b] + Repeat(0xFF, n)) == x + [b + 1] + Repeat(0, n)
  {
    var s := x + [b] + Repeat(0xFF, n);
    assert s[|x|] == b;
    if n == 0 {
      assert s[..|s| - 1] == x;
      assert x + [b + 1] + Repeat(0, n) == x + [b + 1];
    } else {
      IncrementRipples(x, b, n - 1);
      assert s[..|s| - 1] == x + [b] + Repeat(0xFF, n - 1);
      Assoc(x + [b + 1], Repeat(0, n - 1), [0]);
    }
  }

  /** The pending bytes after one more byte, possibly with a carry, has left the coding register. */
  function Pushed(bytes: seq<byte>, temp: nat): (r: seq<byte>)
    requires temp <= 0x11F && (temp > 0xFF ==> !AllOnes(bytes))
  {
    if temp > 0xFF then Increment(bytes) + [temp - 0x100] else bytes + [temp]
  }

  lemma {:induction false} PushedValue(bytes: seq<byte>, temp: nat)
    requires temp <= 0x11F && (temp > 0xFF ==> !AllOnes(bytes))
    ensures Val(Pushed(bytes, temp)) == Val(bytes) * 256 + temp
    ensures |Pushed(bytes, temp)| == |bytes| + 1
  {
    if temp > 0xFF {
      IncrementValue(bytes);
      ValSnoc(Increment(bytes), temp - 0x100);
    } else {
      ValSnoc(bytes, temp);
    }
  }

  lemma {:induction false} PendingCarry(o: Output, bytes: seq<byte>, after: seq<byte>)
    requires Laid(o) && bytes == Pending(o) && !AllOnes(bytes) && after == Increment(bytes)
    ensures o.buffer >= 0 && after == o.sent + Repeat(0, o.zc) + [o.buffer + 1] + Repeat(0, o.sc)
  {
    EmptyBuffer(o);
    IncrementRipples(o.sent + Repeat(0, o.zc), o.buffer, o.sc);
  }

  /** With an empty buffer all that can be pending is stacked FF bytes. */
  lemma {:induction false} EmptyBuffer(o: Output)
    requires Laid(o)
    ensures o.buffer < 0 ==> AllOnes(Pending(o))
  {
  }

  class ByteStack {
    var out: seq<byte>
    var zc: int
    var sc: int
    var buffer: int
    /** What was written before the current segment, and the data bytes of this segment written so far. */
    ghost var done: seq<byte>
    ghost var sent: seq<byte>
    /** The bytes committed to, up to a carry. */
    ghost var bytes: seq<byte>

    ghost function Written(): Output
      reads this
    {
      Output(zc, sc, buffer, out, done, sent)
    }

    ghost predicate Valid()
      reads this
    {
      Laid(Written()) && bytes == Pending(Written())
    }

    constructor ()
      ensures Valid() && out == done == bytes == []
    {
      out, zc, sc, buffer := [], 0, 0, -1;
      done, sent, bytes := [], [], [];
    }

    /** Start a new segment after whatever has been written. */
    method Restart()
      modifies this
      ensures Valid() && out == done == old(out) && bytes == []
    {
      zc, sc, buffer := 0, 0, -1;
      done, sent, bytes := out, [], [];
    }

    /** Write a marker; only between segments. */
    method EmitMarker(m: byte)
      modifies this`out
      ensures out == old(out) + [0xFF, m]
    {
      out := out + [0xFF];
      out := out + [m];
    }

    /** Write a data byte, stuffed. */
    method EmitData(b: byte)
      requires out == done + Stuff(sent)
      modifies this`out, this`sent
      ensures out == done + Stuff(sent)
      ensures sent == old(sent) + [b]
    {
      StuffSnoc(sent, b);
      Assoc(done, Stuff(sent), StuffByte(b));
      out := out + [b];
      if b == 0xFF {
        out := out + [0];
      }
      assert out == old(out) + StuffByte(b);
      sent := sent + [b];
    }

    method EmitZeros()
      requires zc >= 0 && out == done + Stuff(sent)
      modifies this`out, this`sent, this`zc
      ensures zc == 0 && out == done + Stuff(sent)
      ensures sent == old(sent) + Repeat(0, old(zc))
    {
      ghost var k: nat, start := 0, sent;
      while zc != 0
        invariant 0 <= zc && k + zc == old(zc)
        invariant out == done + Stuff(sent)
        invariant sent == start + Repeat(0, k)
        decreases zc
      {
        Assoc(start, Repeat(0, k), [0]);
        EmitData(0);
        zc := zc - 1;
        k := k + 1;
      }
    }

    method EmitStacked()
      requires sc >= 0 && out == done + Stuff(sent)
      modifies this`out, this`sent, this`sc
      ensures sc == 0 && out == done + Stuff(sent)
      ensures sent == old(sent) + Repeat(0xFF, old(sc))
    {
      ghost var k: nat, start := 0, sent;
      while sc != 0
        invariant 0 <= sc && k + sc == old(sc)
        invariant out == done + Stuff(sent)
        invariant sent == start + Repeat(0xFF, k)
        decreases sc
      {
        Assoc(start, Repeat(0xFF, k), [0xFF]);
        EmitData(0xFF);
        sc := sc - 1;
        k := k + 1;
      }
    }

    /** A carry has arrived: it ends in the buffered byte. */
    method FlushWithCarry()
      requires Valid() && !AllOnes(bytes)
      modifies this`out, this`sent, this`sc, this`zc
      ensures Delivered(Written(), Increment(bytes))
    {
      ghost var after := Increment(bytes);
      PendingCarry(Written(), bytes, after);
      if buffer >= 0 {
        EmitZeros();
        EmitCarried(after);
      }
      zc := zc + sc;
      sc := 0;
    }

    /** The byte that a carry ends in; the stacked bytes behind it have become zeros. */
    method EmitCarried(ghost after: seq<byte>)
      requires 0 <= buffer < 0xFF && sc >= 0 && zc == 0 && out == done + Stuff(sent) && after == sent + [buffer + 1] + Repeat(0, sc)
      modifies this`out, this`sent
      ensures out == done + Stuff(sent) && NoTrailingZero(sent) && sent + Repeat(0, sc) == after
    {
      EmitData(buffer + 1);
    }

    /** Write the buffered byte, or count it among the pending zeros. */
    method FlushBuffer()
      requires Laid(Written())
      modifies this`out, this`sent, this`zc
      ensures zc >= 0 && out == done + Stuff(sent) && NoTrailingZero(sent)
      ensures sent + Repeat(0, zc) == Pending(old(Written()).(sc := 0))
    {
      if buffer == 0 {
        Assoc(sent, Repeat(0, zc), [0]);
        zc := zc + 1;
      } else if buffer > 0 {
        EmitZeros();
        EmitData(buffer);
      }
    }

    /** No carry can reach the pending bytes any more. */
    method FlushPlain()
      requires Valid()
      modifies this`out, this`sent, this`sc, this`zc
      ensures Delivered(Written(), bytes)
    {
      FlushBuffer();
      if sc != 0 {
        EmitZeros();
        EmitStacked();
      }
    }

    /** Another byte leaves the coding register: FF is stacked, a carry ripples, anything else settles. */
    method ByteOut(temp: int)
      requires Valid() && 0 <= temp <= 0x11F
      requires temp > 0xFF ==> !AllOnes(bytes)
      modifies this
      ensures Valid() && bytes == Pushed(old(bytes), temp) && done == old(done)
    {
      ghost var before := bytes;
      if temp > 0xFF {
        FlushWithCarry();
        buffer := temp % 256;
      } else if temp == 0xFF {
        sc := sc + 1;
      } else {
        FlushPlain();
        buffer := temp % 256;
      }
      bytes := Pushed(before, temp);
    }

    /** Write the last two bytes of the segment, but no trailing zeros. */
    method EmitFinal(b1: byte, b2: byte, ghost head: seq<byte>)
      requires Delivered(Written(), head)
      modifies this`out, this`sent, this`zc
      ensures out == done + Stuff(sent) && NoTrailingZero(sent)
      ensures Padded(sent, |head| + 2) == head + [b1] + [b2] && |sent| <= |head| + 2
    {
      if b1 != 0 || b2 != 0 {
        EmitZeros();
        EmitData(b1);
        if b2 != 0 {
          EmitData(b2);
        }
      }
      PaddedSnoc(sent, |head|);
      PaddedSnoc(sent, |head| + 1);
    }

    /** End the segment with two more bytes, after a last carry if there is one. */
    method Terminate(carry: bool, b1: byte, b2: byte)
      requires Valid() && (carry ==> !AllOnes(bytes))
      modifies this
      ensures out == done + Stuff(sent) && NoTrailingZero(sent) && done == old(done)
      ensures |sent| <= |old(bytes)| + 2
      ensures Padded(sent, |old(bytes)| + 2)
           == (if carry then Increment(old(bytes)) else old(bytes)) + [b1] + [b2]
    {
      ghost var head := if carry then Increment(bytes) else bytes;
      if carry {
        FlushWithCarry();
      } else {
        FlushPlain();
      }
      EmitFinal(b1, b2, head);
    }
  }
}
