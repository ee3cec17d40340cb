/** The arithmetic entropy encoder of jcarith.c: registers A and C over a byte output with deferred carries. */
module ArithEncoder {
  import opened Numbers
  import opened ByteStuffing
  import opened IntervalCoder
  import opened CarryOutput

  // ---- Register arithmetic: C and A relative to the value and number of the pending bytes ----

  datatype Registers = Registers(a: int, c: int, ct: int, val: nat, len: nat)

  /** Register bounds; the last line says that a carry can never run off the front of the output. */
  ghost predicate InRange(r: Registers)
  {
    && 1 <= r.ct <= 11 && 0 < r.a <= 0x10000 && 0 <= r.c
    && r.c + r.a <= Shl(9, 24 - r.ct)
    && Shl(r.val, 27 - r.ct) + r.c + r.a <= Shl(1, 8 * r.len + 27 - r.ct)
  }

  /** The interval that the registers and the pending bytes denote together. */
  ghost function Denoted(r: Registers): Interval
    requires InRange(r)
  {
    Interval(Shl(r.val, 27 - r.ct) + r.c, r.a, 8 * r.len + 11 - r.ct)
  }

  lemma {:induction false} InitialRegisters(r: Registers)
    requires r.a == 0x10000 && r.c == 0 && r.ct == 11 && r.val == 0 && r.len == 0
    ensures InRange(r) && Denoted(r) == WHOLE
  {
    ShlZero(27 - r.ct);
    Shl16(1, 27 - r.ct);
    Shl16(9, 27 - r.ct);
    Shl3(9, 27 - r.ct);
  }

  lemma {:induction false} SplitRegisters(r: Registers, qe: nat, upper: bool)
    requires InRange(r) && 0 < qe < r.a
    ensures var iv := Split(Denoted(r), qe, upper);
            var r' := r.(a := iv.a, c := if upper then r.c + r.a - qe else r.c);
            InRange(r') && Denoted(r') == iv
  {
  }

  lemma {:induction false} DoubleRegisters(r: Registers)
    requires InRange(r) && r.a < 0x8000 && r.ct > 1
    ensures var r' := r.(a := 2 * r.a, c := 2 * r.c, ct := r.ct - 1);
            InRange(r') && Denoted(r') == Shift(Denoted(r))
  {
  }

  /** The three spacer bits keep the outgoing byte, carry included, at most 11F. */
  lemma {:induction false} OutgoingByte(r: Registers)
    requires InRange(r) && r.ct == 1
    ensures 2 * r.c / 0x80000 <= 0x11F
  {
    Shl27(9, 28 - r.ct);
    Shl3(9, 27 - r.ct);
  }

  lemma {:induction false} ByteValue(val: nat, c: nat, k: nat)
    requires k == 27
    ensures Shl(val * 256 + c / 0x80000, k - 8) + c % 0x80000 == Shl(val, k) + c
  {
    Shl27(val, k);
    Shl19(val * 256 + c / 0x80000, k - 8);
  }

  /** Moving the top byte of C over to the pending bytes keeps the denoted interval. */
  lemma {:induction false} ByteRegisters(r: Registers)
    requires InRange(r) && r.a < 0x8000 && r.ct == 1
    ensures var r' := Registers(2 * r.a, 2 * r.c % 0x80000, 8, r.val * 256 + 2 * r.c / 0x80000, r.len + 1);
            InRange(r') && Denoted(r') == Shift(Denoted(r))
  {
    ByteValue(r.val, 2 * r.c, 28 - r.ct);
    Shl16(9, 17 - r.ct);
    assert Shl(r.val, 28 - r.ct) == 2 * Shl(r.val, 27 - r.ct);
    assert Shl(1, 8 * r.len + 28 - r.ct) == 2 * Shl(1, 8 * r.len + 27 - r.ct);
  }

  lemma {:induction false} OnesLeaveNoRoom(val: nat, len: nat, c: nat, k: nat)
    requires k == 26 && val == Shl(1, 8 * len) - 1 && Shl(val, k) + c <= Shl(1, 8 * len + k)
    ensures c <= 0x4000000
  {
    ShlShl(1, 8 * len, k);
    ShlAdd(val, 1, k);
    Shl27(1, k + 1);
  }

  lemma {:induction false} OnesValue(s: seq<byte>)
    requires AllOnes(s)
    ensures Val(s) == Shl(1, 8 * |s|) - 1
  {
    if s != [] {
      OnesValue(s[..|s| - 1]);
      Shl8(1, 8 * |s|);
    }
  }

  /** With nothing but FF bytes pending there is no room for a carry. */
  lemma {:induction false} NoCarryPastTheFront(r: Registers, bytes: seq<byte>)
    requires InRange(r) && r.ct == 1 && r.val == Val(bytes) && r.len == |bytes|
    ensures 2 * r.c / 0x80000 > 0xFF ==> !AllOnes(bytes)
  {
    if AllOnes(bytes) {
      OnesValue(bytes);
      OnesLeaveNoRoom(r.val, r.len, r.c + r.a, 27 - r.ct);
    }
  }

  /** A byte is due: what leaves the register fits, and the interval is kept. */
  lemma {:induction false} NextByte(r: Registers, bytes: seq<byte>)
    requires InRange(r) && r.a < 0x8000 && r.ct == 1 && r.val == Val(bytes) && r.len == |bytes|
    ensures var temp := 2 * r.c / 0x80000;
            && temp <= 0x11F
            && (temp > 0xFF ==> !AllOnes(bytes))
            && var r' := Registers(2 * r.a, 2 * r.c % 0x80000, 8, Val(Pushed(bytes, temp)), |Pushed(bytes, temp)|);
            InRange(r') && Denoted(r') == Shift(Denoted(r))
  {
    OutgoingByte(r);
    NoCarryPastTheFront(r, bytes);
    ByteRegisters(r);
    PushedValue(bytes, 2 * r.c / 0x80000);
  }

  /** The registers of an encoder that has seen nothing. */
  method StartRegisters() returns (a: int, c: int, ct: int)
    ensures InRange(Registers(a, c, ct, 0, 0)) && Denoted(Registers(a, c, ct, 0, 0)) == WHOLE
  {
    c, a, ct := 0, 0x10000, 11;
    InitialRegisters(Registers(a, c, ct, 0, 0));
  }

  class Encoder {
    const tab: Table
    const output: ByteStack
    var c: int
    var a: int
    var ct: int
    var stats: Stats

    ghost function Regs(): Registers
      reads this, output
    {
      Registers(a, c, ct, Val(output.bytes), |output.bytes|)
    }

    ghost predicate Running()
      reads this, output
    {
      output.Valid() && InRange(Regs())
    }

    ghost predicate Valid()
      reads this, output
    {
      Running() && a >= 0x8000 && ValidStats(stats)
    }

    ghost function State(): Coder
      requires Valid()
      reads this, output
    {
      Coder(Denoted(Regs()), stats)
    }

    constructor (tab: Table, stats: Stats)
      requires ValidStats(stats)
      ensures Valid() && State() == Coder(WHOLE, stats) && fresh(output)
      ensures output.out == output.done == [] && this.tab == tab
    {
      this.tab := tab;
      this.stats := stats;
      output := new ByteStack();
      var a0, c0, ct0 := StartRegisters();
      a, c, ct := a0, c0, ct0;
    }

    /** Start a new segment after whatever has been written. */
    method Reset(stats: Stats)
      requires ValidStats(stats)
      modifies this, output
      ensures Valid() && State() == Coder(WHOLE, stats)
      ensures output.done == output.out == old(output.out)
    {
      output.Restart();
      a, c, ct := StartRegisters();
      this.stats := stats;
    }

    /** One step of renormalisation. */
    method ShiftOut()
      requires Running() && a < 0x8000
      modifies this`a, this`c, this`ct, output
      ensures Running() && Denoted(Regs()) == Shift(old(Denoted(Regs())))
      ensures output.done == old(output.done)
    {
      if ct > 1 {
        DoubleRegisters(Regs());
      } else {
        NextByte(Regs(), output.bytes);
      }
      a := 2 * a;
      c := 2 * c;
      ct := ct - 1;
      if ct == 0 {
        output.ByteOut(c / 0x80000);
        c := c % 0x80000;
        ct := ct + 8;
      }
    }

    /** Select the part of the interval for `val` and re-estimate the bin. */
    method Select(bin: Bin, val: bool)
      requires Valid() && bin in stats
      modifies this`a, this`c, this`stats
      ensures Running()
      ensures Coder(Denoted(Regs()), stats) == Narrow(tab, old(State()), bin, val)
    {
      var sv := stats[bin];
      var entry := tab[sv % 128];
      assert ValidEntry(entry);
      var nl, nm, qe := NextLps(entry), NextMps(entry), Qe(entry);
      var lps := val != (sv >= 128);
      SplitRegisters(Regs(), qe, TakesUpper(Denoted(Regs()), qe, lps));
      a := a - qe;
      if lps {
        stats := stats[bin := Switch(sv, nl)];
      } else {
        if a >= 0x8000 {
          assert stats == stats[bin := sv];
          return;
        }
        stats := stats[bin := Switch(sv, nm)];
      }
      if lps == (a >= qe) {
        c := c + a;
        a := qe;
      }
    }

    /** Encode one decision: the registers and pending bytes move exactly as the ideal interval does. */
    method ArithEncode(bin: Bin, val: bool)
      requires Valid() && bin in stats
      modifies this, output
      ensures Valid() && State() == Encode(tab, old(State()), bin, val)
      ensures output.done == old(output.done)
    {
      Select(bin, val);
      ghost var narrowed := Coder(Denoted(Regs()), stats);
      while a < 0x8000
        invariant Running()
        invariant Renorm(Denoted(Regs())) == Renorm(narrowed.iv)
        invariant stats == narrowed.stats && output.done == old(output.done)
        decreases 0x8000 - a
      {
        ShiftOut();
      }
    }

    /**
      Terminate the segment: the code string points into the final interval, has no trailing zero
      byte, and has been written stuffed behind the earlier segments.
    */
    method FinishPass()
      requires Valid()
      modifies this`c, output
      ensures output.out == output.done + Stuff(output.sent) && output.done == old(output.done)
      ensures NoTrailingZero(output.sent)
      ensures Inside(output.sent, |old(output.bytes)| + 4, old(State()).iv)
    {
      ghost var r, bytes := Regs(), output.bytes;
      Round();
      ghost var c' := c;
      c := Shl(c, ct);
      var carry, b1, b2 := c / 0x8000000 != 0, c / 0x80000 % 0x100, c / 0x800 % 0x100;
      ghost var head := FinalHead(r, c', c, bytes, carry, b1, b2);
      output.Terminate(carry, b1, b2);
      FinalInside(r, c', head, b1, b2, output.sent);
    }

    /** Move C to the point of the interval with the most trailing zero bits. */
    method Round()
      requires a >= 0x8000 && a <= 0x10000 && c >= 0
      modifies this`c
      ensures old(c) <= c < old(c) + a && c % 0x8000 == 0
    {
      Floor(a - 1 + c);
      var temp := (a - 1 + c) - (a - 1 + c) % 0x10000;
      if temp < c {
        c := temp + 0x8000;
      } else {
        c := temp;
      }
    }
  }

  // ---- Termination ----

  /** After the final shift the code value is a carry, two bytes and eleven zero bits. */
  lemma {:induction false} FinalLayout(r: Registers, c': int, s: int)
    requires InRange(r) && r.c <= c' < r.c + r.a && c' % 0x8000 == 0 && s == Shl(c', r.ct)
    ensures s / 0x8000000 <= 1
    ensures s == (s / 0x8000000) * 0x8000000 + (s / 0x80000 % 0x100) * 0x80000 + (s / 0x800 % 0x100) * 0x800
  {
    ShlLess(c', Shl(9, 24 - r.ct), r.ct);
    ShlShl(9, 24 - r.ct, r.ct);
    Shl24(9, 24 - r.ct + r.ct);
    ShlTimes(c' / 0x8000, 0x8000, r.ct);
    assert Shl(c' / 0x8000, r.ct) == 2 * Shl(c' / 0x8000, r.ct - 1);
    LowZeros(s, Shl(c' / 0x8000, r.ct - 1));
  }

  lemma {:induction false} Shl24(v: nat, n: nat)
    requires n == 24
    ensures Shl(v, n) == 0x1000000 * v
  {
    Shl8(v, n);
    Shl16(v, n - 8);
  }

  lemma {:induction false} LowZeros(s: nat, k: nat)
    requires s == 0x10000 * k
    ensures s == (s / 0x8000000) * 0x8000000 + (s / 0x80000 % 0x100) * 0x80000 + (s / 0x800 % 0x100) * 0x800
  {
    Digits(k);
    assert s / 0x8000000 == k / 0x800;
    assert s / 0x80000 == k / 8;
    assert s / 0x800 == 32 * k;
    assert (32 * k) % 0x100 == 32 * (k % 8);
  }

  lemma {:induction false} Digits(k: nat)
    ensures k == 0x800 * (k / 0x800) + 8 * (k / 8 % 0x100) + k % 8
  {
    assert k / 8 / 0x100 == k / 0x800;
  }

  /** The greatest multiple of 10000 hex up to x. */
  lemma {:induction false} Floor(x: nat)
    ensures var t := x - x % 0x10000; x - 0x10000 < t <= x && t % 0x8000 == 0 && (t + 0x8000) % 0x8000 == 0
  {
    var k := x / 0x10000;
    assert x - x % 0x10000 == 0x8000 * (2 * k);
    Multiple(2 * k);
    Multiple(2 * k + 1);
  }

  lemma {:induction false} Multiple(k: nat)
    ensures (0x8000 * k) % 0x8000 == 0
  {
  }

  /** The final carry, like all others, does not run off the front. */
  lemma {:induction false} FinalCarry(r: Registers, c': int, bytes: seq<byte>)
    requires InRange(r) && r.c <= c' < r.c + r.a
    requires r.val == Val(bytes) && r.len == |bytes|
    ensures Shl(c', r.ct) / 0x8000000 != 0 ==> !AllOnes(bytes)
  {
    if AllOnes(bytes) {
      OnesValue(bytes);
      ShlShl(1, 8 * r.len, 27 - r.ct);
      ShlAdd(Shl(1, 8 * r.len) - 1, 1, 27 - r.ct);
      assert c' < Shl(1, 27 - r.ct);
      ShlLess(c', Shl(1, 27 - r.ct), r.ct);
      ShlShl(1, 27 - r.ct, r.ct);
      Shl27(1, 27 - r.ct + r.ct);
    }
  }

  /** Two bytes and two zero bytes behind a head. */
  lemma {:induction false} TailValue(head: seq<byte>, b1: byte, b2: byte, code: seq<byte>, n: nat)
    requires |code| <= n && Padded(code, n) == head + [b1] + [b2]
    ensures Val(Padded(code, n + 2)) == (Val(head) * 0x8000000 + b1 * 0x80000 + b2 * 0x800) * 32
  {
    ValSnoc(head, b1);
    ValSnoc(head + [b1], b2);
    PaddedSnoc(code, n);
    PaddedSnoc(code, n + 1);
    ValSnoc(head + [b1] + [b2], 0);
    ValSnoc(head + [b1] + [b2] + [0], 0);
  }

  lemma {:induction false} Shl5(x: nat, n: nat)
    ensures Shl(x, n + 5) == Shl(x, n) * 32
  {
    Shl3(x, n + 5);
    assert Shl(x, n + 2) == 2 * Shl(x, n + 1);
    assert Shl(x, n + 1) == 2 * Shl(x, n);
  }

  /** Value of the code string, extended to a whole number of bytes beyond the final precision. */
  lemma {:induction false} CodeValue(r: Registers, c': nat, head: seq<byte>, b1: byte, b2: byte, code: seq<byte>)
    requires 1 <= r.ct <= 11 && |head| == r.len && |code| <= r.len + 2
    requires Padded(code, r.len + 2) == head + [b1] + [b2]
    requires Val(head) * 0x8000000 + b1 * 0x80000 + b2 * 0x800 == Shl(Shl(r.val, 27 - r.ct) + c', r.ct)
    ensures Val(Padded(code, r.len + 4)) == Shl(Shl(r.val, 27 - r.ct) + c', r.ct + 5)
  {
    TailValue(head, b1, b2, code, r.len + 2);
    Shl5(Shl(r.val, 27 - r.ct) + c', r.ct);
  }

  lemma {:induction false} HeadValue(r: Registers, c': int, s: int, bytes: seq<byte>)
    requires InRange(r) && r.c <= c' < r.c + r.a && c' % 0x8000 == 0 && s == Shl(c', r.ct)
    requires r.val == Val(bytes) && (s / 0x8000000 != 0 ==> !AllOnes(bytes))
    ensures Val(if s / 0x8000000 != 0 then Increment(bytes) else bytes) * 0x8000000
            + (s / 0x80000 % 0x100) * 0x80000 + (s / 0x800 % 0x100) * 0x800
         == Shl(Shl(r.val, 27 - r.ct) + c', r.ct)
  {
    FinalLayout(r, c', s);
    if s / 0x8000000 != 0 {
      IncrementValue(bytes);
    }
    ShlAdd(Shl(r.val, 27 - r.ct), c', r.ct);
    ShlShl(r.val, 27 - r.ct, r.ct);
    Shl27(r.val, 27 - r.ct + r.ct);
  }

  lemma {:induction false} PointsInto(x: nat, c: nat, c': nat, a: nat, w: nat)
    requires c <= c' < c + a
    ensures Shl(x + c, w) <= Shl(x + c', w) < Shl(x + c + a, w)
  {
    ShlLess(x + c, x + c', w);
    ShlLess(x + c', x + c + a, w);
  }

  lemma {:induction false} FinalHead(r: Registers, c': int, s: int, bytes: seq<byte>, carry: bool, b1: byte, b2: byte) returns (head: seq<byte>)
    requires InRange(r) && r.c <= c' < r.c + r.a && c' % 0x8000 == 0 && s == Shl(c', r.ct)
    requires r.val == Val(bytes) && r.len == |bytes|
    requires carry == (s / 0x8000000 != 0) && b1 == s / 0x80000 % 0x100 && b2 == s / 0x800 % 0x100
    ensures carry ==> !AllOnes(bytes)
    ensures head == (if carry then Increment(bytes) else bytes) && |head| == r.len
    ensures Val(head) * 0x8000000 + b1 * 0x80000 + b2 * 0x800 == Shl(Shl(r.val, 27 - r.ct) + c', r.ct)
  {
    FinalCarry(r, c', bytes);
    HeadValue(r, c', s, bytes);
    head := if carry then Increment(bytes) else bytes;
  }

  lemma {:induction false} FinalInside(r: Registers, c': int, head: seq<byte>, b1: byte, b2: byte, code: seq<byte>)
    requires InRange(r) && r.c <= c' < r.c + r.a && |head| == r.len && |code| <= r.len + 2
    requires Padded(code, r.len + 2) == head + [b1] + [b2]
    requires Val(head) * 0x8000000 + b1 * 0x80000 + b2 * 0x800 == Shl(Shl(r.val, 27 - r.ct) + c', r.ct)
    ensures Inside(code, r.len + 4, Denoted(r))
  {
    CodeValue(r, c', head, b1, b2, code);
    PointsInto(Shl(r.val, 27 - r.ct), r.c, c', r.a, r.ct + 5);
  }
}
