/** The arithmetic entropy decoder of jdarith.c: a code register with a floating cut point, fed from a stuffed byte source. */
module ArithDecoder {
  import opened Numbers
  import opened ByteStuffing
  import opened IntervalCoder
  import opened SegmentSource

  // ---- Register arithmetic ----

  datatype Registers = Registers(a: int, c: int, ct: int)

  /** The code register is the code string read so far, less the base of the interval; `ct` bits of it are ahead. */
  ghost predicate Aligned(r: Registers, data: seq<byte>, n: nat, iv: Interval)
  {
    && 0 <= r.ct < 8 && Proper(iv) && r.a == iv.a
    && 8 * n == 16 + iv.shifts + r.ct
    && r.c == Val(Padded(data, n)) - Shl(iv.base, r.ct)
    && 0 <= r.c < Shl(iv.a, r.ct)
  }

  lemma {:induction false} FirstTwoBytes(r: Registers, data: seq<byte>, n: nat)
    requires n == 2 && r.a == 0x10000 && r.ct == 0 && r.c == Val(Padded(data, n))
    ensures Aligned(r, data, n, WHOLE)
  {
    ValBound(Padded(data, n));
    Shl16(1, 8 * n);
  }

  lemma {:induction false} ConsumeBit(r: Registers, data: seq<byte>, n: nat, iv: Interval)
    requires Aligned(r, data, n, iv) && r.a < 0x8000 && r.ct > 0
    ensures Aligned(Registers(2 * r.a, r.c, r.ct - 1), data, n, Shift(iv))
  {
    ShlDouble(iv.base, r.ct - 1);
    ShlDouble(iv.a, r.ct - 1);
  }

  lemma {:induction false} ConsumeByte(r: Registers, data: seq<byte>, n: nat, iv: Interval)
    requires Aligned(r, data, n, iv) && r.a < 0x8000 && r.ct == 0
    ensures Aligned(Registers(2 * r.a, r.c * 256 + DataByte(data, n), 7), data, n + 1, Shift(iv))
  {
    PaddedSnoc(data, n);
    ValSnoc(Padded(data, n), DataByte(data, n));
    ShlDouble(iv.base, r.ct + 7);
    ShlDouble(iv.a, r.ct + 7);
    Shl8(iv.base, r.ct + 8);
    Shl8(iv.a, r.ct + 8);
  }

  /** Either two initial bytes are still to be read, or the code register is aligned with the interval. */
  ghost predicate Begun(r: Registers, data: seq<byte>, n: nat, iv: Interval)
  {
    if r.a == 0 then n < 2 && r.ct == 8 * n - 16 && r.c == Val(Padded(data, n)) && iv == WHOLE
    else Aligned(r, data, n, iv)
  }

  /** One round of the input loop. */
  lemma {:induction false} OneRound(r: Registers, data: seq<byte>, n: nat, iv: Interval)
    requires Begun(r, data, n, iv) && r.a < 0x8000
    ensures r.a != 0 && r.ct > 0 ==> Aligned(Registers(2 * r.a, r.c, r.ct - 1), data, n, Shift(iv))
    ensures r.a != 0 && r.ct <= 0 ==>
              r.ct == 0 && Aligned(Registers(2 * r.a, r.c * 256 + DataByte(data, n), 7), data, n + 1, Shift(iv))
    ensures r.a == 0 && n == 0 ==> Begun(Registers(0, r.c * 256 + DataByte(data, n), -8), data, n + 1, iv)
    ensures r.a == 0 && n == 1 ==> Aligned(Registers(0x10000, r.c * 256 + DataByte(data, n), 0), data, n + 1, iv)
  {
    if r.a == 0 {
      PaddedSnoc(data, n);
      ValSnoc(Padded(data, n), DataByte(data, n));
      if n == 1 {
        FirstTwoBytes(Registers(0x10000, r.c * 256 + DataByte(data, n), 0), data, n + 1);
      }
    } else if r.ct > 0 {
      ConsumeBit(r, data, n, iv);
    } else {
      ConsumeByte(r, data, n, iv);
    }
  }

  /** Comparing the code register with the shifted split point decides between the two parts. */
  lemma {:induction false} Compare(r: Registers, data: seq<byte>, n: nat, iv: Interval, qe: nat)
    requires Aligned(r, data, n, iv) && 0 < qe < r.a
    ensures var point := Shl(r.a - qe, r.ct);
            && (r.c >= point <==> AtOrAbove(data, iv, iv.base + iv.a - qe))
            && (if r.c >= point then Aligned(Registers(qe, r.c - point, r.ct), data, n, Split(iv, qe, true))
                else Aligned(Registers(r.a - qe, r.c, r.ct), data, n, Split(iv, qe, false)))
  {
    assert BytesFor(iv.shifts) == n;
    ShlAdd(iv.base, iv.a - qe, r.ct);
    ShlAdd(iv.a - qe, qe, r.ct);
  }

  /** What a choice of the upper or the lower part means for the bit, the interval and the bin. */
  lemma {:induction false} ChoiceMeaning(tab: Table, data: seq<byte>, s: Coder, bin: Bin, sv: nat, entry: nat, rest: int, upper: bool)
    requires Ready(s) && bin in s.stats && sv == s.stats[bin] && entry == tab[sv % 128]
    requires ValidEntry(entry) && rest == s.iv.a - Qe(entry)
    requires upper == AtOrAbove(data, s.iv, s.iv.base + s.iv.a - Qe(entry))
    ensures var lps := upper == (rest >= Qe(entry));
            var bit := lps != (sv >= 128);
            && DecodedBit(tab, data, s, bin) == bit
            && Narrow(tab, s, bin, bit)
               == Coder(Split(s.iv, Qe(entry), upper),
                        if !upper && rest >= 0x8000 then s.stats
                        else s.stats[bin := Switch(sv, if lps then NextLps(entry) else NextMps(entry))])
  {
    assert s.stats == s.stats[bin := sv];
  }

  class Decoder {
    const tab: Table
    const input: Reader
    var c: int
    var a: int
    var ct: int
    var stats: Stats
    /** The interval decoded so far, not yet renormalised. */
    ghost var iv: Interval

    ghost function Regs(): Registers
      reads this`a, this`c, this`ct
    {
      Registers(a, c, ct)
    }

    ghost predicate Valid()
      reads this, input
    {
      input.Valid() && Begun(Regs(), input.seg.data, input.n, iv) && ValidStats(stats)
    }

    ghost function State(): Coder
      reads this`iv, this`stats
    {
      Coder(iv, stats)
    }

    constructor (tab: Table, src: seq<byte>, stats: Stats)
      requires ValidStats(stats)
      ensures Valid() && State() == Coder(WHOLE, stats) && fresh(input)
      ensures this.tab == tab && input.src == src && input.seg == Unstuff(src, 0)
    {
      this.tab, this.stats := tab, stats;
      input := new Reader(src);
      c, a, ct, iv := 0, 0, -16, WHOLE;
    }

    /** Start on the segment at the read position. */
    method Reset(stats: Stats)
      requires ValidStats(stats) && input.Valid() && input.n == 0
      modifies this
      ensures Valid() && State() == Coder(WHOLE, stats)
    {
      this.stats := stats;
      c, a, ct, iv := 0, 0, -16, WHOLE;
    }

    /** One round of renormalisation and data input. */
    method Input()
      requires Valid() && a < 0x8000
      modifies this`c, this`a, this`ct, this`iv, input`pos, input`unread, input`n
      ensures Valid()
      ensures if old(a) == 0 then (if old(input.n) == 0 then a == 0 else a == 0x10000) && iv == old(iv) && input.n == old(input.n) + 1
              else a == 2 * old(a) && iv == Shift(old(iv))
    {
      OneRound(Regs(), input.seg.data, input.n, iv);
      if a != 0 {
        iv := Shift(iv);
      }
      ct := ct - 1;
      if ct < 0 {
        var data := input.NextByte();
        c := c * 256 + data;
        ct := ct + 8;
        if ct < 0 {
          ct := ct + 1;
          if ct == 0 {
            a := 0x8000;
          }
        }
      }
      a := 2 * a;
    }

    method Renormalise()
      requires Valid()
      modifies this`c, this`a, this`ct, this`iv, input`pos, input`unread, input`n
      ensures Valid() && iv == Renorm(old(iv)) && a == iv.a
    {
      while a < 0x8000
        invariant Valid() && Renorm(iv) == Renorm(old(iv))
        decreases if a == 0 then 0x10000 - input.n else 0x8000 - a
      {
        Input();
      }
    }

    /** Decode one decision: bit and state are those of the ideal decoder on the data of the segment, whatever it holds. */
    method ArithDecode(bin: Bin) returns (bit: bool)
      requires Valid() && bin in stats
      modifies this, input`pos, input`unread, input`n
      ensures Valid() && (bit, State()) == Decode(tab, input.seg.data, old(State()), bin)
    {
      Renormalise();
      bit := Choose(bin);
    }

    /** Move to the part of the interval that the code string lies in. */
    method Descend(qe: nat) returns (upper: bool)
      requires Aligned(Regs(), input.seg.data, input.n, iv) && 0 < qe < a
      modifies this`a, this`c, this`iv
      ensures upper == AtOrAbove(input.seg.data, old(iv), old(iv).base + old(iv).a - qe)
      ensures iv == Split(old(iv), qe, upper) && Aligned(Regs(), input.seg.data, input.n, iv)
    {
      Compare(Regs(), input.seg.data, input.n, iv, qe);
      a := a - qe;
      var temp := Shl(a, ct);
      upper := c >= temp;
      if upper {
        c := c - temp;
        a := qe;
      }
      iv := Split(iv, qe, upper);
    }

    method Choose(bin: Bin) returns (bit: bool)
      requires Valid() && bin in stats && a == iv.a && Normal(iv)
      modifies this
      ensures Valid() && bit == DecodedBit(tab, input.seg.data, old(State()), bin)
      ensures State() == Narrow(tab, old(State()), bin, bit)
    {
      var sv := stats[bin];
      var entry := tab[sv % 128];
      assert ValidEntry(entry);
      var qe := Qe(entry);
      var rest := a - qe;
      var upper := Descend(qe);
      ChoiceMeaning(tab, input.seg.data, old(State()), bin, sv, entry, rest, upper);
      var lps := upper == (rest >= qe);
      bit := lps != (sv >= 128);
      if upper || rest < 0x8000 {
        stats := stats[bin := Switch(sv, if lps then NextLps(entry) else NextMps(entry))];
      }
    }
  }
}
