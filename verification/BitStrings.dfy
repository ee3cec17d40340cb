/** Bit strings in bytes and registers, most significant bit first. */
module BitStrings {
  import opened Numbers
  import opened HuffmanCode

  // ---- The low bits of a register ----

  /** v & ((1 << n) - 1). */
  function Low(v: nat, n: nat): (r: nat)
  {
    if n == 0 then 0 else 2 * Low(v / 2, n - 1) + v % 2
  }

  lemma {:induction false} LowBound(v: nat, n: nat)
    ensures Low(v, n) < Shl(1, n) && Low(v, n) <= v
  {
    if n > 0 {
      LowBound(v / 2, n - 1);
    }
  }

  lemma {:induction false} LowAll(v: nat, n: nat)
    requires v < Shl(1, n)
    ensures Low(v, n) == v
  {
    if n > 0 {
      LowAll(v / 2, n - 1);
    }
  }

  lemma {:induction false} LowLow(v: nat, m: nat, n: nat)
    requires m <= n
    ensures Low(Low(v, n), m) == Low(v, m)
  {
    if m > 0 {
      LowLow(v / 2, m - 1, n - 1);
    }
  }

  /** The low n + m bits are n bits behind the low m bits. */
  lemma {:induction false} LowSplit(v: nat, n: nat, m: nat)
    ensures Low(v, n + m) == Shl(Low(Shr(v, m), n), m) + Low(v, m)
    decreases m
  {
    if m > 0 {
      LowSplit(v / 2, n, m - 1);
      ShrFront(v, m);
    }
  }

  /** Shifting in m bits c. */
  lemma {:induction false} LowShift(v: nat, c: nat, n: nat, m: nat)
    requires c < Shl(1, m)
    ensures Low(Shl(v, m) + c, n + m) == Shl(Low(v, n), m) + c
    decreases m
  {
    if m > 0 {
      LowShift(v, c / 2, n, m - 1);
      assert (Shl(v, m) + c) / 2 == Shl(v, m - 1) + c / 2;
    }
  }

  lemma {:induction false} ShlUnique(a: nat, b: nat, c: nat, d: nat, m: nat)
    requires Shl(a, m) + b == Shl(c, m) + d && b < Shl(1, m) && d < Shl(1, m)
    ensures a == c && b == d
  {
    ShlAdd(a, 1, m);
    ShlAdd(c, 1, m);
    ShlLess(a + 1, c, m);
    ShlLess(c + 1, a, m);
  }

  // ---- Bit strings ----

  /** The low n bits of v. */
  function BitsOf(v: nat, n: nat): (s: seq<bool>)
    ensures |s| == n
  {
    if n == 0 then [] else BitsOf(v / 2, n - 1) + [v % 2 == 1]
  }

  lemma {:induction false} BitsOfLow(v: nat, n: nat)
    ensures BitsOf(Low(v, n), n) == BitsOf(v, n)
  {
    if n > 0 {
      BitsOfLow(v / 2, n - 1);
    }
  }

  lemma {:induction false} BitsOfJoin(a: nat, n: nat, b: nat, m: nat)
    requires b < Shl(1, m)
    ensures BitsOf(Shl(a, m) + b, n + m) == BitsOf(a, n) + BitsOf(b, m)
    decreases m
  {
    if m > 0 {
      BitsOfJoin(a, n, b / 2, m - 1);
      assert (Shl(a, m) + b) / 2 == Shl(a, m - 1) + b / 2;
      assert BitsOf(a, n) + BitsOf(b, m) == BitsOf(a, n) + BitsOf(b / 2, m - 1) + [b % 2 == 1];
    }
  }

  /** All ones. */
  lemma {:induction false} BitsOfOnes(n: nat, i: nat)
    requires i < n
    ensures BitsOf(Shl(1, n) - 1, n)[i]
  {
    assert (Shl(1, n) - 1) / 2 == Shl(1, n - 1) - 1;
    if i < n - 1 {
      BitsOfOnes(n - 1, i);
    }
  }

  /** The stream continues with these bits. */
  predicate Matches(s: Stream, t: nat, bits: seq<bool>) { forall i :: 0 <= i < |bits| ==> s(t + i) == bits[i] }

  lemma {:induction false} MatchesJoin(s: Stream, t: nat, a: seq<bool>, b: seq<bool>)
    ensures Matches(s, t, a + b) <==> Matches(s, t, a) && Matches(s, t + |a|, b)
  {
    if Matches(s, t, a + b) {
      forall i | 0 <= i < |a| ensures s(t + i) == a[i] {
        assert s(t + i) == (a + b)[i];
      }
      forall i | 0 <= i < |b| ensures s(t + |a| + i) == b[i] {
        assert s(t + (|a| + i)) == (a + b)[|a| + i];
      }
    }
    if Matches(s, t, a) && Matches(s, t + |a|, b) {
      forall i | 0 <= i < |a + b| ensures s(t + i) == (a + b)[i] {
        if i >= |a| {
          assert s(t + |a| + (i - |a|)) == b[i - |a|];
        }
      }
    }
  }

  lemma {:induction false} PeekMatches(s: Stream, t: nat, v: nat, n: nat)
    requires Matches(s, t, BitsOf(v, n))
    ensures Peek(s, t, n) == Low(v, n)
  {
    if n > 0 {
      assert s(t + (n - 1)) == BitsOf(v, n)[n - 1];
      MatchesJoin(s, t, BitsOf(v / 2, n - 1), [v % 2 == 1]);
      PeekMatches(s, t, v / 2, n - 1);
    }
  }

  lemma {:induction false} PeekJoin(s: Stream, t: nat, n: nat, m: nat)
    ensures Peek(s, t, n + m) == Shl(Peek(s, t, n), m) + Peek(s, t + n, m)
    decreases m
  {
    if m > 0 {
      PeekJoin(s, t, n, m - 1);
      assert t + (n + m) - 1 == (t + n) + m - 1;
    }
  }

  // ---- Bytes ----

  function ByteBits(data: seq<byte>): (s: seq<bool>)
    ensures |s| == 8 * |data|
  {
    if data == [] then [] else ByteBits(data[..|data| - 1]) + BitsOf(data[|data| - 1], 8)
  }

  lemma {:induction false} ByteBitsAt(data: seq<byte>, n: nat, i: nat)
    requires n < |data| && i < 8
    ensures ByteBits(data)[8 * n + i] == BitsOf(data[n], 8)[i]
  {
    if n < |data| - 1 {
      ByteBitsAt(data[..|data| - 1], n, i);
    }
  }

  /** The bits of a segment, and zeros behind its end. */
  function DataBits(data: seq<byte>): Stream
  {
    (i: nat) => i < 8 * |data| && ByteBits(data)[i]
  }

  lemma {:induction false} PeekByte(data: seq<byte>, n: nat, e: nat)
    requires n < |data| && e == 8
    ensures Peek(DataBits(data), 8 * n, e) == data[n]
  {
    forall i | 0 <= i < e ensures DataBits(data)(8 * n + i) == BitsOf(data[n], e)[i] {
      ByteBitsAt(data, n, i);
    }
    PeekMatches(DataBits(data), 8 * n, data[n], e);
    Shl8(1, e);
    LowAll(data[n], e);
  }

  lemma {:induction false} PeekBehind(data: seq<byte>, t: nat, n: nat)
    requires t >= 8 * |data|
    ensures Peek(DataBits(data), t, n) == 0
  {
    if n > 0 {
      PeekBehind(data, t, n - 1);
    }
  }
}
