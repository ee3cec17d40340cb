/** Shifts and big-endian byte strings over unbounded naturals. */
module Numbers {

  type byte = x: int | 0 <= x < 256

  /** v << n, that is v times the n-th power of two. */
  function Shl(v: nat, n: nat): (r: nat)
    ensures r >= v
  {
    if n == 0 then v else 2 * Shl(v, n - 1)
  }

  lemma {:induction false} ShlAdd(x: nat, y: nat, n: nat)
    ensures Shl(x + y, n) == Shl(x, n) + Shl(y, n)
  {
    if n > 0 {
      ShlAdd(x, y, n - 1);
    }
  }

  lemma {:induction false} ShlLess(x: nat, y: nat, n: nat)
    ensures x < y <==> Shl(x, n) < Shl(y, n)
    ensures x <= y <==> Shl(x, n) <= Shl(y, n)
  {
    if n > 0 {
      ShlLess(x, y, n - 1);
    }
  }

  lemma {:induction false} ShlShl(v: nat, m: nat, n: nat)
    ensures Shl(Shl(v, m), n) == Shl(v, m + n)
  {
    if n > 0 {
      ShlShl(v, m, n - 1);
    }
  }

  lemma {:induction false} ShlDouble(v: nat, n: nat)
    ensures Shl(2 * v, n) == Shl(v, n + 1)
  {
    if n > 0 {
      ShlDouble(v, n - 1);
    }
  }

  lemma {:induction false} ShlTimes(v: nat, k: nat, n: nat)
    ensures Shl(v * k, n) == Shl(v, n) * k
  {
    if n > 0 {
      ShlTimes(v, k, n - 1);
    }
  }

  lemma {:induction false} ShlZero(n: nat)
    ensures Shl(0, n) == 0
  {
    if n > 0 {
      ShlZero(n - 1);
    }
  }

  lemma {:induction false} ShlGrows(v: nat, m: nat, n: nat)
    requires m <= n
    ensures Shl(v, m) <= Shl(v, n)
  {
    ShlShl(v, m, n - m);
  }

  /** v >> j. */
  function Shr(v: nat, j: nat): (r: nat)
  {
    if j == 0 then v else Shr(v, j - 1) / 2
  }

  lemma {:induction false} ShrFront(v: nat, j: nat)
    requires j > 0
    ensures Shr(v, j) == Shr(v / 2, j - 1)
  {
    if j > 1 {
      ShrFront(v, j - 1);
    }
  }

  // Shifts by the amounts that occur in register layouts. The amount is a parameter so that it
  // stays symbolic for the solver.

  lemma {:induction false} Shl3(v: nat, n: nat)
    requires n >= 3
    ensures Shl(v, n) == 8 * Shl(v, n - 3)
  {
    assert Shl(v, n) == 2 * Shl(v, n - 1);
    assert Shl(v, n - 1) == 2 * Shl(v, n - 2);
    assert Shl(v, n - 2) == 2 * Shl(v, n - 3);
  }

  lemma {:induction false} Shl8(v: nat, n: nat)
    requires n >= 8
    ensures Shl(v, n) == 0x100 * Shl(v, n - 8)
  {
    Shl3(v, n);
    Shl3(v, n - 3);
    assert Shl(v, n - 6) == 2 * Shl(v, n - 7);
    assert Shl(v, n - 7) == 2 * Shl(v, n - 8);
  }

  lemma {:induction false} Shl16(v: nat, n: nat)
    requires n == 16
    ensures Shl(v, n) == 0x10000 * v
  {
    Shl8(v, n);
    Shl8(v, n - 8);
  }

  lemma {:induction false} Shl19(v: nat, n: nat)
    requires n == 19
    ensures Shl(v, n) == 0x80000 * v
  {
    Shl3(v, n);
    Shl16(v, n - 3);
  }

  lemma {:induction false} Shl27(v: nat, n: nat)
    requires n == 27
    ensures Shl(v, n) == 0x8000000 * v
  {
    Shl8(v, n);
    Shl19(v, n - 8);
  }

  /** The value of a byte string read as a base-256 numeral, most significant byte first. */
  function Val(s: seq<byte>): (r: nat)
  {
    if s == [] then 0 else Val(s[..|s| - 1]) * 256 + s[|s| - 1]
  }

  lemma {:induction false} ValSnoc(s: seq<byte>, b: byte)
    ensures Val(s + [b]) == Val(s) * 256 + b
  {
    assert (s + [b])[..|s|] == s;
  }

  lemma {:induction false} ValConcat(s: seq<byte>, t: seq<byte>)
    ensures Val(s + t) == Shl(Val(s), 8 * |t|) + Val(t)
  {
    if t == [] {
      assert s + t == s;
    } else {
      var t0, b := t[..|t| - 1], t[|t| - 1];
      ValConcat(s, t0);
      assert s + t == (s + t0) + [b];
      ValSnoc(s + t0, b);
      Shl8(Val(s), 8 * |t|);
    }
  }

  lemma {:induction false} ValBound(s: seq<byte>)
    ensures Val(s) < Shl(1, 8 * |s|)
  {
    if s != [] {
      ValBound(s[..|s| - 1]);
      Shl8(1, 8 * |s|);
    }
  }

  function Repeat(b: byte, n: nat): (r: seq<byte>)
    ensures |r| == n && forall i :: 0 <= i < n ==> r[i] == b
  {
    if n == 0 then [] else Repeat(b, n - 1) + [b]
  }

  /** The first n bytes of `data`, which is continued by zero bytes for ever. */
  function Padded(data: seq<byte>, n: nat): (r: seq<byte>)
    ensures |r| == n
  {
    if n <= |data| then data[..n] else data + Repeat(0, n - |data|)
  }

  lemma {:induction false} PaddedSnoc(data: seq<byte>, n: nat)
    ensures Padded(data, n + 1) == Padded(data, n) + [if n < |data| then data[n] else 0]
  {
  }

  /** A short prefix is the long prefix divided by the weight of the bytes dropped. */
  lemma {:induction false} PrefixFloor(data: seq<byte>, n: nat, k: nat)
    ensures Shl(Val(Padded(data, n)), 8 * k) <= Val(Padded(data, n + k)) < Shl(Val(Padded(data, n)) + 1, 8 * k)
  {
    var front, t := Padded(data, n), Padded(data, n + k)[n..];
    assert Padded(data, n + k) == front + t;
    ValConcat(front, t);
    ValBound(t);
    ShlAdd(Val(front), 1, 8 * k);
  }
}
