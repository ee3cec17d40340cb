/** Canonical Huffman codes (Annex C of ITU-T T.81): the code that a list of code-length counts stands for. */
module HuffmanCode {
  import opened Numbers

  /** An endless stream of bits. */
  type Stream = nat -> bool

  /** The next n bits from bit t on, as a number. */
  function Peek(s: Stream, t: nat, n: nat): (r: nat)
  {
    if n == 0 then 0 else 2 * Peek(s, t, n - 1) + (if s(t + n - 1) then 1 else 0)
  }

  lemma {:induction false} PeekBound(s: Stream, t: nat, n: nat)
    ensures Peek(s, t, n) < Shl(1, n)
  {
    if n > 0 {
      PeekBound(s, t, n - 1);
    }
  }

  /** The first m bits of n bits are the n bits, shifted right. */
  lemma {:induction false} PeekFront(s: Stream, t: nat, m: nat, n: nat)
    requires m <= n
    ensures Shl(Peek(s, t, m), n - m) <= Peek(s, t, n) < Shl(Peek(s, t, m) + 1, n - m)
    decreases n
  {
    if m < n {
      PeekFront(s, t, m, n - 1);
      assert n - m == n - 1 - m + 1;
    }
  }

  // ---- Code lengths and codes ----

  /** bits[l] symbols have codes of length l; bits[0] plays no part. */
  type Counts = bits: seq<nat> | |bits| == 17 witness seq(17, _ => 0)

  const LONGEST: nat := 16

  /** One more than the last code of length at most l, at length l. */
  function Upto(bits: seq<nat>, l: nat): (r: nat)
    requires l < |bits|
  {
    if l == 0 then 0 else 2 * Upto(bits, l - 1) + bits[l]
  }

  /** Number of codes of length at most l. */
  function Total(bits: seq<nat>, l: nat): (r: nat)
    requires l < |bits|
  {
    if l == 0 then 0 else Total(bits, l - 1) + bits[l]
  }

  /** Number of codes. (The greatest length is written so that it stays symbolic for the solver.) */
  function All(bits: Counts): (r: nat) { Total(bits, |bits| - 1) }

  /** The k-th code of length l. */
  datatype Code = Code(l: nat, k: nat)

  predicate IsCode(bits: Counts, c: Code) { 1 <= c.l <= LONGEST && c.k < bits[c.l] }

  function Value(bits: Counts, c: Code): (v: nat)
    requires IsCode(bits, c)
  {
    2 * Upto(bits, c.l - 1) + c.k
  }

  /** Position of the code's symbol in the list of symbols. */
  function Index(bits: Counts, c: Code): (p: nat)
    requires IsCode(bits, c)
  {
    Total(bits, c.l - 1) + c.k
  }

  /** The counts describe a code tree with a free leaf at the right end. */
  predicate Fits(bits: Counts) { Upto(bits, |bits| - 1) < Shl(1, |bits| - 1) }

  lemma {:induction false} FitsAtEveryLength(bits: Counts, l: nat, n: nat)
    requires l <= n <= LONGEST && Upto(bits, n) < Shl(1, n)
    ensures Upto(bits, l) < Shl(1, l)
    decreases n
  {
    if l < n {
      FitsAtEveryLength(bits, l, n - 1);
    }
  }

  lemma {:induction false} UptoGrows(bits: Counts, l: nat, n: nat)
    requires l <= n <= LONGEST
    ensures Shl(Upto(bits, l), n - l) <= Upto(bits, n) && Total(bits, l) <= Total(bits, n)
    decreases n
  {
    if l < n {
      UptoGrows(bits, l, n - 1);
    }
  }

  predicate Before(c: Code, d: Code) { c.l < d.l || (c.l == d.l && c.k < d.k) }

  /** The codes, seen as binary fractions, are disjoint intervals in order, and so are their positions. */
  lemma {:induction false} InOrder(bits: Counts, c: Code, d: Code)
    requires IsCode(bits, c) && IsCode(bits, d) && Before(c, d)
    ensures Shl(Value(bits, c) + 1, d.l - c.l) <= Value(bits, d)
    ensures Index(bits, c) < Index(bits, d)
  {
    if c.l < d.l {
      UptoGrows(bits, c.l, d.l - 1);
      ShlLess(Value(bits, c) + 1, Upto(bits, c.l), d.l - c.l - 1);
    }
  }

  /** No code is all ones. */
  lemma {:induction false} NotAllOnes(bits: Counts, c: Code)
    requires IsCode(bits, c) && Fits(bits)
    ensures Value(bits, c) + 1 < Shl(1, c.l)
  {
    FitsAtEveryLength(bits, c.l, |bits| - 1);
  }

  /** The stream continues with the code. */
  predicate Reads(s: Stream, t: nat, bits: Counts, c: Code)
    requires IsCode(bits, c)
  {
    Peek(s, t, c.l) == Value(bits, c)
  }

  /** No code is a prefix of another one: a stream continues with at most one code. */
  lemma {:induction false} PrefixFree(s: Stream, t: nat, bits: Counts, c: Code, d: Code)
    requires IsCode(bits, c) && IsCode(bits, d) && Reads(s, t, bits, c) && Reads(s, t, bits, d)
    ensures c == d
  {
    if Before(c, d) {
      InOrder(bits, c, d);
      PeekFront(s, t, c.l, d.l);
    } else if Before(d, c) {
      InOrder(bits, d, c);
      PeekFront(s, t, d.l, c.l);
    }
  }

  // ---- Decoding ----

  /** Decoding needs only the limits: a code ends at the first length at which the bits read are below the limit. */
  predicate Ends(s: Stream, t: nat, bits: Counts, l: nat)
  {
    l <= LONGEST && Peek(s, t, l) < Upto(bits, l)
  }

  /** The least length up to n at which a code ends, or n + 1 if there is none. */
  function Length(s: Stream, t: nat, bits: Counts, n: nat): (r: nat)
    requires n <= LONGEST
    ensures 1 <= r <= n + 1 && (r <= n ==> Ends(s, t, bits, r))
    ensures forall m :: 0 <= m < r ==> !Ends(s, t, bits, m)
  {
    if n == 0 then 1
    else
      var r := Length(s, t, bits, n - 1);
      if r < n || Ends(s, t, bits, n) then r else n + 1
  }

  /** At the first length at which the bits are below the limit they are a code. */
  lemma {:induction false} EndsIsCode(s: Stream, t: nat, bits: Counts, l: nat)
    requires 1 <= l <= LONGEST && !Ends(s, t, bits, l - 1)
    ensures Ends(s, t, bits, l) <==> exists c :: IsCode(bits, c) && c.l == l && Reads(s, t, bits, c)
    ensures Ends(s, t, bits, l) ==>
              Peek(s, t, l) >= 2 * Upto(bits, l - 1) && IsCode(bits, Code(l, Peek(s, t, l) - 2 * Upto(bits, l - 1)))
  {
    if Ends(s, t, bits, l) {
      var c := Code(l, Peek(s, t, l) - 2 * Upto(bits, l - 1));
      assert IsCode(bits, c) && Reads(s, t, bits, c);
    }
  }

  lemma {:induction false} EndsPersists(s: Stream, t: nat, bits: Counts, l: nat, m: nat)
    requires l <= m <= LONGEST && Ends(s, t, bits, l)
    ensures Ends(s, t, bits, m)
    decreases m
  {
    if l < m {
      EndsPersists(s, t, bits, l, m - 1);
    }
  }

  /** A code in the stream is found by the search. */
  lemma {:induction false} LengthFinds(s: Stream, t: nat, bits: Counts, c: Code)
    requires IsCode(bits, c) && Reads(s, t, bits, c)
    ensures Length(s, t, bits, |bits| - 1) == c.l
  {
    var r := Length(s, t, bits, |bits| - 1);
    assert Ends(s, t, bits, c.l);
    if r < c.l {
      EndsPersists(s, t, bits, r, c.l - 1);
    }
  }

  /** Search result as an optional code. */
  datatype Found = NoCode | Found(c: Code)

  function Lookup(s: Stream, t: nat, bits: Counts): (r: Found)
    ensures r.Found? ==> IsCode(bits, r.c) && Reads(s, t, bits, r.c)
  {
    var l := Length(s, t, bits, |bits| - 1);
    if l > LONGEST then NoCode
    else
      EndsIsCode(s, t, bits, l);
      Found(Code(l, Peek(s, t, l) - 2 * Upto(bits, l - 1)))
  }

  /** The search finds exactly the code that the stream continues with. */
  lemma {:induction false} LookupExact(s: Stream, t: nat, bits: Counts, c: Code)
    requires IsCode(bits, c)
    ensures Lookup(s, t, bits) == Found(c) <==> Reads(s, t, bits, c)
  {
    if Reads(s, t, bits, c) {
      LengthFinds(s, t, bits, c);
    }
  }
}
