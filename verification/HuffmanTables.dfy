/** Derived Huffman tables: the validation and table building that jchuff.c and jdhuff.c do before coding. */
module HuffmanTables {
  import opened Numbers
  import opened HuffmanCode

  // ---- Codes by position in the symbol list ----

  function Size(bits: Counts, p: nat, l: nat): (r: nat)
    requires l <= LONGEST && p < Total(bits, l)
    ensures 1 <= r <= l && Total(bits, r - 1) <= p < Total(bits, r)
  {
    if p >= Total(bits, l - 1) then l else Size(bits, p, l - 1)
  }

  /** The code whose symbol is listed at position p. */
  function CodeAt(bits: Counts, p: nat): (c: Code)
    requires p < All(bits)
    ensures IsCode(bits, c) && Index(bits, c) == p
  {
    var l := Size(bits, p, |bits| - 1);
    Code(l, p - Total(bits, l - 1))
  }

  lemma {:induction false} AtIndex(bits: Counts, c: Code)
    requires IsCode(bits, c)
    ensures Index(bits, c) < All(bits) && CodeAt(bits, Index(bits, c)) == c
  {
    UptoGrows(bits, c.l, |bits| - 1);
    var d := CodeAt(bits, Index(bits, c));
    if Before(c, d) {
      InOrder(bits, c, d);
    } else if Before(d, c) {
      InOrder(bits, d, c);
    }
  }

  lemma {:induction false} SizeIs(bits: Counts, p: nat, l: nat)
    requires 1 <= l <= LONGEST && Total(bits, l - 1) <= p < Total(bits, l)
    ensures p < All(bits) && CodeAt(bits, p) == Code(l, p - Total(bits, l - 1))
  {
    UptoGrows(bits, l, |bits| - 1);
    AtIndex(bits, Code(l, p - Total(bits, l - 1)));
  }

  lemma {:induction false} FitsFromLast(bits: Counts, l: nat, n: nat)
    requires l <= n <= LONGEST && Total(bits, l) == Total(bits, n) && Upto(bits, l) < Shl(1, l)
    ensures Upto(bits, n) < Shl(1, n)
    decreases n
  {
    if l < n {
      UptoGrows(bits, l, n - 1);
      FitsFromLast(bits, l, n - 1);
    }
  }

  /** Counts that both coders accept: at most 256 codes, and the Kraft sum leaves the all-ones code free. */
  predicate Accepted(bits: Counts) { All(bits) <= 256 && Fits(bits) }

  /** In numbers: of 65536 code values of 16 bits the codes take at most 65535. */
  lemma {:induction false} AcceptedInNumbers(bits: Counts)
    ensures Accepted(bits) <==> Total(bits, 16) <= 256 && Upto(bits, 16) <= 65535
  {
    Shl16(1, |bits| - 1);
  }

  /** The first n entries are the code lengths of the first n listed symbols. */
  predicate Sizes(bits: Counts, huffsize: seq<nat>, n: nat)
  {
    n <= |huffsize| && n <= All(bits) && forall p :: 0 <= p < n ==> huffsize[p] == CodeAt(bits, p).l
  }

  /** These are the codes of the first listed symbols. */
  predicate Values(bits: Counts, huffcode: seq<nat>)
  {
    |huffcode| <= All(bits) && forall p :: 0 <= p < |huffcode| ==> huffcode[p] == Value(bits, CodeAt(bits, p))
  }

  /** Figure C.1: the code length of each listed symbol, with a zero behind the last; fails if there are too many. */
  method CodeSizes(bits: Counts) returns (ok: bool, huffsize: seq<nat>)
    ensures ok == (All(bits) <= 256)
    ensures ok ==> |huffsize| == All(bits) + 1 && Sizes(bits, huffsize, |huffsize| - 1) && huffsize[|huffsize| - 1] == 0
  {
    huffsize := [];
    for l := 1 to LONGEST + 1
      invariant |huffsize| == Total(bits, l - 1) <= 256 && Sizes(bits, huffsize, |huffsize|)
    {
      var i := bits[l];
      UptoGrows(bits, l, |bits| - 1);
      if |huffsize| + i > 256 {
        return false, [];
      }
      while i > 0
        invariant 0 <= i <= bits[l] && |huffsize| == Total(bits, l) - i && Sizes(bits, huffsize, |huffsize|)
      {
        i := i - 1;
        SizeIs(bits, |huffsize|, l);
        huffsize := huffsize + [l];
      }
    }
    ok, huffsize := true, huffsize + [0];
  }

  /** Between two lengths: all codes shorter than si have been generated, and they fit. */
  predicate Generated(bits: Counts, done: nat, code: nat, si: nat)
  {
    if All(bits) == 0 then done == 0
    else 1 <= si <= LONGEST + 1 && done == Total(bits, si - 1) && code == 2 * Upto(bits, si - 1)
         && Upto(bits, si - 1) < Shl(1, si - 1)
  }

  lemma {:induction false} GeneratedFirst(bits: Counts, huffsize: seq<nat>)
    requires |huffsize| == All(bits) + 1 && Sizes(bits, huffsize, |huffsize| - 1)
    ensures Generated(bits, 0, 0, huffsize[0])
  {
    if All(bits) > 0 {
      EmptyBefore(bits, huffsize[0] - 1);
    }
  }

  lemma {:induction false} GeneratedAll(bits: Counts, code: nat, si: nat)
    requires Generated(bits, All(bits), code, si)
    ensures Fits(bits)
  {
    if All(bits) == 0 {
      EmptyBefore(bits, |bits| - 1);
    } else {
      FitsFromLast(bits, si - 1, |bits| - 1);
    }
  }

  lemma {:induction false} EmptyBefore(bits: Counts, l: nat)
    requires l <= LONGEST && Total(bits, l) == 0
    ensures Upto(bits, l) == 0
  {
    if l > 0 {
      EmptyBefore(bits, l - 1);
    }
  }

  /** The codes of one length. */
  method CodesOf(bits: Counts, huffsize: seq<nat>, huffcode0: seq<nat>, code0: nat, si: nat) returns (huffcode: seq<nat>, code: nat)
    requires |huffsize| == All(bits) + 1 && Sizes(bits, huffsize, |huffsize| - 1) && huffsize[|huffsize| - 1] == 0
    requires Values(bits, huffcode0) && 1 <= si <= LONGEST && |huffcode0| == Total(bits, si - 1) && code0 == 2 * Upto(bits, si - 1)
    ensures Values(bits, huffcode) && |huffcode| == Total(bits, si) && code == Upto(bits, si)
  {
    huffcode, code := huffcode0, code0;
    UptoGrows(bits, si, |bits| - 1);
    while huffsize[|huffcode|] == si
      invariant Values(bits, huffcode) && Total(bits, si - 1) <= |huffcode| <= Total(bits, si)
      invariant code - |huffcode| == 2 * Upto(bits, si - 1) - Total(bits, si - 1)
      decreases |huffsize| - |huffcode|
    {
      SizeIs(bits, |huffcode|, si);
      huffcode := huffcode + [code];
      code := code + 1;
    }
    if |huffcode| < Total(bits, si) {
      SizeIs(bits, |huffcode|, si);
    }
  }

  /** Figure C.2: the codes, in the order of the symbol list; fails if they do not fit. */
  method Codes(bits: Counts, huffsize: seq<nat>) returns (ok: bool, huffcode: seq<nat>)
    requires |huffsize| == All(bits) + 1 && Sizes(bits, huffsize, |huffsize| - 1) && huffsize[|huffsize| - 1] == 0
    ensures ok == Fits(bits)
    ensures ok ==> |huffcode| == All(bits) && Values(bits, huffcode)
  {
    huffcode := [];
    var code: nat, si: nat := 0, huffsize[0];
    GeneratedFirst(bits, huffsize);
    while huffsize[|huffcode|] != 0
      invariant Values(bits, huffcode) && Generated(bits, |huffcode|, code, si)
      decreases LONGEST + 1 - si
    {
      huffcode, code := CodesOf(bits, huffsize, huffcode, code, si);
      if code >= Shl(1, si) {
        if Fits(bits) {
          FitsAtEveryLength(bits, si, |bits| - 1);
        }
        return false, [];
      }
      code := 2 * code;
      si := si + 1;
    }
    ok := true;
    GeneratedAll(bits, code, si);
  }

  // ---- Tables ----

  /** JHUFF_TBL: code-length counts, and the symbols in order of increasing code length. */
  datatype HuffTable = HuffTable(bits: Counts, huffval: seq<nat>)

  predicate ValidTable(h: HuffTable) { |h.huffval| == 256 && forall p :: 0 <= p < 256 ==> h.huffval[p] < 256 }

  predicate InRange(h: HuffTable, isDc: bool, n: nat)
    requires ValidTable(h) && n <= 256
  {
    forall p :: 0 <= p < n ==> h.huffval[p] <= if isDc then 15 else 255
  }

  /** What the encoder accepts. */
  predicate EncoderAccepts(h: HuffTable, isDc: bool)
    requires ValidTable(h)
  {
    Accepted(h.bits) && InRange(h, isDc, All(h.bits)) && NoRepeats(h.huffval[..All(h.bits)])
  }

  /** What the decoder accepts: it does not mind a symbol with several codes. */
  predicate DecoderAccepts(h: HuffTable, isDc: bool)
    requires ValidTable(h)
  {
    Accepted(h.bits) && (isDc ==> InRange(h, isDc, All(h.bits)))
  }

  // ---- The encoder's tables ----

  /** c_derived_tbl: code and code length of each symbol; length 0 if it has no code. */
  datatype EncoderTable = EncoderTable(ehufco: seq<nat>, ehufsi: seq<nat>)

  /** The first n listed symbols, with these code lengths and codes, have been entered. */
  predicate Entered(huffval: seq<nat>, huffsize: seq<nat>, huffcode: seq<nat>, e: EncoderTable, n: nat)
    requires n <= |huffval| && n <= |huffsize| && n <= |huffcode|
  {
    && |e.ehufco| == |e.ehufsi| == 256
    && (forall p :: 0 <= p < n ==> huffval[p] < 256 && e.ehufsi[huffval[p]] == huffsize[p] && e.ehufco[huffval[p]] == huffcode[p])
    && (forall i :: 0 <= i < 256 && e.ehufsi[i] != 0 ==> i in huffval[..n])
  }

  /** The tables give each listed symbol its canonical code, and no other symbol any. */
  predicate Encodes(h: HuffTable, e: EncoderTable)
    requires ValidTable(h)
  {
    && All(h.bits) <= 256 && |e.ehufco| == |e.ehufsi| == 256
    && (forall p :: 0 <= p < All(h.bits) ==>
          e.ehufsi[h.huffval[p]] == CodeAt(h.bits, p).l && e.ehufco[h.huffval[p]] == Value(h.bits, CodeAt(h.bits, p)))
    && (forall i :: 0 <= i < 256 && e.ehufsi[i] != 0 ==> i in h.huffval[..All(h.bits)])
  }

  /** Figure C.3: codes by symbol; fails on a symbol out of range or listed twice. */
  method EnterCodes(huffval: seq<nat>, huffsize: seq<nat>, huffcode: seq<nat>, maxSymbol: nat) returns (ok: bool, e: EncoderTable)
    requires |huffcode| <= |huffval| && |huffcode| <= |huffsize| && maxSymbol < 256
    requires forall p :: 0 <= p < |huffcode| ==> huffsize[p] != 0
    ensures ok == ((forall p :: 0 <= p < |huffcode| ==> huffval[p] <= maxSymbol) && NoRepeats(huffval[..|huffcode|]))
    ensures ok ==> Entered(huffval, huffsize, huffcode, e, |huffcode|)
  {
    e := EncoderTable(seq(256, _ => 0), seq(256, _ => 0));
    var lastp := |huffcode|;
    for p := 0 to lastp
      invariant Entered(huffval, huffsize, huffcode, e, p) && NoRepeats(huffval[..p])
      invariant forall q :: 0 <= q < p ==> huffval[q] <= maxSymbol
    {
      var i := huffval[p];
      if i > maxSymbol || e.ehufsi[i] != 0 {
        ok := false;
        if i <= maxSymbol {
          Repeated(huffval[..lastp], p, i);
        }
        return;
      }
      EnterOne(huffval, huffsize, huffcode, e, p);
      e := EncoderTable(e.ehufco[i := huffcode[p]], e.ehufsi[i := huffsize[p]]);
    }
    ok := true;
  }

  predicate NoRepeats(s: seq<nat>) { forall p, q :: 0 <= p < q < |s| ==> s[p] != s[q] }

  lemma {:induction false} Repeated(s: seq<nat>, p: nat, i: nat)
    requires p < |s| && i == s[p] && i in s[..p]
    ensures !NoRepeats(s)
  {
  }

  /** jpeg_make_c_derived_tbl. */
  method MakeEncoderTable(h: HuffTable, isDc: bool) returns (ok: bool, e: EncoderTable)
    requires ValidTable(h)
    ensures ok == EncoderAccepts(h, isDc)
    ensures ok ==> Encodes(h, e)
  {
    e := EncoderTable([], []);
    var huffsize, huffcode;
    ok, huffsize := CodeSizes(h.bits);
    if !ok {
      return;
    }
    ok, huffcode := Codes(h.bits, huffsize);
    if !ok {
      return;
    }
    var maxsymbol := if isDc then 15 else 255;
    ok, e := EnterCodes(h.huffval, huffsize, huffcode, maxsymbol);
  }

  lemma {:induction false} EnterOne(huffval: seq<nat>, huffsize: seq<nat>, huffcode: seq<nat>, e: EncoderTable, p: nat)
    requires p < |huffval| && p < |huffsize| && p < |huffcode| && huffval[p] < 256 && forall q :: 0 <= q <= p ==> huffsize[q] != 0
    requires Entered(huffval, huffsize, huffcode, e, p) && e.ehufsi[huffval[p]] == 0
    ensures var i := huffval[p];
            Entered(huffval, huffsize, huffcode, EncoderTable(e.ehufco[i := huffcode[p]], e.ehufsi[i := huffsize[p]]), p + 1)
    ensures huffval[p] !in huffval[..p]
  {
    assert huffval[..p + 1] == huffval[..p] + [huffval[p]];
  }

  // ---- The decoder's tables ----

  const HUFF_LOOKAHEAD: nat := 8

  /** d_derived_tbl. */
  datatype DecoderTable = DecoderTable(maxcode: seq<int>, valoffset: seq<int>, lookNbits: seq<nat>, lookSym: seq<nat>)

  /** The greatest code of length l, and what is to be added to a code to get the position of its symbol. */
  predicate LimitAt(bits: Counts, l: nat, max: int, offset: int)
    requires 1 <= l <= LONGEST
  {
    max == (if bits[l] > 0 then Upto(bits, l) - 1 else -1) && (bits[l] > 0 ==> offset == Total(bits, l - 1) - 2 * Upto(bits, l - 1))
  }

  /** The limits for bit-serial decoding at lengths below n. */
  predicate Limits(bits: Counts, maxcode: seq<int>, valoffset: seq<int>, n: nat)
  {
    && |maxcode| == |valoffset| == n <= LONGEST + 1
    && forall l {:trigger LimitAt(bits, l, maxcode[l], valoffset[l])} {:trigger maxcode[l]} :: 1 <= l < n ==>
         LimitAt(bits, l, maxcode[l], valoffset[l])
  }

  /** The code is the beginning of the bits x, seen as HUFF_LOOKAHEAD bits. */
  predicate Begins(bits: Counts, c: Code, x: nat, n: nat)
    requires IsCode(bits, c) && c.l <= n
  {
    Shl(Value(bits, c), n - c.l) <= x < Shl(Value(bits, c) + 1, n - c.l)
  }

  predicate LooksUp(h: HuffTable, nbits: nat, sym: nat, x: nat)
    requires ValidTable(h) && All(h.bits) <= 256
  {
    && 1 <= nbits <= HUFF_LOOKAHEAD
    && exists p :: 0 <= p < All(h.bits) && CodeAt(h.bits, p).l == nbits && h.huffval[p] == sym
                   && Begins(h.bits, CodeAt(h.bits, p), x, HUFF_LOOKAHEAD)
  }

  /** Lookahead entries below x are filled in, the others are zero. */
  predicate Filled(h: HuffTable, nbits: seq<nat>, sym: seq<nat>, x: nat)
    requires ValidTable(h) && All(h.bits) <= 256
  {
    && |nbits| == |sym| == 256 && x <= 256
    && (forall y :: 0 <= y < x ==> LooksUp(h, nbits[y], sym[y], y))
    && (forall y :: x <= y < 256 ==> nbits[y] == 0)
  }

  /** The tables that belong to h. */
  predicate Decodes(h: HuffTable, d: DecoderTable)
    requires ValidTable(h)
  {
    && Accepted(h.bits)
    && |d.maxcode| == LONGEST + 2 && d.maxcode[LONGEST + 1] == 0xFFFFF
    && Limits(h.bits, d.maxcode[..LONGEST + 1], d.valoffset, LONGEST + 1)
    && forall n :: n == HUFF_LOOKAHEAD ==> Filled(h, d.lookNbits, d.lookSym, Upto(h.bits, n))
  }

  lemma {:induction false} FirstAndLast(bits: Counts, huffcode: seq<nat>, l: nat)
    requires |huffcode| == All(bits) && Values(bits, huffcode) && 1 <= l <= LONGEST && bits[l] > 0
    ensures Total(bits, l - 1) < Total(bits, l) <= |huffcode|
    ensures huffcode[Total(bits, l - 1)] == 2 * Upto(bits, l - 1) && huffcode[Total(bits, l) - 1] == Upto(bits, l) - 1
  {
    SizeIs(bits, Total(bits, l - 1), l);
    SizeIs(bits, Total(bits, l) - 1, l);
  }

  /** Figure F.15. */
  method SerialTables(bits: Counts, huffcode: seq<nat>) returns (maxcode: seq<int>, valoffset: seq<int>)
    requires |huffcode| == All(bits) && Values(bits, huffcode)
    ensures Limits(bits, maxcode, valoffset, LONGEST + 1)
  {
    var p := 0;
    maxcode, valoffset := [0], [0];
    for l := 1 to LONGEST + 1
      invariant p == Total(bits, l - 1) && Limits(bits, maxcode, valoffset, l)
    {
      var max, offset;
      p, max, offset := SerialEntry(bits, huffcode, l, p);
      LimitsGrow(bits, maxcode, valoffset, l, max, offset);
      maxcode, valoffset := maxcode + [max], valoffset + [offset];
    }
  }

  /** The entries for length l. */
  method SerialEntry(bits: Counts, huffcode: seq<nat>, l: nat, p0: nat) returns (p: nat, max: int, offset: int)
    requires |huffcode| == All(bits) && Values(bits, huffcode) && 1 <= l <= LONGEST && p0 == Total(bits, l - 1)
    ensures p == Total(bits, l) && LimitAt(bits, l, max, offset)
  {
    p, max, offset := p0, -1, 0;
    if bits[l] > 0 {
      FirstAndLast(bits, huffcode, l);
      offset := p - huffcode[p];
      p := p + bits[l];
      max := huffcode[p - 1];
    }
  }

  lemma {:induction false} LimitsGrow(bits: Counts, maxcode: seq<int>, valoffset: seq<int>, l: nat, max: int, offset: int)
    requires 1 <= l <= LONGEST && Limits(bits, maxcode, valoffset, l) && LimitAt(bits, l, max, offset)
    ensures Limits(bits, maxcode + [max], valoffset + [offset], l + 1)
  {
  }

  /** Enter one code of length l for all continuations to HUFF_LOOKAHEAD bits. */
  method FillLookahead(h: HuffTable, p: nat, l: nat, code: nat, nbits0: seq<nat>, sym0: seq<nat>) returns (nbits: seq<nat>, sym: seq<nat>)
    requires ValidTable(h) && p < All(h.bits) <= 256 && l <= HUFF_LOOKAHEAD
    requires l == CodeAt(h.bits, p).l && code == Value(h.bits, CodeAt(h.bits, p))
    requires Shl(code + 1, HUFF_LOOKAHEAD - l) <= 256 && Filled(h, nbits0, sym0, Shl(code, HUFF_LOOKAHEAD - l))
    ensures Filled(h, nbits, sym, Shl(code + 1, HUFF_LOOKAHEAD - l))
  {
    nbits, sym := nbits0, sym0;
    var lookbits, ctr := Shl(code, HUFF_LOOKAHEAD - l), Shl(1, HUFF_LOOKAHEAD - l);
    ShlAdd(code, 1, HUFF_LOOKAHEAD - l);
    while ctr > 0
      invariant 0 <= ctr && lookbits + ctr == Shl(code + 1, HUFF_LOOKAHEAD - l) && lookbits >= Shl(code, HUFF_LOOKAHEAD - l)
      invariant Filled(h, nbits, sym, lookbits)
    {
      nbits, sym := nbits[lookbits := l], sym[lookbits := h.huffval[p]];
      lookbits, ctr := lookbits + 1, ctr - 1;
    }
  }

  /** Codes of length l end where the codes of length l + 1 begin, and within the table. */
  lemma {:induction false} LookaheadRoom(bits: Counts, l: nat, n: nat)
    requires Fits(bits) && 1 <= l <= n == HUFF_LOOKAHEAD
    ensures Shl(2 * Upto(bits, l - 1), n - l) == Shl(Upto(bits, l - 1), n - l + 1)
    ensures Shl(Upto(bits, l), n - l) <= 256
  {
    ShlShl(Upto(bits, l - 1), 1, n - l);
    assert Shl(Upto(bits, l - 1), 1) == 2 * Upto(bits, l - 1);
    FitsAtEveryLength(bits, n, |bits| - 1);
    UptoGrows(bits, l, n);
    Shl8(1, n);
  }

  /** The next code of length l, and where its entries end. */
  lemma {:induction false} NextCode(bits: Counts, huffcode: seq<nat>, l: nat, i: nat, p: nat)
    requires Accepted(bits) && |huffcode| == All(bits) && Values(bits, huffcode)
    requires 1 <= l <= HUFF_LOOKAHEAD && i < bits[l] && p == Total(bits, l - 1) + i
    ensures p < All(bits) <= 256 && l == CodeAt(bits, p).l && huffcode[p] == Value(bits, CodeAt(bits, p)) == 2 * Upto(bits, l - 1) + i
    ensures Shl(2 * Upto(bits, l - 1) + i + 1, HUFF_LOOKAHEAD - l) <= 256
  {
    LookaheadRoom(bits, l, HUFF_LOOKAHEAD);
    SizeIs(bits, p, l);
    ShlLess(2 * Upto(bits, l - 1) + i + 1, Upto(bits, l), HUFF_LOOKAHEAD - l);
  }

  /** Enter the codes of length l. */
  method LookaheadFor(h: HuffTable, huffcode: seq<nat>, l: nat, p0: nat, nbits0: seq<nat>, sym0: seq<nat>)
    returns (p: nat, nbits: seq<nat>, sym: seq<nat>)
    requires ValidTable(h) && Accepted(h.bits) && |huffcode| == All(h.bits) && Values(h.bits, huffcode)
    requires 1 <= l <= HUFF_LOOKAHEAD && p0 == Total(h.bits, l - 1)
    requires Filled(h, nbits0, sym0, Shl(Upto(h.bits, l - 1), HUFF_LOOKAHEAD - l + 1))
    ensures p == Total(h.bits, l) && Filled(h, nbits, sym, Shl(Upto(h.bits, l), HUFF_LOOKAHEAD - l))
  {
    p, nbits, sym := p0, nbits0, sym0;
    LookaheadRoom(h.bits, l, HUFF_LOOKAHEAD);
    for i := 0 to h.bits[l]
      invariant p == Total(h.bits, l - 1) + i
      invariant Filled(h, nbits, sym, Shl(2 * Upto(h.bits, l - 1) + i, HUFF_LOOKAHEAD - l))
    {
      NextCode(h.bits, huffcode, l, i, p);
      nbits, sym := FillLookahead(h, p, l, huffcode[p], nbits, sym);
      p := p + 1;
    }
  }

  method LookaheadTables(h: HuffTable, huffcode: seq<nat>) returns (nbits: seq<nat>, sym: seq<nat>)
    requires ValidTable(h) && Accepted(h.bits) && |huffcode| == All(h.bits) && Values(h.bits, huffcode)
    ensures forall n :: n == HUFF_LOOKAHEAD ==> Filled(h, nbits, sym, Upto(h.bits, n))
  {
    nbits, sym := seq(256, _ => 0), seq(256, _ => 0);
    var p, l := 0, 1;
    ShlZero(HUFF_LOOKAHEAD);
    while l <= HUFF_LOOKAHEAD
      invariant 1 <= l <= HUFF_LOOKAHEAD + 1
      invariant p == Total(h.bits, l - 1) && Filled(h, nbits, sym, Shl(Upto(h.bits, l - 1), HUFF_LOOKAHEAD - l + 1))
    {
      p, nbits, sym := LookaheadFor(h, huffcode, l, p, nbits, sym);
      l := l + 1;
    }
  }

  /** jpeg_make_d_derived_tbl. */
  method MakeDecoderTable(h: HuffTable, isDc: bool) returns (ok: bool, d: DecoderTable)
    requires ValidTable(h)
    ensures ok == DecoderAccepts(h, isDc)
    ensures ok ==> Decodes(h, d)
  {
    d := DecoderTable([], [], [], []);
    var huffsize, huffcode;
    ok, huffsize := CodeSizes(h.bits);
    if !ok {
      return;
    }
    ok, huffcode := Codes(h.bits, huffsize);
    if !ok {
      return;
    }
    var maxcode, valoffset := SerialTables(h.bits, huffcode);
    var nbits, sym := LookaheadTables(h, huffcode);
    d := DecoderTable(maxcode + [0xFFFFF], valoffset, nbits, sym);
    assert d.maxcode[..LONGEST + 1] == maxcode;
    if isDc {
      for i := 0 to |huffcode|
        invariant InRange(h, isDc, i)
      {
        if h.huffval[i] > 15 {
          ok := false;
          return;
        }
      }
    }
  }
}
