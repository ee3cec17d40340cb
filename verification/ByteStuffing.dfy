/** Entropy-coded segments: FF/00 byte stuffing, and the reader that undoes it. */
module ByteStuffing {
  import opened Numbers
  import opened Sequences

  function StuffByte(b: byte): (r: seq<byte>)
  {
    if b == 0xFF then [0xFF, 0] else [b]
  }

  /** Each data byte FF is followed by a zero so that it cannot be taken for a marker. */
  function Stuff(s: seq<byte>): (r: seq<byte>)
  {
    if s == [] then [] else Stuff(s[..|s| - 1]) + StuffByte(s[|s| - 1])
  }

  lemma {:induction false} StuffSnoc(s: seq<byte>, b: byte)
    ensures Stuff(s + [b]) == Stuff(s) + StuffByte(b)
  {
    assert (s + [b])[..|s|] == s;
  }

  lemma {:induction false} StuffConcat(s: seq<byte>, t: seq<byte>)
    ensures Stuff(s + t) == Stuff(s) + Stuff(t)
  {
    if t == [] {
      assert s + t == s;
    } else {
      var t0, b := t[..|t| - 1], t[|t| - 1];
      calc {
        Stuff(s + t);
        { assert s + t == (s + t0) + [b]; StuffSnoc(s + t0, b); }
        Stuff(s + t0) + StuffByte(b);
        { StuffConcat(s, t0); }
        (Stuff(s) + Stuff(t0)) + StuffByte(b);
        { Assoc(Stuff(s), Stuff(t0), StuffByte(b)); }
        Stuff(s) + (Stuff(t0) + StuffByte(b));
      }
    }
  }

  /** In stuffed output an FF is always followed by a zero byte. */
  lemma {:induction false} StuffedHasNoMarker(s: seq<byte>, i: nat)
    requires i < |Stuff(s)| && Stuff(s)[i] == 0xFF
    ensures i + 1 < |Stuff(s)| && Stuff(s)[i + 1] == 0
  {
    var head := Stuff(s[..|s| - 1]);
    if i < |head| {
      StuffedHasNoMarker(s[..|s| - 1], i);
    }
  }

  /** Byte `pos` of the data source; past the end it keeps supplying a fake EOI marker. */
  function ByteAt(src: seq<byte>, pos: nat): (b: byte)
  {
    if pos < |src| then src[pos] else if (pos - |src|) % 2 == 0 then 0xFF else 0xD9
  }

  /** Bytes that can still be read before a marker is certain to turn up. */
  function Left(src: seq<byte>, pos: nat): (n: nat)
  {
    if pos < |src| then |src| - pos + 2 else if (pos - |src|) % 2 == 0 then 1 else 2
  }

  /** Position of the first byte other than FF at or after `pos`. */
  function SkipFF(src: seq<byte>, pos: nat): (q: nat)
    ensures pos <= q && ByteAt(src, q) != 0xFF
    ensures forall i :: pos <= i < q ==> ByteAt(src, i) == 0xFF
    decreases if pos < |src| then |src| - pos + 2 else 1 - (pos - |src|) % 2
  {
    if ByteAt(src, pos) == 0xFF then SkipFF(src, pos + 1) else pos
  }

  lemma {:induction false} SkipFFIs(src: seq<byte>, pos: nat, q: nat)
    requires pos <= q && ByteAt(src, q) != 0xFF
    requires forall i :: pos <= i < q ==> ByteAt(src, i) == 0xFF
    ensures SkipFF(src, pos) == q
  {
    var r := SkipFF(src, pos);
    assert r >= q && q >= r;
  }

  /** The data bytes up to a marker, the marker, and the position just behind it. */
  datatype Segment = Segment(data: seq<byte>, marker: byte, end: nat)

  function Unstuff(src: seq<byte>, pos: nat): (r: Segment)
    ensures r.marker != 0 && r.marker != 0xFF
    decreases Left(src, pos)
  {
    var b := ByteAt(src, pos);
    if b != 0xFF then
      var r := Unstuff(src, pos + 1);
      r.(data := [b] + r.data)
    else
      var q := SkipFF(src, pos + 1);
      if ByteAt(src, q) == 0 then
        var r := Unstuff(src, q + 1);
        r.(data := [0xFF] + r.data)
      else
        Segment([], ByteAt(src, q), q + 1)
  }

  lemma {:induction false} UnstuffByte(src: seq<byte>, pos: nat, x: byte)
    requires pos + |StuffByte(x)| <= |src| && src[pos..pos + |StuffByte(x)|] == StuffByte(x)
    ensures var r := Unstuff(src, pos + |StuffByte(x)|);
            Unstuff(src, pos) == r.(data := [x] + r.data)
  {
    assert src[pos] == src[pos..pos + |StuffByte(x)|][0];
    if x == 0xFF {
      assert src[pos + 1] == src[pos..pos + |StuffByte(x)|][1];
      SkipFFIs(src, pos + 1, pos + 1);
    }
  }

  lemma {:induction false} UnstuffMarker(src: seq<byte>, pos: nat, fill: nat)
    requires fill >= 1 && pos + fill < |src| && src[pos + fill] !in {0, 0xFF}
    requires forall i :: pos <= i < pos + fill ==> src[i] == 0xFF
    ensures Unstuff(src, pos) == Segment([], src[pos + fill], pos + fill + 1)
  {
    SkipFFIs(src, pos + 1, pos + fill);
  }

  lemma {:induction false} FirstStuffed(data: seq<byte>)
    requires data != []
    ensures Stuff(data) == StuffByte(data[0]) + Stuff(data[1..])
  {
    assert data == [data[0]] + data[1..];
    StuffSnoc([], data[0]);
    assert [] + [data[0]] == [data[0]];
    StuffConcat([data[0]], data[1..]);
  }

  lemma {:induction false} Slices(src: seq<byte>, pos: nat, q: nat, a: seq<byte>, b: seq<byte>)
    requires pos <= q <= |src| && src[pos..q] == a + b
    ensures pos + |a| <= q && src[pos..pos + |a|] == a && src[pos + |a|..q] == b
  {
    assert src[pos..pos + |a|] == src[pos..q][..|a|];
    assert src[pos + |a|..q] == src[pos..q][|a|..];
  }

  /** Fill bytes from q on, and then a marker. */
  predicate Ended(src: seq<byte>, q: nat, fill: nat)
  {
    fill >= 1 && q + fill < |src| && src[q + fill] !in {0, 0xFF} && forall i :: q <= i < q + fill ==> src[i] == 0xFF
  }

  lemma {:induction false} UnstuffUpTo(src: seq<byte>, pos: nat, q: nat, data: seq<byte>, fill: nat, seg: Segment)
    requires pos <= q <= |src| && src[pos..q] == Stuff(data) && Ended(src, q, fill) && seg == Unstuff(src, pos)
    ensures seg.data == data && seg.marker == src[q + fill] && seg.end == q + fill + 1
    decreases |data|
  {
    if data == [] {
      UnstuffMarker(src, pos, fill);
    } else {
      FirstStuffed(data);
      Slices(src, pos, q, StuffByte(data[0]), Stuff(data[1..]));
      var behind := pos + |StuffByte(data[0])|;
      var rest := Unstuff(src, behind);
      UnstuffUpTo(src, behind, q, data[1..], fill, rest);
      ByteInFront(src, pos, data[0], seg, rest);
      assert data == [data[0]] + data[1..];
    }
  }

  lemma {:induction false} ByteInFront(src: seq<byte>, pos: nat, x: byte, seg: Segment, rest: Segment)
    requires pos + |StuffByte(x)| <= |src| && src[pos..pos + |StuffByte(x)|] == StuffByte(x)
    requires seg == Unstuff(src, pos) && rest == Unstuff(src, pos + |StuffByte(x)|)
    ensures seg.data == [x] + rest.data && seg.marker == rest.marker && seg.end == rest.end
  {
    UnstuffByte(src, pos, x);
  }

  /** Reading stuffed data up to any marker, fill bytes included, gives the data back. */
  lemma {:induction false} UnstuffStuff(src: seq<byte>, pos: nat, data: seq<byte>, fill: nat)
    requires var q := pos + |Stuff(data)|; Ended(src, q, fill) && src[pos..q] == Stuff(data)
    ensures var q := pos + |Stuff(data)|;
            Unstuff(src, pos) == Segment(data, src[q + fill], q + fill + 1)
  {
    UnstuffUpTo(src, pos, pos + |Stuff(data)|, data, fill, Unstuff(src, pos));
  }
}
