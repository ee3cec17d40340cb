/** The reader of an entropy-coded segment, shared by the decoders: it undoes the stuffing and stops at a marker. */
module SegmentSource {
  import opened Numbers
  import opened ByteStuffing

  /** Where the reader of a segment stands: `n` data bytes read, zeros supplied once the marker is reached. */
  ghost predicate InStep(src: seq<byte>, pos: nat, unread: nat, n: nat, seg: Segment)
  {
    if unread == 0 then n <= |seg.data| && Unstuff(src, pos) == seg.(data := seg.data[n..])
    else n >= |seg.data| && unread == seg.marker && pos == seg.end
  }

  lemma {:induction false} StartInStep(src: seq<byte>, pos: nat)
    ensures InStep(src, pos, 0, 0, Unstuff(src, pos))
  {
    assert Unstuff(src, pos).data[0..] == Unstuff(src, pos).data;
  }

  function DataByte(data: seq<byte>, n: nat): (b: byte)
  {
    if n < |data| then data[n] else 0
  }

  lemma {:induction false} StepPlain(src: seq<byte>, pos: nat, n: nat, seg: Segment)
    requires InStep(src, pos, 0, n, seg) && ByteAt(src, pos) != 0xFF
    ensures n < |seg.data| && seg.data[n] == ByteAt(src, pos)
    ensures InStep(src, pos + 1, 0, n + 1, seg)
  {
    var rest := Unstuff(src, pos + 1).data;
    assert seg.data[n..] == [ByteAt(src, pos)] + rest;
    assert |seg.data[n..]| == |seg.data| - n;
    assert seg.data[n + 1..] == seg.data[n..][1..] == rest;
  }

  lemma {:induction false} StepEscaped(src: seq<byte>, pos: nat, n: nat, seg: Segment)
    requires InStep(src, pos, 0, n, seg) && ByteAt(src, pos) == 0xFF
    ensures var q := SkipFF(src, pos + 1);
            if ByteAt(src, q) == 0 then
              n < |seg.data| && seg.data[n] == 0xFF && InStep(src, q + 1, 0, n + 1, seg)
            else
              n == |seg.data| && seg.marker == ByteAt(src, q) && seg.end == q + 1
  {
    var q := SkipFF(src, pos + 1);
    if ByteAt(src, q) == 0 {
      var rest := Unstuff(src, q + 1).data;
      assert seg.data[n..] == [0xFF] + rest;
      assert seg.data[n + 1..] == seg.data[n..][1..] == rest;
    }
  }

  /** The reader of the arithmetic decoder, whose source must always deliver. */
  class Reader {
    const src: seq<byte>
    var pos: nat
    var unread: nat
    /** The segment being read, and the number of its bytes read so far, padding included. */
    ghost var seg: Segment
    ghost var n: nat

    ghost predicate Valid()
      reads this
    {
      InStep(src, pos, unread, n, seg)
    }

    constructor (src: seq<byte>)
      ensures Valid() && this.src == src && pos == 0 && unread == 0 && n == 0 && seg == Unstuff(src, 0)
    {
      this.src := src;
      pos, unread, seg, n := 0, 0, Unstuff(src, 0), 0;
      new;
      StartInStep(src, 0);
    }

    method GetByte() returns (b: byte)
      modifies this`pos
      ensures b == ByteAt(src, old(pos)) && pos == old(pos) + 1
    {
      b := ByteAt(src, pos);
      pos := pos + 1;
    }

    /** Swallow FF bytes; return the first other one. */
    method GetPastFF() returns (b: byte)
      modifies this`pos
      ensures pos == SkipFF(src, old(pos)) + 1 && b == ByteAt(src, pos - 1)
    {
      ghost var q := SkipFF(src, pos);
      b := GetByte();
      while b == 0xFF
        invariant old(pos) < pos <= q + 1 && b == ByteAt(src, pos - 1)
        invariant b != 0xFF ==> pos == q + 1
        decreases q + 1 - pos
      {
        b := GetByte();
      }
    }

    /** The next data byte of the segment, or zero once its marker has been reached. */
    method NextByte() returns (b: byte)
      requires Valid()
      modifies this`pos, this`unread, this`n
      ensures Valid()
      ensures b == DataByte(seg.data, old(n)) && n == old(n) + 1
    {
      if unread != 0 {
        b := 0;
      } else {
        b := GetByte();
        if b == 0xFF {
          StepEscaped(src, old(pos), n, seg);
          b := GetPastFF();
          if b == 0 {
            b := 0xFF;
          } else {
            unread := b;
            b := 0;
          }
        } else {
          StepPlain(src, old(pos), n, seg);
        }
      }
      n := n + 1;
    }

    /** next_marker: skip to the marker that ends the segment. */
    method NextMarker()
      requires Valid() && unread == 0
      modifies this`pos, this`unread, this`n
      ensures Valid() && unread == seg.marker && pos == seg.end
    {
      while true
        invariant Valid() && unread == 0
        decreases Left(src, pos)
      {
        ghost var from := pos;
        var c := GetByte();
        if c != 0xFF {
          StepPlain(src, from, n, seg);
          n := n + 1;
        } else {
          StepEscaped(src, from, n, seg);
          c := GetPastFF();
          if c != 0 {
            unread := c;
            return;
          }
          n := n + 1;
        }
      }
    }

    /** read_restart_marker: if the segment ends with the expected marker, go on to the next segment. */
    method ReadRestartMarker(num: nat) returns (ok: bool)
      requires Valid() && num < 8
      modifies this
      ensures Valid() && ok == (old(seg).marker == 0xD0 + num)
      ensures ok ==> unread == 0 && n == 0 && seg == Unstuff(src, old(seg).end)
      ensures !ok ==> seg == old(seg)
    {
      if unread == 0 {
        NextMarker();
      }
      ok := unread == 0xD0 + num;
      if ok {
        unread := 0;
        seg, n := Unstuff(src, pos), 0;
        StartInStep(src, pos);
      }
    }
  }
  /** A data byte, the marker that ends the segment, or nothing because the source has not delivered enough. */
  datatype Got = Byte(b: byte) | Marker | Paused

  datatype Restarted = Synced | Unexpected | Waiting

  /**
    The reader of the Huffman decoder. Its source may pause: of the bytes of `src` only the first `avail` have been
    delivered. Nothing is changed by a call that finds too little, apart from skipped bytes in front of a marker.
  */
  class PausingReader {
    const src: seq<byte>
    var avail: nat
    var pos: nat
    var unread: nat
    /** The segment being read, and the number of its bytes read so far. */
    ghost var seg: Segment
    ghost var n: nat

    ghost predicate Valid()
      reads this
    {
      InStep(src, pos, unread, n, seg) && n <= |seg.data|
    }

    constructor (src: seq<byte>)
      ensures Valid() && this.src == src && pos == 0 && unread == 0 && n == 0 && seg == Unstuff(src, 0) && avail == 0
    {
      this.src := src;
      pos, unread, avail, seg, n := 0, 0, 0, Unstuff(src, 0), 0;
      new;
      StartInStep(src, 0);
    }

    /** The source delivers more. */
    method Deliver(k: nat)
      modifies this`avail
      ensures avail == old(avail) + k
    {
      avail := avail + k;
    }

    /** Swallow FF bytes from p on; the first other one, if it has been delivered. */
    method PastFF(p: nat) returns (ok: bool, q: nat)
      ensures ok ==> q == SkipFF(src, p) && q < avail
      ensures !ok ==> avail <= SkipFF(src, p)
    {
      q, ok := p, false;
      ghost var end := SkipFF(src, p);
      while q < avail
        invariant p <= q <= end
        decreases end + 1 - q
      {
        if ByteAt(src, q) != 0xFF {
          assert q == end;
          return true, q;
        }
        assert q < end;
        q := q + 1;
      }
    }

    /** The next data byte of the segment, or the marker behind the last one. */
    method TryByte() returns (got: Got)
      requires Valid() && unread == 0
      modifies this`pos, this`unread, this`n
      ensures Valid()
      ensures match got
              case Byte(b) => unread == 0 && old(n) < |seg.data| && b == seg.data[old(n)] && n == old(n) + 1
              case Marker => unread != 0 && n == old(n) == |seg.data|
              case Paused => unread == 0 && pos == old(pos) && n == old(n) && avail < seg.end
    {
      BeforeEnd(src, pos, n, seg);
      if pos >= avail {
        return Paused;
      }
      var b := ByteAt(src, pos);
      if b != 0xFF {
        StepPlain(src, pos, n, seg);
        pos, n := pos + 1, n + 1;
        return Byte(b);
      }
      StepEscaped(src, pos, n, seg);
      var ok, q := PastFF(pos + 1);
      if !ok {
        return Paused;
      }
      b := ByteAt(src, q);
      pos := q + 1;
      if b == 0 {
        n := n + 1;
        return Byte(0xFF);
      }
      unread := b;
      got := Marker;
    }

    /** next_marker: skip to the marker that ends the segment. */
    method NextMarker() returns (ok: bool)
      requires Valid() && unread == 0
      modifies this`pos, this`unread, this`n
      ensures Valid() && (if ok then unread == seg.marker && pos == seg.end else unread == 0 && avail < seg.end)
    {
      var got := TryByte();
      while got.Byte?
        invariant Valid()
        invariant match got case Byte(_) => unread == 0 case Marker => unread != 0 case Paused => unread == 0 && avail < seg.end
        decreases |seg.data| - n, got.Byte?
      {
        got := TryByte();
      }
      ok := got.Marker?;
    }

    /** read_restart_marker: if the segment ends with the expected marker, go on to the next segment. */
    method ReadRestartMarker(num: nat) returns (r: Restarted)
      requires Valid() && num < 8
      modifies this`pos, this`unread, this`n, this`seg
      ensures Valid()
      ensures match r
              case Synced => old(seg).marker == 0xD0 + num && unread == 0 && n == 0 && seg == Unstuff(src, old(seg).end)
              case Unexpected => old(seg).marker != 0xD0 + num && seg == old(seg)
              case Waiting => old(unread) == unread == 0 && seg == old(seg) && avail < seg.end
    {
      if unread == 0 {
        var ok := NextMarker();
        if !ok {
          return Waiting;
        }
      }
      if unread == 0xD0 + num {
        unread := 0;
        seg, n := Unstuff(src, pos), 0;
        StartInStep(src, pos);
        r := Synced;
      } else {
        r := Unexpected;
      }
    }
  }

  /** Before the marker has been reached, everything that is read next belongs to the segment. */
  lemma {:induction false} BeforeEnd(src: seq<byte>, pos: nat, n: nat, seg: Segment)
    requires InStep(src, pos, 0, n, seg)
    ensures pos < seg.end && (ByteAt(src, pos) == 0xFF ==> SkipFF(src, pos + 1) < seg.end)
  {
    EndBehind(src, pos);
  }

  lemma {:induction false} EndBehind(src: seq<byte>, pos: nat)
    ensures pos < Unstuff(src, pos).end && (ByteAt(src, pos) == 0xFF ==> SkipFF(src, pos + 1) < Unstuff(src, pos).end)
    decreases Left(src, pos)
  {
    if ByteAt(src, pos) != 0xFF {
      EndBehind(src, pos + 1);
    } else {
      var q := SkipFF(src, pos + 1);
      if ByteAt(src, q) == 0 {
        EndBehind(src, q + 1);
      }
    }
  }
}
