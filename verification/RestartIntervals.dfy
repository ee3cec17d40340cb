/**
  Restart intervals: which of them an MCU belongs to, and the segments of a data stream that hold them. Shared by the
  coders; T stands for what they code at a time.
*/
module RestartIntervals {
  import opened Numbers
  import opened ByteStuffing
  import opened Opening

  /** A finished interval and the code string written for it. */
  datatype Piece<T> = Piece(mcus: seq<T>, code: seq<byte>)

  // ---- Which interval an MCU belongs to ----

  /** Interval, and place in the interval, of MCU i. */
  datatype Place = Place(r: nat, j: nat)

  function PlaceOf(interval: nat, i: nat): (p: Place)
    ensures interval > 0 ==> p.j < interval
    ensures p.j <= i
  {
    if i == 0 then Place(0, 0)
    else
      var p := PlaceOf(interval, i - 1);
      if p.j + 1 == interval then Place(p.r + 1, 0) else Place(p.r, p.j + 1)
  }

  lemma {:induction false} PlaceMeans(interval: nat, i: nat)
    ensures if interval == 0 then PlaceOf(interval, i) == Place(0, i)
            else PlaceOf(interval, i).r * interval + PlaceOf(interval, i).j == i && PlaceOf(interval, i).j < interval
  {
    if i > 0 {
      PlaceMeans(interval, i - 1);
    }
  }

  lemma {:induction false} PlaceBefore(interval: nat, i: nat, k: nat)
    requires k <= PlaceOf(interval, i).j
    ensures PlaceOf(interval, i - k) == Place(PlaceOf(interval, i).r, PlaceOf(interval, i).j - k)
  {
    if k > 0 {
      PlaceBefore(interval, i - 1, k - 1);
    }
  }

  /** MCU i is in its place in the pieces. */
  ghost predicate InPlace<T>(interval: nat, mcus: seq<T>, pieces: seq<Piece<T>>, i: nat)
    requires i < |mcus|
  {
    var p := PlaceOf(interval, i);
    p.r < |pieces| && p.j < |pieces[p.r].mcus| && pieces[p.r].mcus[p.j] == mcus[i]
  }

  ghost predicate AllInPlace<T>(interval: nat, mcus: seq<T>, pieces: seq<Piece<T>>, n: nat)
    requires n <= |mcus|
  {
    forall i :: 0 <= i < n ==> InPlace(interval, mcus, pieces, i)
  }

  /** The place that the next MCU takes, given the finished pieces and the piece being filled. */
  predicate NextPlace(interval: nat, pieces: nat, filled: nat, i: nat)
  {
    PlaceOf(interval, i) == if interval > 0 && filled == interval then Place(pieces + 1, 0) else Place(pieces, filled)
  }

  lemma {:induction false} FillPlace<T>(interval: nat, mcus: seq<T>, pieces: seq<Piece<T>>, current: seq<T>, pieces': seq<Piece<T>>, current': seq<T>, i: nat)
    requires i < |mcus| && AllInPlace(interval, mcus, pieces + [Piece(current, [])], i)
    requires NextPlace(interval, |pieces|, |current|, i)
    requires if interval > 0 && |current| == interval
             then |pieces'| > 0 && pieces'[..|pieces'| - 1] == pieces && pieces'[|pieces'| - 1].mcus == current && current' == [mcus[i]]
             else pieces' == pieces && current' == current + [mcus[i]]
    ensures AllInPlace(interval, mcus, pieces' + [Piece(current', [])], i + 1)
    ensures NextPlace(interval, |pieces'|, |current'|, i + 1)
  {
    var was, now := pieces + [Piece(current, [])], pieces' + [Piece(current', [])];
    forall k | 0 <= k < i + 1
      ensures InPlace(interval, mcus, now, k)
    {
      if k < i {
        assert InPlace(interval, mcus, was, k);
        var p := PlaceOf(interval, k);
        if p.r < |pieces| {
          assert now[p.r] == was[p.r];
        }
      }
    }
  }

  lemma {:induction false} SamePlaces<T>(interval: nat, mcus: seq<T>, pieces: seq<Piece<T>>, current: seq<T>, code: seq<byte>)
    requires AllInPlace(interval, mcus, pieces + [Piece(current, [])], |mcus|)
    ensures AllInPlace(interval, mcus, pieces + [Piece(current, code)], |mcus|)
  {
    forall i | 0 <= i < |mcus|
      ensures InPlace(interval, mcus, pieces + [Piece(current, code)], i)
    {
      assert InPlace(interval, mcus, pieces + [Piece(current, [])], i);
    }
  }

  /** Places within an interval follow that of its first MCU. */
  lemma {:induction false} PlaceFrom(interval: nat, i: nat, d: nat)
    requires PlaceOf(interval, i).j == 0 && (interval > 0 ==> d < interval)
    ensures PlaceOf(interval, i + d) == Place(PlaceOf(interval, i).r, d)
  {
    if d > 0 {
      PlaceFrom(interval, i, d - 1);
    }
  }

  /** Closing an interval leaves MCUs in their places. */
  lemma {:induction false} ClosePlace<T>(interval: nat, mcus: seq<T>, pieces: seq<Piece<T>>, current: seq<T>, code: seq<byte>, n: nat)
    requires n <= |mcus| && AllInPlace(interval, mcus, pieces + [Piece(current, [])], n)
    ensures AllInPlace(interval, mcus, pieces + [Piece(current, code)] + [Piece([], [])], n)
  {
    forall i | 0 <= i < n
      ensures InPlace(interval, mcus, pieces + [Piece(current, code)] + [Piece([], [])], i)
    {
      assert InPlace(interval, mcus, pieces + [Piece(current, [])], i);
    }
  }

  /** The MCUs of the same interval before MCU i. */
  function Preceding<T>(interval: nat, mcus: seq<T>, i: nat): (r: seq<T>)
    requires i <= |mcus|
  {
    mcus[i - PlaceOf(interval, i).j..i]
  }

  /** The MCUs of the interval in progress, if i MCUs of the scan have been handed in. */
  ghost predicate InProgress<T>(interval: nat, mcus: seq<T>, current: seq<T>, i: nat)
    requires i <= |mcus|
  {
    |current| <= i && current == mcus[i - |current|..i]
  }

  lemma {:induction false} Followed<T>(interval: nat, mcus: seq<T>, pieces: nat, current: seq<T>, i: nat)
    requires i < |mcus| && InProgress(interval, mcus, current, i) && NextPlace(interval, pieces, |current|, i)
    ensures Preceding(interval, mcus, i) == if interval > 0 && |current| == interval then [] else current
    ensures InProgress(interval, mcus, Preceding(interval, mcus, i) + [mcus[i]], i + 1)
  {
  }

  // ---- Segments ----

  /** A segment and its marker have been written. */
  ghost predicate SegmentAdded(before: seq<byte>, code: seq<byte>, m: byte, after: seq<byte>)
  {
    forall x {:trigger Look(Growth, x)} :: Look(Growth, x) ==> after == before + Stuff(code) + [0xFF, m]
  }

  /** Finished segments, each followed by its restart marker. */
  function Segments<T>(pieces: seq<Piece<T>>): (out: seq<byte>)
  {
    if pieces == [] then []
    else
      var n := |pieces| - 1;
      Segments(pieces[..n]) + Stuff(pieces[n].code) + [0xFF, 0xD0 + n % 8]
  }

  predicate Full<T>(interval: nat, piece: Piece<T>) { |piece.mcus| == interval }

  /** Restarts come after every `interval` MCUs, or never if that is 0. */
  ghost predicate Regular<T>(interval: nat, pieces: seq<Piece<T>>)
  {
    if interval == 0 then pieces == [] else forall p {:trigger Full(interval, p)} :: p in pieces ==> Full(interval, p)
  }

  // ---- Reading segments back ----

  /** Segment i of a source: the data between its restart markers. */
  function SegmentAt(src: seq<byte>, i: nat): (r: Segment)
  {
    Unstuff(src, if i == 0 then 0 else SegmentAt(src, i - 1).end)
  }

  /** The restart markers up to segment r are the expected ones. */
  predicate InSync(src: seq<byte>, r: nat)
  {
    forall q :: 0 <= q < r ==> SegmentAt(src, q).marker == 0xD0 + q % 8
  }

  lemma {:induction false} Parts(src: seq<byte>, head: seq<byte>, body: seq<byte>, tail: seq<byte>)
    requires |head + body + tail| <= |src| && src[..|head + body + tail|] == head + body + tail
    ensures src[..|head|] == head
    ensures src[|head|..|head| + |body|] == body
    ensures forall i :: 0 <= i < |tail| ==> src[|head| + |body| + i] == tail[i]
  {
    var all := head + body + tail;
    assert forall i :: 0 <= i < |all| ==> src[i] == src[..|all|][i] == all[i];
  }

  lemma {:induction false} SegmentRead(src: seq<byte>, head: seq<byte>, code: seq<byte>, m: byte)
    requires var all := head + Stuff(code) + [0xFF, m]; |all| <= |src| && src[..|all|] == all
    requires m !in {0, 0xFF}
    ensures |head| <= |src| && src[..|head|] == head
    ensures Unstuff(src, |head|) == Segment(code, m, |head + Stuff(code) + [0xFF, m]|)
  {
    var tail, q := [0xFF, m], |head| + |Stuff(code)|;
    Parts(src, head, Stuff(code), tail);
    assert src[q + 0] == tail[0] && src[q + 1] == tail[1];
    UnstuffStuff(src, |head|, code, 1);
  }

  /** A source that starts with finished segments gives their code strings and restart markers back. */
  lemma {:induction false} SegmentsRead<T>(src: seq<byte>, pieces: seq<Piece<T>>, i: nat)
    requires |Segments(pieces)| <= |src| && src[..|Segments(pieces)|] == Segments(pieces) && i < |pieces|
    ensures SegmentAt(src, i).data == pieces[i].code && SegmentAt(src, i).marker == 0xD0 + i % 8
    ensures i == |pieces| - 1 ==> SegmentAt(src, i).end == |Segments(pieces)|
    decreases |pieces|
  {
    var n := |pieces| - 1;
    SegmentRead(src, Segments(pieces[..n]), pieces[n].code, 0xD0 + n % 8);
    if i < n {
      SegmentsRead(src, pieces[..n], i);
    } else if n > 0 {
      SegmentsRead(src, pieces[..n], n - 1);
    }
  }

  /** A scan in a data stream: its segments, and then any number of fill bytes and any marker. */
  ghost predicate Holding<T>(src: seq<byte>, pieces: seq<Piece<T>>, fill: nat)
    requires |pieces| > 0
  {
    var n := |pieces| - 1;
    var out := Segments(pieces[..n]) + Stuff(pieces[n].code);
    && fill >= 1 && |out| + fill < |src| && src[..|out|] == out
    && (forall i :: |out| <= i < |out| + fill ==> src[i] == 0xFF) && src[|out| + fill] !in {0, 0xFF}
  }

  /** The segment behind all finished ones. */
  lemma {:induction false} LastRead<T>(src: seq<byte>, front: seq<Piece<T>>, code: seq<byte>, fill: nat)
    requires var out := Segments(front) + Stuff(code);
             && fill >= 1 && |out| + fill < |src| && src[..|out|] == out
             && (forall i :: |out| <= i < |out| + fill ==> src[i] == 0xFF) && src[|out| + fill] !in {0, 0xFF}
    ensures SegmentAt(src, |front|).data == code
  {
    var head := Segments(front);
    assert head + Stuff(code) + [] == head + Stuff(code);
    Parts(src, head, Stuff(code), []);
    if |front| > 0 {
      SegmentsRead(src, front, |front| - 1);
    }
    UnstuffStuff(src, |head|, code, fill);
  }

  lemma {:induction false} ScanRead<T>(src: seq<byte>, pieces: seq<Piece<T>>, fill: nat, i: nat)
    requires |pieces| > 0 && Holding(src, pieces, fill) && i < |pieces|
    ensures SegmentAt(src, i).data == pieces[i].code && (i < |pieces| - 1 ==> SegmentAt(src, i).marker == 0xD0 + i % 8)
  {
    var n := |pieces| - 1;
    var head, code := Segments(pieces[..n]), pieces[n].code;
    if i < n {
      assert head + Stuff(code) + [] == head + Stuff(code);
      Parts(src, head, Stuff(code), []);
      SegmentsRead(src, pieces[..n], i);
    } else {
      LastRead(src, pieces[..n], code, fill);
    }
  }

  lemma {:induction false} StaysInSync<T>(src: seq<byte>, pieces: seq<Piece<T>>, fill: nat, r: nat)
    requires |pieces| > 0 && Holding(src, pieces, fill) && r < |pieces|
    ensures InSync(src, r)
  {
    forall q | 0 <= q < r
      ensures SegmentAt(src, q).marker == 0xD0 + q % 8
    {
      ScanRead(src, pieces, fill, q);
    }
  }

  lemma {:induction false} PieceFront<T>(interval: nat, mcus: seq<T>, pieces: seq<Piece<T>>, i: nat)
    requires AllInPlace(interval, mcus, pieces, |mcus|) && i < |mcus|
    ensures var p := PlaceOf(interval, i);
            p.r < |pieces| && p.j < |pieces[p.r].mcus| && pieces[p.r].mcus[..p.j + 1] == mcus[i - p.j..i + 1]
  {
    assert InPlace(interval, mcus, pieces, i);
    var p := PlaceOf(interval, i);
    forall k | 0 <= k < p.j + 1
      ensures pieces[p.r].mcus[k] == mcus[i - p.j + k]
    {
      assert InPlace(interval, mcus, pieces, i - (p.j - k));
      PlaceBefore(interval, i, p.j - k);
    }
  }
}
