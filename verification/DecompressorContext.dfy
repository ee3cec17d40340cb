/**
  Context rows for upsampling: the two lists of row pointers of jdmainct.c. A workspace row is represented by the
  number of the sample row that it holds. A row group has q rows, an iMCU row has w = q * M rows.
*/
module DecompressorContext {
  import opened CompressorContext
  import opened Opening

  /** What an upsampler should see for the row group that starts at row a: the group, one row above and one below. */
  function Wanted(a: int, q: int, height: int): (rows: seq<int>)
    requires height > 0 && q > 0
    ensures |rows| == q + 2
  {
    seq(q + 2, o => Clamp(a - 1 + o, height))
  }

  // ---- Pointer lists: index i is stored at i + q ----

  /** The workspace row that list `which` shows at index i in its normal part. */
  function Place(which: int, q: int, w: int, i: int): (p: int)
  {
    if which == 0 || i < w - 2 * q then i else if i < w then i + 2 * q else i - 2 * q
  }

  predicate Sizes(q: int, w: int) { q > 0 && w >= 2 * q }

  /** The middle part of a list. */
  predicate Middle(xb: seq<int>, which: int, q: int, w: int)
  {
    Sizes(q, w) && |xb| == w + 4 * q && forall i :: 0 <= i < w + 2 * q ==> xb[i + q] == Place(which, q, w, i)
  }

  /** Wraparound pointers at both ends. */
  predicate Wrapped(xb: seq<int>, which: int, q: int, w: int)
    requires Middle(xb, which, q, w)
  {
    && (forall i :: 0 <= i < q ==> xb[i] == Place(which, q, w, w + q + i))
    && (forall i :: 0 <= i < q ==> xb[w + 3 * q + i] == Place(which, q, w, i))
  }

  /** At the top of the image the rows above are copies of the first one. */
  predicate Topped(xb: seq<int>, q: int, w: int)
    requires Middle(xb, 0, q, w)
  {
    forall i :: 0 <= i < q ==> xb[i] == 0
  }

  // ---- Contents of the workspace ----

  /** The iMCU row that starts at sample row `start` has been read through list `which`. */
  predicate Loaded(rows: seq<int>, which: int, q: int, w: int, start: int)
  {
    Sizes(q, w) && |rows| == w + 2 * q && forall i :: 0 <= i < w ==> rows[Place(which, q, w, i)] == start + i
  }

  /** The last two row groups of the iMCU row before are still there. */
  predicate Kept(rows: seq<int>, which: int, q: int, w: int, start: int)
  {
    Sizes(q, w) && |rows| == w + 2 * q && forall i :: w <= i < w + 2 * q ==> rows[Place(which, q, w, i)] == start - w - 2 * q + i
  }

  /** Rows of the workspace that reading through list `which` does not overwrite. */
  predicate Untouched(rows: seq<int>, rows': seq<int>, which: int, q: int, w: int)
  {
    |rows'| == |rows| == w + 2 * q && forall i :: w <= i < w + 2 * q && Sizes(q, w) ==> rows'[Place(which, q, w, i)] == rows[Place(which, q, w, i)]
  }

  /** Reading the next iMCU row through the other list leaves the last two row groups alone, and that list shows them. */
  lemma {:induction false} NextKept(rows: seq<int>, rows': seq<int>, which: int, q: int, w: int, start: int)
    requires (which == 0 || which == 1) && Loaded(rows, 1 - which, q, w, start) && Untouched(rows, rows', which, q, w)
    ensures Kept(rows', which, q, w, start + w)
  {
    forall i | w <= i < w + 2 * q ensures rows'[Place(which, q, w, i)] == start - 2 * q + i {
      assert Place(which, q, w, i) == Place(1 - which, q, w, i - 2 * q);
    }
  }

  /** The sample row behind a pointer; -1 behind pointers that have not been set. */
  function Behind(rows: seq<int>, xb: seq<int>, i: int): (row: int)
  {
    if 0 <= i < |xb| && 0 <= xb[i] < |rows| then rows[xb[i]] else -1
  }

  /** The rows that a postprocessor sees around local row p of a list. */
  function Shown(rows: seq<int>, xb: seq<int>, q: int, p: int): (v: seq<int>)
    requires q > 0
    ensures |v| == q + 2
  {
    seq(q + 2, o => Behind(rows, xb, p + q - 1 + o))
  }

  /** What the list shows above the iMCU row. */
  predicate Above(rows: seq<int>, xb: seq<int>, which: int, q: int, w: int, start: int)
  {
    Middle(xb, which, q, w) && |rows| == w + 2 * q
    && if start == 0 then which == 0 && Topped(xb, q, w) else Kept(rows, which, q, w, start) && Wrapped(xb, which, q, w)
  }

  lemma {:induction false} RowAbove(rows: seq<int>, xb: seq<int>, which: int, q: int, w: int, start: int, height: int)
    requires height > 0 && 0 <= start <= height && Loaded(rows, which, q, w, start) && Above(rows, xb, which, q, w, start)
    ensures Behind(rows, xb, q - 1) == Clamp(start - 1, height)
  {
    if start == 0 {
      assert rows[Place(which, q, w, 0)] == 0;
      assert xb[q - 1] == 0;
    } else {
      assert xb[q - 1] == Place(which, q, w, w + 2 * q - 1);
      assert rows[Place(which, q, w, w + 2 * q - 1)] == start - 1;
    }
  }

  /** A row group that is not the last of its iMCU row. */
  lemma {:induction false} MiddleView(rows: seq<int>, xb: seq<int>, which: int, q: int, w: int, start: int, height: int, p: int)
    requires 0 <= start && start + w <= height && height > 0 && Loaded(rows, which, q, w, start) && Above(rows, xb, which, q, w, start)
    requires 0 <= p <= w - 2 * q
    ensures Shown(rows, xb, q, p) == Wanted(start + p, q, height)
  {
    RowAbove(rows, xb, which, q, w, start, height);
    var view, wanted := Shown(rows, xb, q, p), Wanted(start + p, q, height);
    forall o | 0 <= o < q + 2 ensures view[o] == wanted[o] {
      var i := p - 1 + o;
      assert view[o] == Behind(rows, xb, i + q) && wanted[o] == Clamp(start + i, height);
      if i >= 0 {
        assert xb[i + q] == Place(which, q, w, i) && rows[Place(which, q, w, i)] == start + i;
      }
    }
  }

  /** The last row group of the iMCU row before, once the next one has been read. */
  lemma {:induction false} PostponedView(rows: seq<int>, xb: seq<int>, which: int, q: int, w: int, start: int, height: int)
    requires w <= start < height && Loaded(rows, which, q, w, start) && Kept(rows, which, q, w, start)
    requires Middle(xb, which, q, w) && Wrapped(xb, which, q, w)
    ensures Shown(rows, xb, q, w + q) == Wanted(start - q, q, height)
  {
    var view, wanted := Shown(rows, xb, q, w + q), Wanted(start - q, q, height);
    forall o | 0 <= o < q + 2 ensures view[o] == wanted[o] {
      var i := w + q - 1 + o;
      assert view[o] == Behind(rows, xb, i + q) && wanted[o] == Clamp(start - w - 2 * q + i, height);
      if i < w + 2 * q {
        assert xb[i + q] == Place(which, q, w, i) && rows[Place(which, q, w, i)] == start - w - 2 * q + i;
      } else {
        assert xb[w + 3 * q + 0] == Place(which, q, w, 0) && rows[Place(which, q, w, 0)] == start + 0;
      }
    }
  }

  /** The list after set_bottom_pointers: two row groups of pointers to the last real row. */
  predicate Bottomed(xb: seq<int>, xb': seq<int>, q: int, left: int)
    requires q > 0 && 1 <= left && left + 3 * q <= |xb| && |xb'| == |xb|
  {
    forall i :: 0 <= i < |xb| ==> xb'[i] == if left <= i - q < left + 2 * q then xb[left - 1 + q] else xb[i]
  }

  /** A row group of the last iMCU row, of which `left` rows are real. */
  lemma {:induction false} BottomView(rows: seq<int>, xb: seq<int>, xb': seq<int>, which: int, q: int, w: int, start: int, left: int, p: int)
    requires 0 <= start && 1 <= left <= w && Loaded(rows, which, q, w, start) && Above(rows, xb, which, q, w, start)
    requires |xb'| == |xb| && Bottomed(xb, xb', q, left) && 0 <= p < left
    ensures Shown(rows, xb', q, p) == Wanted(start + p, q, start + left)
  {
    RowAbove(rows, xb, which, q, w, start, start + left);
    var view, wanted := Shown(rows, xb', q, p), Wanted(start + p, q, start + left);
    assert xb[left - 1 + q] == Place(which, q, w, left - 1) && rows[Place(which, q, w, left - 1)] == start + left - 1;
    forall o | 0 <= o < q + 2 ensures view[o] == wanted[o] {
      var i := p - 1 + o;
      assert view[o] == Behind(rows, xb', i + q) && wanted[o] == Clamp(start + i, start + left);
      if 0 <= i < left {
        assert xb'[i + q] == xb[i + q] == Place(which, q, w, i) && rows[Place(which, q, w, i)] == start + i;
      } else if i < 0 {
        assert xb'[q - 1] == xb[q - 1];
      } else {
        assert xb'[i + q] == xb[left - 1 + q];
      }
    }
  }

  // ---- Filling in the lists ----

  /** make_funny_pointers. */
  method MakeFunnyPointers(q: int, w: int) returns (xb0: seq<int>, xb1: seq<int>)
    requires Sizes(q, w)
    ensures Middle(xb0, 0, q, w) && Middle(xb1, 1, q, w) && Topped(xb0, q, w)
  {
    xb0, xb1 := seq(w + 4 * q, _ => -1), seq(w + 4 * q, _ => -1);
    var i := 0;
    while i < w + 2 * q
      invariant 0 <= i <= w + 2 * q && |xb0| == |xb1| == w + 4 * q
      invariant forall j :: q <= j < q + i ==> xb0[j] == xb1[j] == j - q
    {
      xb0, xb1 := xb0[i + q := i], xb1[i + q := i];
      i := i + 1;
    }
    i := 0;
    while i < 2 * q
      invariant 0 <= i <= 2 * q && |xb1| == w + 4 * q
      invariant forall j :: q <= j < w + 3 * q ==>
                  xb1[j] == if w - q <= j < w - q + i then j + q else if w + q <= j < w + q + i then j - 3 * q else j - q
    {
      xb1 := xb1[w - 2 * q + i + q := w + i];
      xb1 := xb1[w + i + q := w - 2 * q + i];
      i := i + 1;
    }
    i := 0;
    while i < q
      invariant 0 <= i <= q && |xb0| == w + 4 * q && (forall j :: 0 <= j < i ==> xb0[j] == 0)
      invariant forall j :: q <= j < w + 3 * q ==> xb0[j] == j - q
    {
      xb0 := xb0[i := xb0[q]];
      i := i + 1;
    }
  }

  /** set_wraparound_pointers, for one list. */
  method SetWraparound(xb: seq<int>, ghost which: int, q: int, w: int) returns (xb': seq<int>)
    requires Sizes(q, w) && |xb| == w + 4 * q
    ensures |xb'| == |xb| && (Middle(xb, which, q, w) ==> Middle(xb', which, q, w) && Wrapped(xb', which, q, w))
  {
    xb' := xb;
    var i := 0;
    while i < q
      invariant 0 <= i <= q && |xb'| == |xb| && (forall j :: q <= j < w + 3 * q ==> xb'[j] == xb[j])
      invariant forall j :: 0 <= j < i ==> xb'[j] == xb[w + 2 * q + j]
      invariant forall j :: w + 3 * q <= j < w + 3 * q + i ==> xb'[j] == xb[j - w - 2 * q]
    {
      xb' := xb'[i := xb'[w + q + i + q]][w + 2 * q + i + q := xb'[i + q]];
      i := i + 1;
    }
    if Middle(xb, which, q, w) {
      WraparoundRight(xb, xb', which, q, w);
    }
  }

  lemma {:induction false} WraparoundRight(xb: seq<int>, xb': seq<int>, which: int, q: int, w: int)
    requires Middle(xb, which, q, w) && |xb'| == |xb| && (forall j :: q <= j < w + 3 * q ==> xb'[j] == xb[j])
    requires forall j :: 0 <= j < q ==> xb'[j] == xb[w + 2 * q + j]
    requires forall j :: w + 3 * q <= j < w + 4 * q ==> xb'[j] == xb[j - w - 2 * q]
    ensures Middle(xb', which, q, w) && Wrapped(xb', which, q, w)
  {
    forall i | 0 <= i < q ensures xb'[i] == Place(which, q, w, w + q + i) && xb'[w + 3 * q + i] == Place(which, q, w, i) {
      assert xb[(w + q + i) + q] == Place(which, q, w, w + q + i) && xb[i + q] == Place(which, q, w, i);
      assert xb'[w + 3 * q + i] == xb[w + 3 * q + i - w - 2 * q];
    }
  }

  /** set_bottom_pointers, for one list. */
  method SetBottom(xb: seq<int>, q: int, left: int) returns (xb': seq<int>)
    requires q > 0 && 1 <= left && left + 3 * q <= |xb|
    ensures |xb'| == |xb| && Bottomed(xb, xb', q, left)
  {
    xb' := xb;
    var i := 0;
    while i < 2 * q
      invariant 0 <= i <= 2 * q && |xb'| == |xb|
      invariant forall j :: 0 <= j < |xb| ==> xb'[j] == if left <= j - q < left + i then xb[left - 1 + q] else xb[j]
    {
      xb' := xb'[left + i + q := xb'[left - 1 + q]];
      i := i + 1;
    }
  }

  /** decompress_data: an iMCU row is read through a list. */
  method ReadThrough(rows0: seq<int>, xb: seq<int>, which: int, q: int, w: int, start: int) returns (rows: seq<int>)
    requires Middle(xb, which, q, w) && |rows0| == w + 2 * q
    ensures Loaded(rows, which, q, w, start) && Untouched(rows0, rows, which, q, w)
  {
    rows := rows0;
    var i := 0;
    while i < w
      invariant 0 <= i <= w && Untouched(rows0, rows, which, q, w)
      invariant forall j :: 0 <= j < i ==> rows[Place(which, q, w, j)] == start + j
    {
      assert xb[i + q] == Place(which, q, w, i);
      rows := rows[xb[i + q] := start + i];
      i := i + 1;
    }
  }

  // ---- Arithmetic of row groups ----

  lemma {:induction false} Groups(a: int, b: int, q: int)
    requires a <= b && q > 0
    ensures a * q <= b * q && (a + 1) * q == a * q + q && (a < b ==> a * q + q <= b * q)
    decreases b - a
  {
    NextGroup(a, q);
    if a < b {
      Groups(a + 1, b, q);
    }
  }

  lemma {:induction false} NextGroup(a: int, q: int)
    ensures (a + 1) * q == a * q + q
  {
  }

  /** Sample rows of the last iMCU row: the remainder of the height, or a full iMCU row. */
  lemma {:induction false} RowsLeft(height: int, w: int, k: int, left: int)
    requires w > 0 && height == k * w + left && 1 <= left <= w
    ensures (if height % w == 0 then w else height % w) == left
  {
    var d, r := height / w, height % w;
    assert height == d * w + r;
    if d > k {
      Groups(k + 1, d, w);
    } else if d < k {
      Groups(d + 1, k, w);
    }
    Groups(k, k + 1, w);
  }

  lemma {:induction false} GroupsLeft(left: int, q: int, avail: int)
    requires q > 0 && left >= 1 && avail == (left - 1) / q + 1
    ensures avail >= 1 && avail * q - q < left <= avail * q
  {
    var d := (left - 1) / q;
    assert left - 1 == d * q + (left - 1) % q;
    assert avail * q == d * q + q;
    Groups(0, d, q);
  }

  // ---- The controller ----

  datatype ContextState = PrepareForImcu | ProcessImcu | PostponedRow

  class MainController {
    /** Rows of a row group, row groups of an iMCU row, rows of an iMCU row, of the image, and number of iMCU rows. */
    const q: int
    const m: int
    const w: int
    const height: int
    const total: int
    var xb0: seq<int>
    var xb1: seq<int>
    var rows: seq<int>
    var whichptr: int
    var contextState: ContextState
    var rowgroupCtr: int
    var rowgroupsAvail: int
    var imcuRowCtr: int
    var bufferFull: bool
    /** What the postprocessor has seen, row group by row group. */
    var log: seq<seq<int>>
    /** First row of the iMCU row read last, and its pointer list before the bottom pointers were set. */
    ghost var start: int
    ghost var list: seq<int>

    ghost predicate Geometry()
    {
      && q > 0 && m >= 2 && w == m * q && height > 0 && total >= 1 && (total - 1) * w < height <= total * w
    }

    function Xb(which: int): (xb: seq<int>)
      reads this
    {
      if which == 0 then xb0 else xb1
    }

    /** Row groups are seen in order, each with its context, and the next one starts at row `next`. */
    ghost predicate Seen(next: int)
      requires Geometry()
      reads this
    {
      |log| * q == next && forall k :: 0 <= k < |log| ==> log[k] == Wanted(k * q, q, height)
    }

    ghost predicate Counted()
      reads this
    {
      && Geometry() && (whichptr == 0 || whichptr == 1) && 0 <= imcuRowCtr <= total && |xb0| == |xb1| == w + 4 * q
      && (imcuRowCtr > 0 ==> start == (imcuRowCtr - 1) * w)
    }

    ghost predicate BothWrapped()
      reads this
    {
      Middle(xb0, 0, q, w) && Middle(xb1, 1, q, w) && Wrapped(xb0, 0, q, w) && Wrapped(xb1, 1, q, w)
    }

    /** Until the first iMCU row has been processed the lists are as make_funny_pointers leaves them. */
    ghost predicate ListsOk()
      reads this
    {
      if start == 0 || imcuRowCtr == 0 then whichptr == 0 && Middle(xb0, 0, q, w) && Middle(xb1, 1, q, w) && Topped(xb0, q, w)
      else BothWrapped()
    }

    /** Nothing has been read. */
    ghost predicate Initial()
      reads this
    {
      && Counted() && contextState == PrepareForImcu && !bufferFull && imcuRowCtr == 0 && ListsOk() && |rows| == w + 2 * q && Seen(0)
    }

    /** An iMCU row has been read; all row groups before it have been seen. */
    ghost predicate Prepared()
      reads this
    {
      && Counted() && contextState == PrepareForImcu && bufferFull && imcuRowCtr >= 1 && ListsOk() && Seen(start)
      && Loaded(rows, whichptr, q, w, start) && (start > 0 ==> Kept(rows, whichptr, q, w, start))
    }

    /** Row groups of an iMCU row are being seen. */
    ghost predicate Processing()
      reads this
    {
      && Counted() && contextState == ProcessImcu && bufferFull && imcuRowCtr >= 1 && 0 <= rowgroupCtr <= rowgroupsAvail
      && Loaded(rows, whichptr, q, w, start) && Seen(start + rowgroupCtr * q)
      && if imcuRowCtr < total then
           ListsOk() && (start > 0 ==> Kept(rows, whichptr, q, w, start)) && rowgroupsAvail == m - 1
         else
           && Above(rows, list, whichptr, q, w, start) && height == start + Left() && 1 <= Left() <= w
           && |Xb(whichptr)| == |list| && Bottomed(list, Xb(whichptr), q, Left()) && rowgroupsAvail == (Left() - 1) / q + 1
    }

    /** Real rows of the last iMCU row. */
    ghost function Left(): int
      reads this
    {
      height - start
    }

    /** The last row group of an iMCU row waits for the next iMCU row to be read, through the other list. */
    ghost predicate Waiting()
      reads this
    {
      && Counted() && contextState == PostponedRow && !bufferFull && 1 <= imcuRowCtr < total && BothWrapped()
      && Loaded(rows, 1 - whichptr, q, w, start) && Seen(start + w - q) && rowgroupCtr == m + 1 && rowgroupsAvail == m + 2
    }

    /** It has been read. */
    ghost predicate Postponed()
      reads this
    {
      && Counted() && contextState == PostponedRow && bufferFull && 2 <= imcuRowCtr && BothWrapped()
      && Loaded(rows, whichptr, q, w, start) && Kept(rows, whichptr, q, w, start)
      && (rowgroupCtr == m + 1 || rowgroupCtr == m + 2) && rowgroupsAvail == m + 2
      && Seen(if rowgroupCtr == m + 1 then start - q else start)
    }

    /** All row groups with real rows have been seen. */
    ghost predicate Finished()
      reads this
    {
      Geometry() && height <= |log| * q < height + q && Seen(|log| * q)
    }

    constructor (q: int, m: int, height: int, total: int)
      requires q > 0 && m >= 2 && height > 0 && total >= 1 && (total - 1) * (m * q) < height <= total * (m * q)
      ensures Initial() && this.q == q && this.m == m && this.height == height && this.total == total && log == []
    {
      Groups(2, m, q);
      this.q, this.m, this.w, this.height, this.total := q, m, m * q, height, total;
      var a, b := MakeFunnyPointers(q, m * q);
      xb0, xb1 := a, b;
      rows := seq(m * q + 2 * q, _ => -1);
      whichptr, contextState, rowgroupCtr, rowgroupsAvail, imcuRowCtr, bufferFull, log := 0, PrepareForImcu, 0, 0, 0, false, [];
      start, list := 0, [];
    }

    /** Read the next iMCU row. */
    method ReadImcuRow()
      requires Initial() || Waiting()
      modifies this`rows, this`bufferFull, this`imcuRowCtr, this`start
      ensures old(Initial()) ==> Prepared()
      ensures old(Waiting()) ==> Postponed() && rowgroupCtr == m + 1
      ensures log == old(log)
    {
      ghost var was, wait := rows, Waiting();
      ghost var next := imcuRowCtr * w;
      Groups(imcuRowCtr - 1, imcuRowCtr, w);
      if wait {
        assert next == start + w;
      }
      rows := ReadThrough(rows, Xb(whichptr), whichptr, q, w, imcuRowCtr * w);
      bufferFull := true;
      imcuRowCtr := imcuRowCtr + 1;
      if wait {
        NextKept(was, rows, whichptr, q, w, start);
      }
      start := next;
      if wait {
        Groups(1, imcuRowCtr - 1, w);
      }
    }

    lemma StartInside()
      requires Counted() && imcuRowCtr >= 1
      ensures 0 <= start < height && (imcuRowCtr < total ==> start + w < height)
      ensures imcuRowCtr == total ==> height <= start + w
    {
      Groups(2, m, q);
      Groups(0, imcuRowCtr - 1, w);
      Groups(imcuRowCtr - 1, total - 1, w);
      Groups(imcuRowCtr - 1, imcuRowCtr, w);
      if imcuRowCtr < total {
        Groups(imcuRowCtr, total - 1, w);
      }
    }

    /** One more row group has been seen. */
    lemma SeenOne(was: seq<seq<int>>, view: seq<int>, next: int)
      requires Geometry() && log == was + [view] && |was| * q == next && view == Wanted(next, q, height)
      requires forall k :: 0 <= k < |was| ==> was[k] == Wanted(k * q, q, height)
      ensures Seen(next + q)
    {
      Groups(|was|, |was| + 1, q);
      forall k | 0 <= k < |log| ensures log[k] == Wanted(k * q, q, height) {
        if k == |was| {
          assert k * q == next;
        }
      }
    }

    /** The postprocessor is offered the postponed row group. */
    method FeedPostponed(take: bool)
      requires Postponed() && rowgroupCtr == m + 1
      modifies this`log, this`rowgroupCtr
      ensures Postponed() && rowgroupCtr == if take then m + 2 else m + 1
      ensures |log| >= |old(log)|
    {
      if take {
        ghost var was := log;
        StartInside();
        Groups(1, imcuRowCtr - 1, w);
        Groups(m, m + 1, q);
        PostponedView(rows, Xb(whichptr), whichptr, q, w, start, height);
        log := log + [Shown(rows, Xb(whichptr), q, rowgroupCtr * q)];
        SeenOne(was, Shown(rows, Xb(whichptr), q, rowgroupCtr * q), start - q);
        rowgroupCtr := rowgroupCtr + 1;
      }
    }

    /** CTX_PREPARE_FOR_IMCU. */
    method Prepare()
      requires Prepared()
      modifies this`rowgroupCtr, this`rowgroupsAvail, this`contextState, this`xb0, this`xb1, this`list
      ensures Processing() && rowgroupCtr == 0 < rowgroupsAvail
    {
      StartInside();
      rowgroupCtr := 0;
      rowgroupsAvail := m - 1;
      if imcuRowCtr == total {
        PrepareBottom();
      }
      contextState := ProcessImcu;
    }

    /** The last iMCU row: only real rows count, and the last one is repeated below. */
    method PrepareBottom()
      requires InPlace() && imcuRowCtr == total && 1 <= Left() <= w
      modifies this`rowgroupsAvail, this`xb0, this`xb1, this`list
      ensures Counted() && Above(rows, list, whichptr, q, w, start)
      ensures |Xb(whichptr)| == |list| && Bottomed(list, Xb(whichptr), q, Left())
      ensures rowgroupsAvail == (Left() - 1) / q + 1 && rowgroupsAvail >= 1
    {
      var rowsLeft := height % w;
      if rowsLeft == 0 {
        rowsLeft := w;
      }
      RowsLeft(height, w, total - 1, height - start);
      GroupsLeft(rowsLeft, q, (rowsLeft - 1) / q + 1);
      rowgroupsAvail := (rowsLeft - 1) / q + 1;
      SetBottomPointers(rowsLeft);
    }

    method SetBottomPointers(rowsLeft: int)
      requires InPlace() && 1 <= rowsLeft <= w
      modifies this`xb0, this`xb1, this`list
      ensures Counted() && Above(rows, list, whichptr, q, w, start)
      ensures |Xb(whichptr)| == |list| && Bottomed(list, Xb(whichptr), q, rowsLeft)
    {
      list := Xb(whichptr);
      var bottomed := SetBottom(Xb(whichptr), q, rowsLeft);
      if whichptr == 0 {
        xb0 := bottomed;
      } else {
        xb1 := bottomed;
      }
    }

    /** An iMCU row and its context are in the workspace. */
    ghost predicate InPlace()
      reads this
    {
      Counted() && imcuRowCtr >= 1 && ListsOk() && Loaded(rows, whichptr, q, w, start) && (start > 0 ==> Kept(rows, whichptr, q, w, start)) && start >= 0
    }

    /** What the postprocessor sees at the next row group. */
    lemma NextView()
      requires Processing() && rowgroupCtr < rowgroupsAvail
      ensures Shown(rows, Xb(whichptr), q, rowgroupCtr * q) == Wanted(start + rowgroupCtr * q, q, height)
    {
      StartInside();
      Groups(0, rowgroupCtr, q);
      if imcuRowCtr < total {
        Groups(rowgroupCtr, m - 2, q);
        Groups(m - 2, m - 1, q);
        Groups(m - 1, m, q);
        MiddleView(rows, Xb(whichptr), whichptr, q, w, start, height, rowgroupCtr * q);
      } else {
        GroupsLeft(Left(), q, rowgroupsAvail);
        Groups(rowgroupCtr, rowgroupsAvail - 1, q);
        Groups(rowgroupsAvail - 1, rowgroupsAvail, q);
        BottomView(rows, list, Xb(whichptr), whichptr, q, w, start, Left(), rowgroupCtr * q);
      }
    }

    /** The postprocessor is offered the row groups of an iMCU row, and takes as many as it likes. */
    method Feed(take: nat)
      requires Processing()
      modifies this`log, this`rowgroupCtr
      ensures Processing() && rowgroupCtr == Smaller(old(rowgroupCtr) + take, rowgroupsAvail)
      ensures |log| == |old(log)| + rowgroupCtr - old(rowgroupCtr)
    {
      var taken := 0;
      while taken < take && rowgroupCtr < rowgroupsAvail
        invariant Processing() && 0 <= taken <= take && rowgroupCtr == old(rowgroupCtr) + taken && |log| == |old(log)| + taken
      {
        FeedOne();
        taken := taken + 1;
      }
    }

    method FeedOne()
      requires Processing() && rowgroupCtr < rowgroupsAvail
      modifies this`log, this`rowgroupCtr
      ensures Processing() && rowgroupCtr == old(rowgroupCtr) + 1 && |log| == |old(log)| + 1
    {
      ghost var was, c := log, rowgroupCtr;
      NextView();
      log := log + [Shown(rows, Xb(whichptr), q, rowgroupCtr * q)];
      SeenOne(was, Shown(rows, Xb(whichptr), q, c * q), start + c * q);
      Groups(c, c + 1, q);
      rowgroupCtr := rowgroupCtr + 1;
    }

    /** Where the rows seen so far end. */
    lemma EndRows()
      requires Processing() && rowgroupCtr >= rowgroupsAvail
      ensures 0 <= start && Sizes(q, w)
      ensures if imcuRowCtr < total then start + rowgroupCtr * q == start + w - q && (imcuRowCtr > 1 ==> start > 0) && (imcuRowCtr == 1 ==> start == 0)
              else height <= start + rowgroupCtr * q < height + q
    {
      StartInside();
      Groups(2, m, q);
      Groups(m - 1, m, q);
      if imcuRowCtr == total {
        GroupsLeft(Left(), q, rowgroupsAvail);
      } else if imcuRowCtr > 1 {
        Groups(1, imcuRowCtr - 1, w);
      }
    }

    /** All row groups but the last have been taken, or all of them at the bottom of the image. */
    method EndImcu()
      requires Processing() && rowgroupCtr >= rowgroupsAvail
      modifies this`xb0, this`xb1, this`whichptr, this`bufferFull, this`rowgroupCtr, this`rowgroupsAvail, this`contextState
      ensures if imcuRowCtr < total then Waiting() else Finished()
      ensures log == old(log)
    {
      EndRows();
      if imcuRowCtr == 1 {
        xb0 := SetWraparound(xb0, 0, q, w);
        xb1 := SetWraparound(xb1, 1, q, w);
      }
      whichptr := 1 - whichptr;
      bufferFull := false;
      rowgroupCtr := m + 1;
      rowgroupsAvail := m + 2;
      contextState := PostponedRow;
    }

    /** Between calls, before the last real row has been seen. */
    ghost predicate Between()
      reads this
    {
      Initial() || Prepared() || (Processing() && rowgroupCtr < rowgroupsAvail) || Waiting() || (Postponed() && rowgroupCtr == m + 1)
    }

    /** There are rows left. */
    lemma RowsToCome()
      requires Between()
      ensures |log| < height && |log| * q < height
    {
      if imcuRowCtr >= 1 {
        StartInside();
      }
      if Processing() {
        if imcuRowCtr == total {
          GroupsLeft(Left(), q, rowgroupsAvail);
          Groups(rowgroupCtr, rowgroupsAvail - 1, q);
          OneLess(rowgroupsAvail);
        } else {
          Groups(rowgroupCtr, m, q);
        }
      }
      Grows(|log|);
    }

    lemma OneLess(n: int)
      requires q > 0
      ensures (n - 1) * q == n * q - q
    {
    }

    lemma Grows(n: nat)
      requires Geometry()
      ensures n <= n * q
    {
      assert n * (q - 1) >= 0;
    }

    /** CTX_POSTPONED_ROW; stops if the row group is not taken, or if the output buffer is then full. */
    method ProcessPostponed(take: bool, full: bool) returns (stopped: bool)
      requires Postponed() && rowgroupCtr == m + 1
      modifies this`log, this`rowgroupCtr, this`contextState
      ensures stopped == (!take || full) && |log| == |old(log)| + (if take then 1 else 0)
      ensures if take then Prepared() else Postponed() && rowgroupCtr == m + 1
    {
      FeedPostponed(take);
      if rowgroupCtr < rowgroupsAvail {
        return true;
      }
      contextState := PrepareForImcu;
      StartInside();
      Groups(1, imcuRowCtr - 1, w);
      stopped := full;
    }

    /** CTX_PREPARE_FOR_IMCU and CTX_PROCESS_IMCU. */
    method ProcessRow(take: nat)
      requires Prepared() || (Processing() && rowgroupCtr < rowgroupsAvail)
      modifies this
      ensures Finished() || Between()
      ensures |old(log)| + (if take > 0 then 1 else 0) <= |log| <= |old(log)| + take
    {
      if contextState == PrepareForImcu {
        Prepare();
      }
      Feed(take);
      if rowgroupCtr < rowgroupsAvail {
        return;
      }
      EndImcu();
    }

    /**
      process_data_context_main: whether an iMCU row can be had, whether the postprocessor takes the postponed row
      group, whether its output buffer is then full, and how many row groups it takes are up to the surroundings.
      A call that has input, and from which the postprocessor takes anything, delivers at least one row group.
    */
    method ProcessData(available: bool, takePostponed: bool, full: bool, take: nat)
      requires Between()
      modifies this
      ensures Finished() || Between()
      ensures |old(log)| <= |log| <= |old(log)| + take + 1
      ensures !(old(bufferFull) || available) ==> log == old(log)
      ensures (old(bufferFull) || available) && (if old(contextState) == PostponedRow then takePostponed else take > 0) ==> |log| > |old(log)|
    {
      if !bufferFull {
        if !available {
          return;
        }
        ReadImcuRow();
      }
      if contextState == PostponedRow {
        var stopped := ProcessPostponed(takePostponed, full);
        if stopped {
          return;
        }
      }
      ProcessRow(take);
    }

    /** Between calls, or when all is done; shown only to those who ask with `Look`. */
    ghost predicate Live(done: bool)
      reads this
    {
      forall x {:trigger Look(Machine, x)} :: Look(Machine, x) ==> if done then Finished() else Between()
    }

    /** One call; tells whether all rows have been seen. */
    method Step(call: Call) returns (done: bool)
      requires Live(false)
      modifies this
      ensures Live(done) && |log| >= |old(log)| && (!done ==> |log| < height)
      ensures call.available && call.takePostponed && call.take > 0 ==> |log| > |old(log)|
    {
      assert Look(Machine, 0);
      ProcessData(call.available, call.takePostponed, call.full, call.take);
      if Between() {
        RowsToCome();
      }
      done := |log| * q >= height;
    }

    /** All calls that an image takes. */
    method Run(calls: seq<Call>)
      requires Live(false)
      modifies this
      ensures Live(true)
    {
      var n, done := 0, false;
      while !done
        invariant Live(done) && n <= |calls|
        decreases !done, |calls| - n, height - |log|
      {
        var call := Call(true, true, false, 1);
        if n < |calls| {
          call := calls[n];
          n := n + 1;
        }
        done := Step(call);
      }
    }
  }

  function Smaller(a: int, b: int): (r: int) { if a < b then a else b }

  /** What the surroundings of a call are up to. */
  datatype Call = Call(available: bool, takePostponed: bool, full: bool, take: nat)

  /**
    Decompress an image: the surroundings behave as the calls say, and then deliver and take single row groups. All row
    groups with real rows are seen, in order, once each and with their context.
  */
  method OutputImage(q: int, m: int, height: int, total: int, calls: seq<Call>) returns (log: seq<seq<int>>)
    requires q > 0 && m >= 2 && height > 0 && total >= 1 && (total - 1) * (m * q) < height <= total * (m * q)
    ensures |log| == (height + q - 1) / q && forall k :: 0 <= k < |log| ==> |log[k]| == q + 2
    ensures forall k, o :: 0 <= k < |log| && 0 <= o < q + 2 ==>
              var row := k * q - 1 + o;
              log[k][o] == if row < 0 then 0 else if row >= height then height - 1 else row
  {
    var c := new MainController(q, m, height, total);
    c.Run(calls);
    assert Look(Machine, 0);
    log := c.log;
    RoundUp(height, q, |log|);
    assert forall k :: 0 <= k < |log| ==> log[k] == Wanted(k * q, q, height);
  }

  lemma {:induction false} RoundUp(height: int, q: int, n: int)
    requires q > 0 && height <= n * q < height + q
    ensures n == (height + q - 1) / q
  {
    var d, r := (height + q - 1) / q, (height + q - 1) % q;
    assert height + q - 1 == d * q + r;
    if d < n {
      Groups(d + 1, n, q);
    } else if n < d {
      Groups(n + 1, d, q);
    }
  }
}
