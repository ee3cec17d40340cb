/**
  Context rows for downsampling: the circular conversion buffer of jcprepct.c. A buffer row is represented by the
  number of the image row that it holds, so that a window can be compared with plain clamped row numbers.
*/
module CompressorContext {

  function Clamp(row: int, height: int): (r: int)
    requires height > 0
  {
    if row < 0 then 0 else if row >= height then height - 1 else row
  }

  /** What a downsampler that needs context should see for a row group that starts at row `start`. */
  function Window(start: int, rg: int, height: int): (w: seq<int>)
    requires height > 0 && rg > 0
    ensures |w| == 3 * rg
  {
    seq(3 * rg, i => Clamp(start - rg + i, height))
  }

  // ---- The circular buffer ----

  /** The image row, possibly out of range, that belongs in buffer row p once `stored` rows have been put in before row `next`. */
  function Logical(rg: int, stored: int, next: int, p: int): (row: int)
  {
    stored - next + p - (if p < next then 0 else 3 * rg)
  }

  /** The buffer holds the last three row groups, as far as they are not before row `low`. */
  predicate Holds(buffer: seq<int>, rg: int, height: int, stored: int, next: int, low: int)
    requires height > 0
  {
    && rg > 0 && |buffer| == 3 * rg && 0 <= next <= 3 * rg
    && forall p :: 0 <= p < 3 * rg && Logical(rg, stored, next, p) >= low ==> buffer[p] == Clamp(Logical(rg, stored, next, p), height)
  }

  lemma {:induction false} PutRow(buffer: seq<int>, rg: int, height: int, stored: int, next: int, low: int)
    requires height > 0 && Holds(buffer, rg, height, stored, next, low) && next < 3 * rg
    ensures Holds(buffer[next := Clamp(stored, height)], rg, height, stored + 1, next + 1, low)
  {
    forall p | 0 <= p < 3 * rg && p != next
      ensures Logical(rg, stored + 1, next + 1, p) == Logical(rg, stored, next, p)
    {
    }
  }

  /** One more row above the image: a copy of its first row. */
  lemma {:induction false} PadRow(buffer: seq<int>, rg: int, height: int, stored: int, row: int)
    requires height > 0 && 1 <= row <= rg && 0 < stored <= 2 * rg && Holds(buffer, rg, height, stored, stored, 1 - row)
    ensures buffer[0] == 0 && Holds(buffer[3 * rg - row := 0], rg, height, stored, stored, -row)
  {
    assert Logical(rg, stored, stored, 0) == 0;
  }

  /** Starting again at the top of the buffer. */
  lemma {:induction false} WrapAround(buffer: seq<int>, rg: int, height: int, stored: int, low: int)
    requires height > 0 && Holds(buffer, rg, height, stored, 3 * rg, low)
    ensures Holds(buffer, rg, height, stored, 0, low)
  {
    forall p | 0 <= p < 3 * rg ensures Logical(rg, stored, 0, p) == Logical(rg, stored, 3 * rg, p) {
    }
  }

  /** A row pointer of the wrapped-around list: one row group above, three in the middle, one below. */
  function Pointer(rg: int, i: int): (p: int)
    requires rg > 0 && 0 - rg <= i < 4 * rg
    ensures 0 <= p < 3 * rg
  {
    if i < 0 then i + 3 * rg else if i < 3 * rg then i else i - 3 * rg
  }

  /** The list of row pointers; the second row group of pointers stands for the first of the buffer. */
  predicate Wraps(fake: seq<int>, rg: int)
    requires rg > 0
  {
    |fake| == 5 * rg && forall p :: 0 <= p < 5 * rg ==> fake[p] == Pointer(rg, p - rg)
  }

  /** create_context_buffer: pointers to the buffer rows in the middle, and then the wraparound pointers above and below. */
  method CreateContextBuffer(rg: int) returns (fake: seq<int>)
    requires rg > 0
    ensures Wraps(fake, rg)
  {
    var trueBuffer := seq(3 * rg, i => i);
    fake := seq(rg, _ => 0) + trueBuffer + seq(rg, _ => 0);
    var i := 0;
    while i < rg
      invariant 0 <= i <= rg && |fake| == 5 * rg
      invariant forall p :: rg <= p < 4 * rg ==> fake[p] == p - rg
      invariant forall p :: 0 <= p < i ==> fake[p] == 2 * rg + p
      invariant forall p :: 4 * rg <= p < 4 * rg + i ==> fake[p] == p - 4 * rg
    {
      fake := fake[i := trueBuffer[2 * rg + i]];
      fake := fake[4 * rg + i := trueBuffer[i]];
      i := i + 1;
    }
  }

  /** The row group to be downsampled begins two row groups before the end of what has been stored. */
  predicate Placed(rg: int, next: int, this': int)
  {
    && (next == rg || next == 2 * rg || next == 3 * rg)
    && this' == (if next >= 2 * rg then next - 2 * rg else next + rg)
  }

  /** Through the pointer list the downsampler sees the row group with a full row group of context on either side. */
  lemma {:induction false} SeesWindow(buffer: seq<int>, rg: int, height: int, stored: int, next: int, this': int, i: int)
    requires height > 0 && Holds(buffer, rg, height, stored, next, 0 - rg) && Placed(rg, next, this') && stored >= 2 * rg && 0 <= i < 3 * rg
    ensures buffer[Pointer(rg, this' - rg + i)] == Clamp(stored - 3 * rg + i, height)
  {
    assert Logical(rg, stored, next, Pointer(rg, this' - rg + i)) == stored - 3 * rg + i;
  }

  /** The rows behind the pointers, from one row group above to one below. */
  function View(fake: seq<int>, buffer: seq<int>, rg: int, this': int): (w: seq<int>)
    requires rg > 0 && Wraps(fake, rg) && |buffer| == 3 * rg && 0 <= this' <= 2 * rg
    ensures |w| == 3 * rg
  {
    seq(3 * rg, i requires 0 <= i < 3 * rg => PointerAt(fake, rg, this' - rg + i); buffer[fake[rg + (this' - rg + i)]])
  }

  lemma {:induction false} PointerAt(fake: seq<int>, rg: int, i: int)
    requires rg > 0 && Wraps(fake, rg) && 0 - rg <= i < 4 * rg
    ensures fake[rg + i] == Pointer(rg, i)
  {
  }

  lemma {:induction false} ViewIsWindow(fake: seq<int>, buffer: seq<int>, rg: int, height: int, stored: int, next: int, this': int)
    requires height > 0 && rg > 0 && Wraps(fake, rg) && Holds(buffer, rg, height, stored, next, 0 - rg) && Placed(rg, next, this') && stored >= 2 * rg
    ensures View(fake, buffer, rg, this') == Window(stored - 2 * rg, rg, height)
  {
    var view, window := View(fake, buffer, rg, this'), Window(stored - 2 * rg, rg, height);
    forall i | 0 <= i < 3 * rg ensures view[i] == window[i] {
      SeesWindow(buffer, rg, height, stored, next, this', i);
      PointerAt(fake, rg, this' - rg + i);
    }
  }

  /** The row before `next` is the one stored last. */
  lemma {:induction false} LastRow(buffer: seq<int>, rg: int, height: int, stored: int, next: int)
    requires height > 0 && Holds(buffer, rg, height, stored, next, 0 - rg) && stored > 0 && next < 3 * rg
    ensures buffer[Pointer(rg, next - 1)] == Clamp(stored - 1, height)
  {
    assert Logical(rg, stored, next, Pointer(rg, next - 1)) == stored - 1;
  }

  // ---- The controller ----

  class PrepController {
    /** Rows of a row group, and of the image. */
    const rg: int
    const height: int
    /** color_buf begins with the second row group of pointers. */
    const fake: seq<int>
    var buffer: seq<int>
    var nextBufRow: int
    var nextBufStop: int
    var thisRowGroup: int
    var rowsToGo: int
    /** Rows put into the buffer, padding included, and the first row of the next row group. */
    ghost var stored: int
    ghost var groupStart: int
    /** What the downsampler has seen so far. */
    var seen: seq<seq<int>>

    ghost predicate Counted()
      reads this
    {
      && rg > 0 && height > 0 && Wraps(fake, rg) && 0 <= rowsToGo <= height && 0 <= nextBufRow <= nextBufStop <= nextBufRow + 2 * rg
      && (if rowsToGo > 0 then stored == height - rowsToGo else stored >= height)
      && stored + nextBufStop - nextBufRow == groupStart + 2 * rg
      && Placed(rg, nextBufStop, thisRowGroup)
    }

    /** Row groups are seen in order, each with its context. */
    ghost predicate InOrder()
      requires height > 0 && rg > 0
      reads this
    {
      groupStart == |seen| * rg && forall g :: 0 <= g < |seen| ==> seen[g] == Window(g * rg, rg, height)
    }

    ghost predicate Valid()
      reads this
    {
      && Counted() && InOrder() && nextBufRow < nextBufStop
      && Holds(buffer, rg, height, stored, nextBufRow, if stored > 0 then 0 - rg else 0)
      && (stored == 0 ==> nextBufRow == 0 && nextBufStop == 2 * rg)
    }

    constructor (rg: int, height: int)
      requires rg > 0 && height > 0
      ensures Valid() && this.rg == rg && this.height == height && seen == [] && rowsToGo == height
    {
      this.rg, this.height := rg, height;
      var list := CreateContextBuffer(rg);
      fake := list;
      buffer := seq(3 * rg, _ => -1);
      nextBufRow, nextBufStop, thisRowGroup, rowsToGo := 0, 2 * rg, 0, height;
      stored, groupStart, seen := 0, 0, [];
    }

    /** Colour conversion of the next input rows into the buffer. */
    method Convert(numrows: int)
      requires Valid() && 1 <= numrows <= rowsToGo && numrows <= nextBufStop - nextBufRow
      modifies this`buffer
      ensures Holds(buffer, rg, height, stored + numrows, nextBufRow + numrows, if stored > 0 then 0 - rg else 0)
    {
      var row := 0;
      while row < numrows
        invariant 0 <= row <= numrows
        invariant Holds(buffer, rg, height, stored + row, nextBufRow + row, if stored > 0 then 0 - rg else 0)
      {
        PutRow(buffer, rg, height, stored + row, nextBufRow + row, if stored > 0 then 0 - rg else 0);
        buffer := buffer[nextBufRow + row := height - rowsToGo + row];
        row := row + 1;
      }
    }

    /** Rows above the image. */
    method PadTop(ghost n: int)
      requires rg > 0 && height > 0 && Wraps(fake, rg) && 0 < n <= 2 * rg && Holds(buffer, rg, height, n, n, 0)
      modifies this`buffer
      ensures Holds(buffer, rg, height, n, n, 0 - rg)
    {
      var row := 1;
      while row <= rg
        invariant 1 <= row <= rg + 1 && Holds(buffer, rg, height, n, n, 1 - row)
      {
        PadRow(buffer, rg, height, n, row);
        assert fake[rg + (0 - row)] == Pointer(rg, 0 - row) && fake[rg + 0] == Pointer(rg, 0);
        buffer := buffer[fake[rg - row] := buffer[fake[rg]]];
        row := row + 1;
      }
    }

    method Load(numrows: int)
      requires Valid() && 1 <= numrows <= rowsToGo && numrows <= nextBufStop - nextBufRow
      modifies this`buffer, this`nextBufRow, this`rowsToGo, this`stored
      ensures Counted() && InOrder() && stored > 0 && Holds(buffer, rg, height, stored, nextBufRow, 0 - rg)
      ensures rowsToGo == old(rowsToGo) - numrows
    {
      Convert(numrows);
      if rowsToGo == height {
        PadTop(numrows);
      }
      nextBufRow := nextBufRow + numrows;
      rowsToGo := rowsToGo - numrows;
      stored := stored + numrows;
    }

    /** expand_bottom_edge: copies of the last row, up to outputRows. */
    method ExpandBottomEdge(inputRows: int, outputRows: int, ghost n: int)
      requires height > 0 && n >= height && Holds(buffer, rg, height, n, inputRows, 0 - rg) && Wraps(fake, rg)
      requires 0 <= inputRows <= outputRows <= 3 * rg && outputRows - inputRows <= 2 * rg
      modifies this`buffer
      ensures Holds(buffer, rg, height, n + outputRows - inputRows, outputRows, 0 - rg)
    {
      if inputRows < outputRows {
        LastRow(buffer, rg, height, n, inputRows);
      }
      var row := inputRows;
      while row < outputRows
        invariant inputRows <= row <= outputRows && Holds(buffer, rg, height, n + row - inputRows, row, 0 - rg)
        invariant inputRows < outputRows ==> buffer[Pointer(rg, inputRows - 1)] == height - 1
      {
        PutRow(buffer, rg, height, n + row - inputRows, row, 0 - rg);
        assert fake[rg + (inputRows - 1)] == Pointer(rg, inputRows - 1) && fake[rg + row] == Pointer(rg, row);
        buffer := buffer[fake[rg + row] := buffer[fake[rg + inputRows - 1]]];
        row := row + 1;
      }
    }

    method PadBottom()
      requires Valid() && rowsToGo == 0
      modifies this`buffer, this`nextBufRow, this`stored
      ensures Counted() && InOrder() && nextBufRow == nextBufStop && stored > 0 && Holds(buffer, rg, height, stored, nextBufRow, 0 - rg)
    {
      ExpandBottomEdge(nextBufRow, nextBufStop, stored);
      stored := stored + nextBufStop - nextBufRow;
      nextBufRow := nextBufStop;
    }

    /** Advance with wraparound as necessary. */
    method Advance()
      requires Counted() && nextBufRow == nextBufStop && Holds(buffer, rg, height, stored, nextBufRow, 0 - rg)
      modifies this`thisRowGroup, this`nextBufRow, this`nextBufStop, this`groupStart
      ensures Counted() && nextBufRow < nextBufStop && groupStart == old(groupStart) + rg
      ensures Holds(buffer, rg, height, stored, nextBufRow, 0 - rg)
    {
      groupStart := groupStart + rg;
      thisRowGroup := thisRowGroup + rg;
      if thisRowGroup >= 3 * rg {
        thisRowGroup := 0;
      }
      if nextBufRow >= 3 * rg {
        WrapAround(buffer, rg, height, stored, 0 - rg);
        nextBufRow := 0;
      }
      nextBufStop := nextBufRow + rg;
    }

    /** Downsample a row group. */
    method Downsample()
      requires Counted() && InOrder() && nextBufRow == nextBufStop && stored > 0 && Holds(buffer, rg, height, stored, nextBufRow, 0 - rg)
      modifies this`seen, this`thisRowGroup, this`nextBufRow, this`nextBufStop, this`groupStart
      ensures Valid() && |seen| == |old(seen)| + 1
    {
      assert groupStart >= 0;
      ViewIsWindow(fake, buffer, rg, height, stored, nextBufRow, thisRowGroup);
      ghost var n := |seen|;
      seen := seen + [View(fake, buffer, rg, thisRowGroup)];
      assert (n + 1) * rg == n * rg + rg;
      Advance();
    }

    /** pre_process_context: any number of input rows, and room for any number of row groups. */
    method PreProcess(inRowsAvail: int, outAvail: nat) returns (inRowCtr: int)
      requires Valid() && 0 <= inRowsAvail <= rowsToGo
      modifies this
      ensures Valid() && 0 <= inRowCtr <= inRowsAvail && rowsToGo == old(rowsToGo) - inRowCtr
      ensures |seen| <= |old(seen)| + outAvail && |seen| >= |old(seen)|
      ensures |seen| == |old(seen)| + outAvail || (inRowCtr == inRowsAvail && rowsToGo > 0)
    {
      inRowCtr := 0;
      var outRowGroupCtr := 0;
      while outRowGroupCtr < outAvail
        invariant Valid() && 0 <= inRowCtr <= inRowsAvail && rowsToGo == old(rowsToGo) - inRowCtr
        invariant outRowGroupCtr <= outAvail && |seen| == |old(seen)| + outRowGroupCtr
        decreases outAvail - outRowGroupCtr, inRowsAvail - inRowCtr
      {
        if inRowCtr < inRowsAvail {
          var numrows := nextBufStop - nextBufRow;
          if inRowsAvail - inRowCtr < numrows {
            numrows := inRowsAvail - inRowCtr;
          }
          Load(numrows);
          inRowCtr := inRowCtr + numrows;
        } else {
          if rowsToGo != 0 {
            break;
          }
          PadBottom();
        }
        if nextBufRow == nextBufStop {
          Downsample();
          outRowGroupCtr := outRowGroupCtr + 1;
        }
      }
    }
  }

  /** The input rows and the room for row groups that one call offers. */
  datatype Offer = Offer(rows: nat, room: nat)

  /**
    Rows of an image through the controller: as the offers say, and then what is left. At least every row group of the
    image is seen, in order, and each shows its rows and a row group above and below; rows outside the image repeat its edges.
  */
  method SeeImage(rg: int, height: int, offers: seq<Offer>) returns (seen: seq<seq<int>>)
    requires rg > 0 && height > 0
    ensures |seen| * rg >= height && forall g :: 0 <= g < |seen| ==> |seen[g]| == 3 * rg
    ensures forall g, i :: 0 <= g < |seen| && 0 <= i < 3 * rg ==>
              var row := g * rg - rg + i;
              seen[g][i] == if row < 0 then 0 else if row >= height then height - 1 else row
  {
    var c := new PrepController(rg, height);
    TakeOffers(c, offers);
    SeeRest(c);
    seen := c.seen;
    WindowsAre(seen, rg, height);
  }

  method TakeOffers(c: PrepController, offers: seq<Offer>)
    requires c.Valid()
    modifies c
    ensures c.Valid()
  {
    for n := 0 to |offers|
      invariant c.Valid()
    {
      var rows := if offers[n].rows < c.rowsToGo then offers[n].rows else c.rowsToGo;
      var used := c.PreProcess(rows, offers[n].room);
    }
  }

  method SeeRest(c: PrepController)
    requires c.Valid()
    modifies c
    ensures c.Valid() && |c.seen| * c.rg >= c.height
  {
    var todo := c.height - |c.seen| * c.rg;
    while todo > 0
      invariant c.Valid() && todo == c.height - |c.seen| * c.rg
    {
      OneGroupMore(|c.seen|, c.rg);
      var used := c.PreProcess(c.rowsToGo, 1);
      todo := todo - c.rg;
    }
  }

  lemma {:induction false} OneGroupMore(n: int, rg: int)
    ensures (n + 1) * rg == n * rg + rg
  {
  }

  lemma {:induction false} WindowsAre(seen: seq<seq<int>>, rg: int, height: int)
    requires rg > 0 && height > 0 && forall g :: 0 <= g < |seen| ==> seen[g] == Window(g * rg, rg, height)
    ensures forall g :: 0 <= g < |seen| ==> |seen[g]| == 3 * rg
    ensures forall g, i :: 0 <= g < |seen| && 0 <= i < 3 * rg ==>
              var row := g * rg - rg + i;
              seen[g][i] == if row < 0 then 0 else if row >= height then height - 1 else row
  {
    forall g, i | 0 <= g < |seen| && 0 <= i < 3 * rg ensures seen[g][i] == Clamp(g * rg - rg + i, height) {
      assert seen[g] == Window(g * rg, rg, height);
    }
  }
}
