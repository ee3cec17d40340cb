/**
  What reaches the entropy coder, in terms of the image alone: the sizes of components by their sampling factors, and every
  block of every component once, in raster order, with dummy blocks only where MCUs reach beyond the image.
*/
module WholeImage {
  import opened ImageLayout
  import opened CoefControllers

  // ---- Sizes ----

  /** q is n / d, rounded up. */
  predicate RoundedUp(q: int, n: int, d: int) { n <= q * d && q * d < n + d }

  lemma {:induction false} MaxIs(comps: seq<Component>, m: nat)
    requires m < |comps| && comps[m].h >= 1 && comps[m].v >= 1
    ensures (forall i :: 0 <= i < |comps| ==> comps[i].h <= comps[m].h) ==> MaxH(comps) == comps[m].h
    ensures (forall i :: 0 <= i < |comps| ==> comps[i].v <= comps[m].v) ==> MaxV(comps) == comps[m].v
  {
    MaxFound(comps);
  }

  lemma {:induction false} MaxFound(comps: seq<Component>)
    ensures MaxH(comps) == 1 || exists i :: 0 <= i < |comps| && MaxH(comps) == comps[i].h
    ensures MaxV(comps) == 1 || exists i :: 0 <= i < |comps| && MaxV(comps) == comps[i].v
  {
    if comps != [] {
      var front := comps[..|comps| - 1];
      MaxFound(front);
      assert forall i :: 0 <= i < |front| ==> front[i] == comps[i];
    }
  }

  /**
    A component with the greatest horizontal factor of all has one block for every blockSize samples of the width, and the others
    in proportion to their factors; an MCU takes as many samples as the greatest factor has blocks.
  */
  lemma {:induction false} Across(image: Image, m: nat, k: nat)
    requires Legal(image) && m < |image.components| && k < |image.components|
    requires forall i :: 0 <= i < |image.components| ==> image.components[i].h <= image.components[m].h
    ensures RoundedUp(Whole(image).comps[m].across, image.width, image.blockSize)
    ensures RoundedUp(Whole(image).comps[k].across, image.width * image.components[k].h, image.components[m].h * image.blockSize)
    ensures RoundedUp(Whole(image).mcusPerRow, image.width, image.components[m].h * image.blockSize)
  {
    assert LegalFactors(image.components[m]);
    MaxIs(image.components, m);
    PlaneSizes(image, m);
    PlaneSizes(image, k);
    var whole := Whole(image);
    ByFactors(image.width, image.blockSize, image.components[m].h, image.components[k].h, UnitWidth(image),
              whole.comps[m].across, whole.comps[k].across, whole.mcusPerRow);
  }

  lemma {:induction false} Down(image: Image, m: nat, k: nat)
    requires Legal(image) && m < |image.components| && k < |image.components|
    requires forall i :: 0 <= i < |image.components| ==> image.components[i].v <= image.components[m].v
    ensures RoundedUp(Whole(image).comps[m].down, image.height, image.blockSize)
    ensures RoundedUp(Whole(image).comps[k].down, image.height * image.components[k].v, image.components[m].v * image.blockSize)
    ensures RoundedUp(Whole(image).totalRows, image.height, image.components[m].v * image.blockSize)
  {
    assert LegalFactors(image.components[m]);
    MaxIs(image.components, m);
    PlaneSizes(image, m);
    PlaneSizes(image, k);
    var whole := Whole(image);
    ByFactors(image.height, image.blockSize, image.components[m].v, image.components[k].v, UnitHeight(image),
              whole.comps[m].down, whole.comps[k].down, whole.totalRows);
  }

  lemma {:induction false} PlaneSizes(image: Image, k: nat)
    requires Legal(image) && k < |image.components|
    ensures UnitWidth(image) >= 1 && UnitHeight(image) >= 1
    ensures Whole(image).comps[k].across == DivRoundUp(image.width * image.components[k].h, UnitWidth(image))
    ensures Whole(image).comps[k].down == DivRoundUp(image.height * image.components[k].v, UnitHeight(image))
  {
  }

  /** n samples in blocks of s samples, for the greatest factor f and another one g. */
  lemma {:induction false} ByFactors(n: nat, s: nat, f: nat, g: nat, unit: nat, own: nat, other: nat, units: nat)
    requires s >= 1 && f >= 1 && unit == f * s && unit >= 1
    requires own == DivRoundUp(n * f, unit) && other == DivRoundUp(n * g, unit) && units == DivRoundUp(n, unit)
    ensures RoundedUp(own, n, s) && RoundedUp(other, n * g, f * s) && RoundedUp(units, n, f * s)
  {
    RoundUpMeans(n * f, unit);
    RoundUpMeans(n * g, unit);
    RoundUpMeans(n, unit);
    Scaled(own, n, s, f);
  }

  /** A common factor does not matter. */
  lemma {:induction false} Scaled(q: nat, n: nat, d: nat, f: nat)
    requires f >= 1 && RoundedUp(q, n * f, f * d)
    ensures RoundedUp(q, n, d)
  {
    assert q * (f * d) == (q * d) * f;
    assert (n + d) * f == n * f + f * d;
    assert (q * d + 1) * f == (q * d) * f + f;
    MulLess(n, q * d + 1, f);
    MulLess(q * d, n + d, f);
  }

  // ---- Order ----

  /** MCU rows before iMCU row i. */
  function RowsBefore(scan: Scan, i: nat): (n: nat)
    requires ValidScan(scan)
  {
    if Interleaved(scan) then i else if i < scan.totalRows then i * scan.comps[0].vsamp else scan.comps[0].down
  }

  lemma {:induction false} RowsOn(scan: Scan, i: nat)
    requires ValidScan(scan) && i < scan.totalRows
    ensures RowsBefore(scan, i + 1) == RowsBefore(scan, i) + McuRows(scan, i)
  {
    assert ValidComp(scan, scan.comps[0]);
    OneLess(i + 1, scan.comps[0].vsamp);
    assert i == scan.totalRows - 1 ==> i * scan.comps[0].vsamp == (scan.totalRows - 1) * scan.comps[0].vsamp;
  }

  /** A place in the order of MCUs: iMCU row, MCU row within it, column. */
  predicate Place(scan: Scan, i: nat, y: nat, col: nat)
    requires ValidScan(scan)
  {
    (i < scan.totalRows && y <= McuRows(scan, i) && col <= scan.mcusPerRow && (y == McuRows(scan, i) ==> col == 0))
    || (i == scan.totalRows && y == 0 && col == 0)
  }

  lemma {:induction false} StreamLength(scan: Scan, i: nat, y: nat, col: nat)
    requires ValidScan(scan) && Place(scan, i, y, col)
    ensures |Stream(scan, i, y, col)| == (RowsBefore(scan, i) + y) * scan.mcusPerRow + col
    decreases i, y, col
  {
    assert ValidComp(scan, scan.comps[0]);
    if col > 0 {
      StreamLength(scan, i, y, col - 1);
    } else if y > 0 {
      StreamLength(scan, i, y - 1, scan.mcusPerRow);
      OneLess(RowsBefore(scan, i) + y, scan.mcusPerRow);
    } else if i > 0 {
      RowsOn(scan, i - 1);
      StreamLength(scan, i - 1, McuRows(scan, i - 1), 0);
    }
  }

  predicate Earlier(i: nat, y: nat, col: nat, i': nat, y': nat, col': nat)
  {
    i < i' || (i == i' && (y < y' || (y == y' && col < col')))
  }

  /** The MCU of a place stands behind those of all earlier places. */
  lemma {:induction false} StreamEntry(scan: Scan, i: nat, y: nat, col: nat, i': nat, y': nat, col': nat)
    requires ValidScan(scan) && i < scan.totalRows && y < McuRows(scan, i) && col < scan.mcusPerRow
    requires Place(scan, i', y', col') && Earlier(i, y, col, i', y', col')
    ensures var n, all := |Stream(scan, i, y, col)|, Stream(scan, i', y', col'); n < |all| && all[n] == Mcu(scan, i, y, col, |scan.comps|)
    decreases i', y', col'
  {
    assert ValidComp(scan, scan.comps[0]);
    if col' > 0 {
      if i != i' || y != y' || col != col' - 1 {
        StreamEntry(scan, i, y, col, i', y', col' - 1);
      }
    } else if y' > 0 {
      StreamEntry(scan, i, y, col, i', y' - 1, scan.mcusPerRow);
    } else {
      StreamEntry(scan, i, y, col, i' - 1, McuRows(scan, i' - 1), 0);
    }
  }

  /** The MCUs of a scan, by MCU row and column. */
  lemma {:induction false} McuAt(scan: Scan, i: nat, y: nat, col: nat)
    requires ValidScan(scan) && i < scan.totalRows && y < McuRows(scan, i) && col < scan.mcusPerRow
    ensures |AllMcus(scan)| == RowsBefore(scan, scan.totalRows) * scan.mcusPerRow
    ensures 0 <= (RowsBefore(scan, i) + y) * scan.mcusPerRow + col < |AllMcus(scan)|
    ensures AllMcus(scan)[(RowsBefore(scan, i) + y) * scan.mcusPerRow + col] == Mcu(scan, i, y, col, |scan.comps|)
  {
    StreamLength(scan, i, y, col);
    StreamLength(scan, scan.totalRows, 0, 0);
    StreamEntry(scan, i, y, col, scan.totalRows, 0, 0);
  }

  // ---- Contents ----

  /** In block row y of an MCU, x blocks from the left, stands the block of that place in the component's part. */
  lemma {:induction false} BlockAt(scan: Scan, i: nat, yoffset: nat, col: nat, n: nat, k: nat, y: nat, x: nat, b: nat)
    requires ValidScan(scan) && k < n <= |scan.comps| && y < scan.comps[k].height && x < scan.comps[k].width
    requires b == BlocksInMcu(scan.comps, k) + y * scan.comps[k].width + x
    ensures b < |Mcu(scan, i, yoffset, col, n)| && Mcu(scan, i, yoffset, col, n)[b] == Block(scan, scan.comps[k], i, yoffset + y, col, x)
    decreases n
  {
    McuSize(scan, i, yoffset, col, n - 1);
    if k < n - 1 {
      BlockAt(scan, i, yoffset, col, n - 1, k, y, x, b);
    } else {
      BlockIn(scan, scan.comps[k], i, yoffset, col, scan.comps[k].height, y, x);
    }
  }

  lemma {:induction false} BlockIn(scan: Scan, c: Comp, i: nat, yoffset: nat, col: nat, n: nat, y: nat, x: nat)
    requires ValidComp(scan, c) && y < n && x < c.width
    ensures 0 <= y * c.width + x < |CompBlocks(scan, c, i, yoffset, col, n)|
    ensures CompBlocks(scan, c, i, yoffset, col, n)[y * c.width + x] == Block(scan, c, i, yoffset + y, col, x)
    decreases n
  {
    CoefControllers.ComponentSize(scan, c, i, yoffset, col, n - 1);
    if y < n - 1 {
      BlockIn(scan, c, i, yoffset, col, n - 1, y, x);
    }
  }

  // ---- The whole image ----

  lemma {:induction false} SingleMcu(whole: Scan, k: nat, scan: Scan, i: nat, y: nat, col: nat, row: nat)
    requires ValidFrame(whole) && k < |whole.comps| && scan == ScanOf(whole, [k]) && ValidScan(scan)
    requires i < scan.totalRows && y < McuRows(scan, i) && col < whole.comps[k].across && row == i * whole.comps[k].vsamp + y
    ensures var c := whole.comps[k];
            InOrder(AllMcus(scan), c.down, c.across, row, col, Mcu(scan, i, y, col, 1))
  {
    McuAt(scan, i, y, col);
  }

  /** So many rows and columns, and what stands in one place. */
  predicate InOrder(mcus: seq<seq<Blk>>, rows: int, columns: int, row: int, col: int, mcu: seq<Blk>)
  {
    |mcus| == rows * columns && 0 <= row * columns + col < |mcus| && mcus[row * columns + col] == mcu
  }

  lemma {:induction false} OneBlock(whole: Scan, k: nat, scan: Scan, i: nat, y: nat, col: nat, row: nat)
    requires ValidFrame(whole) && k < |whole.comps| && scan == ScanOf(whole, [k]) && ValidScan(scan)
    requires i < scan.totalRows && y < McuRows(scan, i) && col < whole.comps[k].across && row == i * whole.comps[k].vsamp + y
    ensures Mcu(scan, i, y, col, 1) == [whole.comps[k].blocks(row, col)]
  {
    McuSize(scan, i, y, col, 1);
    assert BlocksInMcu(scan.comps, 1) == BlocksInMcu(scan.comps, 0) + 1;
    BlockAt(scan, i, y, col, 1, 0, 0, 0, 0);
  }

  /** In a scan of one component every MCU is one block, and the blocks stand in raster order. */
  lemma {:induction false} SingleScan(image: Image, k: nat, row: nat, col: nat)
    requires Legal(image) && k < |image.components| && row < Whole(image).comps[k].down && col < Whole(image).comps[k].across
    ensures var scan, c := ScanOf(Whole(image), [k]), Whole(image).comps[k];
            ValidScan(scan) && InOrder(AllMcus(scan), c.down, c.across, row, col, [image.components[k].blocks(row, col)])
  {
    WholeIsFrame(image);
    SingleInFrame(Whole(image), k, row, col);
  }

  lemma {:induction false} SingleInFrame(whole: Scan, k: nat, row: nat, col: nat)
    requires ValidFrame(whole) && k < |whole.comps| && row < whole.comps[k].down && col < whole.comps[k].across
    ensures var scan, c := ScanOf(whole, [k]), whole.comps[k];
            ValidScan(scan) && InOrder(AllMcus(scan), c.down, c.across, row, col, [c.blocks(row, col)])
  {
    var c := whole.comps[k];
    ScanFits(whole, [k]);
    assert ValidComp(whole, c);
    var scan := ScanOf(whole, [k]);
    var i, y := RowOf(c.down, whole.totalRows, c.vsamp, c.lastRow, row);
    SingleMcu(whole, k, scan, i, y, col, row);
    OneBlock(whole, k, scan, i, y, col, row);
  }

  /** The iMCU row of a block row, and its place there. */
  lemma {:induction false} RowOf(down: nat, rows: nat, v: nat, lastRow: nat, row: nat) returns (i: nat, y: nat)
    requires v >= 1 && rows >= 1 && 1 <= lastRow <= v && down == (rows - 1) * v + lastRow && row < down
    ensures i < rows && y < (if i < rows - 1 then v else lastRow) && row == i * v + y
  {
    i, y := row / v, row % v;
    assert row == i * v + y;
    if i > rows - 1 {
      Grows2(rows, i, v);
      OneLess(rows, v);
    }
  }

  function Smaller(a: int, b: int): (m: int) { if a < b then a else b }

  /**
    What stands for the block of a row, x columns from the left edge of an MCU: the block itself, or behind the edges of the image a
    block without AC values and with the DC value of the last block inside.
  */
  function Padded(c: Component, down: nat, across: nat, row: nat, left: nat, x: nat): (b: Blk)
    requires down >= 1 && left < across && c.h >= 1
  {
    if row < down && left + x < across then c.blocks(row, left + x)
    else Blk(c.blocks(Smaller(row, down - 1), Smaller(left + c.h, across) - 1).dc, 0)
  }

  /** Units of w, the last of which is cut off. */
  lemma {:induction false} CutOff(units: nat, w: nat, last: nat, n: nat, r: nat, y: nat, inside: nat)
    requires units >= 1 && n == (units - 1) * w + last && 1 <= last <= w && r < units && y < w && inside == if r < units - 1 then w else last
    ensures r * w < n && (y < inside <==> r * w + y < n) && r * w + inside == Smaller(r * w + w, n)
    ensures y >= inside ==> r * w + inside == n
  {
    if r < units - 1 {
      Grows2(r + 1, units - 1, w);
      OneLess(r + 1, w);
    } else {
      assert r * w == (units - 1) * w;
    }
  }

  lemma {:induction false} PaddedBlock(whole: Scan, c: Component, p: Comp, i: nat, y: nat, mcu: nat, x: nat, row: nat, left: nat)
    requires ValidComp(whole, p) && p.width == p.hsamp == c.h && p.height == p.vsamp == c.v && p.blocks == c.blocks
    requires i < whole.totalRows && mcu < whole.mcusPerRow && y < c.v && x < c.h && row == i * c.v + y && left == mcu * c.h
    ensures p.down >= 1 && left < p.across && Block(whole, p, i, y, mcu, x) == Padded(c, p.down, p.across, row, left, x)
  {
    CutOff(whole.totalRows, c.v, p.lastRow, p.down, i, y, RealRows(whole, p, i));
    CutOff(whole.mcusPerRow, c.h, p.lastCol, p.across, mcu, x, RealCols(whole, p, mcu));
  }

  lemma {:induction false} InterleavedMcu(whole: Scan, chosen: seq<nat>, scan: Scan, i: nat, mcu: nat, k: nat, y: nat, x: nat, c: Component,
                                          row: nat, left: nat, b: nat)
    requires ValidFrame(whole) && Chosen(whole, chosen) && |chosen| > 1 && scan == ScanOf(whole, chosen) && ValidScan(scan) && k < |chosen|
    requires i < scan.totalRows && mcu < scan.mcusPerRow && y < c.v && x < c.h && row == i * c.v + y && left == mcu * c.h
    requires var p := whole.comps[chosen[k]]; p.hsamp == c.h && p.vsamp == c.v && p.blocks == c.blocks
    requires b == BlocksInMcu(scan.comps, k) + y * c.h + x
    ensures var p, blocks := whole.comps[chosen[k]], Mcu(scan, i, 0, mcu, |chosen|);
            && p.down >= 1 && left < p.across
            && b < |blocks| && blocks[b] == Padded(c, p.down, p.across, row, left, x)
  {
    BlockAt(scan, i, 0, mcu, |chosen|, k, y, x, b);
    PaddedBlock(scan, c, whole.comps[chosen[k]], i, y, mcu, x, row, left);
  }

  lemma {:induction false} InterleavedOrder(whole: Scan, chosen: seq<nat>, scan: Scan, i: nat, mcu: nat)
    requires ValidFrame(whole) && Chosen(whole, chosen) && |chosen| > 1 && scan == ScanOf(whole, chosen) && ValidScan(scan)
    requires i < scan.totalRows && mcu < scan.mcusPerRow
    ensures InOrder(AllMcus(scan), whole.totalRows, whole.mcusPerRow, i, mcu, Mcu(scan, i, 0, mcu, |chosen|))
  {
    McuAt(scan, i, 0, mcu);
  }

  /**
    In an interleaved scan MCUs stand in raster order, and an MCU holds v rows of h blocks of each component. In MCU row i and MCU
    column `mcu` the b-th block, which is in row y and column x of component k's part, is that of block row `row`, x blocks
    right of block column `left`.
  */
  lemma {:induction false} InterleavedScan(image: Image, chosen: seq<nat>, i: nat, mcu: nat, k: nat, y: nat, x: nat, c: Component,
                                           row: nat, left: nat, b: nat) returns (blocks: seq<Blk>)
    requires Legal(image) && |chosen| > 1 && (forall j :: 0 <= j < |chosen| ==> chosen[j] < |image.components|) && k < |chosen|
    requires i < Whole(image).totalRows && mcu < Whole(image).mcusPerRow && c == image.components[chosen[k]] && y < c.v && x < c.h
    requires row == i * c.v + y && left == mcu * c.h && b == BlocksInMcu(ScanOf(Whole(image), chosen).comps, k) + y * c.h + x
    ensures ValidScan(ScanOf(Whole(image), chosen))
    ensures InOrder(AllMcus(ScanOf(Whole(image), chosen)), Whole(image).totalRows, Whole(image).mcusPerRow, i, mcu, blocks)
    ensures var p := Whole(image).comps[chosen[k]];
            && p.down >= 1 && left < p.across && b < |blocks| && blocks[b] == Padded(c, p.down, p.across, row, left, x)
  {
    var whole := Whole(image);
    WholeIsFrame(image);
    ScanFits(whole, chosen);
    var scan := ScanOf(whole, chosen);
    blocks := Mcu(scan, i, 0, mcu, |chosen|);
    InterleavedOrder(whole, chosen, scan, i, mcu);
    InterleavedMcu(whole, chosen, scan, i, mcu, k, y, x, c, row, left, b);
  }
}
