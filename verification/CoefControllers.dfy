/**
  The three coefficient controllers of the compressor: one-pass (compress_data) and two-step (compress_first_pass and
  compress_output) of jccoefct.c, and the transcoder's of jctrans.c. They hand the same MCUs to the entropy coder.
*/
module CoefControllers {
  import opened ImageLayout
  import opened Sequences

  function Dummy(dc: int): (b: Blk) { Blk(dc, 0) }

  /** Block rows of iMCU row i that are in the image. */
  function RealRows(scan: Scan, c: Comp, i: nat): (n: nat) { if i < scan.totalRows - 1 then c.vsamp else c.lastRow }

  /** Blocks of a component in MCU column `col` that are in the image. */
  function RealCols(scan: Scan, c: Comp, col: nat): (n: nat) { if col < scan.mcusPerRow - 1 then c.width else c.lastCol }

  /** MCU rows of iMCU row i. */
  function McuRows(scan: Scan, i: nat): (n: nat)
    requires ValidScan(scan)
  {
    if Interleaved(scan) then 1 else RealRows(scan, scan.comps[0], i)
  }

  // ---- What an MCU should hold ----

  /** Block x of block row y of iMCU row i, in MCU column `col`: outside the image, a dummy with the DC value of the last block inside. */
  function Block(scan: Scan, c: Comp, i: nat, y: nat, col: nat, x: nat): (b: Blk)
    requires ValidComp(scan, c)
  {
    var rows, cols := RealRows(scan, c, i), RealCols(scan, c, col);
    if y < rows && x < cols then c.blocks(i * c.vsamp + y, col * c.width + x)
    else Dummy(c.blocks(i * c.vsamp + (if y < rows then y else rows - 1), col * c.width + cols - 1).dc)
  }

  function BlockRow(scan: Scan, c: Comp, i: nat, y: nat, col: nat, n: nat): (r: seq<Blk>)
    requires ValidComp(scan, c)
    ensures |r| == n && forall x :: 0 <= x < n ==> r[x] == Block(scan, c, i, y, col, x)
  {
    if n == 0 then [] else BlockRow(scan, c, i, y, col, n - 1) + [Block(scan, c, i, y, col, n - 1)]
  }

  function CompBlocks(scan: Scan, c: Comp, i: nat, yoffset: nat, col: nat, n: nat): (r: seq<Blk>)
    requires ValidComp(scan, c)
  {
    if n == 0 then [] else CompBlocks(scan, c, i, yoffset, col, n - 1) + BlockRow(scan, c, i, yoffset + n - 1, col, c.width)
  }

  function Mcu(scan: Scan, i: nat, yoffset: nat, col: nat, n: nat): (r: seq<Blk>)
    requires ValidScan(scan) && n <= |scan.comps|
  {
    if n == 0 then []
    else Mcu(scan, i, yoffset, col, n - 1) + CompBlocks(scan, scan.comps[n - 1], i, yoffset, col, scan.comps[n - 1].height)
  }

  lemma {:induction false} ComponentSize(scan: Scan, c: Comp, i: nat, yoffset: nat, col: nat, n: nat)
    requires ValidComp(scan, c)
    ensures |CompBlocks(scan, c, i, yoffset, col, n)| == n * c.width
  {
    if n > 0 {
      ComponentSize(scan, c, i, yoffset, col, n - 1);
      OneLess(n, c.width);
    }
  }

  /** An MCU fits into MCU_buffer. */
  lemma {:induction false} McuSize(scan: Scan, i: nat, yoffset: nat, col: nat, n: nat)
    requires ValidScan(scan) && n <= |scan.comps|
    ensures |Mcu(scan, i, yoffset, col, n)| == BlocksInMcu(scan.comps, n)
  {
    if n > 0 {
      McuSize(scan, i, yoffset, col, n - 1);
      ComponentSize(scan, scan.comps[n - 1], i, yoffset, col, scan.comps[n - 1].height);
    }
  }

  /** A dummy block has the DC value of the block before it in the row. */
  lemma {:induction false} RightDummy(scan: Scan, c: Comp, i: nat, y: nat, col: nat, x: nat)
    requires ValidComp(scan, c) && y < RealRows(scan, c, i) && RealCols(scan, c, col) <= x
    ensures Block(scan, c, i, y, col, x) == Dummy(Block(scan, c, i, y, col, x - 1).dc)
  {
  }

  /** A block of a dummy row has the DC value of the last block of the row before. */
  lemma {:induction false} BottomDummy(scan: Scan, c: Comp, i: nat, y: nat, col: nat, x: nat)
    requires ValidComp(scan, c) && RealRows(scan, c, i) <= y
    ensures Block(scan, c, i, y, col, x) == Dummy(Block(scan, c, i, y - 1, col, c.width - 1).dc)
  {
  }

  // ---- compress_data ----

  method OnePassMcu(scan: Scan, i: nat, yoffset: nat, col: nat) returns (mcu: seq<Blk>)
    requires ValidScan(scan) && col < scan.mcusPerRow && yoffset < McuRows(scan, i)
    ensures mcu == Mcu(scan, i, yoffset, col, |scan.comps|)
  {
    mcu := [];
    for ci := 0 to |scan.comps|
      invariant mcu == Mcu(scan, i, yoffset, col, ci)
    {
      mcu := OnePassComponent(scan, scan.comps[ci], i, yoffset, col, mcu);
    }
  }

  method OnePassComponent(scan: Scan, c: Comp, i: nat, yoffset: nat, col: nat, mcu0: seq<Blk>) returns (mcu: seq<Blk>)
    requires ValidComp(scan, c) && col < scan.mcusPerRow && yoffset < RealRows(scan, c, i) && yoffset + c.height <= c.vsamp
    ensures mcu == mcu0 + CompBlocks(scan, c, i, yoffset, col, c.height)
  {
    mcu := mcu0;
    var blockcnt := if col < scan.mcusPerRow - 1 then c.width else c.lastCol;
    for yindex := 0 to c.height
      invariant mcu == mcu0 + CompBlocks(scan, c, i, yoffset, col, yindex)
    {
      ghost var done := CompBlocks(scan, c, i, yoffset, col, yindex);
      if i < scan.totalRows - 1 || yoffset + yindex < c.lastRow {
        mcu := RealRow(scan, c, i, yoffset + yindex, col, blockcnt, mcu);
      } else {
        PreviousRow(scan, c, i, yoffset, col, yindex, mcu0);
        mcu := mcu + Dummies(c.width, mcu[|mcu| - 1].dc);
        BottomRow(scan, c, i, yoffset + yindex, col);
      }
      Assoc(mcu0, done, BlockRow(scan, c, i, yoffset + yindex, col, c.width));
    }
  }

  function Dummies(n: nat, dc: int): (r: seq<Blk>)
    ensures |r| == n && forall x :: 0 <= x < n ==> r[x] == Dummy(dc)
  {
    seq(n, _ => Dummy(dc))
  }

  /** A row of blocks by forward DCT, and dummies at the right edge. */
  method RealRow(scan: Scan, c: Comp, i: nat, y: nat, col: nat, blockcnt: nat, mcu0: seq<Blk>) returns (mcu: seq<Blk>)
    requires ValidComp(scan, c) && y < RealRows(scan, c, i) && blockcnt == RealCols(scan, c, col)
    ensures mcu == mcu0 + BlockRow(scan, c, i, y, col, c.width)
  {
    mcu := mcu0;
    for bi := 0 to c.width
      invariant mcu == mcu0 + BlockRow(scan, c, i, y, col, bi)
    {
      if bi < blockcnt {
        mcu := mcu + [c.blocks(i * c.vsamp + y, col * c.width + bi)];
      } else {
        RightDummy(scan, c, i, y, col, bi);
        mcu := mcu + [Dummy(mcu[|mcu| - 1].dc)];
      }
    }
  }

  /** Before a dummy row there is a row of the same component in the MCU. */
  lemma {:induction false} PreviousRow(scan: Scan, c: Comp, i: nat, yoffset: nat, col: nat, n: nat, before: seq<Blk>)
    requires ValidComp(scan, c) && n > 0
    ensures var mcu := before + CompBlocks(scan, c, i, yoffset, col, n);
            |mcu| > 0 && mcu[|mcu| - 1] == Block(scan, c, i, yoffset + n - 1, col, c.width - 1)
  {
    assert c.width >= 1;
  }

  lemma {:induction false} BottomRow(scan: Scan, c: Comp, i: nat, y: nat, col: nat)
    requires ValidComp(scan, c) && RealRows(scan, c, i) <= y
    ensures Dummies(c.width, Block(scan, c, i, y - 1, col, c.width - 1).dc) == BlockRow(scan, c, i, y, col, c.width)
  {
    forall x | 0 <= x < c.width ensures BlockRow(scan, c, i, y, col, c.width)[x] == Dummy(Block(scan, c, i, y - 1, col, c.width - 1).dc) {
      BottomDummy(scan, c, i, y, col, x);
    }
  }

  // ---- compress_output of the transcoder ----

  method TranscodeMcu(scan: Scan, i: nat, yoffset: nat, col: nat) returns (mcu: seq<Blk>)
    requires ValidScan(scan) && col < scan.mcusPerRow && yoffset < McuRows(scan, i)
    ensures mcu == Mcu(scan, i, yoffset, col, |scan.comps|)
  {
    mcu := [];
    for ci := 0 to |scan.comps|
      invariant mcu == Mcu(scan, i, yoffset, col, ci)
    {
      var c := scan.comps[ci];
      ghost var before := mcu;
      for yindex := 0 to c.height
        invariant mcu == before + CompBlocks(scan, c, i, yoffset, col, yindex)
      {
        ghost var done := CompBlocks(scan, c, i, yoffset, col, yindex);
        if yindex > 0 {
          PreviousRow(scan, c, i, yoffset, col, yindex, before);
        }
        mcu := TranscodeRow(scan, c, i, yoffset + yindex, col, mcu);
        assert mcu == before + (done + BlockRow(scan, c, i, yoffset + yindex, col, c.width));
      }
    }
  }

  /** Pointers to stored blocks, and then dummy blocks that each repeat the DC value before them. */
  method TranscodeRow(scan: Scan, c: Comp, i: nat, y: nat, col: nat, mcu0: seq<Blk>) returns (mcu: seq<Blk>)
    requires ValidComp(scan, c) && y < c.vsamp
    requires y >= RealRows(scan, c, i) ==> |mcu0| > 0 && mcu0[|mcu0| - 1] == Block(scan, c, i, y - 1, col, c.width - 1)
    ensures mcu == mcu0 + BlockRow(scan, c, i, y, col, c.width)
  {
    mcu := mcu0;
    for xindex := 0 to c.width
      invariant mcu == mcu0 + BlockRow(scan, c, i, y, col, xindex)
    {
      ghost var row := BlockRow(scan, c, i, y, col, xindex);
      assert xindex > 0 ==> mcu[|mcu| - 1] == row[xindex - 1];
      var b := TranscodeBlock(scan, c, i, y, col, xindex, mcu);
      mcu := mcu + [b];
    }
  }

  method TranscodeBlock(scan: Scan, c: Comp, i: nat, y: nat, col: nat, x: nat, mcu: seq<Blk>) returns (b: Blk)
    requires ValidComp(scan, c) && y < c.vsamp
    requires x > 0 ==> |mcu| > 0 && mcu[|mcu| - 1] == Block(scan, c, i, y, col, x - 1)
    requires x == 0 && y >= RealRows(scan, c, i) ==> |mcu| > 0 && mcu[|mcu| - 1] == Block(scan, c, i, y - 1, col, c.width - 1)
    ensures b == Block(scan, c, i, y, col, x)
  {
    NextInRow(scan, c, i, y, col, x);
    var blockcnt := if col < scan.mcusPerRow - 1 then c.width else c.lastCol;
    if (i < scan.totalRows - 1 || y < c.lastRow) && x < blockcnt {
      b := c.blocks(i * c.vsamp + y, col * c.width + x);
    } else {
      b := Dummy(mcu[|mcu| - 1].dc);
    }
  }

  lemma {:induction false} NextInRow(scan: Scan, c: Comp, i: nat, y: nat, col: nat, x: nat)
    requires ValidComp(scan, c)
    ensures y < RealRows(scan, c, i) && x < RealCols(scan, c, col) ==> Block(scan, c, i, y, col, x) == c.blocks(i * c.vsamp + y, col * c.width + x)
    ensures y < RealRows(scan, c, i) && x >= RealCols(scan, c, col) ==> x > 0 && Block(scan, c, i, y, col, x) == Dummy(Block(scan, c, i, y, col, x - 1).dc)
    ensures y >= RealRows(scan, c, i) ==>
              y > 0 && Block(scan, c, i, y, col, x) == Dummy((if x > 0 then Block(scan, c, i, y, col, x - 1) else Block(scan, c, i, y - 1, col, c.width - 1)).dc)
  {
  }

  // ---- compress_first_pass and compress_output ----

  /** The first n MCU columns of a block row. */
  function Columns(scan: Scan, c: Comp, i: nat, y: nat, n: nat): (r: seq<Blk>)
    requires ValidComp(scan, c)
    ensures |r| == n * c.width
  {
    if n == 0 then []
    else
      assert n * c.width == (n - 1) * c.width + c.width;
      Columns(scan, c, i, y, n - 1) + BlockRow(scan, c, i, y, n - 1, c.width)
  }

  /** One MCU column of a block row. */
  lemma {:induction false} ColumnOf(scan: Scan, c: Comp, i: nat, y: nat, col: nat, n: nat)
    requires ValidComp(scan, c) && col < n
    ensures col * c.width + c.width <= |Columns(scan, c, i, y, n)|
    ensures Columns(scan, c, i, y, n)[col * c.width..col * c.width + c.width] == BlockRow(scan, c, i, y, col, c.width)
  {
    OneLess(n, c.width);
    var front, all := Columns(scan, c, i, y, n - 1), Columns(scan, c, i, y, n);
    if col < n - 1 {
      ColumnOf(scan, c, i, y, col, n - 1);
      assert all[col * c.width..col * c.width + c.width] == front[col * c.width..col * c.width + c.width];
    } else {
      assert |front| == col * c.width;
    }
  }

  /** All columns but the last consist of blocks of the image. */
  lemma {:induction false} RealColumns(scan: Scan, c: Comp, i: nat, y: nat, n: nat)
    requires ValidComp(scan, c) && n < scan.mcusPerRow && y < RealRows(scan, c, i)
    ensures Columns(scan, c, i, y, n) == seq(n * c.width, x requires 0 <= x => c.blocks(i * c.vsamp + y, x))
  {
    if n > 0 {
      RealColumns(scan, c, i, y, n - 1);
      assert n * c.width == (n - 1) * c.width + c.width;
      var row := BlockRow(scan, c, i, y, n - 1, c.width);
      forall x | 0 <= x < c.width ensures row[x] == c.blocks(i * c.vsamp + y, (n - 1) * c.width + x) {
      }
    }
  }

  /** The blocks of a row by forward DCT, and dummy blocks with the DC value of the last one to make up whole MCUs. */
  method FirstPassRow(whole: Scan, c: Comp, i: nat, y: nat) returns (row: seq<Blk>)
    requires ValidComp(whole, c) && c.width == c.hsamp && y < RealRows(whole, c, i)
    ensures row == Columns(whole, c, i, y, whole.mcusPerRow)
  {
    LastFits(c.across, whole.mcusPerRow - 1, c.hsamp);
    var vsamp, blocks := c.vsamp, c.blocks;
    row := seq(c.across, x requires 0 <= x => blocks(i * vsamp + y, x));
    var ndummy := c.across % c.hsamp;
    if ndummy > 0 {
      ndummy := c.hsamp - ndummy;
    }
    WholeRow(whole, c, i, y);
    row := row + Dummies(ndummy, row[|row| - 1].dc);
  }

  /** The last MCU column reaches into the image by lastCol blocks. */
  lemma {:induction false} LastColumn(whole: Scan, c: Comp, i: nat, y: nat, n: nat, row: seq<Blk>)
    requires ValidComp(whole, c) && y < RealRows(whole, c, i) && n == whole.mcusPerRow && row == BlockRow(whole, c, i, y, n - 1, c.width)
    ensures c.across == (n - 1) * c.width + c.lastCol && |row| == c.width
    ensures forall x :: 0 <= x < c.lastCol ==> row[x] == c.blocks(i * c.vsamp + y, (n - 1) * c.width + x)
    ensures forall x :: c.lastCol <= x < c.width ==> row[x] == Dummy(c.blocks(i * c.vsamp + y, c.across - 1).dc)
  {
  }

  /** A row above the bottom edge: the blocks of the image, and dummy blocks that repeat the last DC value. */
  lemma {:induction false} WholeRow(whole: Scan, c: Comp, i: nat, y: nat)
    requires ValidComp(whole, c) && y < RealRows(whole, c, i)
    ensures c.across > 0
    ensures Columns(whole, c, i, y, whole.mcusPerRow)
            == seq(c.across, x requires 0 <= x => c.blocks(i * c.vsamp + y, x))
               + Dummies(c.width - c.lastCol, c.blocks(i * c.vsamp + y, c.across - 1).dc)
  {
    var n := whole.mcusPerRow;
    RealColumns(whole, c, i, y, n - 1);
    LastColumn(whole, c, i, y, n, BlockRow(whole, c, i, y, n - 1, c.width));
  }

  /** A row of dummy blocks below the image: within each MCU they repeat the DC value of the last block of the row above. */
  method FirstPassDummyRow(whole: Scan, c: Comp, i: nat, y: nat, above: seq<Blk>, mcusAcross: nat) returns (row: seq<Blk>)
    requires ValidComp(whole, c) && c.width == c.hsamp && RealRows(whole, c, i) <= y && mcusAcross == whole.mcusPerRow
    requires above == Columns(whole, c, i, y - 1, whole.mcusPerRow)
    ensures row == Columns(whole, c, i, y, whole.mcusPerRow)
  {
    row := [];
    var at := 0;
    for mcuIndex := 0 to mcusAcross
      invariant at == mcuIndex * c.width && row == Columns(whole, c, i, y, mcuIndex)
    {
      ColumnOf(whole, c, i, y - 1, mcuIndex, whole.mcusPerRow);
      var column := above[at..at + c.width];
      assert column[c.width - 1] == above[at + c.width - 1];
      BottomRow(whole, c, i, y, mcuIndex);
      row := row + Dummies(c.width, above[at + c.hsamp - 1].dc);
      at := at + c.width;
      OneLess(mcuIndex + 1, c.width);
    }
  }

  /** The blocks of one component in one iMCU row, as stored in its virtual array. */
  type Strip = seq<seq<Blk>>

  /** Whole MCUs of the interleaved grid, with dummy blocks at the right and at the bottom, whatever the scan. */
  predicate StripOk(whole: Scan, c: Comp, i: nat, strip: Strip)
    requires ValidComp(whole, c)
  {
    |strip| == c.vsamp && forall y :: 0 <= y < c.vsamp ==> strip[y] == Columns(whole, c, i, y, whole.mcusPerRow)
  }

  /** The rows of one component; sizes are taken from the image alone, not from the scan. */
  method FirstPassStrip(whole: Scan, c: Comp, i: nat) returns (strip: Strip)
    requires ValidComp(whole, c) && c.width == c.hsamp && i < whole.totalRows
    ensures StripOk(whole, c, i, strip)
  {
    LastFits(c.down, whole.totalRows - 1, c.vsamp);
    var blockRows := c.vsamp;
    if i == whole.totalRows - 1 {
      blockRows := c.down % c.vsamp;
      if blockRows == 0 {
        blockRows := c.vsamp;
      }
    }
    strip := [];
    for y := 0 to blockRows
      invariant |strip| == y && forall k :: 0 <= k < y ==> strip[k] == Columns(whole, c, i, k, whole.mcusPerRow)
    {
      var row := FirstPassRow(whole, c, i, y);
      strip := strip + [row];
    }
    if i == whole.totalRows - 1 {
      strip := FirstPassBottom(whole, c, i, strip);
    }
  }

  /** The dummy rows at the bottom of the image. */
  method FirstPassBottom(whole: Scan, c: Comp, i: nat, strip0: Strip) returns (strip: Strip)
    requires ValidComp(whole, c) && c.width == c.hsamp && |strip0| == RealRows(whole, c, i)
    requires forall y :: 0 <= y < |strip0| ==> strip0[y] == Columns(whole, c, i, y, whole.mcusPerRow)
    ensures StripOk(whole, c, i, strip)
  {
    var mcusAcross := McusAcross(whole, c);
    strip := strip0;
    for y := |strip0| to c.vsamp
      invariant |strip| == y && forall k :: 0 <= k < y ==> strip[k] == Columns(whole, c, i, k, whole.mcusPerRow)
    {
      var row := FirstPassDummyRow(whole, c, i, y, strip[y - 1], mcusAcross);
      strip := strip + [row];
    }
  }

  /** MCU columns, from the width in blocks. */
  method McusAcross(whole: Scan, c: Comp) returns (n: nat)
    requires ValidComp(whole, c) && c.width == c.hsamp
    ensures n == whole.mcusPerRow
  {
    LastFits(c.across, whole.mcusPerRow - 1, c.hsamp);
    var ndummy := c.across % c.hsamp;
    if ndummy > 0 {
      ndummy := c.hsamp - ndummy;
    }
    n := (c.across + ndummy) / c.hsamp;
    assert c.across + ndummy == whole.mcusPerRow * c.hsamp by {
      OneLess(whole.mcusPerRow, c.hsamp);
    }
    Quotient(whole.mcusPerRow, c.hsamp);
  }

  lemma {:induction false} Quotient(k: nat, w: nat)
    requires w >= 1
    ensures (k * w) / w == k
  {
    var d, m := (k * w) / w, (k * w) % w;
    assert k * w == d * w + m;
    if d < k {
      Grows2(d + 1, k, w);
    } else if d > k {
      Grows2(k + 1, d, w);
    }
  }

  predicate Chosen(whole: Scan, chosen: seq<nat>) { |chosen| >= 1 && forall k :: 0 <= k < |chosen| ==> chosen[k] < |whole.comps| }

  /** The strips of all components of the frame. */
  predicate StripsOk(whole: Scan, i: nat, strips: seq<Strip>)
    requires ValidFrame(whole)
  {
    |strips| == |whole.comps| && forall ci :: 0 <= ci < |strips| ==> StripOk(whole, whole.comps[ci], i, strips[ci])
  }

  /** compress_output of the two-step controller: the MCUs of any scan are cut out of the strips. */
  method OutputMcu(whole: Scan, chosen: seq<nat>, scan: Scan, strips: seq<Strip>, i: nat, yoffset: nat, col: nat) returns (mcu: seq<Blk>)
    requires ValidFrame(whole) && Chosen(whole, chosen) && scan == ScanOf(whole, chosen) && ValidScan(scan)
    requires col < scan.mcusPerRow && yoffset < McuRows(scan, i) && StripsOk(whole, i, strips)
    ensures mcu == Mcu(scan, i, yoffset, col, |scan.comps|)
  {
    mcu := [];
    for k := 0 to |scan.comps|
      invariant mcu == Mcu(scan, i, yoffset, col, k)
    {
      mcu := OutputRows(whole, chosen, scan, k, strips[chosen[k]], i, yoffset, col, mcu);
    }
  }

  method OutputRows(whole: Scan, chosen: seq<nat>, scan: Scan, k: nat, strip: Strip, i: nat, yoffset: nat, col: nat, mcu0: seq<Blk>)
    returns (mcu: seq<Blk>)
    requires ValidFrame(whole) && Chosen(whole, chosen) && scan == ScanOf(whole, chosen) && ValidScan(scan) && k < |chosen|
    requires col < scan.mcusPerRow && yoffset < McuRows(scan, i) && StripOk(whole, whole.comps[chosen[k]], i, strip)
    ensures mcu == mcu0 + CompBlocks(scan, scan.comps[k], i, yoffset, col, scan.comps[k].height)
  {
    var c := scan.comps[k];
    mcu := mcu0;
    for yindex := 0 to c.height
      invariant mcu == mcu0 + CompBlocks(scan, c, i, yoffset, col, yindex)
    {
      ghost var done := CompBlocks(scan, c, i, yoffset, col, yindex);
      var cut := OutputRow(whole, chosen, scan, k, strip, i, yoffset + yindex, col);
      mcu := mcu + cut;
      Assoc(mcu0, done, cut);
    }
  }

  /** Pointers to the blocks of an MCU in a row. */
  method OutputRow(whole: Scan, chosen: seq<nat>, scan: Scan, k: nat, strip: Strip, i: nat, y: nat, col: nat) returns (cut: seq<Blk>)
    requires ValidFrame(whole) && Chosen(whole, chosen) && scan == ScanOf(whole, chosen) && ValidScan(scan) && k < |chosen|
    requires col < scan.mcusPerRow && y < whole.comps[chosen[k]].vsamp && StripOk(whole, whole.comps[chosen[k]], i, strip)
    requires !Interleaved(scan) ==> y < RealRows(scan, scan.comps[0], i)
    ensures cut == BlockRow(scan, scan.comps[k], i, y, col, scan.comps[k].width)
  {
    CutOut(whole, chosen, scan, k, i, y, col);
    var row, startCol, n := strip[y], col * scan.comps[k].width, scan.comps[k].width;
    cut := [];
    for xindex := 0 to n
      invariant cut == row[startCol..startCol + xindex]
    {
      cut := cut + [row[startCol + xindex]];
    }
  }

  /** The blocks of an MCU column of any scan stand together in a row of the virtual array. */
  lemma {:induction false} CutOut(whole: Scan, chosen: seq<nat>, scan: Scan, k: nat, i: nat, y: nat, col: nat)
    requires ValidFrame(whole) && Chosen(whole, chosen) && scan == ScanOf(whole, chosen) && ValidScan(scan) && k < |chosen|
    requires col < scan.mcusPerRow && (!Interleaved(scan) ==> y < RealRows(scan, scan.comps[0], i))
    ensures var row, c := Columns(whole, whole.comps[chosen[k]], i, y, whole.mcusPerRow), scan.comps[k];
            col * c.width + c.width <= |row| && row[col * c.width..col * c.width + c.width] == BlockRow(scan, c, i, y, col, c.width)
  {
    var c := whole.comps[chosen[k]];
    if Interleaved(scan) {
      ColumnOf(whole, c, i, y, col, whole.mcusPerRow);
      SameGrid(whole, scan, c, i, y, col, c.width);
    } else {
      assert c.height >= 1;
      WholeRow(whole, c, i, y);
      var row := Columns(whole, c, i, y, whole.mcusPerRow);
      assert row[col] == c.blocks(i * c.vsamp + y, col);
    }
  }

  lemma {:induction false} SameGrid(whole: Scan, scan: Scan, c: Comp, i: nat, y: nat, col: nat, n: nat)
    requires ValidComp(whole, c) && ValidComp(scan, c) && whole.mcusPerRow == scan.mcusPerRow && whole.totalRows == scan.totalRows
    ensures BlockRow(whole, c, i, y, col, n) == BlockRow(scan, c, i, y, col, n)
  {
    if n > 0 {
      SameGrid(whole, scan, c, i, y, col, n - 1);
    }
  }

  // ---- Whole scans ----

  /** The MCUs before MCU column `col` of MCU row `yoffset` of iMCU row i, in order. */
  function Stream(scan: Scan, i: nat, yoffset: nat, col: nat): (mcus: seq<seq<Blk>>)
    requires ValidScan(scan)
    decreases i, yoffset, col
  {
    if col > 0 then Stream(scan, i, yoffset, col - 1) + [Mcu(scan, i, yoffset, col - 1, |scan.comps|)]
    else if yoffset > 0 then Stream(scan, i, yoffset - 1, scan.mcusPerRow)
    else if i > 0 then Stream(scan, i - 1, McuRows(scan, i - 1), 0)
    else []
  }

  /** compress_data, compress_first_pass, compress_output, and the transcoder's compress_output. */
  datatype Mode = PassThru | SaveAndPass | CrankDest | Transcode

  class CoefController {
    /** All components, and the scan of the current pass. */
    const whole: Scan
    var chosen: seq<nat>
    var scan: Scan
    var mode: Mode
    var imcuRowNum: nat
    var mcuCtr: nat
    var mcuVertOffset: nat
    var mcuRowsPerImcuRow: nat
    /** The virtual arrays: the strips of all components, by iMCU row. */
    var stored: seq<seq<Strip>>
    /** What the entropy coder has accepted in this pass. */
    var sent: seq<seq<Blk>>

    ghost predicate Stored()
      requires ValidFrame(whole)
      reads this
    {
      && (forall i :: 0 <= i < |stored| ==> StripsOk(whole, i, stored[i]))
      && (mode == CrankDest ==> |stored| == whole.totalRows)
      && (mode == SaveAndPass ==> imcuRowNum <= |stored| <= whole.totalRows)
    }

    /** Scan and strips do not change while MCUs of iMCU row i are handed over. */
    ghost predicate Fixed(i: nat)
      reads this
    {
      && ValidFrame(whole) && Chosen(whole, chosen) && scan == ScanOf(whole, chosen) && ValidScan(scan) && Stored()
      && imcuRowNum == i <= scan.totalRows && mcuRowsPerImcuRow == McuRows(scan, i)
    }

    /** The entropy coder has accepted the MCUs before the current one, in every mode. */
    ghost predicate Valid()
      reads this
    {
      && Fixed(imcuRowNum) && mcuVertOffset < mcuRowsPerImcuRow && mcuCtr < scan.mcusPerRow
      && sent == Stream(scan, imcuRowNum, mcuVertOffset, mcuCtr)
    }

    constructor (whole: Scan)
      requires ValidFrame(whole)
      ensures this.whole == whole && stored == []
    {
      this.whole := whole;
      stored := [];
    }

    /** per_scan_setup and start_pass_coef; a pass from the virtual arrays needs them to be full. */
    method StartPass(mode: Mode, chosen: seq<nat>) returns (ok: bool)
      requires ValidFrame(whole) && Named(whole, chosen) && (mode == CrankDest ==> |stored| == whole.totalRows)
      requires |stored| <= whole.totalRows && forall i :: 0 <= i < |stored| ==> StripsOk(whole, i, stored[i])
      modifies this
      ensures ok == Allowed(whole, chosen) && stored == old(stored)
      ensures ok ==> Valid() && this.mode == mode && this.chosen == chosen && imcuRowNum == 0
    {
      var s, membership;
      ok, s, membership := PerScanSetup(whole, chosen);
      if ok {
        this.mode, this.chosen, scan := mode, chosen, s;
        assert ValidComp(scan, scan.comps[0]);
        imcuRowNum := 0;
        StartRow();
        sent := [];
      }
    }

    /** start_iMCU_row. */
    method StartRow()
      requires ValidScan(scan)
      modifies this`mcuRowsPerImcuRow, this`mcuCtr, this`mcuVertOffset
      ensures mcuRowsPerImcuRow == McuRows(scan, imcuRowNum) && mcuCtr == mcuVertOffset == 0
    {
      if |scan.comps| > 1 {
        mcuRowsPerImcuRow := 1;
      } else if imcuRowNum < scan.totalRows - 1 {
        mcuRowsPerImcuRow := scan.comps[0].vsamp;
      } else {
        mcuRowsPerImcuRow := scan.comps[0].lastRow;
      }
      mcuCtr, mcuVertOffset := 0, 0;
    }

    /** The storing part of compress_first_pass, done again after a suspension. */
    method Store()
      requires ValidFrame(whole) && imcuRowNum < whole.totalRows && imcuRowNum <= |stored| <= whole.totalRows
      requires forall i :: 0 <= i < |stored| ==> StripsOk(whole, i, stored[i])
      modifies this`stored
      ensures imcuRowNum < |stored| <= whole.totalRows && forall i :: 0 <= i < |stored| ==> StripsOk(whole, i, stored[i])
    {
      var strips := [];
      for ci := 0 to |whole.comps|
        invariant stored == old(stored) && |strips| == ci
        invariant forall k :: 0 <= k < ci ==> StripOk(whole, whole.comps[k], imcuRowNum, strips[k])
      {
        var strip := FirstPassStrip(whole, whole.comps[ci], imcuRowNum);
        strips := strips + [strip];
      }
      if imcuRowNum < |stored| {
        stored := stored[imcuRowNum := strips];
      } else {
        stored := stored + [strips];
      }
    }

    method MakeMcu(yoffset: nat, col: nat) returns (mcu: seq<Blk>)
      requires Fixed(imcuRowNum) && col < scan.mcusPerRow && yoffset < mcuRowsPerImcuRow && imcuRowNum < scan.totalRows
      requires mode == SaveAndPass ==> imcuRowNum < |stored|
      ensures mcu == Mcu(scan, imcuRowNum, yoffset, col, |scan.comps|)
    {
      match mode
      case PassThru => mcu := OnePassMcu(scan, imcuRowNum, yoffset, col);
      case Transcode => mcu := TranscodeMcu(scan, imcuRowNum, yoffset, col);
      case _ => mcu := OutputMcu(whole, chosen, scan, stored[imcuRowNum], imcuRowNum, yoffset, col);
    }

    /**
      One call for an iMCU row. The entropy coder accepts `budget` MCUs and then asks for suspension: the call is
      finished if the row is, and otherwise it has handed over exactly that many.
    */
    method CompressData(budget: nat) returns (done: bool)
      requires Valid() && imcuRowNum < scan.totalRows
      modifies this
      ensures Valid() && scan == old(scan) && chosen == old(chosen) && mode == old(mode)
      ensures if done then imcuRowNum == old(imcuRowNum) + 1 && mcuCtr == mcuVertOffset == 0 && |sent| <= |old(sent)| + budget
              else imcuRowNum == old(imcuRowNum) && |sent| == |old(sent)| + budget
                   && (budget > 0 ==> mcuVertOffset > old(mcuVertOffset) || (mcuVertOffset == old(mcuVertOffset) && mcuCtr > old(mcuCtr)))
      ensures if mode == SaveAndPass then |stored| > old(imcuRowNum) else stored == old(stored)
    {
      if mode == SaveAndPass {
        Store();
      }
      done := HandOver(budget);
      if done {
        imcuRowNum := imcuRowNum + 1;
        assert ValidComp(scan, scan.comps[0]);
        StartRow();
      }
    }

    /** The loops over the MCUs of an iMCU row. */
    method HandOver(budget: nat) returns (done: bool)
      requires Valid() && imcuRowNum < scan.totalRows && (mode == SaveAndPass ==> imcuRowNum < |stored|)
      modifies this`mcuCtr, this`mcuVertOffset, this`sent
      ensures if done then sent == Stream(scan, imcuRowNum, mcuRowsPerImcuRow, 0) && |sent| <= |old(sent)| + budget
              else Valid() && |sent| == |old(sent)| + budget
                   && (budget > 0 ==> mcuVertOffset > old(mcuVertOffset) || (mcuVertOffset == old(mcuVertOffset) && mcuCtr > old(mcuCtr)))
    {
      var yoffset, limit := mcuVertOffset, |sent| + budget;
      while yoffset < mcuRowsPerImcuRow
        invariant old(mcuVertOffset) <= yoffset <= mcuRowsPerImcuRow && mcuCtr < scan.mcusPerRow && mcuVertOffset == old(mcuVertOffset)
        invariant sent == Stream(scan, imcuRowNum, yoffset, mcuCtr) && (yoffset == mcuRowsPerImcuRow ==> mcuCtr == 0)
        invariant |old(sent)| <= |sent| <= |old(sent)| + budget
        invariant yoffset == old(mcuVertOffset) ==> mcuCtr == old(mcuCtr) && sent == old(sent)
      {
        var stopped := HandOverRow(yoffset, limit);
        if stopped {
          mcuVertOffset := yoffset;
          return false;
        }
        yoffset := yoffset + 1;
      }
      done := true;
    }

    /** One MCU row, until the entropy coder has accepted `limit` MCUs in all. */
    method HandOverRow(yoffset: nat, limit: nat) returns (stopped: bool)
      requires Fixed(imcuRowNum) && imcuRowNum < scan.totalRows && (mode == SaveAndPass ==> imcuRowNum < |stored|)
      requires yoffset < mcuRowsPerImcuRow && mcuCtr < scan.mcusPerRow && |sent| <= limit
      requires sent == Stream(scan, imcuRowNum, yoffset, mcuCtr)
      modifies this`mcuCtr, this`sent
      ensures if stopped then |sent| == limit && old(mcuCtr) <= mcuCtr < scan.mcusPerRow && sent == Stream(scan, imcuRowNum, yoffset, mcuCtr)
                              && (mcuCtr == old(mcuCtr) ==> sent == old(sent))
              else mcuCtr == 0 && |old(sent)| < |sent| <= limit && sent == Stream(scan, imcuRowNum, yoffset + 1, 0)
    {
      var col := mcuCtr;
      while col < scan.mcusPerRow
        invariant old(mcuCtr) <= col <= scan.mcusPerRow && mcuCtr == old(mcuCtr) && |sent| == |old(sent)| + col - old(mcuCtr) <= limit
        invariant sent == Stream(scan, imcuRowNum, yoffset, col) && (col == old(mcuCtr) ==> sent == old(sent))
      {
        var mcu := MakeMcu(yoffset, col);
        if |sent| == limit {
          mcuCtr := col;
          return true;
        }
        sent := sent + [mcu];
        col := col + 1;
      }
      mcuCtr, stopped := 0, false;
    }

    /** A whole pass; the entropy coder suspends the controller as the budgets say, and then after every MCU. */
    method RunPass(budgets: seq<nat>)
      requires Valid() && imcuRowNum == 0
      modifies this
      ensures scan == old(scan) && chosen == old(chosen) && mode == old(mode) && sent == AllMcus(scan)
      ensures if mode == SaveAndPass then |stored| == whole.totalRows else stored == old(stored)
      ensures ValidFrame(whole) && forall i :: 0 <= i < |stored| ==> StripsOk(whole, i, stored[i])
    {
      var n := 0;
      while imcuRowNum < scan.totalRows
        invariant Valid() && scan == old(scan) && chosen == old(chosen) && mode == old(mode) && n <= |budgets|
        invariant if mode == SaveAndPass then imcuRowNum <= |stored| <= whole.totalRows else stored == old(stored)
        invariant imcuRowNum == scan.totalRows ==> mcuCtr == mcuVertOffset == 0
        decreases |budgets| - n, scan.totalRows - imcuRowNum, scan.comps[0].vsamp + 1 - mcuVertOffset, scan.mcusPerRow - mcuCtr
      {
        assert ValidComp(scan, scan.comps[0]);
        var budget := 1;
        if n < |budgets| {
          budget := budgets[n];
          n := n + 1;
        }
        var done := CompressData(budget);
        assert mcuVertOffset <= scan.comps[0].vsamp;
      }
    }
  }

  predicate Named(whole: Scan, chosen: seq<nat>) { forall k :: 0 <= k < |chosen| ==> chosen[k] < |whole.comps| }

  /** A scan of these components is possible. */
  predicate Allowed(whole: Scan, chosen: seq<nat>)
    requires Named(whole, chosen)
  {
    1 <= |chosen| <= 4 && (|chosen| > 1 ==> BlocksInMcu(ScanOf(whole, chosen).comps, |chosen|) <= 10)
  }

  /** All MCUs of a scan, in order. */
  function AllMcus(scan: Scan): (mcus: seq<seq<Blk>>)
    requires ValidScan(scan)
  {
    Stream(scan, scan.totalRows, 0, 0)
  }

  datatype Kind = OnePass | TwoStep | Transcoder

  /**
    All scans of an image. In the two-step case the virtual arrays are filled once, in the first pass, and read in
    every pass, whatever its components. Each controller hands over the same MCUs.
  */
  method CompressImage(image: Image, kind: Kind, scans: seq<seq<nat>>, budgets: seq<nat>) returns (ok: bool, passes: seq<seq<seq<Blk>>>)
    requires forall p, k :: 0 <= p < |scans| && 0 <= k < |scans[p]| ==> scans[p][k] < |image.components|
    ensures ok == (Legal(image) && forall p :: 0 <= p < |scans| ==> Allowed(Whole(image), scans[p]))
    ensures ok ==> |passes| == |scans|
    ensures ok ==> forall p :: 0 <= p < |scans| ==>
                     ValidScan(ScanOf(Whole(image), scans[p])) && passes[p] == AllMcus(ScanOf(Whole(image), scans[p]))
  {
    passes := [];
    var whole;
    ok, whole := InitialSetup(image);
    if !ok {
      return;
    }
    WholeIsFrame(image);
    var c := new CoefController(whole);
    for p := 0 to |scans|
      invariant fresh(c) && c.whole == whole && |passes| == p && ok
      invariant if kind == TwoStep && p > 0 then |c.stored| == whole.totalRows else c.stored == []
      invariant forall i :: 0 <= i < |c.stored| ==> StripsOk(whole, i, c.stored[i])
      invariant forall q :: 0 <= q < p ==>
                  Allowed(whole, scans[q]) && ValidScan(ScanOf(whole, scans[q])) && passes[q] == AllMcus(ScanOf(whole, scans[q]))
    {
      var mode := match kind
                  case OnePass => PassThru
                  case Transcoder => Transcode
                  case TwoStep => if p == 0 then SaveAndPass else CrankDest;
      ok := c.StartPass(mode, scans[p]);
      if !ok {
        return;
      }
      c.RunPass(budgets);
      passes := passes + [c.sent];
    }
  }
}
