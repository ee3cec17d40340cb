/**
  Sizes in blocks and MCUs: initial_setup and per_scan_setup of jcmaster.c. For every image size and all legal sampling
  factors the numbers fit together: the blocks of a component make up whole MCU columns and rows but for the last ones.
*/
module ImageLayout {

  const MAX_SAMP_FACTOR: nat := 4
  const MAX_COMPONENTS: nat := 10
  const MAX_COMPS_IN_SCAN: nat := 4
  const C_MAX_BLOCKS_IN_MCU: nat := 10
  const JPEG_MAX_DIMENSION: nat := 65500

  /** A block: its DC value, and a name for its AC values; 0 means that these are all zero. */
  datatype Blk = Blk(dc: int, ac: int)

  /** A component of an image: sampling factors, and its quantised blocks by row and column. */
  datatype Component = Component(h: nat, v: nat, blocks: (nat, nat) -> Blk)

  datatype Image = Image(width: nat, height: nat, blockSize: nat, components: seq<Component>)

  /** A component in a grid of MCUs: its blocks in an MCU, in the last MCU column and iMCU row, and in all. */
  datatype Comp = Comp(width: nat, height: nat, lastCol: nat, lastRow: nat, hsamp: nat, vsamp: nat,
                       across: nat, down: nat, blocks: (nat, nat) -> Blk)

  datatype Scan = Scan(comps: seq<Comp>, mcusPerRow: nat, totalRows: nat)

  predicate Interleaved(scan: Scan) { |scan.comps| > 1 }

  /** All MCU columns and iMCU rows but the last ones are full. */
  predicate ValidComp(scan: Scan, c: Comp)
  {
    && scan.mcusPerRow >= 1 && scan.totalRows >= 1 && c.hsamp >= 1 && c.height >= 1
    && 1 <= c.lastCol <= c.width && c.across == (scan.mcusPerRow - 1) * c.width + c.lastCol
    && 1 <= c.lastRow <= c.vsamp && c.down == (scan.totalRows - 1) * c.vsamp + c.lastRow
  }

  /** In an interleaved scan sampling factors give the blocks of an MCU; otherwise an MCU is one block. */
  predicate Arranged(scan: Scan, c: Comp)
  {
    if Interleaved(scan) then c.width == c.hsamp && c.height == c.vsamp else c.width == c.height == 1
  }

  predicate ValidScan(scan: Scan)
  {
    |scan.comps| >= 1 && forall i :: 0 <= i < |scan.comps| ==> ValidComp(scan, scan.comps[i]) && Arranged(scan, scan.comps[i])
  }

  // ---- initial_setup ----

  function DivRoundUp(a: nat, b: nat): (q: nat)
    requires b > 0
  {
    (a + b - 1) / b
  }

  lemma {:induction false} RoundUpMeans(a: nat, b: nat)
    requires b > 0
    ensures var q := DivRoundUp(a, b); a <= q * b < a + b
  {
    var q, r := (a + b - 1) / b, (a + b - 1) % b;
    assert a + b - 1 == q * b + r;
  }

  function Larger(a: nat, b: nat): (m: nat) { if a < b then b else a }

  function MaxH(comps: seq<Component>): (m: nat)
    ensures m >= 1 && forall i :: 0 <= i < |comps| ==> comps[i].h <= m
  {
    if comps == [] then 1 else Larger(MaxH(comps[..|comps| - 1]), comps[|comps| - 1].h)
  }

  function MaxV(comps: seq<Component>): (m: nat)
    ensures m >= 1 && forall i :: 0 <= i < |comps| ==> comps[i].v <= m
  {
    if comps == [] then 1 else Larger(MaxV(comps[..|comps| - 1]), comps[|comps| - 1].v)
  }

  predicate LegalFactors(c: Component) { 1 <= c.h <= MAX_SAMP_FACTOR && 1 <= c.v <= MAX_SAMP_FACTOR }

  predicate Legal(image: Image)
  {
    && 1 <= image.width <= JPEG_MAX_DIMENSION && 1 <= image.height <= JPEG_MAX_DIMENSION && 1 <= image.blockSize <= 16
    && 1 <= |image.components| <= MAX_COMPONENTS
    && forall i :: 0 <= i < |image.components| ==> LegalFactors(image.components[i])
  }

  /** Samples across and down an iMCU. */
  function UnitWidth(image: Image): (w: nat)
    ensures image.blockSize >= 1 ==> w >= 1
  {
    MaxH(image.components) * image.blockSize
  }

  function UnitHeight(image: Image): (w: nat)
    ensures image.blockSize >= 1 ==> w >= 1
  {
    MaxV(image.components) * image.blockSize
  }

  /** The part of the last unit of w that n reaches into. */
  function Last(n: nat, w: nat): (r: nat)
    requires w > 0
    ensures 1 <= r <= w
  {
    if n % w == 0 then w else n % w
  }

  /** A component in the grid of fully interleaved MCUs, by which the virtual arrays are laid out. */
  function Plane(image: Image, c: Component): (r: Comp)
    requires Legal(image) && LegalFactors(c)
  {
    var across, down := DivRoundUp(image.width * c.h, UnitWidth(image)), DivRoundUp(image.height * c.v, UnitHeight(image));
    Comp(c.h, c.v, Last(across, c.h), Last(down, c.v), c.h, c.v, across, down, c.blocks)
  }

  function Planes(image: Image, n: nat): (r: seq<Comp>)
    requires Legal(image) && n <= |image.components|
    ensures |r| == n && forall i :: 0 <= i < n ==> r[i] == Plane(image, image.components[i])
  {
    if n == 0 then [] else Planes(image, n - 1) + [Plane(image, image.components[n - 1])]
  }

  /** All components in the grid of fully interleaved MCUs. */
  function Whole(image: Image): (r: Scan)
    requires Legal(image)
    ensures |r.comps| == |image.components| && forall i :: 0 <= i < |r.comps| ==> r.comps[i] == Plane(image, image.components[i])
  {
    Scan(Planes(image, |image.components|), DivRoundUp(image.width, UnitWidth(image)), DivRoundUp(image.height, UnitHeight(image)))
  }

  lemma {:induction false} MulLess(a: nat, b: nat, w: nat)
    requires a * w < b * w
    ensures a < b
  {
    if a >= b {
      Grows2(b, a, w);
    }
  }

  lemma {:induction false} SwapFactors(a: nat, b: nat, c: nat)
    ensures (a * b) * c == (a * c) * b
  {
  }

  /** With s samples per unit of w blocks, the blocks that n samples need are those of n / s units, rounded up, but for the last. */
  lemma {:induction false} UnitsFit(n: nat, s: nat, w: nat)
    requires n >= 1 && s >= 1 && w >= 1
    ensures var units, blocks := DivRoundUp(n, s), DivRoundUp(n * w, s);
            units >= 1 && (units - 1) * w < blocks <= units * w
  {
    var units, blocks := DivRoundUp(n, s), DivRoundUp(n * w, s);
    RoundUpMeans(n, s);
    RoundUpMeans(n * w, s);
    OneLess(units, s);
    UnitsBelow(units - 1, n, s, w, blocks);
    UnitsAbove(units, n, s, w, blocks);
  }

  lemma {:induction false} OneLess(k: nat, s: nat)
    requires k >= 1
    ensures (k - 1) * s + s == k * s
  {
  }

  lemma {:induction false} UnitsBelow(k: nat, n: nat, s: nat, w: nat, blocks: nat)
    requires k * s < n && n * w <= blocks * s && w >= 1
    ensures k * w < blocks
  {
    Grows(k * s, n, w);
    SwapFactors(k, s, w);
    MulLess(k * w, blocks, s);
  }

  lemma {:induction false} UnitsAbove(k: nat, n: nat, s: nat, w: nat, blocks: nat)
    requires n <= k * s && blocks * s < n * w + s
    ensures blocks <= k * w
  {
    Grows2(n, k * s, w);
    SwapFactors(k, s, w);
    OneLess(k * w + 1, s);
    MulLess(blocks, k * w + 1, s);
  }

  lemma {:induction false} Grows(a: nat, b: nat, w: nat)
    requires a < b && w >= 1
    ensures a * w < b * w
  {
    assert (b - a) * w >= 1;
  }

  lemma {:induction false} Grows2(a: nat, b: nat, w: nat)
    requires a <= b
    ensures a * w <= b * w
  {
    assert (b - a) * w >= 0;
  }

  /** Quotient and remainder. */
  lemma {:induction false} LastFits(n: nat, k: nat, w: nat)
    requires w >= 1 && k * w < n <= k * w + w
    ensures n == k * w + Last(n, w)
  {
    var d, m := n / w, n % w;
    assert n == d * w + m;
    if d < k {
      Grows2(d + 1, k, w);
    } else if d > k {
      Grows2(k + 1, d, w);
    }
  }

  /** Units and the last one of them, for n samples in units of s samples and w blocks. */
  lemma {:induction false} BlocksFit(n: nat, s: nat, w: nat)
    requires n >= 1 && s >= 1 && w >= 1
    ensures var units, blocks := DivRoundUp(n, s), DivRoundUp(n * w, s);
            units >= 1 && blocks == (units - 1) * w + Last(blocks, w)
  {
    var units, blocks := DivRoundUp(n, s), DivRoundUp(n * w, s);
    UnitsFit(n, s, w);
    assert units * w == (units - 1) * w + w;
    LastFits(blocks, units - 1, w);
  }

  /** For every image size and all legal sampling factors the planes fit into the grid. */
  lemma {:induction false} PlaneFits(image: Image, c: Component)
    requires Legal(image) && LegalFactors(c)
    ensures ValidComp(Whole(image), Plane(image, c))
  {
    BlocksFit(image.width, UnitWidth(image), c.h);
    BlocksFit(image.height, UnitHeight(image), c.v);
  }

  /** initial_setup: fails exactly on an illegal image. */
  method InitialSetup(image: Image) returns (ok: bool, whole: Scan)
    ensures ok == Legal(image)
    ensures ok == (1 <= image.width <= 65500 && 1 <= image.height <= 65500 && 1 <= image.blockSize <= 16
                   && 1 <= |image.components| <= 10
                   && forall i :: 0 <= i < |image.components| ==> 1 <= image.components[i].h <= 4 && 1 <= image.components[i].v <= 4)
    ensures ok ==> whole == Whole(image)
  {
    whole := Scan([], 0, 0);
    if !(1 <= image.blockSize <= 16) || image.height == 0 || image.width == 0 || |image.components| == 0
       || image.height > JPEG_MAX_DIMENSION || image.width > JPEG_MAX_DIMENSION || |image.components| > MAX_COMPONENTS {
      return false, whole;
    }
    var maxH, maxV := 1, 1;
    for ci := 0 to |image.components|
      invariant maxH == MaxH(image.components[..ci]) && maxV == MaxV(image.components[..ci])
      invariant forall i :: 0 <= i < ci ==> LegalFactors(image.components[i])
    {
      var c := image.components[ci];
      if c.h == 0 || c.h > MAX_SAMP_FACTOR || c.v == 0 || c.v > MAX_SAMP_FACTOR {
        return false, whole;
      }
      assert image.components[..ci + 1][..ci] == image.components[..ci];
      maxH, maxV := Larger(maxH, c.h), Larger(maxV, c.v);
    }
    assert image.components[..|image.components|] == image.components;
    ok := true;
    whole := Dimensions(image, maxH * image.blockSize, maxV * image.blockSize);
  }

  /** Dimensions in blocks and MCUs. */
  method Dimensions(image: Image, unitWidth: nat, unitHeight: nat) returns (whole: Scan)
    requires Legal(image) && unitWidth == UnitWidth(image) && unitHeight == UnitHeight(image)
    ensures whole == Whole(image)
  {
    var comps := [];
    for ci := 0 to |image.components|
      invariant comps == Planes(image, ci)
    {
      assert LegalFactors(image.components[ci]);
      var plane := ComponentSize(image, image.components[ci], unitWidth, unitHeight);
      comps := comps + [plane];
    }
    whole := Scan(comps, DivRoundUp(image.width, unitWidth), DivRoundUp(image.height, unitHeight));
  }

  method ComponentSize(image: Image, c: Component, unitWidth: nat, unitHeight: nat) returns (plane: Comp)
    requires Legal(image) && LegalFactors(c) && unitWidth == UnitWidth(image) && unitHeight == UnitHeight(image)
    ensures plane == Plane(image, c)
  {
    var across, down := DivRoundUp(image.width * c.h, unitWidth), DivRoundUp(image.height * c.v, unitHeight);
    plane := Comp(c.h, c.v, Last(across, c.h), Last(down, c.v), c.h, c.v, across, down, c.blocks);
  }

  // ---- per_scan_setup ----

  /** Blocks of the first n components in an MCU. */
  function BlocksInMcu(comps: seq<Comp>, n: nat): (r: nat)
    requires n <= |comps|
  {
    if n == 0 then 0 else BlocksInMcu(comps, n - 1) + comps[n - 1].width * comps[n - 1].height
  }

  /** The chosen components of a frame, as an interleaved scan or one block at a time. */
  function ScanOf(whole: Scan, chosen: seq<nat>): (r: Scan)
    requires forall i :: 0 <= i < |chosen| ==> chosen[i] < |whole.comps|
    ensures |r.comps| == |chosen| && r.totalRows == whole.totalRows
  {
    if |chosen| == 1 then
      var c := whole.comps[chosen[0]];
      Scan([c.(width := 1, height := 1, lastCol := 1)], c.across, whole.totalRows)
    else
      Scan(seq(|chosen|, i requires 0 <= i < |chosen| => whole.comps[chosen[i]]), whole.mcusPerRow, whole.totalRows)
  }

  /** All components of the frame, by sampling factors. */
  predicate ValidFrame(whole: Scan)
  {
    forall i :: 0 <= i < |whole.comps| ==>
      ValidComp(whole, whole.comps[i]) && whole.comps[i].width == whole.comps[i].hsamp && whole.comps[i].height == whole.comps[i].vsamp
  }

  lemma {:induction false} WholeIsFrame(image: Image)
    requires Legal(image)
    ensures ValidFrame(Whole(image))
  {
    forall i | 0 <= i < |image.components| ensures ValidComp(Whole(image), Whole(image).comps[i]) {
      PlaneFits(image, image.components[i]);
    }
  }

  /** Every choice of components makes a valid scan. */
  lemma {:induction false} ScanFits(whole: Scan, chosen: seq<nat>)
    requires ValidFrame(whole) && |chosen| >= 1 && forall i :: 0 <= i < |chosen| ==> chosen[i] < |whole.comps|
    ensures ValidScan(ScanOf(whole, chosen))
  {
    var scan := ScanOf(whole, chosen);
    forall i | 0 <= i < |chosen| ensures ValidComp(scan, scan.comps[i]) && Arranged(scan, scan.comps[i]) {
      assert ValidComp(whole, whole.comps[chosen[i]]);
    }
  }

  /** per_scan_setup: fails exactly on a wrong number of components, or on too many blocks in an MCU. */
  method PerScanSetup(whole: Scan, chosen: seq<nat>) returns (ok: bool, scan: Scan, membership: seq<nat>)
    requires ValidFrame(whole) && forall i :: 0 <= i < |chosen| ==> chosen[i] < |whole.comps|
    ensures ok == (1 <= |chosen| <= 4 && (|chosen| > 1 ==> BlocksInMcu(ScanOf(whole, chosen).comps, |chosen|) <= 10))
    ensures ok ==> scan == ScanOf(whole, chosen) && ValidScan(scan) && |membership| == BlocksInMcu(scan.comps, |chosen|)
    ensures ok ==> forall b :: 0 <= b < |membership| ==>
                     membership[b] < |chosen| && BlocksInMcu(scan.comps, membership[b]) <= b < BlocksInMcu(scan.comps, membership[b] + 1)
  {
    ok, scan, membership := true, Scan([], 0, 0), [];
    if |chosen| == 1 {
      var c := whole.comps[chosen[0]];
      var tmp := c.down % c.vsamp;
      LastFits(c.down, whole.totalRows - 1, c.vsamp);
      var lastRow := if tmp == 0 then c.vsamp else tmp;
      scan := Scan([c.(width := 1, height := 1, lastCol := 1, lastRow := lastRow)], c.across, whole.totalRows);
      membership := [0];
      ScanFits(whole, chosen);
      assert BlocksInMcu(scan.comps, 1) == BlocksInMcu(scan.comps, 0) + 1;
    } else {
      if |chosen| == 0 || |chosen| > MAX_COMPS_IN_SCAN {
        return false, scan, membership;
      }
      ghost var all := ScanOf(whole, chosen).comps;
      for ci := 0 to |chosen|
        invariant scan.comps == all[..ci] && |membership| == BlocksInMcu(all, ci) && (ci > 0 ==> |membership| <= C_MAX_BLOCKS_IN_MCU)
        invariant forall b :: 0 <= b < |membership| ==>
                    membership[b] < ci && BlocksInMcu(all, membership[b]) <= b < BlocksInMcu(all, membership[b] + 1)
      {
        var c := whole.comps[chosen[ci]];
        var last := OneComponent(whole, c);
        var blocks := c.hsamp * c.vsamp;
        if |membership| + blocks > C_MAX_BLOCKS_IN_MCU {
          BlocksGrow(all, ci + 1, |chosen|);
          return false, scan, membership;
        }
        membership := membership + seq(blocks, _ => ci);
        scan := scan.(comps := scan.comps + [c.(width := c.hsamp, height := c.vsamp, lastCol := last.0, lastRow := last.1)]);
      }
      scan := Scan(scan.comps, whole.mcusPerRow, whole.totalRows);
      ScanFits(whole, chosen);
    }
  }

  /** The blocks in the last MCU column and row. */
  method OneComponent(whole: Scan, c: Comp) returns (last: (nat, nat))
    requires ValidComp(whole, c) && c.width == c.hsamp && c.height == c.vsamp
    ensures last == (c.lastCol, c.lastRow)
  {
    LastFits(c.across, whole.mcusPerRow - 1, c.hsamp);
    LastFits(c.down, whole.totalRows - 1, c.vsamp);
    var col := c.across % c.hsamp;
    if col == 0 {
      col := c.hsamp;
    }
    var row := c.down % c.vsamp;
    if row == 0 {
      row := c.vsamp;
    }
    last := (col, row);
  }

  lemma {:induction false} BlocksGrow(comps: seq<Comp>, m: nat, n: nat)
    requires m <= n <= |comps|
    ensures BlocksInMcu(comps, m) <= BlocksInMcu(comps, n)
  {
    if m < n {
      BlocksGrow(comps, m, n - 1);
    }
  }
}
