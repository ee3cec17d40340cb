/** Blocks of quantised coefficients, and the orders in which they are coded. */
module Blocks {

  const DCTSIZE2 := 64

  predicate ValidOrder(order: seq<nat>)
  {
    && |order| == DCTSIZE2 && order[0] == 0
    && (forall i :: 0 <= i < DCTSIZE2 ==> order[i] < DCTSIZE2)
    && (forall i, j :: 0 <= i < j < DCTSIZE2 ==> order[i] != order[j])
  }

  /** A block holds 64 16-bit coefficients in natural order. */
  predicate IsBlock(b: seq<int>)
  {
    |b| == 64 && forall i :: 0 <= i < 64 ==> -0x8000 <= b[i] < 0x8000
  }

  type Block = b: seq<int> | IsBlock(b) witness seq(64, _ => 0)

  type Mcu = seq<Block>

  /** Conversion to JCOEF, a 16-bit type. */
  function Jcoef(x: int): (r: int)
    ensures -0x8000 <= r < 0x8000
    ensures -0x8000 <= x < 0x8000 ==> r == x
    ensures (r - x) % 0x10000 == 0
  {
    (x + 0x8000) % 0x10000 - 0x8000
  }

  function Abs(x: int): (r: nat) { if x < 0 then -x else x }

  // ---- What a block holds once the first n coefficients in zigzag order have been set ----

  function Zeroes(): (r: Block) { seq(64, _ => 0) }

  function Partial(order: seq<nat>, block: Block, n: nat): (r: Block)
    requires ValidOrder(order) && n <= DCTSIZE2
  {
    if n == 0 then Zeroes() else Partial(order, block, n - 1)[order[n - 1] := block[order[n - 1]]]
  }

  lemma {:induction false} PartialAt(order: seq<nat>, block: Block, n: nat, p: nat)
    requires ValidOrder(order) && n <= DCTSIZE2 && p < 64
    ensures Partial(order, block, n)[p] == (if p in order[..n] then block[p] else 0)
  {
    if n > 0 {
      PartialAt(order, block, n - 1, p);
      assert order[..n] == order[..n - 1] + [order[n - 1]];
    }
  }

  lemma {:induction false} PartialSkip(order: seq<nat>, block: Block, n: nat)
    requires ValidOrder(order) && n < DCTSIZE2 && block[order[n]] == 0
    ensures Partial(order, block, n + 1) == Partial(order, block, n)
  {
    PartialAt(order, block, n, order[n]);
  }

  lemma {:induction false} FirstPartial(order: seq<nat>, block: Block)
    requires ValidOrder(order)
    ensures Partial(order, block, 1) == Zeroes()[0 := block[0]]
  {
    assert Partial(order, block, 0) == Zeroes();
  }

  // ---- Scans ----

  /**
    Tables by component, component of each block of an MCU, index of the last coefficient and coefficient order, and
    the conditioning values by table, which only the arithmetic coder looks at.
  */
  datatype Scan = Scan(dcTbl: seq<nat>, acTbl: seq<nat>, membership: seq<nat>, limSe: nat, order: seq<nat>,
                       lower: seq<nat>, upper: seq<nat>, kx: seq<nat>)

  predicate ValidScan(scan: Scan)
  {
    && |scan.dcTbl| == |scan.acTbl| && scan.limSe < DCTSIZE2 && ValidOrder(scan.order)
    && forall i :: 0 <= i < |scan.membership| ==> scan.membership[i] < |scan.dcTbl|
  }

  predicate IsMcu(scan: Scan, mcu: Mcu) { |mcu| == |scan.membership| }
  predicate AreMcus(scan: Scan, mcus: seq<Mcu>) { forall i :: 0 <= i < |mcus| ==> IsMcu(scan, mcus[i]) }

  /** A block as far as the scan transmits it: coefficients beyond limSe are left zero. */
  function Sent(scan: Scan, block: Block): (r: Block)
    requires ValidScan(scan)
  {
    Partial(scan.order, block, scan.limSe + 1)
  }

  function SentBlocks(scan: Scan, mcu: Mcu, n: nat): (r: Mcu)
    requires ValidScan(scan) && n <= |mcu|
  {
    if n == 0 then [] else SentBlocks(scan, mcu, n - 1) + [Sent(scan, mcu[n - 1])]
  }

  function SentMcus(scan: Scan, mcus: seq<Mcu>, n: nat): (r: seq<Mcu>)
    requires ValidScan(scan) && n <= |mcus|
  {
    if n == 0 then [] else SentMcus(scan, mcus, n - 1) + [SentBlocks(scan, mcus[n - 1], |mcus[n - 1]|)]
  }
}
