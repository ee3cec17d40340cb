/** Which MCUs the Huffman encoder can send: the range checks of encode_one_block and htest_one_block in plain numbers. */
module HuffmanRange {
  import opened Numbers
  import opened Blocks
  import opened HuffmanBlocks
  import opened HuffmanEncoder
  import opened HuffmanStatistics
  import opened HuffmanScan
  import opened RestartIntervals

  /** Every coded AC value has magnitude at most 1023, and the DC value differs from the prediction by at most 2047. */
  predicate BlockInRange(scan: Scan, prediction: int, block: Block)
    requires ValidScan(scan)
  {
    && -2047 <= block[0] - prediction <= 2047
    && forall k :: 1 <= k <= scan.limSe ==> -1023 <= block[scan.order[k]] <= 1023
  }

  /** Block b of an MCU is in range, behind the blocks before it. */
  predicate InRangeAt(scan: Scan, last: seq<int>, mcu: Mcu, b: nat)
    requires ValidScan(scan) && IsMcu(scan, mcu) && |last| == |scan.dcTbl| && b < |mcu|
  {
    BlockInRange(scan, LastAfter(scan, last, mcu, b)[scan.membership[b]], mcu[b])
  }

  predicate McuInRange(scan: Scan, last: seq<int>, mcu: Mcu)
    requires ValidScan(scan) && IsMcu(scan, mcu) && |last| == |scan.dcTbl|
  {
    forall b :: 0 <= b < |mcu| ==> InRangeAt(scan, last, mcu, b)
  }

  /** All MCUs of a scan; predictions begin with zero in every restart interval. */
  predicate ScanInRange(scan: Scan, interval: nat, mcus: seq<Mcu>)
    requires ValidScan(scan) && AreMcus(scan, mcus)
  {
    forall i :: 0 <= i < |mcus| ==> McuInRange(scan, Predictions(scan, Preceding(interval, mcus, i)), mcus[i])
  }

  /** Every symbol of an MCU has a code. */
  predicate McuHasCodes(book: Book, scan: Scan, last: seq<int>, mcu: Mcu)
    requires ValidScan(scan) && IsMcu(scan, mcu) && |last| == |scan.dcTbl|
  {
    Codable(book, BlocksItems(scan, last, mcu, |mcu|, End))
  }

  predicate ScanHasCodes(book: Book, scan: Scan, interval: nat, mcus: seq<Mcu>)
    requires ValidScan(scan) && AreMcus(scan, mcus)
  {
    forall i :: 0 <= i < |mcus| ==> McuHasCodes(book, scan, Predictions(scan, Preceding(interval, mcus, i)), mcus[i])
  }

  // ---- The prediction of a block ----

  /** A component without blocks before block n of an MCU is predicted from earlier MCUs. */
  lemma {:induction false} NoneBefore(scan: Scan, last: seq<int>, mcu: Mcu, n: nat, ci: nat)
    requires ValidScan(scan) && IsMcu(scan, mcu) && n <= |mcu| && ci < |last| == |scan.dcTbl|
    requires forall b :: 0 <= b < n ==> scan.membership[b] != ci
    ensures LastAfter(scan, last, mcu, n)[ci] == last[ci]
  {
    if n > 0 {
      NoneBefore(scan, last, mcu, n - 1, ci);
    }
  }

  /** The prediction is the DC value of the component's last block before block n. */
  lemma {:induction false} LastBefore(scan: Scan, last: seq<int>, mcu: Mcu, n: nat, ci: nat, a: nat)
    requires ValidScan(scan) && IsMcu(scan, mcu) && a < n <= |mcu| && ci < |last| == |scan.dcTbl|
    requires scan.membership[a] == ci && forall b :: a < b < n ==> scan.membership[b] != ci
    ensures LastAfter(scan, last, mcu, n)[ci] == mcu[a][0]
  {
    if n > a + 1 {
      LastBefore(scan, last, mcu, n - 1, ci, a);
    }
  }

  /** The predictions of an MCU are those behind the MCU before it, and zero for the first MCU of a restart interval. */
  lemma {:induction false} PredictionsFollow(scan: Scan, mcus: seq<Mcu>)
    requires ValidScan(scan) && AreMcus(scan, mcus)
    ensures mcus == [] ==> Predictions(scan, mcus) == seq(|scan.dcTbl|, _ => 0)
    ensures mcus != [] ==> var n := |mcus| - 1; Predictions(scan, mcus) == LastAfter(scan, Predictions(scan, mcus[..n]), mcus[n], |mcus[n]|)
  {
    if mcus != [] {
      var n := |mcus| - 1;
      SameFront(scan, mcus[..n], mcus[n], n, End);
      assert mcus[..n] + [mcus[n]] == mcus;
    }
  }

  // ---- The range checks ----

  /** At most 10 bits for an AC value, at most 11 for a DC difference. */
  lemma {:induction false} BitsInNumbers(v: int, n: nat)
    requires n == 10 || n == 11
    ensures NumBits(Abs(v)) <= n <==> if n == 10 then -1023 <= v <= 1023 else -2047 <= v <= 2047
  {
    NumBitsLimit(Abs(v), n);
    Shl8(1, n);
    assert Shl(1, 3) == 2 * Shl(1, 2) && Shl(1, 2) == 2 * Shl(1, 1) && Shl(1, 1) == 2 * Shl(1, 0);
  }

  lemma {:induction false} BlockRange(scan: Scan, last: seq<int>, ci: nat, block: Block)
    requires ValidScan(scan) && ci < |scan.dcTbl| == |last|
    ensures BlockSendable(scan, last, ci, block) <==> BlockInRange(scan, last[ci], block)
  {
    BitsInNumbers(block[0] - last[ci], MAX_COEF_BITS + 1);
    forall k | 1 <= k <= scan.limSe
      ensures NumBits(Abs(Coef(scan, block, k))) <= MAX_COEF_BITS <==> -1023 <= block[scan.order[k]] <= 1023
    {
      BitsInNumbers(Coef(scan, block, k), MAX_COEF_BITS);
    }
  }

  lemma {:induction false} BlocksRange(scan: Scan, last: seq<int>, mcu: Mcu, n: nat)
    requires ValidScan(scan) && IsMcu(scan, mcu) && n <= |mcu| && |last| == |scan.dcTbl|
    ensures BlocksSendable(scan, last, mcu, n) <==> forall b :: 0 <= b < n ==> InRangeAt(scan, last, mcu, b)
  {
    if n > 0 {
      BlocksRange(scan, last, mcu, n - 1);
      BlockRange(scan, LastAfter(scan, last, mcu, n - 1), scan.membership[n - 1], mcu[n - 1]);
      assert InRangeAt(scan, last, mcu, n - 1)
        <==> BlockSendable(scan, LastAfter(scan, last, mcu, n - 1), scan.membership[n - 1], mcu[n - 1]);
    }
  }

  /** An MCU is admitted by the gathering pass exactly if it is in range; to be written it needs codes besides. */
  lemma {:induction false} McuRange(book: Book, scan: Scan, mcus: seq<Mcu>, mcu: Mcu)
    requires ValidScan(scan) && AreMcus(scan, mcus) && IsMcu(scan, mcu)
    ensures CanBeSent(scan, mcus, mcu) <==> McuInRange(scan, Predictions(scan, mcus), mcu)
    ensures CanFollow(book, scan, mcus, mcu)
            <==> McuInRange(scan, Predictions(scan, mcus), mcu) && McuHasCodes(book, scan, Predictions(scan, mcus), mcu)
  {
    BlocksRange(scan, Predictions(scan, mcus), mcu, |mcu|);
  }

  /** A scan can be written exactly if all its values are in range and all its symbols have codes. */
  lemma {:induction false} ScanRange(book: Book, scan: Scan, interval: nat, mcus: seq<Mcu>)
    requires ValidScan(scan) && AreMcus(scan, mcus)
    ensures ScanWritable(book, scan, interval, mcus, |mcus|) <==> ScanInRange(scan, interval, mcus) && ScanHasCodes(book, scan, interval, mcus)
    ensures (forall i :: 0 <= i < |mcus| ==> CanBeSent(scan, Preceding(interval, mcus, i), mcus[i])) <==> ScanInRange(scan, interval, mcus)
  {
    forall i | 0 <= i < |mcus|
      ensures var p := Predictions(scan, Preceding(interval, mcus, i));
              && (CanBeSent(scan, Preceding(interval, mcus, i), mcus[i]) <==> McuInRange(scan, p, mcus[i]))
              && (CanFollow(book, scan, Preceding(interval, mcus, i), mcus[i])
                  <==> McuInRange(scan, p, mcus[i]) && McuHasCodes(book, scan, p, mcus[i]))
    {
      McuRange(book, scan, Preceding(interval, mcus, i), mcus[i]);
    }
  }
}
