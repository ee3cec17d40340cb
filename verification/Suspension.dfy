/**
  Suspension of decode_mcu_AC_refine: wherever the data source makes it give up, setting the newly nonzero
  coefficients back to zero and starting over leads to the same result as an uninterrupted run. Corrections are not
  undone; this is right because correcting twice is correcting once.
*/
module Suspension {
  import opened Numbers
  import opened HuffmanCode
  import opened HuffmanBlocks
  import opened Refinement

  // ---- Corrections ----

  /** The front of d2 is that of d, from coefficient k0 up to before k. */
  predicate SamePart(d: seq<int>, d2: seq<int>, k0: nat, k: nat)
  {
    |d2| == |d| && forall j :: k0 <= j < k && j < |d| ==> d2[j] == d[j]
  }

  /** Whatever comes behind coefficient k, correcting again from (t0, k0) on arrives at (t, k) without a change. */
  ghost predicate CorrectedUpTo(s: Stream, al: nat, t0: nat, k0: nat, t: nat, d: seq<int>, k: nat)
  {
    forall d2 {:trigger Correct(s, t, al, d2, k)} :: SamePart(d, d2, k0, k) ==> Correct(s, t0, al, d2, k0) == Correct(s, t, al, d2, k)
  }

  lemma {:induction false} NothingCorrected(s: Stream, al: nat, t: nat, d: seq<int>, k: nat)
    ensures CorrectedUpTo(s, al, t, k, t, d, k)
  {
  }

  lemma {:induction false} CorrectedZero(s: Stream, al: nat, t0: nat, k0: nat, t: nat, d: seq<int>, k: nat)
    requires CorrectedUpTo(s, al, t0, k0, t, d, k) && k0 <= k < |d| && d[k] == 0
    ensures CorrectedUpTo(s, al, t0, k0, t, d, k + 1)
  {
    forall d2 | SamePart(d, d2, k0, k + 1) ensures Correct(s, t0, al, d2, k0) == Correct(s, t, al, d2, k + 1) {
      assert SamePart(d, d2, k0, k) && Correct(s, t, al, d2, k) == Correct(s, t, al, d2, k + 1);
    }
  }

  /** A coefficient that has its correction bit keeps its value when it gets it again. */
  lemma {:induction false} CorrectedOne(s: Stream, al: nat, t0: nat, k0: nat, t: nat, d: seq<int>, k: nat)
    requires CorrectedUpTo(s, al, t0, k0, t, d, k) && k0 <= k < |d| && d[k] != 0
    ensures CorrectedUpTo(s, al, t0, k0, t + 1, if s(t) then d[k := Bump(d[k], al)] else d, k + 1)
  {
    var d' := if s(t) then d[k := Bump(d[k], al)] else d;
    BumpTwice(d[k], al);
    forall d2 | SamePart(d', d2, k0, k + 1) ensures Correct(s, t0, al, d2, k0) == Correct(s, t + 1, al, d2, k + 1) {
      assert SamePart(d, d2, k0, k);
      assert d2[k] == d'[k] && (s(t) ==> d2[k := Bump(d2[k], al)] == d2);
      assert Correct(s, t, al, d2, k) == Correct(s, t + 1, al, d2, k + 1);
    }
  }

  // ---- Advancing over coefficients ----

  /** Whatever comes behind coefficient k, advancing again from (t0, k0) on arrives at (t, k) without a change. */
  ghost predicate AdvancedUpTo(s: Stream, al: nat, t0: nat, k0: nat, run0: nat, t: nat, d: seq<int>, k: nat, run: nat)
  {
    forall d2 {:trigger Advance(s, t, al, d2, k, run)} :: SamePart(d, d2, k0, k) ==>
      Advance(s, t0, al, d2, k0, run0) == Advance(s, t, al, d2, k, run)
  }

  lemma {:induction false} NothingAdvanced(s: Stream, al: nat, t: nat, d: seq<int>, k: nat, run: nat)
    ensures AdvancedUpTo(s, al, t, k, run, t, d, k, run)
  {
  }

  lemma {:induction false} AdvancedZero(s: Stream, al: nat, t0: nat, k0: nat, run0: nat, t: nat, d: seq<int>, k: nat, run: nat)
    requires AdvancedUpTo(s, al, t0, k0, run0, t, d, k, run) && k0 <= k < |d| && d[k] == 0 && run > 0
    ensures AdvancedUpTo(s, al, t0, k0, run0, t, d, k + 1, run - 1)
  {
    forall d2 | SamePart(d, d2, k0, k + 1) ensures Advance(s, t0, al, d2, k0, run0) == Advance(s, t, al, d2, k + 1, run - 1) {
      assert SamePart(d, d2, k0, k) && Advance(s, t, al, d2, k, run) == Advance(s, t, al, d2, k + 1, run - 1);
    }
  }

  lemma {:induction false} AdvancedOne(s: Stream, al: nat, t0: nat, k0: nat, run0: nat, t: nat, d: seq<int>, k: nat, run: nat)
    requires AdvancedUpTo(s, al, t0, k0, run0, t, d, k, run) && k0 <= k < |d| && d[k] != 0
    ensures AdvancedUpTo(s, al, t0, k0, run0, t + 1, if s(t) then d[k := Bump(d[k], al)] else d, k + 1, run)
  {
    var d' := if s(t) then d[k := Bump(d[k], al)] else d;
    BumpTwice(d[k], al);
    forall d2 | SamePart(d', d2, k0, k + 1) ensures Advance(s, t0, al, d2, k0, run0) == Advance(s, t + 1, al, d2, k + 1, run) {
      assert SamePart(d, d2, k0, k);
      assert d2[k] == d'[k] && (s(t) ==> d2[k := Bump(d2[k], al)] == d2);
      assert Advance(s, t, al, d2, k, run) == Advance(s, t + 1, al, d2, k + 1, run);
    }
  }

  /** A completed advance, done again on its own result, changes nothing, whatever comes behind. */
  lemma {:induction false} AdvanceAgain(s: Stream, t: nat, al: nat, d: seq<int>, k: nat, run: nat, d2: seq<int>)
    requires |d2| == |d|
    requires var (d', t', k') := Advance(s, t, al, d, k, run);
             (forall j :: k <= j < k' && j < |d| ==> d2[j] == d'[j]) && (k' < |d| ==> d2[k'] == 0)
    ensures var (d', t', k') := Advance(s, t, al, d, k, run); Advance(s, t, al, d2, k, run) == (d2, t', k')
    decreases |d| - k
  {
    if k < |d| {
      var (d', t', k') := Advance(s, t, al, d, k, run);
      AdvanceFront(s, t, al, d, k, run);
      if d[k] != 0 {
        var d1 := if s(t) then d[k := Bump(d[k], al)] else d;
        BumpTwice(d[k], al);
        AdvanceFront(s, t + 1, al, d1, k + 1, run);
        assert d2[k] == d1[k];
        assert s(t) ==> d2[k := Bump(d2[k], al)] == d2;
        AdvanceAgain(s, t + 1, al, d1, k + 1, run, d2);
      } else if run > 0 {
        AdvanceFront(s, t, al, d, k + 1, run - 1);
        AdvanceAgain(s, t, al, d, k + 1, run - 1, d2);
      }
    }
  }

  lemma {:induction false} AdvanceFront(s: Stream, t: nat, al: nat, d: seq<int>, k: nat, run: nat)
    ensures forall j :: 0 <= j < |d| && j < k ==> Advance(s, t, al, d, k, run).0[j] == d[j]
    ensures var (d', t', k') := Advance(s, t, al, d, k, run); k' < |d| ==> d'[k'] == 0
    decreases |d| - k
  {
    if k < |d| {
      if d[k] != 0 {
        AdvanceFront(s, t + 1, al, if s(t) then d[k := Bump(d[k], al)] else d, k + 1, run);
      } else if run > 0 {
        AdvanceFront(s, t, al, d, k + 1, run - 1);
      }
    }
  }

  // ---- Bands ----

  /** Newly nonzero coefficients set back to zero. */
  function Undo(d: seq<int>, newnz: seq<nat>): (r: seq<int>)
    ensures |r| == |d|
  {
    seq(|d|, j requires 0 <= j < |d| => if j in newnz then 0 else d[j])
  }

  /**
    The decoder began at t0 and stands before coefficient k at t. Whatever comes behind k: if going on leads to `out`,
    so does starting over with the newly nonzero coefficients undone.
  */
  ghost predicate Restartable(rd: Symbols, s: Stream, tbl: nat, al: nat, t0: nat, newnz: seq<nat>, t: nat, d: seq<int>, k: nat, out: Result)
  {
    forall d2 {:trigger Gives(rd, s, tbl, al, t, d2, k, out)} :: SamePart(d, d2, 0, k) && Gives(rd, s, tbl, al, t, d2, k, out) ==>
      Gives(rd, s, tbl, al, t0, Undo(d2, newnz), 0, out)
  }

  lemma {:induction false} RestartableAtFirst(rd: Symbols, s: Stream, tbl: nat, al: nat, t: nat, d: seq<int>, out: Result)
    ensures Restartable(rd, s, tbl, al, t, [], t, d, 0, out)
  {
    forall d2 | SamePart(d, d2, 0, 0) && Gives(rd, s, tbl, al, t, d2, 0, out) ensures Gives(rd, s, tbl, al, t, Undo(d2, []), 0, out) {
      assert Undo(d2, []) == d2;
    }
  }

  /** A symbol's coefficients can be read again. */
  lemma {:induction false} ReadAgain(rd: Symbols, s: Stream, tbl: nat, al: nat, y: Symbol, d: seq<int>, k: nat, d2: seq<int>, out: Result)
    requires |d2| == |d| && k < |d|
    requires var (d'', t2, k') := Continued(s, al, y, d, k);
             SamePart(d'', d2, 0, k' + 1) && Gives(rd, s, tbl, al, t2, d2, k' + 1, out)
    ensures var k' := Continued(s, al, y, d, k).2;
            var d3 := if y.isNew && k' < |d| then d2[k' := 0] else d2;
            SamePart(d, d3, 0, k) && GivesOn(rd, s, tbl, al, y, d3, k, out)
  {
    var t0 := if y.isNew then y.t1 + 1 else y.t1;
    var k' := Continued(s, al, y, d, k).2;
    var d3 := if y.isNew && k' < |d| then d2[k' := 0] else d2;
    AdvanceFront(s, t0, al, d, k, y.run);
    AdvanceAgain(s, t0, al, d, k, y.run, d3);
    assert y.isNew && k' < |d| ==> d3[k' := Signed(!s(y.t1), Shl(1, al))] == d2;
  }

  /** Undoing one more coefficient. */
  lemma {:induction false} UndoMore(d: seq<int>, newnz: seq<nat>, k: nat)
    requires k < |d|
    ensures Undo(d, newnz + [k]) == Undo(d[k := 0], newnz)
  {
  }

  lemma {:induction false} RestartableFor(rd: Symbols, s: Stream, tbl: nat, al: nat, t0: nat, newnz: seq<nat>, t: nat, d: seq<int>, k: nat,
                                          out: Result, sym: nat, t1: nat, d'': seq<int>, t2: nat, k': nat, d2: seq<int>)
    requires Restartable(rd, s, tbl, al, t0, newnz, t, d, k, out) && k < |d|
    requires rd(AcTable(tbl), t) == (sym, t1) && !(sym % 16 == 0 && sym / 16 != 15)
    requires Continued(s, al, Symbol(t1, sym / 16, sym % 16 != 0), d, k) == (d'', t2, k')
    requires SamePart(d'', d2, 0, k' + 1) && Gives(rd, s, tbl, al, t2, d2, k' + 1, out)
    ensures Gives(rd, s, tbl, al, t0, Undo(d2, NewlySet(newnz, sym, k', |d|)), 0, out)
  {
    var y := Symbol(t1, sym / 16, sym % 16 != 0);
    var d3 := if y.isNew && k' < |d| then d2[k' := 0] else d2;
    ReadAgain(rd, s, tbl, al, y, d, k, d2, out);
    GivesBySymbol(rd, s, tbl, al, t, d3, k, out, sym, t1);
    if y.isNew && k' < |d| {
      UndoMore(d2, newnz, k');
    }
  }

  /** The list of newly nonzero coefficients after a symbol that has led to coefficient k. */
  function NewlySet(newnz: seq<nat>, sym: nat, k: nat, n: nat): (r: seq<nat>)
  {
    if sym % 16 != 0 && k < n then newnz + [k] else newnz
  }

  /** Past a symbol and its coefficients, starting over is still possible. */
  lemma {:induction false} RestartableOn(rd: Symbols, s: Stream, tbl: nat, al: nat, t0: nat, newnz: seq<nat>, t: nat, d: seq<int>, k: nat,
                                         out: Result, sym: nat, t1: nat, d'': seq<int>, t2: nat, k': nat)
    requires Restartable(rd, s, tbl, al, t0, newnz, t, d, k, out) && k < |d|
    requires rd(AcTable(tbl), t) == (sym, t1) && !(sym % 16 == 0 && sym / 16 != 15)
    requires Continued(s, al, Symbol(t1, sym / 16, sym % 16 != 0), d, k) == (d'', t2, k')
    ensures Restartable(rd, s, tbl, al, t0, NewlySet(newnz, sym, k', |d|), t2, d'', k' + 1, out)
  {
    forall d2 | SamePart(d'', d2, 0, k' + 1) && Gives(rd, s, tbl, al, t2, d2, k' + 1, out)
      ensures Gives(rd, s, tbl, al, t0, Undo(d2, NewlySet(newnz, sym, k', |d|)), 0, out)
    {
      RestartableFor(rd, s, tbl, al, t0, newnz, t, d, k, out, sym, t1, d'', t2, k', d2);
    }
  }
}
