/** Passes in sequential Huffman mode: the tables that a scan names, and its way through both coders. */
module HuffmanPasses {
  import opened Numbers
  import opened HuffmanCode
  import opened HuffmanTables
  import opened Blocks
  import opened HuffmanBlocks
  import opened HuffmanEncoder
  import opened HuffmanDecoder
  import opened HuffmanScan
  import opened HuffmanRange

  /** The Huffman tables that have been defined. */
  type TableSet = map<Slot, HuffTable>

  predicate ValidTables(tables: TableSet) { forall slot :: slot in tables ==> ValidTable(tables[slot]) }

  /** A table without symbols stands for those that the scan does not name. */
  function NoTable(): (h: HuffTable) { HuffTable(seq(17, _ => 0), seq(256, _ => 0)) }

  function NoCodes(): (e: EncoderTable) { EncoderTable(seq(256, _ => 0), seq(256, _ => 0)) }

  lemma {:induction false} NothingUpTo(bits: Counts, l: nat)
    requires l <= LONGEST && forall i :: 0 <= i < |bits| ==> bits[i] == 0
    ensures Upto(bits, l) == 0 && Total(bits, l) == 0
  {
    if l > 0 {
      NothingUpTo(bits, l - 1);
    }
  }

  lemma {:induction false} NoTableIsFine()
    ensures ValidTable(NoTable()) && EncoderAccepts(NoTable(), true) && DecoderAccepts(NoTable(), true) && Encodes(NoTable(), NoCodes())
  {
    var bits := NoTable().bits;
    NothingUpTo(bits, |bits| - 1);
  }

  function ShelfOf(scan: Scan, tables: TableSet): (shelf: Shelf)
    requires ValidScan(scan)
  {
    slot => if slot in tables && Names(scan, slot) then tables[slot] else NoTable()
  }

  /** The encoder can start with these tables. */
  ghost predicate EncoderReady(scan: Scan, tables: TableSet)
    requires ValidScan(scan) && ValidTables(tables)
  {
    forall slot {:trigger Names(scan, slot)} :: Names(scan, slot) ==> slot in tables && EncoderAccepts(tables[slot], slot.DcTable?)
  }

  ghost predicate DecoderReady(scan: Scan, tables: TableSet)
    requires ValidScan(scan) && ValidTables(tables)
  {
    forall slot {:trigger Names(scan, slot)} :: Names(scan, slot) ==> slot in tables && DecoderAccepts(tables[slot], slot.DcTable?)
  }

  // ---- start_pass_huff ----

  /** The derived tables so far. */
  predicate Derived(tables: TableSet, made: map<Slot, EncoderTable>)
    requires ValidTables(tables)
  {
    forall slot :: slot in made ==> slot in tables && EncoderAccepts(tables[slot], slot.DcTable?) && Encodes(tables[slot], made[slot])
  }

  method DeriveOne(tables: TableSet, made0: map<Slot, EncoderTable>, slot: Slot) returns (ok: bool, made: map<Slot, EncoderTable>)
    requires ValidTables(tables) && Derived(tables, made0)
    ensures ok == (slot in tables && EncoderAccepts(tables[slot], slot.DcTable?))
    ensures ok ==> Derived(tables, made) && made.Keys == made0.Keys + {slot}
  {
    made := made0;
    ok := slot in tables;
    if ok {
      var e;
      ok, e := MakeEncoderTable(tables[slot], slot.DcTable?);
      if ok {
        made := made[slot := e];
      }
    }
  }

  /** The tables of component ci. */
  method DeriveFor(scan: Scan, tables: TableSet, made0: map<Slot, EncoderTable>, ci: nat) returns (ok: bool, made: map<Slot, EncoderTable>)
    requires ValidScan(scan) && ValidTables(tables) && Derived(tables, made0) && ci < |scan.dcTbl|
    ensures ok == forall slot {:trigger NamedBy(scan, ci, slot)} :: NamedBy(scan, ci, slot) ==> slot in tables && EncoderAccepts(tables[slot], slot.DcTable?)
    ensures ok ==> Derived(tables, made) && forall slot :: slot in made <==> slot in made0 || NamedBy(scan, ci, slot)
  {
    assert NamedBy(scan, ci, DcTable(scan.dcTbl[ci])) && (scan.limSe > 0 ==> NamedBy(scan, ci, AcTable(scan.acTbl[ci])));
    ok, made := DeriveOne(tables, made0, DcTable(scan.dcTbl[ci]));
    if ok && scan.limSe > 0 {
      ok, made := DeriveOne(tables, made, AcTable(scan.acTbl[ci]));
    }
  }

  /** start_pass_huff: fails exactly if a table that is needed is missing or not accepted. */
  method StartEncoder(scan: Scan, tables: TableSet) returns (ok: bool, book: Book)
    requires ValidScan(scan) && ValidTables(tables)
    ensures ok == EncoderReady(scan, tables)
    ensures ok ==> forall slot :: Agree(book, ShelfOf(scan, tables), slot)
  {
    NoTableIsFine();
    var made := map[];
    book := _ => NoCodes();
    for ci := 0 to |scan.dcTbl|
      invariant Derived(tables, made)
      invariant forall slot :: slot in made <==> exists i :: 0 <= i < ci && NamedBy(scan, i, slot)
    {
      ok, made := DeriveFor(scan, tables, made, ci);
      if !ok {
        ghost var slot :| NamedBy(scan, ci, slot) && !(slot in tables && EncoderAccepts(tables[slot], slot.DcTable?));
        assert Names(scan, slot);
        return;
      }
    }
    assert forall slot :: slot in made <==> Names(scan, slot);
    ok, book := true, slot => if slot in made then made[slot] else NoCodes();
    forall slot ensures Agree(book, ShelfOf(scan, tables), slot) {
    }
  }

  // ---- start_pass_huff_decoder ----

  ghost predicate DecoderDerived(tables: TableSet, made: map<Slot, DecoderTable>)
    requires ValidTables(tables)
  {
    forall slot :: slot in made ==> slot in tables && DecoderAccepts(tables[slot], slot.DcTable?) && Decodes(tables[slot], made[slot])
  }

  method DeriveDecoder(tables: TableSet, made0: map<Slot, DecoderTable>, slot: Slot) returns (ok: bool, made: map<Slot, DecoderTable>)
    requires ValidTables(tables) && DecoderDerived(tables, made0)
    ensures ok == (slot in tables && DecoderAccepts(tables[slot], slot.DcTable?))
    ensures ok ==> DecoderDerived(tables, made) && made.Keys == made0.Keys + {slot}
  {
    made := made0;
    ok := slot in tables;
    if ok {
      var d;
      ok, d := MakeDecoderTable(tables[slot], slot.DcTable?);
      if ok {
        made := made[slot := d];
      }
    }
  }

  method DeriveDecoderFor(scan: Scan, tables: TableSet, made0: map<Slot, DecoderTable>, ci: nat) returns (ok: bool, made: map<Slot, DecoderTable>)
    requires ValidScan(scan) && ValidTables(tables) && DecoderDerived(tables, made0) && ci < |scan.dcTbl|
    ensures ok == forall slot {:trigger NamedBy(scan, ci, slot)} :: NamedBy(scan, ci, slot) ==> slot in tables && DecoderAccepts(tables[slot], slot.DcTable?)
    ensures ok ==> DecoderDerived(tables, made) && forall slot :: slot in made <==> slot in made0 || NamedBy(scan, ci, slot)
  {
    assert NamedBy(scan, ci, DcTable(scan.dcTbl[ci])) && (scan.limSe > 0 ==> NamedBy(scan, ci, AcTable(scan.acTbl[ci])));
    ok, made := DeriveDecoder(tables, made0, DcTable(scan.dcTbl[ci]));
    if ok && scan.limSe > 0 {
      ok, made := DeriveDecoder(tables, made, AcTable(scan.acTbl[ci]));
    }
  }

  /** start_pass_huff_decoder: fails exactly if a table that is needed is missing or not accepted. */
  method StartDecoder(scan: Scan, tables: TableSet) returns (ok: bool, derived: DerivedTables)
    requires ValidScan(scan) && ValidTables(tables)
    ensures ok == DecoderReady(scan, tables)
    ensures ok ==> forall slot :: Fitting(ShelfOf(scan, tables), derived, slot)
  {
    NoTableIsFine();
    var fine, none := MakeDecoderTable(NoTable(), true);
    var made := map[];
    derived := _ => none;
    for ci := 0 to |scan.dcTbl|
      invariant DecoderDerived(tables, made)
      invariant forall slot :: slot in made <==> exists i :: 0 <= i < ci && NamedBy(scan, i, slot)
    {
      ok, made := DeriveDecoderFor(scan, tables, made, ci);
      if !ok {
        ghost var slot :| NamedBy(scan, ci, slot) && !(slot in tables && DecoderAccepts(tables[slot], slot.DcTable?));
        assert Names(scan, slot);
        return;
      }
    }
    assert forall slot :: slot in made <==> Names(scan, slot);
    ok, derived := true, slot => if slot in made then made[slot] else none;
    forall slot ensures Fitting(ShelfOf(scan, tables), derived, slot) {
    }
  }

  lemma {:induction false} EncoderIsStricter(scan: Scan, tables: TableSet)
    requires ValidScan(scan) && ValidTables(tables) && EncoderReady(scan, tables)
    ensures DecoderReady(scan, tables)
  {
  }

  // ---- A scan through both coders ----

  /**
    A scan with any tables and restart interval: the encoder starts exactly if it accepts all tables that the scan
    names, and then fails exactly on an AC value above 1023 or a DC difference above 2047 in magnitude, or a symbol
    without a code. The bytes, followed by fill bytes, any marker and
    anything, are decoded to what was encoded, however the data source delivers them.
  */
  method EncodeThenDecode(tables: TableSet, scan: Scan, interval: nat, mcus: seq<Mcu>, fill: nat, marker: byte, rest: seq<byte>,
                          deliveries: seq<nat>) returns (started: bool, ok: bool, book: Book, outs: seq<Mcu>)
    requires ValidScan(scan) && ValidTables(tables) && AreMcus(scan, mcus) && fill >= 1 && marker !in {0, 0xFF}
    ensures started == EncoderReady(scan, tables)
    ensures started ==> (forall slot :: Agree(book, ShelfOf(scan, tables), slot))
                        && ok == (ScanInRange(scan, interval, mcus) && ScanHasCodes(book, scan, interval, mcus))
    ensures started && ok ==> |outs| == |mcus| && forall i :: 0 <= i < |mcus| ==> outs[i] == SentBlocks(scan, mcus[i], |mcus[i]|)
  {
    ok, outs := false, [];
    started, book := StartEncoder(scan, tables);
    if started {
      ok, outs := WriteAndRead(book, tables, scan, interval, mcus, fill, marker, rest, deliveries);
      ScanRange(book, scan, interval, mcus);
    }
  }

  method WriteAndRead(book: Book, tables: TableSet, scan: Scan, interval: nat, mcus: seq<Mcu>, fill: nat, marker: byte, rest: seq<byte>,
                      deliveries: seq<nat>) returns (ok: bool, outs: seq<Mcu>)
    requires ValidScan(scan) && ValidTables(tables) && AreMcus(scan, mcus) && fill >= 1 && marker !in {0, 0xFF}
    requires EncoderReady(scan, tables) && forall slot :: Agree(book, ShelfOf(scan, tables), slot)
    ensures ok == ScanWritable(book, scan, interval, mcus, |mcus|)
    ensures ok ==> |outs| == |mcus| && forall i :: 0 <= i < |mcus| ==> outs[i] == SentBlocks(scan, mcus[i], |mcus[i]|)
  {
    outs := [];
    forall slot ensures ProperTable(book(slot)) {
      assert Agree(book, ShelfOf(scan, tables), slot);
      AgreeIsProper(ShelfOf(scan, tables)(slot), book(slot));
    }
    var out;
    ghost var pieces;
    ok, out, pieces := EncodeScan(book, scan, interval, mcus);
    if ok {
      var src := out + Repeat(0xFF, fill) + [marker] + rest;
      EncoderIsStricter(scan, tables);
      var fine, derived := StartDecoder(scan, tables);
      outs := DecodeScan(ShelfOf(scan, tables), derived, scan, interval, src, |mcus|, deliveries);
      ScanComesBack(book, ShelfOf(scan, tables), scan, interval, mcus, pieces, src, fill, outs);
    }
  }
}
