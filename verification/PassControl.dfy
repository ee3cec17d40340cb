/** The multi-pass master control of jcmaster.c, driven by jpeg_finish_compress of jcapimin.c. */
module PassControl {

  datatype PassType = MainPass | HuffOptPass | OutputPass

  /** What happens to the data stream: headers, statistics passes and output passes, each with the scan concerned. */
  datatype Event = FrameHeader | ScanHeader(scan: nat) | Gather(scan: nat) | Output(scan: nat)

  /** As much of a scan's parameters as matters here. */
  datatype Parameters = Parameters(Ss: nat, Ah: nat)

  /** Refinement scans of DC coefficients need no Huffman table. */
  predicate NeedsTable(p: Parameters) { p.Ss != 0 || p.Ah == 0 }

  // ---- What should happen ----

  function GatherPart(optimize: bool, scans: seq<Parameters>, i: nat): (events: seq<Event>)
    requires i < |scans|
  {
    if optimize && NeedsTable(scans[i]) then [Gather(i)] else []
  }

  function OutputPart(i: nat): (events: seq<Event>)
  {
    if i == 0 then [FrameHeader, ScanHeader(0), Output(0)] else [ScanHeader(i), Output(i)]
  }

  /** The first n scans: statistics if needed, then headers and data; the frame header comes before all else. */
  function Story(optimize: bool, scans: seq<Parameters>, n: nat): (events: seq<Event>)
    requires n <= |scans|
  {
    if n == 0 then [] else Story(optimize, scans, n - 1) + GatherPart(optimize, scans, n - 1) + OutputPart(n - 1)
  }

  /** Number of events of a kind. */
  function Times(events: seq<Event>, e: Event): (n: nat)
  {
    if events == [] then 0 else Times(events[..|events| - 1], e) + (if events[|events| - 1] == e then 1 else 0)
  }

  lemma {:induction false} TimesJoin(a: seq<Event>, b: seq<Event>, e: Event)
    ensures Times(a + b, e) == Times(a, e) + Times(b, e)
  {
    if b == [] {
      assert a + b == a;
    } else {
      var front := b[..|b| - 1];
      assert (a + b)[..|a + b| - 1] == a + front;
      TimesJoin(a, front, e);
    }
  }

  lemma {:induction false} PartTimes(optimize: bool, scans: seq<Parameters>, i: nat, s: nat)
    requires i < |scans|
    ensures Times(GatherPart(optimize, scans, i), Gather(s)) == (if i == s && optimize && NeedsTable(scans[s]) then 1 else 0)
    ensures Times(GatherPart(optimize, scans, i), Output(s)) == Times(GatherPart(optimize, scans, i), ScanHeader(s)) == 0
    ensures Times(GatherPart(optimize, scans, i), FrameHeader) == 0
    ensures Times(OutputPart(i), Output(s)) == Times(OutputPart(i), ScanHeader(s)) == (if i == s then 1 else 0)
    ensures Times(OutputPart(i), Gather(s)) == 0 && Times(OutputPart(i), FrameHeader) == (if i == 0 then 1 else 0)
  {
    forall e ensures Times([ScanHeader(i), Output(i)], e) == (if e == ScanHeader(i) || e == Output(i) then 1 else 0)
                && Times([FrameHeader] + [ScanHeader(i), Output(i)], e)
                   == (if e == FrameHeader || e == ScanHeader(i) || e == Output(i) then 1 else 0)
                && Times([Gather(i)], e) == (if e == Gather(i) then 1 else 0) {
      TimesJoin([FrameHeader], [ScanHeader(i), Output(i)], e);
      TimesJoin([ScanHeader(i)], [Output(i)], e);
      assert [ScanHeader(i)] + [Output(i)] == [ScanHeader(i), Output(i)];
      Single(FrameHeader, e);
      Single(ScanHeader(i), e);
      Single(Output(i), e);
      Single(Gather(i), e);
    }
    assert i == 0 ==> OutputPart(i) == [FrameHeader] + [ScanHeader(i), Output(i)];
  }

  lemma {:induction false} Single(x: Event, e: Event)
    ensures Times([x], e) == if x == e then 1 else 0
  {
    assert [x][..0] == [];
  }

  /** In the story every scan is output once, has one header, and has a statistics pass exactly when it needs one. */
  lemma {:induction false} StoryIsRight(optimize: bool, scans: seq<Parameters>, n: nat, s: nat)
    requires s < |scans| && n <= |scans|
    ensures Times(Story(optimize, scans, n), Output(s)) == Times(Story(optimize, scans, n), ScanHeader(s)) == (if s < n then 1 else 0)
    ensures Times(Story(optimize, scans, n), Gather(s)) == if s < n && optimize && (scans[s].Ss != 0 || scans[s].Ah == 0) then 1 else 0
    ensures Times(Story(optimize, scans, n), FrameHeader) == if n > 0 then 1 else 0
  {
    if n > 0 {
      StoryIsRight(optimize, scans, n - 1, s);
      PartTimes(optimize, scans, n - 1, s);
      OneMoreScan(optimize, scans, n, Output(s));
      OneMoreScan(optimize, scans, n, ScanHeader(s));
      OneMoreScan(optimize, scans, n, Gather(s));
      OneMoreScan(optimize, scans, n, FrameHeader);
    }
  }

  lemma {:induction false} OneMoreScan(optimize: bool, scans: seq<Parameters>, n: nat, e: Event)
    requires 0 < n <= |scans|
    ensures Times(Story(optimize, scans, n), e)
         == Times(Story(optimize, scans, n - 1), e) + Times(GatherPart(optimize, scans, n - 1), e) + Times(OutputPart(n - 1), e)
  {
    var before, gather := Story(optimize, scans, n - 1), GatherPart(optimize, scans, n - 1);
    TimesJoin(before + gather, OutputPart(n - 1), e);
    TimesJoin(before, gather, e);
  }

  /** Where an event belongs: scan by scan, and within a scan statistics, frame header, scan header and data. */
  function Rank(e: Event): (r: nat)
  {
    match e
    case Gather(s) => 4 * s
    case FrameHeader => 1
    case ScanHeader(s) => 4 * s + 2
    case Output(s) => 4 * s + 3
  }

  predicate InOrder(events: seq<Event>) { forall a, b :: 0 <= a < b < |events| ==> Rank(events[a]) < Rank(events[b]) }

  predicate Within(events: seq<Event>, low: nat, high: nat) { forall a :: 0 <= a < |events| ==> low <= Rank(events[a]) < high }

  lemma {:induction false} InOrderJoin(first: seq<Event>, second: seq<Event>, all: seq<Event>, low: nat, mid: nat, high: nat)
    requires InOrder(first) && InOrder(second) && Within(first, low, mid) && Within(second, mid, high) && low <= mid <= high
    requires all == first + second
    ensures InOrder(all) && Within(all, low, high)
  {
  }

  lemma {:induction false} PartsInOrder(optimize: bool, scans: seq<Parameters>, i: nat, gather: seq<Event>, output: seq<Event>)
    requires i < |scans| && gather == GatherPart(optimize, scans, i) && output == OutputPart(i)
    ensures InOrder(gather) && Within(gather, 4 * i, 4 * i + 1)
    ensures InOrder(output) && Within(output, 4 * i + 1, 4 * i + 4)
  {
  }

  /**
    The story is in order: the frame header comes before every scan header and all data, each scan header just before
    the data of its scan, scans one after the other, and the statistics of a scan behind the data of the scan before.
  */
  lemma {:induction false} StoryInOrder(optimize: bool, scans: seq<Parameters>, n: nat, story: seq<Event>)
    requires n <= |scans| && story == Story(optimize, scans, n)
    ensures InOrder(story) && Within(story, 0, 4 * n)
  {
    if n > 0 {
      var before, gather, output := Story(optimize, scans, n - 1), GatherPart(optimize, scans, n - 1), OutputPart(n - 1);
      StoryInOrder(optimize, scans, n - 1, before);
      PartsInOrder(optimize, scans, n - 1, gather, output);
      var front := before + gather;
      InOrderJoin(before, gather, front, 0, 4 * n - 4, 4 * n - 3);
      InOrderJoin(front, output, story, 0, 4 * n - 3, 4 * n);
    }
  }

  // ---- The master control ----

  class Master {
    const scans: seq<Parameters>
    const optimize: bool
    var passType: PassType
    var scanNumber: nat
    var passNumber: nat
    var totalPasses: nat
    var isLastPass: bool
    var callPassStartup: bool
    /** The scan whose parameters are in force, and whether the entropy coder only gathers statistics. */
    var selected: nat
    var gathering: bool
    /** What has happened so far. */
    var log: seq<Event>

    /** Before a pass is prepared. */
    ghost predicate Between()
      reads this
    {
      && scanNumber <= |scans| && totalPasses == (if optimize then 2 * |scans| else |scans|)
      && passType != MainPass && !callPassStartup && 0 < |scans| && NeedsTable(scans[0])
      && if optimize && passType == OutputPass then
           && scanNumber < |scans| && passNumber == 2 * scanNumber + 1 && selected == scanNumber && NeedsTable(scans[scanNumber])
           && log == Story(optimize, scans, scanNumber) + [Gather(scanNumber)]
         else
           && (optimize ==> passType == HuffOptPass) && (!optimize ==> passType == OutputPass)
           && passNumber == (if optimize then 2 * scanNumber else scanNumber) && log == Story(optimize, scans, scanNumber)
    }

    /** jinit_c_master_control. */
    constructor (scans: seq<Parameters>, optimize: bool, transcodeOnly: bool)
      requires |scans| > 0 && NeedsTable(scans[0])
      ensures this.scans == scans && this.optimize == optimize && scanNumber == passNumber == 0 && !isLastPass && log == []
      ensures totalPasses == (if optimize then 2 * |scans| else |scans|)
      ensures if transcodeOnly then Between() else passType == MainPass
    {
      this.scans, this.optimize := scans, optimize;
      passType := if !transcodeOnly then MainPass else if optimize then HuffOptPass else OutputPass;
      isLastPass, callPassStartup, scanNumber, passNumber := false, false, 0, 0;
      selected, gathering, log := 0, false, [];
      totalPasses := if optimize then |scans| * 2 else |scans|;
    }

    method WriteFrameHeader()
      modifies this`log
      ensures log == old(log) + [FrameHeader]
    {
      log := log + [FrameHeader];
    }

    method WriteScanHeader()
      modifies this`log
      ensures log == old(log) + [ScanHeader(selected)]
    {
      log := log + [ScanHeader(selected)];
    }

    /** The output part of prepare_for_pass. */
    method PrepareOutput()
      requires scanNumber < |scans| && (optimize ==> selected == scanNumber)
      modifies this`selected, this`gathering, this`callPassStartup, this`log
      ensures selected == scanNumber && !gathering && !callPassStartup
      ensures log == old(log) + if scanNumber == 0 then [FrameHeader, ScanHeader(0)] else [ScanHeader(scanNumber)]
    {
      if !optimize {
        selected := scanNumber;
      }
      gathering := false;
      if scanNumber == 0 {
        WriteFrameHeader();
      }
      WriteScanHeader();
      callPassStartup := false;
    }

    /** prepare_for_pass for all passes but the main pass. */
    method PrepareForPass()
      requires Between() && scanNumber < |scans|
      modifies this
      ensures scanNumber == old(scanNumber) && selected == scanNumber && !callPassStartup && totalPasses == old(totalPasses)
      ensures isLastPass == (passNumber == totalPasses - 1)
      ensures if old(passType) == HuffOptPass && NeedsTable(scans[scanNumber])
              then gathering && passType == HuffOptPass && passNumber == old(passNumber) && log == old(log)
              else && !gathering && passType == OutputPass
                   && passNumber == (if old(passType) == HuffOptPass then old(passNumber) + 1 else old(passNumber))
                   && log == old(log) + if scanNumber == 0 then [FrameHeader, ScanHeader(0)] else [ScanHeader(scanNumber)]
    {
      if passType == HuffOptPass {
        selected := scanNumber;
        if scans[selected].Ss != 0 || scans[selected].Ah == 0 {
          gathering := true;
          callPassStartup := false;
        } else {
          passType := OutputPass;
          passNumber := passNumber + 1;
          PrepareOutput();
        }
      } else {
        PrepareOutput();
      }
      isLastPass := passNumber == totalPasses - 1;
    }

    /** The main pass, from prepare_for_pass to the last scanline: the first scanline calls pass_startup if asked to. */
    method RunMainPass()
      requires passType == MainPass && |scans| > 0 && scanNumber == 0 && passNumber == 0 && log == []
      modifies this
      ensures passType == MainPass && scanNumber == 0 && passNumber == 0 && totalPasses == old(totalPasses)
      ensures selected == 0 && !callPassStartup && isLastPass == (totalPasses == 1)
      ensures log == if optimize then [Gather(0)] else [FrameHeader, ScanHeader(0), Output(0)]
    {
      selected := scanNumber;
      gathering := optimize;
      callPassStartup := !optimize;
      isLastPass := passNumber == totalPasses - 1;
      if callPassStartup {
        callPassStartup := false;
        WriteFrameHeader();
        WriteScanHeader();
      }
      CompressData();
    }

    /** All rows of a pass go through the entropy coder. */
    method CompressData()
      modifies this`log
      ensures log == old(log) + [if gathering then Gather(selected) else Output(selected)]
    {
      log := log + [if gathering then Gather(selected) else Output(selected)];
    }

    /** finish_pass_master. */
    method FinishPass()
      modifies this`passType, this`scanNumber, this`passNumber
      ensures passNumber == old(passNumber) + 1
      ensures passType == if old(passType) == OutputPass && optimize then HuffOptPass else OutputPass
      ensures scanNumber == if old(passType) == OutputPass || (old(passType) == MainPass && !optimize) then old(scanNumber) + 1 else old(scanNumber)
    {
      match passType {
        case MainPass =>
          passType := OutputPass;
          if !optimize {
            scanNumber := scanNumber + 1;
          }
        case HuffOptPass =>
          passType := OutputPass;
        case OutputPass =>
          if optimize {
            passType := HuffOptPass;
          }
          scanNumber := scanNumber + 1;
      }
      passNumber := passNumber + 1;
    }

    /** One turn of the loop in jpeg_finish_compress. */
    method RunPass()
      requires Between() && scanNumber < |scans|
      modifies this
      ensures Between() && isLastPass == (scanNumber == |scans|) && passNumber > old(passNumber)
    {
      PrepareForPass();
      CompressData();
      FinishPass();
    }
  }

  /** A whole compression or transcoding: the story of all scans, in as many passes as announced. */
  method Compress(scans: seq<Parameters>, optimize: bool, transcodeOnly: bool) returns (log: seq<Event>, passes: nat, total: nat)
    requires |scans| > 0 && NeedsTable(scans[0])
    ensures log == Story(optimize, scans, |scans|) && passes == total
  {
    var m := new Master(scans, optimize, transcodeOnly);
    if !transcodeOnly {
      m.RunMainPass();
      m.FinishPass();
      FirstScan(optimize, scans);
    }
    while !m.isLastPass
      invariant m.Between() && m.scans == scans && m.optimize == optimize && fresh(m)
      invariant m.isLastPass == (m.scanNumber == |scans|)
      decreases m.totalPasses - m.passNumber
    {
      m.RunPass();
    }
    log, passes, total := m.log, m.passNumber, m.totalPasses;
  }

  lemma {:induction false} FirstScan(optimize: bool, scans: seq<Parameters>)
    requires |scans| > 0 && NeedsTable(scans[0])
    ensures Story(optimize, scans, 0) == []
    ensures Story(optimize, scans, 1) == (if optimize then [Gather(0)] else []) + [FrameHeader, ScanHeader(0), Output(0)]
  {
  }
}
