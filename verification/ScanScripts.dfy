/** Multi-scan scripts: validation (jcmaster.c), the recommended progression (jcparam.c), and the decoder's own check (jdhuff.c). */
module ScanScripts {
  import opened Blocks

  const MAX_COMPS_IN_SCAN: int := 4
  const MAX_AH_AL: int := 10

  /** One scan: its components, the band of coefficients, and the bit positions before and after it. */
  datatype ScanInfo = ScanInfo(comps: seq<int>, Ss: int, Se: int, Ah: int, Al: int)

  type Script = seq<ScanInfo>

  predicate Covers(sc: ScanInfo, c: int, k: int) { c in sc.comps && sc.Ss <= k <= sc.Se }

  /** Bit position of coefficient k of component c after the first n scans; -1 if it has not been sent. */
  function Last(script: Script, n: nat, c: int, k: int): (r: int)
    requires n <= |script|
  {
    if n == 0 then -1
    else if Covers(script[n - 1], c, k) then script[n - 1].Al
    else Last(script, n - 1, c, k)
  }

  // ---- What a script must satisfy ----

  predicate ComponentsOk(num: int, sc: ScanInfo)
  {
    && 1 <= |sc.comps| <= 4
    && (forall i :: 0 <= i < |sc.comps| ==> 0 <= sc.comps[i] < num)
    && (forall i :: 1 <= i < |sc.comps| ==> sc.comps[i - 1] < sc.comps[i])
  }

  predicate ParametersOk(sc: ScanInfo)
  {
    && 0 <= sc.Ss <= sc.Se <= 63 && 0 <= sc.Ah <= 10 && 0 <= sc.Al <= 10
    && (if sc.Ss == 0 then sc.Se == 0 else |sc.comps| == 1)
  }

  /** Scan parameters fit the bit position reached: a first scan, or a refinement by one bit. */
  predicate Fits(sc: ScanInfo, last: int)
  {
    if last < 0 then sc.Ah == 0 else sc.Ah == last && sc.Al == sc.Ah - 1
  }

  /** Scan i continues what the scans before it have sent. */
  ghost predicate Continues(script: Script, i: nat)
    requires i < |script|
  {
    && (forall c, k :: Covers(script[i], c, k) ==> Fits(script[i], Last(script, i, c, k)))
    && (script[i].Ss != 0 ==> forall c :: c in script[i].comps ==> Last(script, i, c, 0) >= 0)
  }

  ghost predicate ScanOk(num: int, script: Script, i: nat)
    requires i < |script|
  {
    ComponentsOk(num, script[i]) && ParametersOk(script[i]) && Continues(script, i)
  }

  ghost predicate Progressive(num: int, script: Script, n: nat)
    requires n <= |script|
  {
    forall i :: 0 <= i < n ==> ScanOk(num, script, i)
  }

  ghost predicate AcceptableProgressive(num: int, script: Script)
  {
    |script| > 0 && Progressive(num, script, |script|) && forall c :: 0 <= c < num ==> Last(script, |script|, c, 0) >= 0
  }

  // ---- Bit planes ----

  /** The scan sends bit b of coefficient k of component c: a first scan sends all bits from Al up, a refinement bit Al. */
  predicate Sends(sc: ScanInfo, c: int, k: int, b: int)
  {
    Covers(sc, c, k) && if sc.Ah == 0 then b >= sc.Al else b == sc.Al
  }

  /** How many of the first n scans send a bit. */
  function TimesSent(script: Script, n: nat, c: int, k: int, b: int): (r: nat)
    requires n <= |script|
  {
    if n == 0 then 0 else TimesSent(script, n - 1, c, k, b) + (if Sends(script[n - 1], c, k, b) then 1 else 0)
  }

  /** In an accepted script every bit plane of every coefficient is sent at most once, from the top down and without a gap. */
  lemma {:induction false} EachBitOnce(num: int, script: Script, n: nat, c: int, k: int, b: int)
    requires n <= |script| && Progressive(num, script, n) && b >= 0
    ensures TimesSent(script, n, c, k, b) == if 0 <= Last(script, n, c, k) <= b then 1 else 0
    ensures Last(script, n, c, k) >= -1
  {
    if n > 0 {
      EachBitOnce(num, script, n - 1, c, k, b);
      assert ScanOk(num, script, n - 1);
    }
  }

  /** AC coefficients are never sent before the DC coefficient. */
  lemma {:induction false} DcFirst(num: int, script: Script, n: nat, c: int, k: int)
    requires n <= |script| && Progressive(num, script, n) && Last(script, n, c, k) >= 0
    ensures Last(script, n, c, 0) >= 0
  {
    if n > 0 {
      assert ScanOk(num, script, n - 1);
      if Covers(script[n - 1], c, k) {
        StaysSent(num, script, n - 1, n, c, 0);
      } else {
        DcFirst(num, script, n - 1, c, k);
        StaysSent(num, script, n - 1, n, c, 0);
      }
    }
  }

  lemma {:induction false} StaysSent(num: int, script: Script, m: nat, n: nat, c: int, k: int)
    requires m <= n <= |script| && Progressive(num, script, n)
    ensures Last(script, m, c, k) >= 0 ==> Last(script, n, c, k) >= 0
    decreases n
  {
    if m < n {
      StaysSent(num, script, m, n - 1, c, k);
      assert ScanOk(num, script, n - 1);
    }
  }

  // ---- The decoder's check ----

  /** The bit position that the decoder expects a scan to start from. */
  function Expected(bits: int): (r: int) { if bits < 0 then 0 else bits }

  /** Components of the image, none of them twice, in any order. */
  predicate Distinct(num: int, comps: seq<int>)
  {
    (forall i :: 0 <= i < |comps| ==> 0 <= comps[i] < num) && forall i, j :: 0 <= i < j < |comps| ==> comps[i] != comps[j]
  }

  /** Neither an error nor a warning, for coefficients up to limSe, in a state given by the bit positions reached. */
  ghost predicate DecoderContent(sc: ScanInfo, limSe: int, bits: (int, int) -> int)
  {
    && (if sc.Ss == 0 then sc.Se == 0 else sc.Ss <= sc.Se <= limSe && |sc.comps| == 1)
    && (sc.Ah != 0 ==> sc.Ah - 1 == sc.Al) && sc.Al <= 13
    && (forall c :: c in sc.comps && sc.Ss != 0 ==> bits(c, 0) >= 0)
    && (forall c, k :: Covers(sc, c, k) ==> sc.Ah == Expected(bits(c, k)))
  }

  /** Replaying an accepted script, the decoder has nothing to complain about. */
  lemma {:induction false} DecoderAgrees(num: int, script: Script, i: nat, limSe: int)
    requires i < |script| && Progressive(num, script, |script|) && script[i].Se <= limSe
    ensures DecoderContent(script[i], limSe, (c, k) => Last(script, i, c, k))
  {
    assert ScanOk(num, script, i);
    var sc := script[i];
    if sc.Ah != 0 {
      assert Covers(sc, sc.comps[0], sc.Ss);
    }
  }

  // ---- Validation ----

  /** Components are listed in increasing order, so none is listed twice. */
  lemma {:induction false} Increasing(comps: seq<int>, a: nat, b: nat)
    requires a < b < |comps| && forall i :: 1 <= i < |comps| ==> comps[i - 1] < comps[i]
    ensures comps[a] < comps[b]
  {
    if a < b - 1 {
      Increasing(comps, a, b - 1);
    }
  }

  method CheckComponents(num: int, sc: ScanInfo) returns (ok: bool)
    ensures ok == ComponentsOk(num, sc)
  {
    var ncomps := |sc.comps|;
    if ncomps <= 0 || ncomps > MAX_COMPS_IN_SCAN {
      return false;
    }
    for ci := 0 to ncomps
      invariant forall i :: 0 <= i < ci ==> 0 <= sc.comps[i] < num
      invariant forall i :: 1 <= i < ci ==> sc.comps[i - 1] < sc.comps[i]
    {
      var thisi := sc.comps[ci];
      if thisi < 0 || thisi >= num || (ci > 0 && thisi <= sc.comps[ci - 1]) {
        return false;
      }
    }
    ok := true;
  }

  /** The scan fits the bit positions reached in the band of component c. */
  predicate BandFits(sc: ScanInfo, row: seq<int>)
    requires |row| == DCTSIZE2 && 0 <= sc.Ss <= sc.Se < DCTSIZE2
  {
    (sc.Ss != 0 ==> row[0] >= 0) && forall k :: sc.Ss <= k <= sc.Se ==> Fits(sc, row[k])
  }

  function Updated(sc: ScanInfo, row: seq<int>, n: int): (r: seq<int>)
    requires |row| == DCTSIZE2
    ensures |r| == DCTSIZE2
  {
    seq(|row|, k requires 0 <= k < |row| => if sc.Ss <= k < n then sc.Al else row[k])
  }

  /** Check and update the bit positions of one component. */
  method CheckBand(sc: ScanInfo, row: seq<int>) returns (ok: bool, row': seq<int>)
    requires |row| == DCTSIZE2 && 0 <= sc.Ss <= sc.Se < DCTSIZE2
    ensures ok == BandFits(sc, row) && (ok ==> row' == Updated(sc, row, sc.Se + 1))
  {
    row' := row;
    if sc.Ss != 0 && row[0] < 0 {
      return false, row;
    }
    var coefi := sc.Ss;
    while coefi <= sc.Se
      invariant sc.Ss <= coefi <= sc.Se + 1 && row' == Updated(sc, row, coefi)
      invariant forall k :: sc.Ss <= k < coefi ==> Fits(sc, row[k])
    {
      if row'[coefi] < 0 {
        if sc.Ah != 0 {
          return false, row;
        }
      } else if sc.Ah != row'[coefi] || sc.Al != sc.Ah - 1 {
        return false, row;
      }
      row' := row'[coefi := sc.Al];
      coefi := coefi + 1;
    }
    ok := true;
  }

  /** The table of bit positions after the first n scans. */
  predicate Tracks(last: seq<seq<int>>, num: nat, script: Script, n: nat)
    requires n <= |script|
  {
    && |last| == num && (forall c :: 0 <= c < num ==> |last[c]| == DCTSIZE2)
    && forall c, k :: 0 <= c < num && 0 <= k < DCTSIZE2 ==> last[c][k] == Last(script, n, c, k)
  }

  /** The same while scan n is being processed: its first m components are done. */
  predicate Tracking(last: seq<seq<int>>, num: nat, script: Script, n: nat, m: nat)
    requires n < |script| && m <= |script[n].comps|
  {
    && |last| == num && (forall c :: 0 <= c < num ==> |last[c]| == DCTSIZE2)
    && forall c, k :: 0 <= c < num && 0 <= k < DCTSIZE2 ==>
         last[c][k] == if c in script[n].comps[..m] && script[n].Ss <= k <= script[n].Se then script[n].Al else Last(script, n, c, k)
  }

  ghost predicate CompContinues(script: Script, n: nat, c: int)
    requires n < |script|
  {
    && (script[n].Ss != 0 ==> Last(script, n, c, 0) >= 0)
    && forall k :: script[n].Ss <= k <= script[n].Se ==> Fits(script[n], Last(script, n, c, k))
  }

  lemma {:induction false} AllContinue(script: Script, n: nat)
    requires n < |script|
    ensures Continues(script, n) <==> forall ci :: 0 <= ci < |script[n].comps| ==> CompContinues(script, n, script[n].comps[ci])
  {
    var sc := script[n];
    if forall ci :: 0 <= ci < |sc.comps| ==> CompContinues(script, n, sc.comps[ci]) {
      forall c | c in sc.comps ensures CompContinues(script, n, c) {
        var ci :| 0 <= ci < |sc.comps| && sc.comps[ci] == c;
      }
    }
    if Continues(script, n) {
      forall ci | 0 <= ci < |sc.comps| ensures CompContinues(script, n, sc.comps[ci]) {
        forall k | sc.Ss <= k <= sc.Se ensures Fits(sc, Last(script, n, sc.comps[ci], k)) {
          assert Covers(sc, sc.comps[ci], k);
        }
      }
    }
  }

  /** Check one progressive scan and note the bit positions that it reaches. */
  method CheckScan(num: nat, script: Script, n: nat, last: seq<seq<int>>) returns (ok: bool, last': seq<seq<int>>)
    requires n < |script| && Tracks(last, num, script, n) && ComponentsOk(num, script[n])
    ensures ok == (ParametersOk(script[n]) && Continues(script, n)) && (ok ==> Tracks(last', num, script, n + 1))
  {
    var sc := script[n];
    last' := last;
    if sc.Ss < 0 || sc.Ss >= DCTSIZE2 || sc.Se < sc.Ss || sc.Se >= DCTSIZE2
       || sc.Ah < 0 || sc.Ah > MAX_AH_AL || sc.Al < 0 || sc.Al > MAX_AH_AL {
      return false, last;
    }
    if (sc.Ss == 0 && sc.Se != 0) || (sc.Ss != 0 && |sc.comps| != 1) {
      return false, last;
    }
    AllContinue(script, n);
    for ci := 0 to |sc.comps|
      invariant Tracking(last', num, script, n, ci)
      invariant forall i :: 0 <= i < ci ==> CompContinues(script, n, sc.comps[i])
    {
      var c := sc.comps[ci];
      NotYet(sc.comps, ci);
      var row;
      ok, row := CheckBand(sc, last'[c]);
      RowFits(num, script, n, last', ci);
      if !ok {
        return;
      }
      NextComponent(num, script, n, last', ci, row);
      last' := last'[c := row];
    }
    assert sc.comps[..|sc.comps|] == sc.comps;
    ok := true;
  }

  lemma {:induction false} NotYet(comps: seq<int>, ci: nat)
    requires ci < |comps| && forall i :: 1 <= i < |comps| ==> comps[i - 1] < comps[i]
    ensures comps[ci] !in comps[..ci]
  {
    forall a | 0 <= a < ci ensures comps[a] != comps[ci] {
      Increasing(comps, a, ci);
    }
  }

  lemma {:induction false} RowFits(num: nat, script: Script, n: nat, last: seq<seq<int>>, ci: nat)
    requires n < |script| && ci < |script[n].comps| && Tracking(last, num, script, n, ci) && 0 <= script[n].comps[ci] < num
    requires script[n].comps[ci] !in script[n].comps[..ci] && 0 <= script[n].Ss <= script[n].Se < DCTSIZE2
    ensures BandFits(script[n], last[script[n].comps[ci]]) <==> CompContinues(script, n, script[n].comps[ci])
  {
    var c := script[n].comps[ci];
    assert forall k :: 0 <= k < DCTSIZE2 ==> last[c][k] == Last(script, n, c, k);
  }

  lemma {:induction false} NextComponent(num: nat, script: Script, n: nat, last: seq<seq<int>>, ci: nat, row: seq<int>)
    requires n < |script| && ci < |script[n].comps| && Tracking(last, num, script, n, ci) && 0 <= script[n].comps[ci] < num
    requires script[n].comps[ci] !in script[n].comps[..ci] && row == Updated(script[n], last[script[n].comps[ci]], script[n].Se + 1)
    ensures Tracking(last[script[n].comps[ci] := row], num, script, n, ci + 1)
  {
    var comps := script[n].comps;
    assert comps[..ci + 1] == comps[..ci] + [comps[ci]];
  }

  // ---- Sequential scripts ----

  predicate SequentialScan(num: int, sc: ScanInfo)
  {
    ComponentsOk(num, sc) && sc.Ss == 0 && sc.Se == 63 && sc.Ah == 0 && sc.Al == 0
  }

  predicate Disjoint(script: Script, n: nat)
    requires n <= |script|
  {
    forall i, j :: 0 <= i < j < n ==> forall c :: c in script[i].comps ==> c !in script[j].comps
  }

  predicate SentIn(script: Script, n: nat, c: int)
    requires n <= |script|
  {
    exists i :: 0 <= i < n && c in script[i].comps
  }

  /** Every component is sent in exactly one scan. */
  predicate AcceptableSequential(num: int, script: Script)
  {
    && |script| > 0 && (forall i :: 0 <= i < |script| ==> SequentialScan(num, script[i]))
    && Disjoint(script, |script|) && forall c :: 0 <= c < num ==> SentIn(script, |script|, c)
  }

  lemma {:induction false} SentOnce(num: int, script: Script, n: nat, c: int, k: int, b: int)
    requires n <= |script| && (forall i :: 0 <= i < n ==> SequentialScan(num, script[i])) && Disjoint(script, n) && 0 <= k <= 63 && b >= 0
    ensures TimesSent(script, n, c, k, b) == if SentIn(script, n, c) then 1 else 0
  {
    if n > 0 {
      SentOnce(num, script, n - 1, c, k, b);
      assert SequentialScan(num, script[n - 1]);
      assert SentIn(script, n, c) <==> SentIn(script, n - 1, c) || c in script[n - 1].comps;
    }
  }

  /** An accepted sequential script sends every bit of every coefficient of every component exactly once. */
  lemma {:induction false} SequentialSendsAll(num: int, script: Script, c: int, k: int, b: int)
    requires AcceptableSequential(num, script) && 0 <= c < num && 0 <= k <= 63 && b >= 0
    ensures TimesSent(script, |script|, c, k, b) == 1
  {
    SentOnce(num, script, |script|, c, k, b);
    assert SentIn(script, |script|, c);
  }

  /** Note the components of a scan; fails if one has been sent before. */
  method MarkSent(num: nat, comps: seq<int>, sent: seq<bool>) returns (ok: bool, sent': seq<bool>)
    requires |sent| == num && (forall i :: 0 <= i < |comps| ==> 0 <= comps[i] < num)
    requires forall i :: 1 <= i < |comps| ==> comps[i - 1] < comps[i]
    ensures ok == forall i :: 0 <= i < |comps| ==> !sent[comps[i]]
    ensures ok ==> |sent'| == num && forall c :: 0 <= c < num ==> sent'[c] == (sent[c] || c in comps)
  {
    sent' := sent;
    for ci := 0 to |comps|
      invariant |sent'| == num && forall c :: 0 <= c < num ==> sent'[c] == (sent[c] || c in comps[..ci])
      invariant forall i :: 0 <= i < ci ==> !sent[comps[i]]
    {
      NotYet(comps, ci);
      if sent'[comps[ci]] {
        return false, sent;
      }
      sent' := sent'[comps[ci] := true];
      assert comps[..ci + 1] == comps[..ci] + [comps[ci]];
    }
    ok := true;
    assert comps[..|comps|] == comps;
  }

  /** The marks tell which components the first n scans send. */
  predicate Marks(sent: seq<bool>, num: nat, script: Script, n: nat)
    requires n <= |script|
  {
    |sent| == num && forall c :: 0 <= c < num ==> sent[c] == SentIn(script, n, c)
  }

  lemma {:induction false} OneMoreMarked(sent: seq<bool>, sent': seq<bool>, num: nat, script: Script, n: nat)
    requires n < |script| && Marks(sent, num, script, n) && |sent'| == num && SequentialScan(num, script[n])
    requires forall c :: 0 <= c < num ==> sent'[c] == (sent[c] || c in script[n].comps)
    requires forall i :: 0 <= i < |script[n].comps| ==> !sent[script[n].comps[i]]
    requires Disjoint(script, n)
    ensures Marks(sent', num, script, n + 1) && Disjoint(script, n + 1)
  {
    var sc := script[n];
    forall c | 0 <= c < num ensures sent'[c] == SentIn(script, n + 1, c) {
      assert SentIn(script, n + 1, c) <==> SentIn(script, n, c) || c in sc.comps;
    }
    forall i, c | 0 <= i < n && c in script[i].comps && c in sc.comps ensures false {
      assert SentIn(script, n, c);
    }
  }

  method ValidateSequential(num: nat, script: Script) returns (ok: bool)
    requires |script| > 0
    ensures ok == AcceptableSequential(num, script)
  {
    var sent := seq(num, _ => false);
    for n := 0 to |script|
      invariant Marks(sent, num, script, n)
      invariant (forall i :: 0 <= i < n ==> SequentialScan(num, script[i])) && Disjoint(script, n)
    {
      var sc := script[n];
      ok := CheckComponents(num, sc);
      if !ok || sc.Ss != 0 || sc.Se != DCTSIZE2 - 1 || sc.Ah != 0 || sc.Al != 0 {
        assert !SequentialScan(num, script[n]);
        return false;
      }
      ghost var before := sent;
      ok, sent := MarkSent(num, sc.comps, sent);
      if !ok {
        ghost var i :| 0 <= i < |sc.comps| && before[sc.comps[i]];
        assert SentIn(script, n, sc.comps[i]);
        return;
      }
      OneMoreMarked(before, sent, num, script, n);
    }
    for ci := 0 to num
      invariant forall c :: 0 <= c < ci ==> sent[c]
    {
      if !sent[ci] {
        assert !SentIn(script, |script|, ci);
        return false;
      }
    }
    ok := true;
  }

  method ValidateProgressive(num: nat, script: Script) returns (ok: bool)
    requires |script| > 0
    ensures ok == AcceptableProgressive(num, script)
  {
    var last := seq(num, _ => seq(DCTSIZE2, _ => -1));
    for n := 0 to |script|
      invariant Progressive(num, script, n) && Tracks(last, num, script, n)
    {
      ok := CheckComponents(num, script[n]);
      if !ok {
        assert !ScanOk(num, script, n);
        return;
      }
      ok, last := CheckScan(num, script, n, last);
      if !ok {
        assert !ScanOk(num, script, n);
        return;
      }
      assert ScanOk(num, script, n);
    }
    for ci := 0 to num
      invariant forall c :: 0 <= c < ci ==> Last(script, |script|, c, 0) >= 0
    {
      if last[ci][0] < 0 {
        assert Last(script, |script|, ci, 0) < 0;
        return false;
      }
    }
    ok := true;
  }

  /** The first scan tells whether a script is progressive. */
  predicate IsProgressive(script: Script)
    requires |script| > 0
  {
    script[0].Ss != 0 || script[0].Se != DCTSIZE2 - 1
  }

  /** validate_script. */
  method ValidateScript(num: nat, script: Script) returns (ok: bool, progressive: bool)
    ensures ok == (|script| > 0 && if progressive then AcceptableProgressive(num, script) else AcceptableSequential(num, script))
    ensures |script| > 0 ==> progressive == IsProgressive(script)
  {
    progressive := false;
    if |script| <= 0 {
      return false, progressive;
    }
    progressive := script[0].Ss != 0 || script[0].Se != DCTSIZE2 - 1;
    if progressive {
      ok := ValidateProgressive(num, script);
    } else {
      ok := ValidateSequential(num, script);
    }
  }

  // ---- Replaying a script in the decoder ----

  /** Update the progression status of one component; tells whether a warning was given. */
  method NoteBand(sc: ScanInfo, row: seq<int>) returns (warned: bool, row': seq<int>)
    requires |row| == DCTSIZE2 && 0 <= sc.Ss <= sc.Se < DCTSIZE2
    ensures row' == Updated(sc, row, sc.Se + 1)
    ensures warned == ((sc.Ss != 0 && row[0] < 0) || exists k :: sc.Ss <= k <= sc.Se && sc.Ah != Expected(row[k]))
  {
    row' := row;
    warned := sc.Ss != 0 && row[0] < 0;
    var coefi := sc.Ss;
    while coefi <= sc.Se
      invariant sc.Ss <= coefi <= sc.Se + 1 && row' == Updated(sc, row, coefi)
      invariant warned == ((sc.Ss != 0 && row[0] < 0) || exists k :: sc.Ss <= k < coefi && sc.Ah != Expected(row[k]))
    {
      var expected := if row'[coefi] < 0 then 0 else row'[coefi];
      if sc.Ah != expected {
        assert sc.Ah != Expected(row[coefi]);
        warned := true;
      }
      row' := row'[coefi := sc.Al];
      coefi := coefi + 1;
    }
  }

  ghost predicate CompContent(script: Script, n: nat, c: int)
    requires n < |script|
  {
    && (script[n].Ss != 0 ==> Last(script, n, c, 0) >= 0)
    && forall k :: script[n].Ss <= k <= script[n].Se ==> script[n].Ah == Expected(Last(script, n, c, k))
  }

  /** The progression check of start_pass_huff_decoder, for coefficients up to limSe: content if there is neither error nor warning. */
  method StartPass(num: nat, limSe: int, script: Script, n: nat, bits: seq<seq<int>>) returns (content: bool, bits': seq<seq<int>>)
    requires n < |script| && Tracks(bits, num, script, n) && Distinct(num, script[n].comps) && 0 <= script[n].Ss <= 255 && limSe < DCTSIZE2
    ensures content == DecoderContent(script[n], limSe, (c, k) => Last(script, n, c, k))
    ensures content ==> Tracks(bits', num, script, n + 1)
  {
    var sc := script[n];
    bits' := bits;
    if (if sc.Ss == 0 then sc.Se != 0 else sc.Se < sc.Ss || sc.Se > limSe || |sc.comps| != 1)
       || (sc.Ah != 0 && sc.Ah - 1 != sc.Al) || sc.Al > 13 {
      return false, bits;
    }
    content := true;
    for ci := 0 to |sc.comps|
      invariant Tracking(bits', num, script, n, ci)
      invariant content == forall i :: 0 <= i < ci ==> CompContent(script, n, sc.comps[i])
    {
      var c := sc.comps[ci];
      assert c !in sc.comps[..ci];
      assert forall k :: 0 <= k < DCTSIZE2 ==> bits'[c][k] == Last(script, n, c, k);
      var warned, row := NoteBand(sc, bits'[c]);
      assert warned == !CompContent(script, n, c);
      if warned {
        content := false;
      }
      NextComponent(num, script, n, bits', ci, row);
      bits' := bits'[c := row];
    }
    assert sc.comps[..|sc.comps|] == sc.comps;
    AllContent(script, n);
  }

  lemma {:induction false} AllContent(script: Script, n: nat)
    requires n < |script|
    ensures var sc := script[n];
            ((forall c :: c in sc.comps && sc.Ss != 0 ==> Last(script, n, c, 0) >= 0)
             && (forall c, k :: Covers(sc, c, k) ==> sc.Ah == Expected(Last(script, n, c, k))))
            <==> forall ci :: 0 <= ci < |sc.comps| ==> CompContent(script, n, sc.comps[ci])
  {
    var sc := script[n];
    if forall ci :: 0 <= ci < |sc.comps| ==> CompContent(script, n, sc.comps[ci]) {
      forall c | c in sc.comps ensures CompContent(script, n, c) {
        var ci :| 0 <= ci < |sc.comps| && sc.comps[ci] == c;
      }
    }
    if (forall c :: c in sc.comps && sc.Ss != 0 ==> Last(script, n, c, 0) >= 0)
       && forall c, k :: Covers(sc, c, k) ==> sc.Ah == Expected(Last(script, n, c, k)) {
      forall ci | 0 <= ci < |sc.comps| ensures CompContent(script, n, sc.comps[ci]) {
        forall k | sc.Ss <= k <= sc.Se ensures sc.Ah == Expected(Last(script, n, sc.comps[ci], k)) {
          assert Covers(sc, sc.comps[ci], k);
        }
      }
    }
  }

  lemma {:induction false} InOrderIsDistinct(num: int, sc: ScanInfo)
    requires ComponentsOk(num, sc)
    ensures Distinct(num, sc.comps)
  {
    forall i, j | 0 <= i < j < |sc.comps| ensures sc.comps[i] != sc.comps[j] {
      Increasing(sc.comps, i, j);
    }
  }

  /** Replaying an accepted script raises neither an error nor a warning, scan after scan. */
  method Replay(num: nat, limSe: int, script: Script) returns (content: bool, bits: seq<seq<int>>)
    requires Progressive(num, script, |script|) && limSe < DCTSIZE2 && forall i :: 0 <= i < |script| ==> script[i].Se <= limSe
    ensures content && Tracks(bits, num, script, |script|)
  {
    bits := seq(num, _ => seq(DCTSIZE2, _ => -1));
    content := true;
    for n := 0 to |script|
      invariant content && Tracks(bits, num, script, n)
    {
      assert ScanOk(num, script, n);
      DecoderAgrees(num, script, n, limSe);
      InOrderIsDistinct(num, script[n]);
      content, bits := StartPass(num, limSe, script, n, bits);
    }
  }

  // ---- The recommended progression ----

  /** fill_a_scan: one scan for one component. */
  function OneScan(c: int, Ss: int, Se: int, Ah: int, Al: int): (sc: ScanInfo) { ScanInfo([c], Ss, Se, Ah, Al) }

  /** fill_scans: one scan for each component. */
  method FillScans(script0: Script, num: nat, Ss: int, Se: int, Ah: int, Al: int) returns (script: Script)
    ensures script == script0 + ForEach(num, Ss, Se, Ah, Al)
  {
    script := script0;
    for ci := 0 to num
      invariant script == script0 + ForEach(ci, Ss, Se, Ah, Al)
    {
      script := script + [OneScan(ci, Ss, Se, Ah, Al)];
    }
  }

  function ForEach(n: nat, Ss: int, Se: int, Ah: int, Al: int): (s: Script)
    ensures |s| == n && forall i :: 0 <= i < n ==> s[i] == OneScan(i, Ss, Se, Ah, Al)
  {
    seq(n, i => OneScan(i, Ss, Se, Ah, Al))
  }

  /** fill_dc_scans: one interleaved scan if possible, otherwise one for each component. */
  method FillDcScans(script0: Script, num: nat, Ah: int, Al: int) returns (script: Script)
    ensures script == script0 + DcScans(num, Ah, Al)
  {
    if num <= MAX_COMPS_IN_SCAN {
      var comps := [];
      for ci := 0 to num
        invariant comps == seq(ci, i => i)
      {
        comps := comps + [ci];
      }
      script := script0 + [ScanInfo(comps, 0, 0, Ah, Al)];
    } else {
      script := FillScans(script0, num, 0, 0, Ah, Al);
    }
  }

  function DcScans(num: nat, Ah: int, Al: int): (s: Script)
  {
    if num <= 4 then [ScanInfo(seq(num, i => i), 0, 0, Ah, Al)] else ForEach(num, 0, 0, Ah, Al)
  }

  /** The bit positions reached depend only on the first scans. */
  lemma {:induction false} LastFront(script: Script, more: Script, n: nat, c: int, k: int)
    requires n <= |script|
    ensures Last(script + more, n, c, k) == Last(script, n, c, k)
  {
    if n > 0 {
      LastFront(script, more, n - 1, c, k);
    }
  }

  /** The bit positions after a whole script. */
  function Final(script: Script, c: int, k: int): (r: int) { Last(script, |script|, c, k) }

  /** A good script so far. */
  ghost predicate Good(num: nat, script: Script) { Progressive(num, script, |script|) }

  /** One more scan for components that have all reached the same position in its band. */
  lemma {:induction false} AddScan(num: nat, script: Script, sc: ScanInfo)
    requires Good(num, script) && ComponentsOk(num, sc) && ParametersOk(sc)
    requires forall c, k :: Covers(sc, c, k) ==> Fits(sc, Final(script, c, k))
    requires sc.Ss != 0 ==> forall c :: c in sc.comps ==> Final(script, c, 0) >= 0
    ensures Good(num, script + [sc])
    ensures forall c, k :: Final(script + [sc], c, k) == if Covers(sc, c, k) then sc.Al else Final(script, c, k)
  {
    var all := script + [sc];
    forall i, c, k | 0 <= i <= |script| ensures Last(all, i, c, k) == Last(script, i, c, k) {
      LastFront(script, [sc], i, c, k);
    }
    forall i | 0 <= i < |all| ensures ScanOk(num, all, i) {
      if i < |script| {
        assert ScanOk(num, script, i);
      }
    }
  }

  /** The same scan can come next for every one of the components. */
  ghost predicate Ready(num: nat, script: Script, sc: ScanInfo)
  {
    && ParametersOk(sc) && Good(num, script)
    && (forall c, k :: 0 <= c < num && sc.Ss <= k <= sc.Se ==> Fits(sc, Final(script, c, k)))
    && (sc.Ss != 0 ==> forall c :: 0 <= c < num ==> Final(script, c, 0) >= 0)
  }

  lemma {:induction false} AddForEach(num: nat, script: Script, n: nat, Ss: int, Se: int, Ah: int, Al: int)
    requires n <= num && Ready(num, script, OneScan(0, Ss, Se, Ah, Al))
    ensures Good(num, script + ForEach(n, Ss, Se, Ah, Al))
    ensures forall c, k :: Final(script + ForEach(n, Ss, Se, Ah, Al), c, k)
                        == if 0 <= c < n && Ss <= k <= Se then Al else Final(script, c, k)
  {
    if n == 0 {
      assert script + ForEach(n, Ss, Se, Ah, Al) == script;
    } else {
      AddForEach(num, script, n - 1, Ss, Se, Ah, Al);
      var front, sc := script + ForEach(n - 1, Ss, Se, Ah, Al), OneScan(n - 1, Ss, Se, Ah, Al);
      assert script + ForEach(n, Ss, Se, Ah, Al) == front + [sc];
      AddScan(num, front, sc);
    }
  }

  lemma {:induction false} AddDc(num: nat, script: Script, Ah: int, Al: int)
    requires num >= 1 && Ready(num, script, OneScan(0, 0, 0, Ah, Al))
    ensures Good(num, script + DcScans(num, Ah, Al))
    ensures forall c, k :: Final(script + DcScans(num, Ah, Al), c, k) == if 0 <= c < num && k == 0 then Al else Final(script, c, k)
  {
    if num <= MAX_COMPS_IN_SCAN {
      var sc := DcScans(num, Ah, Al)[0];
      forall c | 0 <= c < num ensures c in sc.comps {
        assert sc.comps[c] == c;
      }
      assert forall c, k :: Covers(sc, c, k) <==> 0 <= c < num && k == 0;
      AddScan(num, script, sc);
    } else {
      AddForEach(num, script, num, 0, 0, Ah, Al);
    }
  }

  /** From scan `at` on: one scan of a band for each component. */
  predicate EachAt(script: Script, at: nat, num: nat, Ss: int, Se: int, Ah: int, Al: int)
  {
    at + num <= |script| && forall c :: at <= c < at + num ==> script[c] == ScanInfo([c - at], Ss, Se, Ah, Al)
  }

  /** From scan `at` on: the DC values of all components, in one scan if there are at most four. */
  predicate DcAt(script: Script, at: nat, num: nat, Ah: int, Al: int)
  {
    if num <= 4 then at < |script| && script[at] == ScanInfo(seq(num, i => i), 0, 0, Ah, Al)
    else EachAt(script, at, num, 0, 0, Ah, Al)
  }

  /** DC without its last bit; AC in two bands without their last two bits; the next bit of AC; the last bits of DC and AC. */
  predicate AllPurpose(num: nat, script: Script)
  {
    var d := if num <= 4 then 1 else num;
    && |script| == 2 * d + 4 * num
    && DcAt(script, 0, num, 0, 1) && EachAt(script, d, num, 1, 5, 0, 2) && EachAt(script, d + num, num, 6, 63, 0, 2)
    && EachAt(script, d + 2 * num, num, 1, 63, 2, 1) && DcAt(script, d + 3 * num, num, 1, 0)
    && EachAt(script, 2 * d + 3 * num, num, 1, 63, 1, 0)
  }

  /** Luminance AC first, chrominance in one scan each, and luminance last again. */
  predicate Colour(script: Script)
  {
    script == [ScanInfo([0, 1, 2], 0, 0, 0, 1), ScanInfo([0], 1, 5, 0, 2), ScanInfo([2], 1, 63, 0, 1), ScanInfo([1], 1, 63, 0, 1),
               ScanInfo([0], 6, 63, 0, 2), ScanInfo([0], 1, 63, 2, 1), ScanInfo([0, 1, 2], 0, 0, 1, 0), ScanInfo([2], 1, 63, 1, 0),
               ScanInfo([1], 1, 63, 1, 0), ScanInfo([0], 1, 63, 1, 0)]
  }

  predicate Begins(front: Script, script: Script) { |front| <= |script| && script[..|front|] == front }

  /** One part of a script behind others. */
  lemma {:induction false} EachPart(front: Script, script: Script, num: nat, Ss: int, Se: int, Ah: int, Al: int)
    requires Begins(front + ForEach(num, Ss, Se, Ah, Al), script)
    ensures EachAt(script, |front|, num, Ss, Se, Ah, Al)
  {
    var both := front + ForEach(num, Ss, Se, Ah, Al);
    forall c | |front| <= c < |front| + num ensures script[c] == ScanInfo([c - |front|], Ss, Se, Ah, Al) {
      assert script[c] == script[..|both|][c] == both[c];
    }
  }

  lemma {:induction false} DcPart(front: Script, script: Script, num: nat, Ah: int, Al: int)
    requires Begins(front + DcScans(num, Ah, Al), script)
    ensures DcAt(script, |front|, num, Ah, Al)
  {
    if num <= MAX_COMPS_IN_SCAN {
      var both := front + DcScans(num, Ah, Al);
      assert script[|front|] == script[..|both|][|front|] == both[|front|];
    } else {
      EachPart(front, script, num, 0, 0, Ah, Al);
    }
  }

  /** The parts of the script, put together one after the other. */
  lemma {:induction false} PartsAre(num: nat, s1: Script, s2: Script, s3: Script, s4: Script, s5: Script, s6: Script)
    requires s1 == DcScans(num, 0, 1) && s2 == s1 + ForEach(num, 1, 5, 0, 2) && s3 == s2 + ForEach(num, 6, 63, 0, 2)
    requires s4 == s3 + ForEach(num, 1, 63, 2, 1) && s5 == s4 + DcScans(num, 1, 0) && s6 == s5 + ForEach(num, 1, 63, 1, 0)
    ensures AllPurpose(num, s6)
  {
    FrontOf(s1, s2, s3, s4, s5, s6);
    assert [] + s1 == s1;
    DcPart([], s6, num, 0, 1);
    EachPart(s1, s6, num, 1, 5, 0, 2);
    EachPart(s2, s6, num, 6, 63, 0, 2);
    EachPart(s3, s6, num, 1, 63, 2, 1);
    DcPart(s4, s6, num, 1, 0);
    EachPart(s5, s6, num, 1, 63, 1, 0);
    Places(num, s6, |s1|, |s2|, |s3|, |s4|, |s5|);
  }

  lemma {:induction false} Places(num: nat, script: Script, p1: nat, p2: nat, p3: nat, p4: nat, p5: nat)
    requires p1 == (if num <= 4 then 1 else num) && p2 == p1 + num && p3 == p2 + num && p4 == p3 + num && p5 == p4 + p1
    requires |script| == p5 + num && DcAt(script, 0, num, 0, 1) && EachAt(script, p1, num, 1, 5, 0, 2) && EachAt(script, p2, num, 6, 63, 0, 2)
    requires EachAt(script, p3, num, 1, 63, 2, 1) && DcAt(script, p4, num, 1, 0) && EachAt(script, p5, num, 1, 63, 1, 0)
    ensures AllPurpose(num, script)
  {
    assert p2 == p1 + num && p3 == p1 + 2 * num && p4 == p1 + 3 * num && p5 == 2 * p1 + 3 * num;
  }

  lemma {:induction false} FrontOf(s1: Script, s2: Script, s3: Script, s4: Script, s5: Script, s6: Script)
    requires Begins(s1, s2) && Begins(s2, s3) && Begins(s3, s4) && Begins(s4, s5) && Begins(s5, s6)
    ensures Begins(s1, s6) && Begins(s2, s6) && Begins(s3, s6) && Begins(s4, s6) && Begins(s6, s6)
  {
    BeginsOn(s4, s5, s6);
    BeginsOn(s3, s4, s6);
    BeginsOn(s2, s3, s6);
    BeginsOn(s1, s2, s6);
  }

  lemma {:induction false} BeginsOn(a: Script, b: Script, c: Script)
    requires Begins(a, b) && Begins(b, c)
    ensures Begins(a, c)
  {
    assert c[..|a|] == c[..|b|][..|a|];
  }

  /** The first scans for any number of components. */
  method AllPurposeStart(num: nat) returns (script: Script, ghost s1: Script, ghost s2: Script)
    requires num >= 1
    ensures Good(num, script) && s1 == DcScans(num, 0, 1)
    ensures s2 == s1 + ForEach(num, 1, 5, 0, 2) && script == s2 + ForEach(num, 6, 63, 0, 2)
    ensures forall c, k :: 0 <= c < num && 0 <= k < DCTSIZE2 ==> Final(script, c, k) == if k == 0 then 1 else 2
  {
    script := [];
    AddDc(num, script, 0, 1);
    script := FillDcScans(script, num, 0, 1);
    assert script == DcScans(num, 0, 1);
    s1 := script;
    AddForEach(num, script, num, 1, 5, 0, 2);
    script := FillScans(script, num, 1, 5, 0, 2);
    s2 := script;
    AddForEach(num, script, num, 6, 63, 0, 2);
    script := FillScans(script, num, 6, 63, 0, 2);
  }

  method AllPurposeEnd(num: nat, script0: Script) returns (script: Script, ghost s5: Script)
    requires num >= 1 && Good(num, script0) && forall c, k :: 0 <= c < num && 0 <= k < DCTSIZE2 ==> Final(script0, c, k) == 1
    ensures Good(num, script) && s5 == script0 + DcScans(num, 1, 0) && script == s5 + ForEach(num, 1, 63, 1, 0)
    ensures forall c, k :: 0 <= c < num && 0 <= k < DCTSIZE2 ==> Final(script, c, k) == 0
  {
    AddDc(num, script0, 1, 0);
    script := FillDcScans(script0, num, 1, 0);
    s5 := script;
    AddForEach(num, script, num, 1, 63, 1, 0);
    script := FillScans(script, num, 1, 63, 1, 0);
  }

  /** The script for any number of components. */
  method AllPurposeScript(num: nat) returns (script: Script)
    requires num >= 1
    ensures AllPurpose(num, script) && Good(num, script)
    ensures forall c, k :: 0 <= c < num && 0 <= k < DCTSIZE2 ==> Final(script, c, k) == 0
  {
    ghost var s1, s2, s3, s4, s5;
    script, s1, s2 := AllPurposeStart(num);
    s3 := script;
    AddForEach(num, script, num, 1, 63, 2, 1);
    script := FillScans(script, num, 1, 63, 2, 1);
    s4 := script;
    script, s5 := AllPurposeEnd(num, script);
    PartsAre(num, s1, s2, s3, s4, s5, script);
  }

  /** fill_a_scan, when the scan can come next. */
  method FillOne(num: nat, script0: Script, c: nat, Ss: int, Se: int, Ah: int, Al: int) returns (script: Script)
    requires Good(num, script0) && c < num && ParametersOk(OneScan(c, Ss, Se, Ah, Al)) && (Ss != 0 ==> Final(script0, c, 0) >= 0)
    requires forall k :: Ss <= k <= Se ==> Fits(OneScan(c, Ss, Se, Ah, Al), Final(script0, c, k))
    ensures Good(num, script) && script == script0 + [OneScan(c, Ss, Se, Ah, Al)]
    ensures forall d, k :: Final(script, d, k) == if d == c && Ss <= k <= Se then Al else Final(script0, d, k)
  {
    AddScan(num, script0, OneScan(c, Ss, Se, Ah, Al));
    script := script0 + [OneScan(c, Ss, Se, Ah, Al)];
  }

  /** The script for luminance and chrominance, up to the last bit. */
  method ColourStart() returns (script: Script)
    ensures Good(3, script)
    ensures script == [ScanInfo([0, 1, 2], 0, 0, 0, 1), ScanInfo([0], 1, 5, 0, 2), ScanInfo([2], 1, 63, 0, 1), ScanInfo([1], 1, 63, 0, 1),
                       ScanInfo([0], 6, 63, 0, 2), ScanInfo([0], 1, 63, 2, 1)]
    ensures forall c, k :: 0 <= c < 3 && 0 <= k < DCTSIZE2 ==> Final(script, c, k) == 1
  {
    script := [];
    AddDc(3, script, 0, 1);
    script := FillDcScans(script, 3, 0, 1);
    script := FillOne(3, script, 0, 1, 5, 0, 2);
    script := FillOne(3, script, 2, 1, 63, 0, 1);
    script := FillOne(3, script, 1, 1, 63, 0, 1);
    script := FillOne(3, script, 0, 6, 63, 0, 2);
    script := FillOne(3, script, 0, 1, 63, 2, 1);
    assert seq(3, i => i) == [0, 1, 2];
  }

  /** Then every coefficient gets its last bit. */
  method ColourEnd(script0: Script) returns (script: Script)
    requires Good(3, script0) && forall c, k :: 0 <= c < 3 && 0 <= k < DCTSIZE2 ==> Final(script0, c, k) == 1
    ensures Good(3, script)
    ensures script == script0 + [ScanInfo([0, 1, 2], 0, 0, 1, 0), ScanInfo([2], 1, 63, 1, 0), ScanInfo([1], 1, 63, 1, 0), ScanInfo([0], 1, 63, 1, 0)]
    ensures forall c, k :: 0 <= c < 3 && 0 <= k < DCTSIZE2 ==> Final(script, c, k) == 0
  {
    script := script0;
    AddDc(3, script, 1, 0);
    script := FillDcScans(script, 3, 1, 0);
    script := FillOne(3, script, 2, 1, 63, 1, 0);
    script := FillOne(3, script, 1, 1, 63, 1, 0);
    script := FillOne(3, script, 0, 1, 63, 1, 0);
    assert seq(3, i => i) == [0, 1, 2];
  }

  /** The script for luminance and chrominance. */
  method ColourScript() returns (script: Script)
    ensures Good(3, script) && Colour(script)
    ensures forall c, k :: 0 <= c < 3 && 0 <= k < DCTSIZE2 ==> Final(script, c, k) == 0
  {
    script := ColourStart();
    script := ColourEnd(script);
  }

  /**
    jpeg_simple_progression: the script has the announced number of scans, is accepted by the validator, and
    sends every coefficient down to its last bit.
  */
  method SimpleProgression(num: nat, ycc: bool) returns (script: Script, nscans: nat)
    requires num >= 1
    ensures if num == 3 && ycc then Colour(script) else AllPurpose(num, script)
    ensures |script| == nscans && AcceptableProgressive(num, script) && IsProgressive(script)
    ensures forall c, k :: 0 <= c < num && 0 <= k < DCTSIZE2 ==> Final(script, c, k) == 0
  {
    if num == 3 && ycc {
      nscans := 10;
      script := ColourScript();
    } else {
      nscans := if num > MAX_COMPS_IN_SCAN then 6 * num else 2 + 4 * num;
      script := AllPurposeScript(num);
    }
    assert ScanOk(num, script, 0);
    forall c | 0 <= c < num ensures Last(script, |script|, c, 0) >= 0 {
      assert Final(script, c, 0) == 0;
    }
  }

  // ---- Scripts for smaller blocks ----

  /** The scans that reach into the block, cut off at its end. */
  function Reduced(script: Script, lim: int, n: nat): (r: Script)
    requires n <= |script|
    ensures |r| <= n
  {
    if n == 0 then []
    else
      var sc, front := script[n - 1], Reduced(script, lim, n - 1);
      if sc.Ss > lim then front else front + [if sc.Se > lim then sc.(Se := lim) else sc]
  }

  /** reduce_script: compaction in place. */
  method ReduceScript(scans: array<ScanInfo>, numScans: nat, lim: int) returns (idxout: nat)
    requires numScans <= scans.Length
    modifies scans
    ensures idxout <= numScans && scans[..idxout] == Reduced(old(scans[..]), lim, numScans)
    ensures scans[numScans..] == old(scans[numScans..])
  {
    idxout := 0;
    for idxin := 0 to numScans
      invariant idxout <= idxin && scans[..idxout] == Reduced(old(scans[..]), lim, idxin)
      invariant scans[idxin..] == old(scans[idxin..])
    {
      assert scans[idxin] == scans[idxin..][0] && old(scans[idxin]) == old(scans[idxin..])[0];
      if idxin != idxout {
        scans[idxout] := scans[idxin];
      }
      if scans[idxout].Ss <= lim {
        if scans[idxout].Se > lim {
          scans[idxout] := scans[idxout].(Se := lim);
        }
        idxout := idxout + 1;
      }
      assert scans[idxin + 1..] == scans[idxin..][1..];
    }
  }

  /** Coefficients inside the reduced block reach the same bit positions. */
  lemma {:induction false} ReducedLast(script: Script, lim: int, n: nat, c: int, k: int)
    requires n <= |script| && k <= lim
    ensures Final(Reduced(script, lim, n), c, k) == Last(script, n, c, k)
  {
    if n > 0 {
      ReducedLast(script, lim, n - 1, c, k);
      var sc, front := script[n - 1], Reduced(script, lim, n - 1);
      if sc.Ss <= lim {
        LastFront(front, [if sc.Se > lim then sc.(Se := lim) else sc], |front|, c, k);
      }
    }
  }

  /** A reduced script is as good as the original one: every scan continues what was sent, and each bit is sent once. */
  lemma {:induction false} ReducedGood(num: nat, script: Script, lim: int, n: nat)
    requires n <= |script| && Progressive(num, script, n) && 0 <= lim < DCTSIZE2
    ensures Good(num, Reduced(script, lim, n))
  {
    if n > 0 {
      ReducedGood(num, script, lim, n - 1);
      assert ScanOk(num, script, n - 1);
      var sc, front := script[n - 1], Reduced(script, lim, n - 1);
      if sc.Ss <= lim {
        var cut := if sc.Se > lim then sc.(Se := lim) else sc;
        forall c, k | Covers(cut, c, k) ensures Fits(cut, Final(front, c, k)) {
          assert Covers(sc, c, k);
          ReducedLast(script, lim, n - 1, c, k);
        }
        forall c | c in cut.comps && cut.Ss != 0 ensures Final(front, c, 0) >= 0 {
          ReducedLast(script, lim, n - 1, c, 0);
        }
        AddScan(num, front, cut);
      }
    }
  }
}
