/** The probability state table of jaricom.c (Table D.3 of ITU-T T.81). */
module ArithTable {
  import opened IntervalCoder

  /** Probability estimate, next state after an LPS and after an MPS, and whether an LPS switches the sense of the MPS. */
  datatype State = State(qe: nat, lps: nat, mps: nat, flip: bool)

  /** Four components in one integer. */
  function Packed(s: State): (entry: nat)
  {
    s.qe * 65536 + s.mps * 256 + (if s.flip then 128 else 0) + s.lps
  }

  function PackedAll(states: seq<State>): (t: seq<nat>)
    ensures |t| == |states| && forall i :: 0 <= i < |t| ==> t[i] == Packed(states[i])
  {
    if states == [] then [] else PackedAll(states[..|states| - 1]) + [Packed(states[|states| - 1])]
  }

  function States0(): (s: seq<State>)
    ensures |s| == 14 && AllSound(s)
  {
    [
      State(0x5a1d, 1, 1, true), State(0x2586, 14, 2, false), State(0x1114, 16, 3, false), State(0x080b, 18, 4, false),
      State(0x03d8, 20, 5, false), State(0x01da, 23, 6, false), State(0x00e5, 25, 7, false), State(0x006f, 28, 8, false),
      State(0x0036, 30, 9, false), State(0x001a, 33, 10, false), State(0x000d, 35, 11, false), State(0x0006, 9, 12, false),
      State(0x0003, 10, 13, false), State(0x0001, 12, 13, false)
    ]
  }

  function States14(): (s: seq<State>)
    ensures |s| == 22 && AllSound(s)
  {
    [
      State(0x5a7f, 15, 15, true), State(0x3f25, 36, 16, false), State(0x2cf2, 38, 17, false), State(0x207c, 39, 18, false),
      State(0x17b9, 40, 19, false), State(0x1182, 42, 20, false), State(0x0cef, 43, 21, false), State(0x09a1, 45, 22, false),
      State(0x072f, 46, 23, false), State(0x055c, 48, 24, false), State(0x0406, 49, 25, false), State(0x0303, 51, 26, false),
      State(0x0240, 52, 27, false), State(0x01b1, 54, 28, false), State(0x0144, 56, 29, false), State(0x00f5, 57, 30, false),
      State(0x00b7, 59, 31, false), State(0x008a, 60, 32, false), State(0x0068, 62, 33, false), State(0x004e, 63, 34, false),
      State(0x003b, 32, 35, false), State(0x002c, 33, 9, false)
    ]
  }

  function States36(): (s: seq<State>)
    ensures |s| == 28 && AllSound(s)
  {
    [
      State(0x5ae1, 37, 37, true), State(0x484c, 64, 38, false), State(0x3a0d, 65, 39, false), State(0x2ef1, 67, 40, false),
      State(0x261f, 68, 41, false), State(0x1f33, 69, 42, false), State(0x19a8, 70, 43, false), State(0x1518, 72, 44, false),
      State(0x1177, 73, 45, false), State(0x0e74, 74, 46, false), State(0x0bfb, 75, 47, false), State(0x09f8, 77, 48, false),
      State(0x0861, 78, 49, false), State(0x0706, 79, 50, false), State(0x05cd, 48, 51, false), State(0x04de, 50, 52, false),
      State(0x040f, 50, 53, false), State(0x0363, 51, 54, false), State(0x02d4, 52, 55, false), State(0x025c, 53, 56, false),
      State(0x01f8, 54, 57, false), State(0x01a4, 55, 58, false), State(0x0160, 56, 59, false), State(0x0125, 57, 60, false),
      State(0x00f6, 58, 61, false), State(0x00cb, 59, 62, false), State(0x00ab, 61, 63, false), State(0x008f, 61, 32, false)
    ]
  }

  function States64(): (s: seq<State>)
    ensures |s| == 24 && AllSound(s)
  {
    [
      State(0x5b12, 65, 65, true), State(0x4d04, 80, 66, false), State(0x412c, 81, 67, false), State(0x37d8, 82, 68, false),
      State(0x2fe8, 83, 69, false), State(0x293c, 84, 70, false), State(0x2379, 86, 71, false), State(0x1edf, 87, 72, false),
      State(0x1aa9, 87, 73, false), State(0x174e, 72, 74, false), State(0x1424, 72, 75, false), State(0x119c, 74, 76, false),
      State(0x0f6b, 74, 77, false), State(0x0d51, 75, 78, false), State(0x0bb6, 77, 79, false), State(0x0a40, 77, 48, false),
      State(0x5832, 80, 81, true), State(0x4d1c, 88, 82, false), State(0x438e, 89, 83, false), State(0x3bdd, 90, 84, false),
      State(0x34ee, 91, 85, false), State(0x2eae, 92, 86, false), State(0x299a, 93, 87, false), State(0x2516, 86, 71, false)
    ]
  }

  function States88(): (s: seq<State>)
    ensures |s| == 26 && AllSound(s)
  {
    [
      State(0x5570, 88, 89, true), State(0x4ca9, 95, 90, false), State(0x44d9, 96, 91, false), State(0x3e22, 97, 92, false),
      State(0x3824, 99, 93, false), State(0x32b4, 99, 94, false), State(0x2e17, 93, 86, false), State(0x56a8, 95, 96, true),
      State(0x4f46, 101, 97, false), State(0x47e5, 102, 98, false), State(0x41cf, 103, 99, false), State(0x3c3d, 104, 100, false),
      State(0x375e, 99, 93, false), State(0x5231, 105, 102, false), State(0x4c0f, 106, 103, false), State(0x4639, 107, 104, false),
      State(0x415e, 103, 99, false), State(0x5627, 105, 106, true), State(0x50e7, 108, 107, false), State(0x4b85, 109, 103, false),
      State(0x5597, 110, 109, false), State(0x504f, 111, 107, false), State(0x5a10, 110, 111, true), State(0x5522, 112, 109, false),
      State(0x59eb, 112, 111, true), State(0x5a1d, 113, 113, false)
    ]
  }

  function AllStates(): (s: seq<State>)
    ensures |s| == 114 && AllSound(s)
  {
    States0() + States14() + States36() + States64() + States88()
  }

  predicate Sound(s: State) { 0 < s.qe < 0x8000 && s.lps < 114 && s.mps < 114 }

  predicate AllSound(states: seq<State>) { forall i :: 0 <= i < |states| ==> Sound(states[i]) }

  /** The coders' shifts and masks recover what was packed. */
  lemma {:induction false} Unpacked(s: State)
    requires Sound(s)
    ensures Qe(Packed(s)) == s.qe && NextMps(Packed(s)) == s.mps
    ensures NextLps(Packed(s)) % 128 == s.lps && (NextLps(Packed(s)) >= 128) == s.flip
    ensures ValidEntry(Packed(s))
  {
    var low := (if s.flip then 128 else 0) + s.lps;
    assert Packed(s) == (s.qe * 256 + s.mps) * 256 + low;
    assert Packed(s) / 256 == s.qe * 256 + s.mps;
  }

  /** The table that both coders use; its last state is the fixed probability of one half. */
  function AriTab(): (t: Table)
    ensures forall i :: 0 <= i < 114 ==> t[i] == Packed(AllStates()[i])
  {
    var t := PackedAll(AllStates());
    assert forall i :: 0 <= i < 114 ==> ValidEntry(t[i]) by {
      forall i | 0 <= i < 114 ensures ValidEntry(t[i]) {
        Unpacked(AllStates()[i]);
      }
    }
    Unpacked(AllStates()[FIXED_STATE]);
    t
  }
}
