/**
 * Strict running maxima above zero: what a "newer than the last one" admission rule keeps of a stream of timestamps.
 */
module Records {

  /** The last admitted value, zero before any. */
  function Peak(ts: seq<int>): int {
    if ts == [] then 0
    else
      var p := Peak(ts[..|ts| - 1]);
      if ts[|ts| - 1] > p then ts[|ts| - 1] else p
  }

  /** The admitted values, in order. */
  function Admit(ts: seq<int>): seq<int> {
    if ts == [] then []
    else
      var k := |ts| - 1;
      if ts[k] > Peak(ts[..k]) then Admit(ts[..k]) + [ts[k]] else Admit(ts[..k])
  }

  /** The reference definition: positive and above everything before it. */
  ghost predicate IsRecord(ts: seq<int>, i: nat)
    requires i < |ts|
  {
    ts[i] > 0 && forall j :: 0 <= j < i ==> ts[j] < ts[i]
  }

  lemma {:induction false} PeakIsMaximum(ts: seq<int>)
    ensures Peak(ts) >= 0
    ensures forall j :: 0 <= j < |ts| ==> ts[j] <= Peak(ts)
    ensures Peak(ts) == 0 || Peak(ts) in ts
  {
    if ts != [] {
      PeakIsMaximum(ts[..|ts| - 1]);
      assert ts == ts[..|ts| - 1] + [ts[|ts| - 1]];
    }
  }

  lemma AdmittedIffRecord(ts: seq<int>, i: nat)
    requires i < |ts|
    ensures ts[i] > Peak(ts[..i]) <==> IsRecord(ts, i)
  {
    PeakIsMaximum(ts[..i]);
    assert forall j :: 0 <= j < i ==> ts[..i][j] == ts[j];
  }

  /** Admitted values strictly rise and start above zero. */
  lemma {:induction false} AdmitRises(ts: seq<int>)
    ensures forall i, j :: 0 <= i < j < |Admit(ts)| ==> Admit(ts)[i] < Admit(ts)[j]
    ensures forall i :: 0 <= i < |Admit(ts)| ==> 0 < Admit(ts)[i] <= Peak(ts)
  {
    if ts != [] {
      AdmitRises(ts[..|ts| - 1]);
      PeakIsMaximum(ts[..|ts| - 1]);
    }
  }
}
