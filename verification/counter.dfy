/** The counter animation: each animation frame shows
    `min(floor(progress / duration * target), target)` and asks for another
    frame while `progress < duration`. Frame scheduling itself is the
    browser's; here a run is the sequence of frame timestamps it delivers. */
module Counter {
  import opened Wrappers

  /** Length of the ramp, in milliseconds. */
  const DURATION: nat := 2000

  /** The value shown `progress` milliseconds into the ramp towards `target`:
      the floor of the exact proportion, capped at `target`. The first three
      clauses pin it down: the largest `v <= target` with
      `v * DURATION <= progress * target`. */
  function FrameValue(progress: int, target: nat): (v: int)
    ensures v <= target
    ensures v * DURATION <= progress * target
    ensures v == target || progress * target < (v + 1) * DURATION
    ensures progress >= 0 ==> v >= 0
    ensures progress >= DURATION ==> v == target
  {
    var raw := (progress * target) / DURATION;
    if raw < target then raw else target
  }

  /** Multiplying by a non-negative factor keeps order. */
  lemma MulMono(a: int, b: int, c: nat)
    requires a <= b
    ensures a * c <= b * c
  {
  }

  /** Later in the ramp never shows a smaller value. */
  lemma FrameValueMonotone(p1: int, p2: int, target: nat)
    requires p1 <= p2
    ensures FrameValue(p1, target) <= FrameValue(p2, target)
  {
    MulMono(p1, p2, target);
    var v1 := FrameValue(p1, target);
    assert v1 * DURATION <= p2 * target;
  }

  /** The ramp starts at zero. */
  lemma FrameValueAtStart(target: nat)
    ensures FrameValue(0, target) == 0
  {
  }

  /** Outcome of one frame: the remembered start time, the progress, the value
      written and whether another frame is requested. */
  datatype Frame = Frame(startTime: Option<int>, progress: int, value: int, again: bool)

  /** A start time of `undefined` or `0` is falsy, so the frame takes its own
      timestamp as the start. */
  predicate Unset(startTime: Option<int>) {
    startTime.None? || startTime.value == 0
  }

  /** One call of the frame callback. */
  function Step(startTime: Option<int>, timestamp: int, target: nat): (f: Frame)
    ensures f.startTime == (if Unset(startTime) then Some(timestamp) else startTime)
    ensures f.startTime.Some? && f.progress == timestamp - f.startTime.value
    ensures f.value == FrameValue(f.progress, target)
    ensures Unset(startTime) ==> f.progress == 0 && f.value == 0
    ensures f.again <==> f.progress < DURATION
    ensures !f.again ==> f.value == target
  {
    var start := if Unset(startTime) then timestamp else startTime.value;
    var progress := timestamp - start;
    Frame(Some(start), progress, FrameValue(progress, target), progress < DURATION)
  }

  predicate NonDecreasing(s: seq<int>) {
    forall i, j :: 0 <= i <= j < |s| ==> s[i] <= s[j]
  }

  /** Index of the first frame whose timestamp is truthy (non-zero): the frame
      whose timestamp the run keeps as its start time. */
  function FirstSet(frames: seq<int>): (k: nat)
    ensures k <= |frames|
    ensures forall j :: 0 <= j < k ==> frames[j] == 0
    ensures k < |frames| ==> frames[k] != 0
  {
    if frames == [] || frames[0] != 0 then 0 else 1 + FirstSet(frames[1..])
  }

  /** Progress at frame `i` of a run, from the timestamps alone: zero until a
      truthy start time is kept, then the time elapsed since it. */
  function ProgressAt(frames: seq<int>, i: nat): int
    requires i < |frames|
  {
    var k := FirstSet(frames);
    if i < k then 0 else frames[i] - frames[k]
  }

  /** Over non-decreasing timestamps progress is non-negative and never
      decreases. */
  lemma ProgressMonotone(frames: seq<int>, i: nat, j: nat)
    requires NonDecreasing(frames) && i <= j < |frames|
    ensures 0 <= ProgressAt(frames, i) <= ProgressAt(frames, j)
  {
  }

  /** The values a run shows are bounded by the target and never decrease. */
  lemma {:induction false} RunValuesOrdered(frames: seq<int>, target: nat)
    requires NonDecreasing(frames)
    ensures forall i :: 0 <= i < |frames| ==> 0 <= FrameValue(ProgressAt(frames, i), target) <= target
    ensures forall i, j :: 0 <= i <= j < |frames| ==>
      FrameValue(ProgressAt(frames, i), target) <= FrameValue(ProgressAt(frames, j), target)
  {
    forall i, j | 0 <= i <= j < |frames|
      ensures 0 <= FrameValue(ProgressAt(frames, i), target) <= FrameValue(ProgressAt(frames, j), target)
    {
      ProgressMonotone(frames, i, j);
      FrameValueMonotone(ProgressAt(frames, i), ProgressAt(frames, j), target);
    }
  }

  /** The frame callback, fed the run's timestamps in order, keeps the start
      time `FirstSet` names and computes `ProgressAt`. */
  lemma StepFollowsRun(frames: seq<int>, k: nat, startTime: Option<int>, target: nat)
    requires k < |frames|
    requires k <= FirstSet(frames) ==> Unset(startTime)
    requires k > FirstSet(frames) ==> startTime == Some(frames[FirstSet(frames)])
    ensures Step(startTime, frames[k], target).progress == ProgressAt(frames, k)
    ensures k + 1 > FirstSet(frames) ==> Step(startTime, frames[k], target).startTime == Some(frames[FirstSet(frames)])
    ensures k + 1 <= FirstSet(frames) ==> Unset(Step(startTime, frames[k], target).startTime)
  {
  }

  /** Runs the ramp over the frame timestamps the browser delivers, stopping
      after the first frame that does not ask for another. `shown` is the
      value written by each frame that ran; `finished` says the ramp stopped
      by itself. */
  method Animate(target: nat, frames: seq<int>) returns (shown: seq<int>, finished: bool)
    requires NonDecreasing(frames)
    ensures |shown| <= |frames|
    ensures forall i :: 0 <= i < |shown| ==> shown[i] == FrameValue(ProgressAt(frames, i), target)
    ensures finished <==> exists i :: 0 <= i < |frames| && ProgressAt(frames, i) >= DURATION
    ensures finished ==> |shown| > 0 && ProgressAt(frames, |shown| - 1) >= DURATION
    ensures forall i :: 0 <= i < |shown| - 1 ==> ProgressAt(frames, i) < DURATION
    ensures !finished ==> |shown| == |frames|
    ensures finished ==> shown[|shown| - 1] == target
    ensures forall i :: 0 <= i < |shown| ==> 0 <= shown[i] <= target
    ensures NonDecreasing(shown)
  {
    var startTime: Option<int> := None;
    shown := [];
    finished := false;
    var k := 0;
    while k < |frames| && !finished
      invariant 0 <= k <= |frames|
      invariant |shown| == k
      invariant k <= FirstSet(frames) ==> Unset(startTime)
      invariant k > FirstSet(frames) ==> startTime == Some(frames[FirstSet(frames)])
      invariant forall i :: 0 <= i < k ==> shown[i] == FrameValue(ProgressAt(frames, i), target)
      invariant forall i :: 0 <= i < k - 1 ==> ProgressAt(frames, i) < DURATION
      invariant k == 0 ==> !finished
      invariant k > 0 ==> (finished <==> ProgressAt(frames, k - 1) >= DURATION)
    {
      StepFollowsRun(frames, k, startTime, target);
      var f := Step(startTime, frames[k], target);
      startTime := f.startTime;
      shown := shown + [f.value];
      finished := !f.again;
      k := k + 1;
    }
    RunValuesOrdered(frames, target);
  }

  /** A frame at or past the duration shows the target, and so does every
      later frame of the same run. */
  lemma {:induction false} StopsAtTarget(frames: seq<int>, i: nat, j: nat, target: nat)
    requires NonDecreasing(frames) && i <= j < |frames|
    requires ProgressAt(frames, i) >= DURATION
    ensures FrameValue(ProgressAt(frames, j), target) == target
  {
    ProgressMonotone(frames, i, j);
  }
}
