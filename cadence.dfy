/** The frame loop of one counting run: which raw frames are processed,
    when the correlation trackers are rebuilt from fresh detections, and
    how the processed-frame counter advances. */
module Cadence {
  import opened Counting

  /** What the loop gets from one frame that was read successfully: the
      centroid tracker's output for it, in the tracker's order, and whether
      the escape key was seen after it was shown. Both are used only when
      the frame is processed. */
  datatype RawFrame = RawFrame(objects: seq<(int, Centroid)>, escape: bool)

  /** The loop's state: `count` raw frames read so far, `totalFrames`
      processed frames completed, the raw frame numbers at which the
      trackers were rebuilt from detections, and the counting state. */
  datatype LoopState = LoopState(count: int, totalFrames: int, reseeds: seq<int>, tally: Tally)

  /** Only every `FrameStride`-th raw frame is processed. */
  const FrameStride: int := 3

  /** The trackers are rebuilt once every `ReseedPeriod` processed frames. */
  const ReseedPeriod: int := 30

  /** The state before the first frame is read. */
  const Start: LoopState := LoopState(0, 0, [], Initial)

  /** Does the loop stop right after this frame (escape on a processed frame)? */
  predicate Stops(st: LoopState, f: RawFrame)
  {
    (st.count + 1) % FrameStride == 0 && f.escape
  }

  /** One pass of the loop body for the frame `f` just read. */
  function Advance(st: LoopState, f: RawFrame, H: int): (r: LoopState)
  {
    var count := st.count + 1;
    if count % FrameStride != 0 then
      st.(count := count)
    else
      var reseeds := if st.totalFrames % ReseedPeriod == 0 then st.reseeds + [count] else st.reseeds;
      var tally := StepFrame(st.tally, f.objects, H);
      var totalFrames := if f.escape then st.totalFrames else st.totalFrames + 1;
      LoopState(count, totalFrames, reseeds, tally)
  }

  /** The loop from `st` over the frames still to be read; it ends when
      they run out or right after a processed frame on which escape was seen. */
  function RunFrom(st: LoopState, frames: seq<RawFrame>, H: int): (r: LoopState)
    decreases |frames|
  {
    if frames == [] then st
    else if Stops(st, frames[0]) then Advance(st, frames[0], H)
    else RunFrom(Advance(st, frames[0], H), frames[1..], H)
  }

  /** The raw frame numbers 1..n, in order, at which the trackers are
      rebuilt: the processed frames numbered 0, 30, 60, ... */
  function ReseedSchedule(n: int): (r: seq<int>)
    decreases n
  {
    if n <= 0 then []
    else ReseedSchedule(n - 1) + (if n % (FrameStride * ReseedPeriod) == FrameStride then [n] else [])
  }

  /** The schedule holds exactly the frames numbered 3, 93, 183, ... up to n,
      in increasing order. */
  lemma {:induction false} ReseedScheduleMembers(n: int)
    ensures forall k :: k in ReseedSchedule(n) <==> 1 <= k <= n && k % 90 == 3
    ensures forall i, j :: 0 <= i < j < |ReseedSchedule(n)| ==> ReseedSchedule(n)[i] < ReseedSchedule(n)[j]
    decreases n
  {
    if n > 0 {
      ReseedScheduleMembers(n - 1);
      var prev := ReseedSchedule(n - 1);
      forall i | 0 <= i < |prev| ensures prev[i] < n {
        assert prev[i] in prev;
      }
    }
  }

  /** The cadence facts of a loop that has not stopped: one processed frame
      completed per three raw frames read, and the trackers rebuilt exactly
      on the schedule. */
  predicate OnSchedule(st: LoopState)
  {
    st.count >= 0 && st.totalFrames == st.count / FrameStride && st.reseeds == ReseedSchedule(st.count)
  }

  /** Reading frame number n + 1 extends the schedule by that frame
      exactly when the processed frame it completes is a multiple of 30. */
  lemma NextFrameSchedule(n: int)
    requires n >= 0
    ensures (n + 1) % FrameStride != 0 ==>
      (n + 1) / FrameStride == n / FrameStride && ReseedSchedule(n + 1) == ReseedSchedule(n)
    ensures (n + 1) % FrameStride == 0 ==>
      (n + 1) / FrameStride == n / FrameStride + 1 &&
      ReseedSchedule(n + 1) ==
        if (n / FrameStride) % ReseedPeriod == 0 then ReseedSchedule(n) + [n + 1] else ReseedSchedule(n)
  {
    var m := (n + 1) / 3;
    if (n + 1) % 3 == 0 {
      assert n + 1 == 3 * m;
      assert n / 3 == m - 1;
      assert ((n + 1) % 90 == 3) == ((m - 1) % 30 == 0);
    } else {
      assert (n + 1) % 90 != 3;
    }
  }

  /** A pass that does not stop keeps the loop on schedule. */
  lemma AdvanceOnSchedule(st: LoopState, f: RawFrame, H: int)
    requires OnSchedule(st) && !Stops(st, f)
    ensures OnSchedule(Advance(st, f, H))
  {
    NextFrameSchedule(st.count);
  }

  /** A pass that stops on escape processes its frame but does not complete it. */
  lemma AdvanceStops(st: LoopState, f: RawFrame, H: int)
    requires OnSchedule(st) && Stops(st, f)
    ensures var r := Advance(st, f, H);
      r.count == st.count + 1 && r.count % 3 == 0 &&
      r.totalFrames == r.count / 3 - 1 && r.reseeds == ReseedSchedule(r.count)
  {
    NextFrameSchedule(st.count);
  }

  /** The cadence of a whole run: it reads frames until they run out or
      until the first escape on a processed frame; the trackers were rebuilt exactly
      on the frames numbered 3, 93, 183, ... read so far; and every
      processed frame was completed except one ended by escape. */
  lemma {:induction false} RunOnSchedule(st: LoopState, frames: seq<RawFrame>, H: int)
    requires OnSchedule(st)
    ensures var r := RunFrom(st, frames, H);
      var read := r.count - st.count;
      0 <= read <= |frames| &&
      (read < |frames| ==> EndsOnEscape(frames, read, r.count)) &&
      NoEscapeBefore(st.count, frames, read) &&
      r.reseeds == ReseedSchedule(r.count) &&
      r.totalFrames == (if EndsOnEscape(frames, read, r.count) then r.count / 3 - 1 else r.count / 3)
    decreases |frames|
  {
    if frames != [] {
      if Stops(st, frames[0]) {
        AdvanceStops(st, frames[0], H);
      } else {
        var st' := Advance(st, frames[0], H);
        AdvanceOnSchedule(st, frames[0], H);
        RunOnSchedule(st', frames[1..], H);
        var r := RunFrom(st', frames[1..], H);
        var read' := r.count - st'.count;
        assert r.count - st.count == read' + 1;
        forall i | 0 <= i < read' && (st.count + i + 1) % FrameStride == 0
          ensures !frames[i].escape
        {
          if i > 0 {
            assert frames[i] == frames[1..][i - 1];
          }
        }
        if read' > 0 {
          assert frames[read'] == frames[1..][read' - 1];
        } else {
          assert r == st';
          assert !(st'.count % 3 == 0 && frames[0].escape);
        }
      }
    }
  }

  /** A run from the start keeps the counting facts. */
  lemma {:induction false} RunConsistent(st: LoopState, frames: seq<RawFrame>, H: int)
    requires Consistent(st.tally)
    ensures Consistent(RunFrom(st, frames, H).tally)
    decreases |frames|
  {
    if frames != [] {
      var st' := Advance(st, frames[0], H);
      if (st.count + 1) % FrameStride == 0 {
        StepFrameConsistent(st.tally, frames[0].objects, H);
      }
      if !Stops(st, frames[0]) {
        RunConsistent(st', frames[1..], H);
      }
    }
  }

  /** Only every third raw frame matters: two runs over frames that agree on
      the processed positions end in the same state, whatever the skipped
      frames hold. */
  lemma {:induction false} SkippedFramesIgnored(st: LoopState, frames: seq<RawFrame>, other: seq<RawFrame>, H: int)
    requires |frames| == |other|
    requires forall i :: 0 <= i < |frames| && (st.count + i + 1) % 3 == 0 ==> frames[i] == other[i]
    ensures RunFrom(st, frames, H) == RunFrom(st, other, H)
    decreases |frames|
  {
    if frames != [] {
      assert Advance(st, frames[0], H) == Advance(st, other[0], H);
      assert Stops(st, frames[0]) == Stops(st, other[0]);
      var st' := Advance(st, frames[0], H);
      forall i | 0 <= i < |frames[1..]| && (st'.count + i + 1) % 3 == 0
        ensures frames[1..][i] == other[1..][i]
      {
        assert frames[i + 1] == other[i + 1];
      }
      SkippedFramesIgnored(st', frames[1..], other[1..], H);
    }
  }

  /** The cadence of a whole run from the start: it reads frames until they
      run out or until the first escape on a processed frame, the trackers were rebuilt
      exactly on the frames numbered 3, 93, 183, ... read so far, and every
      processed frame was completed except one ended by escape. */
  lemma RunFromStart(frames: seq<RawFrame>, H: int)
    ensures var r := RunFrom(Start, frames, H);
      r.count <= |frames| &&
      (r.count < |frames| ==> EndsOnEscape(frames, r.count, r.count)) &&
      NoEscapeBefore(0, frames, r.count) &&
      r.tally == StepFrames(Initial, Processed(0, frames[..r.count]), H) &&
      (forall k :: k in r.reseeds <==> 1 <= k <= r.count && k % 90 == 3) &&
      r.totalFrames == (if EndsOnEscape(frames, r.count, r.count) then r.count / 3 - 1 else r.count / 3)
  {
    assert OnSchedule(Start);
    RunOnSchedule(Start, frames, H);
    RunCounts(Start, frames, H);
    ReseedScheduleMembers(RunFrom(Start, frames, H).count);
  }

  /** The counting facts hold at the end of every run from the start. */
  lemma RunFromStartConsistent(frames: seq<RawFrame>, H: int)
    ensures Consistent(RunFrom(Start, frames, H).tally)
  {
    InitialConsistent();
    RunConsistent(Start, frames, H);
  }

  /** No processed frame before the `read`-th of `frames` carried escape,
      `c` being the number of raw frames read before `frames[0]`. */
  predicate NoEscapeBefore(c: int, frames: seq<RawFrame>, read: int)
  {
    forall i :: 0 <= i < read - 1 && i < |frames| && (c + i + 1) % FrameStride == 0 ==> !frames[i].escape
  }

  /** The tracker outputs of the frames that are processed, in order, when
      `c` raw frames were read before `frames[0]`. */
  function Processed(c: int, frames: seq<RawFrame>): (r: seq<seq<(int, Centroid)>>)
    ensures c >= 0 ==> |r| == (c + |frames|) / FrameStride - c / FrameStride
    decreases |frames|
  {
    if frames == [] then []
    else (if (c + 1) % FrameStride == 0 then [frames[0].objects] else []) + Processed(c + 1, frames[1..])
  }

  /** The counting state at the end of a run is the per-object loop applied
      to exactly the processed frames read, one after another, in order. */
  lemma {:induction false} RunCounts(st: LoopState, frames: seq<RawFrame>, H: int)
    ensures var r := RunFrom(st, frames, H);
      var read := r.count - st.count;
      0 <= read <= |frames| &&
      r.tally == StepFrames(st.tally, Processed(st.count, frames[..read]), H)
    decreases |frames|
  {
    if frames != [] {
      var f := frames[0];
      var st' := Advance(st, f, H);
      var head: seq<seq<(int, Centroid)>> := if (st.count + 1) % FrameStride == 0 then [f.objects] else [];
      if Stops(st, f) {
        assert frames[..1] == [f];
        assert Processed(st.count, [f]) == [f.objects];
      } else {
        RunCounts(st', frames[1..], H);
        var r := RunFrom(st', frames[1..], H);
        var read' := r.count - st'.count;
        var taken := frames[..read' + 1];
        assert taken[0] == f && taken[1..] == frames[1..][..read'];
        var rest := Processed(st'.count, frames[1..][..read']);
        assert Processed(st.count, taken) == head + rest;
        if head != [] {
          assert (head + rest)[0] == f.objects && (head + rest)[1..] == rest;
        } else {
          assert head + rest == rest;
        }
      }
    }
  }

  /** Did the run stop on escape at the `read`-th of `frames`, the raw frame
      numbered `count` of the whole run? */
  predicate EndsOnEscape(frames: seq<RawFrame>, read: int, count: int)
  {
    0 < read <= |frames| && count % FrameStride == 0 && frames[read - 1].escape
  }
}
