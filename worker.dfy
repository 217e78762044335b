/** The counting worker's run, written as the loops that update its state
    step by step, each proved to follow the specification functions of
    Counting and Cadence. */
module Worker {
  import opened Counting
  import opened Cadence

  /** The state one run of the worker keeps while it reads frames. */
  class VideoCountWorker {
    var count: int
    var totalFrames: int
    var reseeds: seq<int>
    var trackableObjects: map<int, Trackable>
    var totalUp: int
    var totalDown: int
    var moveOut: seq<int>
    var moveIn: seq<int>
    var total: seq<int>

    /** The counting part of the state. */
    function Counts(): Tally
      reads this
    {
      Tally(trackableObjects, totalUp, totalDown, moveOut, moveIn, total)
    }

    /** The whole state of the frame loop. */
    function State(): LoopState
      reads this
    {
      LoopState(count, totalFrames, reseeds, Counts())
    }

    /** The object invariant: the counting facts hold. */
    predicate Valid()
      reads this
    {
      Consistent(Counts())
    }

    /** The state before the first frame. */
    constructor ()
      ensures Valid() && State() == Start
    {
      new;
      Reset();
      InitialConsistent();
    }

    /** The assignments that open a run: nothing read, nothing counted. */
    method Reset()
      modifies this
      ensures State() == Start
    {
      count, totalFrames, reseeds := 0, 0, [];
      trackableObjects := map[];
      totalUp, totalDown := 0, 0;
      moveOut, moveIn, total := [], [], [];
    }

    /** The sum of the vertical coordinates of a history, one centroid at a time. */
    static method SumOfYs(history: seq<Centroid>) returns (s: int)
      ensures s == SumY(history)
    {
      s := 0;
      var i := 0;
      while i < |history|
        invariant 0 <= i <= |history|
        invariant s == SumY(history[..i])
      {
        assert history[..i + 1][..i] == history[..i];
        s := s + history[i].y;
        i := i + 1;
      }
      assert history[..|history|] == history;
    }

    /** Handle the tracker reporting identity `id` at centroid `c`. */
    method ProcessObject(id: int, c: Centroid, H: int)
      requires Valid()
      modifies this
      ensures Valid()
      ensures Counts() == StepObject(old(Counts()), id, c, H)
      ensures count == old(count) && totalFrames == old(totalFrames) && reseeds == old(reseeds)
    {
      ghost var before := Counts();
      var to: Trackable;
      if id !in trackableObjects {
        to := NewTrackable(id, c);
      } else {
        to := trackableObjects[id];
        var s := SumOfYs(to.centroids);
        var direction := c.y as real - s as real / |to.centroids| as real;
        to := to.(centroids := to.centroids + [c]);
        if !to.counted {
          if direction < 0.0 && c.y < H / 2 - 20 {
            totalUp := totalUp + 1;
            moveOut := moveOut + [totalUp];
            to := to.(counted := true);
          } else if 0.0 < direction < 1.1 && c.y > 144 {
            totalDown := totalDown + 1;
            moveIn := moveIn + [totalDown];
            to := to.(counted := true);
            total := [];
            total := total + [|moveIn| - |moveOut|];
          }
        }
      }
      trackableObjects := trackableObjects[id := to];
      StepObjectConsistent(before, id, c, H);
    }

    /** Handle one frame's tracker output, in the tracker's order. */
    method ProcessObjects(objects: seq<(int, Centroid)>, H: int)
      requires Valid()
      modifies this
      ensures Valid()
      ensures Counts() == StepFrame(old(Counts()), objects, H)
      ensures count == old(count) && totalFrames == old(totalFrames) && reseeds == old(reseeds)
    {
      for i := 0 to |objects|
        invariant Valid()
        invariant StepFrame(Counts(), objects[i..], H) == StepFrame(old(Counts()), objects, H)
        invariant count == old(count) && totalFrames == old(totalFrames) && reseeds == old(reseeds)
      {
        assert objects[i..][1..] == objects[i + 1..];
        ProcessObject(objects[i].0, objects[i].1, H);
      }
    }

    /** One pass of the frame loop for the frame `f` just read; `stop` tells
        whether the loop ends after it. */
    method ReadFrame(f: RawFrame, H: int) returns (stop: bool)
      requires Valid()
      modifies this
      ensures Valid()
      ensures State() == Advance(old(State()), f, H)
      ensures stop == Stops(old(State()), f)
    {
      count := count + 1;
      if count % 3 != 0 {
        return false;
      }
      if totalFrames % 30 == 0 {
        reseeds := reseeds + [count];
      }
      ProcessObjects(f.objects, H);
      if f.escape {
        return true;
      }
      totalFrames := totalFrames + 1;
      stop := false;
    }

    /** The frame loop: read the frames one after another until they run
        out or a pass says to stop. */
    method ReadFrames(frames: seq<RawFrame>, H: int)
      requires Valid()
      modifies this
      ensures Valid()
      ensures State() == RunFrom(old(State()), frames, H)
    {
      var i := 0;
      while i < |frames|
        invariant 0 <= i <= |frames|
        invariant Valid()
        invariant RunFrom(State(), frames[i..], H) == RunFrom(old(State()), frames, H)
      {
        ghost var before := State();
        ghost var rest := frames[i..];
        assert rest[0] == frames[i] && rest[1..] == frames[i + 1..];
        var stop := ReadFrame(frames[i], H);
        if stop {
          assert RunFrom(before, rest, H) == Advance(before, frames[i], H);
          return;
        }
        assert RunFrom(before, rest, H) == RunFrom(State(), frames[i + 1..], H);
        i := i + 1;
      }
      assert frames[i..] == [];
    }

    /** A whole run over the frames the capture delivers, from a fresh state. */
    method Run(frames: seq<RawFrame>, H: int)
      modifies this
      ensures Valid()
      ensures State() == RunFrom(Start, frames, H)
    {
      Reset();
      InitialConsistent();
      ReadFrames(frames, H);
    }
  }
}
