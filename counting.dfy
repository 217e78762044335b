/** The entry/exit counting rule applied to the centroid tracker's output,
    one tracked object at a time, and the facts it keeps. */
module Counting {

  /** A centroid as the centroid tracker reports it, in integer pixels. */
  datatype Centroid = Centroid(x: int, y: int)

  /** The record kept for one tracker identity: its centroid history and
      whether it has already been counted. */
  datatype Trackable = Trackable(objectID: int, centroids: seq<Centroid>, counted: bool)

  /** Everything the counting loop updates: the records by identity, the two
      counters, the two lists of counter values and the one-element `total`. */
  datatype Tally = Tally(
    trackableObjects: map<int, Trackable>,
    totalUp: int,
    totalDown: int,
    moveOut: seq<int>,
    moveIn: seq<int>,
    total: seq<int>)

  /** The state before the first frame. */
  const Initial: Tally := Tally(map[], 0, 0, [], [], [])

  /** A track counts up only while its centroid is above this line. */
  function UpLine(H: int): (r: int) { H / 2 - 20 }

  /** A track counts down only while its centroid is below this line. */
  const DownLine: int := 144

  /** The (exclusive) upper bound on the downward direction that still counts. */
  const DownStepBound: real := 1.1

  /** A new record: the identity's first centroid, not yet counted. */
  function NewTrackable(id: int, c: Centroid): (r: Trackable)
  {
    Trackable(id, [c], false)
  }

  /** Sum of the vertical coordinates of a centroid history. */
  function SumY(cs: seq<Centroid>): (r: int)
    decreases |cs|
  {
    if cs == [] then 0 else SumY(cs[..|cs| - 1]) + cs[|cs| - 1].y
  }

  /** `direction`: the new vertical coordinate minus the exact mean of the
      vertical coordinates seen before it. */
  function Direction(history: seq<Centroid>, y: int): (r: real)
    requires |history| > 0
  {
    y as real - SumY(history) as real / |history| as real
  }

  /** The up branch's condition. An empty history has no mean (NaN), and
      every comparison with it is false. */
  predicate CountsUp(history: seq<Centroid>, y: int, H: int)
  {
    |history| > 0 && Direction(history, y) < 0.0 && y < UpLine(H)
  }

  /** The down branch's own condition (it is tried only when the up one fails). */
  predicate CountsDown(history: seq<Centroid>, y: int)
  {
    |history| > 0 && 0.0 < Direction(history, y) < DownStepBound && y > DownLine
  }

  /** One iteration of the per-object loop: object `id` was reported at `c`. */
  function StepObject(t: Tally, id: int, c: Centroid, H: int): (r: Tally)
  {
    if id !in t.trackableObjects then
      t.(trackableObjects := t.trackableObjects[id := NewTrackable(id, c)])
    else
      var to := t.trackableObjects[id];
      var seen := to.(centroids := to.centroids + [c]);
      if to.counted then
        t.(trackableObjects := t.trackableObjects[id := seen])
      else if CountsUp(to.centroids, c.y, H) then
        var up := t.totalUp + 1;
        t.(trackableObjects := t.trackableObjects[id := seen.(counted := true)],
           totalUp := up,
           moveOut := t.moveOut + [up])
      else if CountsDown(to.centroids, c.y) then
        var down := t.totalDown + 1;
        var moveIn := t.moveIn + [down];
        t.(trackableObjects := t.trackableObjects[id := seen.(counted := true)],
           totalDown := down,
           moveIn := moveIn,
           total := [|moveIn| - |t.moveOut|])
      else
        t.(trackableObjects := t.trackableObjects[id := seen])
  }

  /** The per-object loop over one frame's tracker output, in its order. */
  function StepFrame(t: Tally, objects: seq<(int, Centroid)>, H: int): (r: Tally)
    decreases |objects|
  {
    if objects == [] then t
    else StepFrame(StepObject(t, objects[0].0, objects[0].1, H), objects[1..], H)
  }

  /** The per-object loop run over several frames' tracker outputs, one
      frame after another. */
  function StepFrames(t: Tally, frames: seq<seq<(int, Centroid)>>, H: int): (r: Tally)
    decreases |frames|
  {
    if frames == [] then t
    else StepFrames(StepFrame(t, frames[0], H), frames[1..], H)
  }

  /** The identities whose record is marked counted. */
  function CountedIds(m: map<int, Trackable>): (r: set<int>)
  {
    set id | id in m && m[id].counted
  }

  /** The list 1, 2, ..., n. */
  function OneTo(n: int): (r: seq<int>)
    decreases n
  {
    if n <= 0 then [] else OneTo(n - 1) + [n]
  }

  /** OneTo(n) has n elements and its last one is n. */
  lemma {:induction false} OneToShape(n: nat)
    ensures |OneTo(n)| == n
    ensures forall i :: 0 <= i < n ==> OneTo(n)[i] == i + 1
    decreases n
  {
    if n > 0 {
      OneToShape(n - 1);
    }
  }

  /** The facts the counting loop keeps: each list holds 1, 2, ... up to its
      counter, every record is filed under its own identity and has a
      history, the two counters together equal the number of counted
      records, and `total` holds at most one value. */
  predicate Consistent(t: Tally)
  {
    0 <= t.totalUp && 0 <= t.totalDown &&
    t.moveOut == OneTo(t.totalUp) && t.moveIn == OneTo(t.totalDown) &&
    (forall id :: id in t.trackableObjects ==>
       t.trackableObjects[id].objectID == id && |t.trackableObjects[id].centroids| > 0) &&
    |CountedIds(t.trackableObjects)| == t.totalUp + t.totalDown &&
    |t.total| <= 1
  }

  /** In a consistent state each list is as long as its counter and ends
      with the counter's value. */
  lemma ConsistentLists(t: Tally)
    requires Consistent(t)
    ensures |t.moveOut| == t.totalUp && |t.moveIn| == t.totalDown
    ensures t.totalUp > 0 ==> t.moveOut[t.totalUp - 1] == t.totalUp
    ensures t.totalDown > 0 ==> t.moveIn[t.totalDown - 1] == t.totalDown
  {
    OneToShape(t.totalUp);
    OneToShape(t.totalDown);
  }

  /** `u` is a later state than `t`: nothing decreased, the lists only grew
      at their ends, no record vanished, every history only grew at its end,
      and a counted record stayed counted. */
  predicate Grows(t: Tally, u: Tally)
  {
    t.totalUp <= u.totalUp && t.totalDown <= u.totalDown &&
    t.moveOut <= u.moveOut && t.moveIn <= u.moveIn &&
    forall id :: id in t.trackableObjects ==>
      id in u.trackableObjects &&
      t.trackableObjects[id].centroids <= u.trackableObjects[id].centroids &&
      (t.trackableObjects[id].counted ==> u.trackableObjects[id].counted)
  }

  /** The tracker reports each identity at most once per frame. */
  predicate DistinctIds(objects: seq<(int, Centroid)>)
  {
    forall i, j :: 0 <= i < j < |objects| ==> objects[i].0 != objects[j].0
  }

  /** The counting facts hold before the first frame. */
  lemma InitialConsistent()
    ensures Consistent(Initial)
  {
  }

  /** The comparisons on the real-valued direction are comparisons on
      integers: with n centroids in the history summing to s,
      direction < 0 iff n*y < s, 0 < direction iff s < n*y, and
      direction < 1.1 iff 10*(n*y - s) < 11*n. */
  lemma DirectionCompare(history: seq<Centroid>, y: int)
    requires |history| > 0
    ensures Direction(history, y) < 0.0 <==> |history| * y < SumY(history)
    ensures 0.0 < Direction(history, y) <==> SumY(history) < |history| * y
    ensures Direction(history, y) < DownStepBound <==>
            10 * (|history| * y - SumY(history)) < 11 * |history|
  {
    var n := |history| as real;
    var s := SumY(history) as real;
    var d := Direction(history, y);
    var e := (|history| * y - SumY(history)) as real;
    assert s / n * n == s;
    assert d * n == y as real * n - s / n * n;
    ScaledCompare(d, n, e);
  }

  /** Multiplying by a positive n keeps comparisons with 0 and with 1.1. */
  lemma ScaledCompare(d: real, n: real, e: real)
    requires n > 0.0 && d * n == e
    ensures d < 0.0 <==> e < 0.0
    ensures 0.0 < d <==> 0.0 < e
    ensures d < 1.1 <==> 10.0 * e < 11.0 * n
  {
  }

  /** The up and down conditions exclude each other, so the order in which
      the two branches are tried never decides between them. */
  lemma UpDownExclusive(history: seq<Centroid>, y: int, H: int)
    ensures !(CountsUp(history, y, H) && CountsDown(history, y))
  {
  }

  /** An identity seen for the first time gets a fresh uncounted record
      holding only this centroid, and nothing is counted in that step. */
  lemma FirstSightNotCounted(t: Tally, id: int, c: Centroid, H: int)
    requires id !in t.trackableObjects
    ensures var r := StepObject(t, id, c, H);
      r.trackableObjects == t.trackableObjects[id := Trackable(id, [c], false)] &&
      r.totalUp == t.totalUp && r.totalDown == t.totalDown &&
      r.moveOut == t.moveOut && r.moveIn == t.moveIn && r.total == t.total
  {
  }

  /** A record already counted only gets its centroid appended: the
      counters, lists and `total` are left exactly as they were. */
  lemma CountedIsFrozen(t: Tally, id: int, c: Centroid, H: int)
    requires id in t.trackableObjects && t.trackableObjects[id].counted
    ensures var r := StepObject(t, id, c, H);
      r.trackableObjects == t.trackableObjects[id := t.trackableObjects[id].(centroids := t.trackableObjects[id].centroids + [c])] &&
      r.totalUp == t.totalUp && r.totalDown == t.totalDown &&
      r.moveOut == t.moveOut && r.moveIn == t.moveIn && r.total == t.total
  {
  }

  /** `totalUp` grows by exactly one, and only when the record is known,
      uncounted, moving up against its earlier mean and above the up line;
      otherwise it is unchanged. */
  lemma UpCountIff(t: Tally, id: int, c: Centroid, H: int)
    ensures var r := StepObject(t, id, c, H);
      var up := id in t.trackableObjects && !t.trackableObjects[id].counted &&
                CountsUp(t.trackableObjects[id].centroids, c.y, H);
      r.totalUp == (if up then t.totalUp + 1 else t.totalUp) &&
      r.moveOut == (if up then t.moveOut + [r.totalUp] else t.moveOut)
  {
  }

  /** `totalDown` grows by exactly one, and only when the record is known,
      uncounted, the up condition fails, the direction is strictly between 0
      and 1.1 and the centroid is below the down line; only then is `total`
      reset, to the single value |moveIn| - |moveOut|. */
  lemma DownCountIff(t: Tally, id: int, c: Centroid, H: int)
    ensures var r := StepObject(t, id, c, H);
      var down := id in t.trackableObjects && !t.trackableObjects[id].counted &&
                  !CountsUp(t.trackableObjects[id].centroids, c.y, H) &&
                  CountsDown(t.trackableObjects[id].centroids, c.y);
      r.totalDown == (if down then t.totalDown + 1 else t.totalDown) &&
      r.moveIn == (if down then t.moveIn + [r.totalDown] else t.moveIn) &&
      r.total == (if down then [|r.moveIn| - |r.moveOut|] else t.total)
  {
  }

  /** The record of `id` is the only one touched: it is created with `c`
      or has `c` appended to the history it had, and it becomes counted
      exactly when one of the counters grew. */
  lemma StepObjectRecord(t: Tally, id: int, c: Centroid, H: int)
    ensures var r := StepObject(t, id, c, H);
      r.trackableObjects.Keys == t.trackableObjects.Keys + {id} &&
      (forall other :: other in t.trackableObjects && other != id ==>
         r.trackableObjects[other] == t.trackableObjects[other]) &&
      r.trackableObjects[id].centroids ==
        (if id in t.trackableObjects then t.trackableObjects[id].centroids + [c] else [c]) &&
      (r.trackableObjects[id].counted <==>
        (id in t.trackableObjects && t.trackableObjects[id].counted) ||
        r.totalUp + r.totalDown == t.totalUp + t.totalDown + 1)
  {
  }

  /** One object step moves the state forward. */
  lemma StepObjectGrows(t: Tally, id: int, c: Centroid, H: int)
    ensures Grows(t, StepObject(t, id, c, H))
  {
  }

  /** One object step keeps the counting facts. */
  lemma StepObjectConsistent(t: Tally, id: int, c: Centroid, H: int)
    requires Consistent(t)
    ensures Consistent(StepObject(t, id, c, H))
  {
    var r := StepObject(t, id, c, H);
    var m, m' := t.trackableObjects, r.trackableObjects;
    if id !in m {
      assert CountedIds(m') == CountedIds(m);
    } else if m[id].counted || r.totalUp + r.totalDown == t.totalUp + t.totalDown {
      assert CountedIds(m') == CountedIds(m);
    } else {
      assert id !in CountedIds(m);
      assert CountedIds(m') == CountedIds(m) + {id};
    }
  }

  /** Later-than is transitive. */
  lemma GrowsTransitive(t: Tally, u: Tally, v: Tally)
    requires Grows(t, u) && Grows(u, v)
    ensures Grows(t, v)
  {
  }

  /** A whole frame keeps the counting facts. */
  lemma {:induction false} StepFrameConsistent(t: Tally, objects: seq<(int, Centroid)>, H: int)
    requires Consistent(t)
    ensures Consistent(StepFrame(t, objects, H))
    decreases |objects|
  {
    if objects != [] {
      StepObjectConsistent(t, objects[0].0, objects[0].1, H);
      StepFrameConsistent(StepObject(t, objects[0].0, objects[0].1, H), objects[1..], H);
    }
  }

  /** A whole frame moves the state forward: counters never decrease,
      records are never removed and a counted record stays counted. */
  lemma {:induction false} StepFrameGrows(t: Tally, objects: seq<(int, Centroid)>, H: int)
    ensures Grows(t, StepFrame(t, objects, H))
    decreases |objects|
  {
    if objects != [] {
      var t' := StepObject(t, objects[0].0, objects[0].1, H);
      StepObjectGrows(t, objects[0].0, objects[0].1, H);
      StepFrameGrows(t', objects[1..], H);
      GrowsTransitive(t, t', StepFrame(t', objects[1..], H));
    }
  }

  /** The identities reported in a frame. */
  function ReportedIds(objects: seq<(int, Centroid)>): (r: set<int>)
    decreases |objects|
  {
    if objects == [] then {} else {objects[0].0} + ReportedIds(objects[1..])
  }

  /** An identity is reported iff it appears at some position of the frame. */
  lemma {:induction false} ReportedIdsAt(objects: seq<(int, Centroid)>, id: int)
    ensures id in ReportedIds(objects) <==> exists k :: 0 <= k < |objects| && objects[k].0 == id
    decreases |objects|
  {
    if objects != [] {
      var rest := objects[1..];
      ReportedIdsAt(rest, id);
      if exists k :: 0 <= k < |rest| && rest[k].0 == id {
        var k :| 0 <= k < |rest| && rest[k].0 == id;
        assert objects[k + 1].0 == id;
      }
      if exists k :: 0 <= k < |objects| && objects[k].0 == id {
        var k :| 0 <= k < |objects| && objects[k].0 == id;
        if k > 0 { assert rest[k - 1].0 == id; }
      }
    }
  }

  /** Without its first entry a frame still has distinct identities, none
      of them the first one. */
  lemma DistinctRest(objects: seq<(int, Centroid)>)
    requires objects != [] && DistinctIds(objects)
    ensures DistinctIds(objects[1..]) && objects[0].0 !in ReportedIds(objects[1..])
  {
    var rest := objects[1..];
    forall i, j | 0 <= i < j < |rest| ensures rest[i].0 != rest[j].0 {
      assert rest[i] == objects[i + 1] && rest[j] == objects[j + 1];
    }
    forall k | 0 <= k < |rest| ensures rest[k].0 != objects[0].0 {
      assert rest[k] == objects[k + 1];
    }
    ReportedIdsAt(rest, objects[0].0);
  }

  /** Over one frame, the identities on record grow by exactly the reported ones. */
  lemma {:induction false} StepFrameKeys(t: Tally, objects: seq<(int, Centroid)>, H: int)
    ensures StepFrame(t, objects, H).trackableObjects.Keys ==
            t.trackableObjects.Keys + ReportedIds(objects)
    decreases |objects|
  {
    if objects != [] {
      StepObjectRecord(t, objects[0].0, objects[0].1, H);
      StepFrameKeys(StepObject(t, objects[0].0, objects[0].1, H), objects[1..], H);
    }
  }

  /** Over one frame, the records of identities not reported are untouched. */
  lemma {:induction false} StepFrameUntouched(t: Tally, objects: seq<(int, Centroid)>, H: int, id: int)
    requires id in t.trackableObjects && id !in ReportedIds(objects)
    ensures id in StepFrame(t, objects, H).trackableObjects
    ensures StepFrame(t, objects, H).trackableObjects[id] == t.trackableObjects[id]
    decreases |objects|
  {
    if objects != [] {
      StepObjectRecord(t, objects[0].0, objects[0].1, H);
      StepFrameUntouched(StepObject(t, objects[0].0, objects[0].1, H), objects[1..], H, id);
    }
  }

  /** Over one frame with distinct identities, each reported identity's
      history grows by exactly the centroid reported for it, or starts with it. */
  lemma {:induction false} StepFrameHistories(t: Tally, objects: seq<(int, Centroid)>, H: int)
    requires DistinctIds(objects)
    ensures forall k :: 0 <= k < |objects| ==>
      objects[k].0 in StepFrame(t, objects, H).trackableObjects &&
      StepFrame(t, objects, H).trackableObjects[objects[k].0].centroids ==
        (if objects[k].0 in t.trackableObjects
         then t.trackableObjects[objects[k].0].centroids + [objects[k].1]
         else [objects[k].1])
    decreases |objects|
  {
    if objects != [] {
      var id0, c0 := objects[0].0, objects[0].1;
      var t' := StepObject(t, id0, c0, H);
      var rest := objects[1..];
      StepObjectRecord(t, id0, c0, H);
      DistinctRest(objects);
      StepFrameHistories(t', rest, H);
      StepFrameUntouched(t', rest, H, id0);
      forall k | 1 <= k < |objects|
        ensures objects[k].0 in StepFrame(t, objects, H).trackableObjects
        ensures StepFrame(t, objects, H).trackableObjects[objects[k].0].centroids ==
          (if objects[k].0 in t.trackableObjects
           then t.trackableObjects[objects[k].0].centroids + [objects[k].1]
           else [objects[k].1])
      {
        assert rest[k - 1] == objects[k];
        assert objects[k].0 != id0;
      }
    }
  }

  /** A frame in which every reported identity is already counted changes
      none of the counters, lists or `total`: a track is never counted twice. */
  lemma {:induction false} CountedFrameIsFrozen(t: Tally, objects: seq<(int, Centroid)>, H: int)
    requires forall k :: 0 <= k < |objects| ==>
      objects[k].0 in t.trackableObjects && t.trackableObjects[objects[k].0].counted
    ensures var r := StepFrame(t, objects, H);
      r.totalUp == t.totalUp && r.totalDown == t.totalDown &&
      r.moveOut == t.moveOut && r.moveIn == t.moveIn && r.total == t.total
    decreases |objects|
  {
    if objects != [] {
      var t' := StepObject(t, objects[0].0, objects[0].1, H);
      CountedIsFrozen(t, objects[0].0, objects[0].1, H);
      StepObjectGrows(t, objects[0].0, objects[0].1, H);
      forall k | 0 <= k < |objects[1..]|
        ensures objects[1..][k].0 in t'.trackableObjects && t'.trackableObjects[objects[1..][k].0].counted
      {
        assert objects[1..][k] == objects[k + 1];
      }
      CountedFrameIsFrozen(t', objects[1..], H);
    }
  }

  /** Over a frame, the number of up and down counts made equals the number
      of records that became counted in it. */
  lemma CountsAreNewlyCountedTracks(t: Tally, objects: seq<(int, Centroid)>, H: int)
    requires Consistent(t)
    ensures var r := StepFrame(t, objects, H);
      (r.totalUp - t.totalUp) + (r.totalDown - t.totalDown) ==
      |CountedIds(r.trackableObjects) - CountedIds(t.trackableObjects)|
  {
    var r := StepFrame(t, objects, H);
    StepFrameConsistent(t, objects, H);
    StepFrameGrows(t, objects, H);
    var a, b := CountedIds(t.trackableObjects), CountedIds(r.trackableObjects);
    forall id | id in a ensures id in b {
      assert id in t.trackableObjects && t.trackableObjects[id].counted;
    }
    assert b == a + (b - a);
  }
}
