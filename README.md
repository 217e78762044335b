# Entry/exit counting of the crowd-counting video worker

This project models the counting core of `VideoCountWorker.run` in
`gui/main_window.py`. It covers two parts of that method.

- The per-frame counting rule. A centroid tracker reports `(objectID, centroid)`
  pairs for each frame. The worker keeps a record per identity: a centroid
  history and a `counted` flag. It computes `direction`, the new vertical
  coordinate minus the mean of the earlier ones. An uncounted record counts
  up (`totalUp`, appended to `move_out`) when it moves up above the line
  `H // 2 - 20`. It counts down (`totalDown`, appended to `move_in`, `total`
  reset to `[len(move_in) - len(move_out)]`) when it moves down by less
  than 1.1 below the line 144.
- The frame cadence. Only every third raw frame is processed. The correlation
  trackers are rebuilt from fresh detections when `totalFrames % 30 == 0`.
  `totalFrames` advances once per processed frame that is completed. The Esc
  key ends the loop.

Files and modules:

- `counting.dfy`, module `Counting`. The counting rule as pure functions
  over a `Tally` value: `StepObject` handles one reported object and
  `StepFrame` handles one frame's output in order. It also holds the
  invariant `Consistent` and the lemmas about both functions.
- `cadence.dfy`, module `Cadence`. The frame loop as pure functions:
  `Advance` is one pass of the loop body and `RunFrom` is the loop up to
  its end. It also holds the cadence lemmas.
- `worker.dfy`, module `Worker`. The class `VideoCountWorker` holds the
  run's local state as fields (`count`, `totalFrames`, `trackableObjects`,
  `totalUp`, `totalDown`, `moveOut`, `moveIn`, `total`). Its methods update
  them step by step. Each method is proved to leave exactly the state given
  by the matching function of `Counting` or `Cadence`.

Modelling decisions:

- The `TrackableObject` constructor lives in a module that is not part of
  this model. It is taken to store its identity, a history holding only the
  given centroid, and `counted = False` (`NewTrackable`).
- `H` is a parameter, as the code reads it once from the capture. The code
  compares centroids of the resized 500×280 frame against `H // 2 - 20`,
  where `H` is the capture's own height. The model keeps this as written.
  Python's `//` and Dafny's `/` agree for the positive divisor 2.
- `direction` is computed exactly, over `real` (rationals). A history is
  never empty (`Consistent`). The predicates still treat an empty history
  as numpy does: the mean is NaN, so every comparison is false.
- The tracker's output for a frame is an input, `RawFrame.objects`. So is
  the result of `cv2.waitKey`, `RawFrame.escape`. Both are given for every
  frame read and used only on processed frames. `SkippedFramesIgnored` shows
  that the other frames' contents never matter.
- Instead of the tracker list, the model records the raw frame numbers at
  which the trackers were rebuilt (`reseeds`).
- The records are datatype values in a map, and the map is reassigned.
  In the code, each `TrackableObject` is created once per identity and
  stored only under that identity. So in-place mutation and value update
  have the same effect.
- The trackers are rebuilt every 30 processed frames: raw frames 3, 93,
  183, … (lines 58-67).
- The on-screen labels pair "Enter" with `totalUp` and "Exit" with
  `totalDown` (lines 121-122). The model uses only the counter names.

## Model

| member | source | states |
|---|---|---|
| `Counting.DirectionCompare` | gui/main_window.py:97-98 | Let n be the length of the history before the append and s the sum of its ys. Then `direction < 0` iff n·y < s, `0 < direction` iff s < n·y, and `direction < 1.1` iff 10(n·y − s) < 11n. |
| `Counting.UpDownExclusive` | gui/main_window.py:102-106 | The up and down conditions never hold together, so the branch order never decides between them. |
| `Counting.FirstSightNotCounted` | gui/main_window.py:92-95 | An identity seen for the first time gets the record `(id, [c], uncounted)`. Counters, lists and `total` stay as they were. |
| `Counting.CountedIsFrozen` | gui/main_window.py:97-101 | A counted record only gets the centroid appended. Counters, lists and `total` do not change. |
| `Counting.UpCountIff` | gui/main_window.py:101-105 | `totalUp` grows by exactly 1, and `move_out` gains the new value, iff the record is known and uncounted, direction < 0 and y < H//2 − 20. Otherwise both are unchanged. |
| `Counting.DownCountIff` | gui/main_window.py:106-112 | `totalDown` grows by exactly 1, `move_in` gains the new value and `total` becomes `[len(move_in) − len(move_out)]` iff the record is known and uncounted, the up condition fails, 0 < direction < 1.1 and y > 144. Otherwise all three are unchanged. |
| `Counting.StepObjectRecord` | gui/main_window.py:92-114 | Only the reported identity's record changes. It is created with the centroid, or the centroid is appended to its earlier history. It is counted iff it already was or a counter grew by one. |
| `Counting.StepObjectGrows` | gui/main_window.py:91-114 | One object step never lowers a counter, only appends to lists and histories, never removes a record and never uncounts one. |
| `Counting.InitialConsistent` | gui/main_window.py:34-45 | The counting invariant holds for the state set up before the loop. |
| `Counting.StepObjectConsistent` | gui/main_window.py:101-114 | One object step keeps the invariant. `move_out` is 1..totalUp and `move_in` is 1..totalDown. Every record sits under its own identity with a non-empty history. totalUp + totalDown equals the number of counted records. `total` has at most one element. |
| `Counting.ConsistentLists` | gui/main_window.py:103-108 | Under the invariant, `len(move_out) == totalUp` and `len(move_in) == totalDown`, and each list's last element equals its counter. |
| `Counting.StepFrameConsistent` | gui/main_window.py:91-114 | A whole frame's object loop keeps the invariant. |
| `Counting.StepFrameGrows` | gui/main_window.py:91-114 | Over a frame, counters never decrease, records are never removed and a counted record stays counted. |
| `Counting.StepFrameKeys` | gui/main_window.py:91-95 | Over a frame, the identities on record grow by exactly the reported identities. No record is removed. |
| `Counting.StepFrameUntouched` | gui/main_window.py:91-114 | Over a frame, the record of an identity that was not reported is left exactly as it was. |
| `Counting.StepFrameHistories` | gui/main_window.py:91-99 | With distinct identities in a frame, each reported identity's history grows by exactly its centroid, or starts with it. |
| `Counting.CountedFrameIsFrozen` | gui/main_window.py:91-109 | A frame whose reported identities are all counted changes no counter, list or `total`. No track is counted twice. |
| `Counting.CountsAreNewlyCountedTracks` | gui/main_window.py:101-109 | Over a frame, the number of up and down counts made equals the number of records that became counted. |
| `Cadence.ReseedScheduleMembers` | gui/main_window.py:67 | The rebuild schedule up to raw frame n holds exactly the frames k ≤ n with k mod 90 = 3, in increasing order. |
| `Cadence.NextFrameSchedule` | gui/main_window.py:58-67 | Reading raw frame n+1 advances `count // 3` exactly when n+1 is a multiple of 3. It extends the rebuild schedule by n+1 exactly when the processed frames completed so far are a multiple of 30. |
| `Cadence.AdvanceOnSchedule` | gui/main_window.py:58-60 | A loop pass that does not stop keeps the cadence invariant: `totalFrames == count // 3` and rebuilds exactly on the schedule. |
| `Cadence.AdvanceStops` | gui/main_window.py:144-147 | A pass ended by Esc processes its frame but does not advance `totalFrames`. |
| `Cadence.RunOnSchedule` | gui/main_window.py:54-67 | From any on-schedule state, the loop reads until the frames run out or until the first processed frame with Esc (lines 144-145). It stops early only on such a frame, and no processed frame before it carried Esc. Rebuilds follow the schedule. `totalFrames` is the number of processed frames, minus one if Esc ended the run. |
| `Cadence.Processed` | gui/main_window.py:58-60 | The frames selected for processing from a stretch of raw frames: with c frames read before, their number is `(c + n) // 3 − c // 3` for n raw frames. |
| `Cadence.RunCounts` | gui/main_window.py:54-114 | The counting state at the end of a run is the per-object loop applied to exactly the processed frames read, one after another, in order. Nothing else changes it. |
| `Cadence.RunConsistent` | gui/main_window.py:54-114 | The whole frame loop keeps the counting invariant. |
| `Cadence.SkippedFramesIgnored` | gui/main_window.py:58-60 | Two runs over frames that agree on every processed position end in the same state. |
| `Cadence.RunFromStart` | gui/main_window.py:38-147 | A run from the initial state reads at most the frames given. It stops early only at the first processed frame with Esc. Its counting state is the per-object loop over the processed frames read, in order. The trackers are rebuilt exactly on raw frames 3, 93, 183, … that were read. `totalFrames` is `count // 3`, minus one when Esc ended the run. |
| `Cadence.RunFromStartConsistent` | gui/main_window.py:34-114 | After any run from the initial state, the counting invariant holds. |
| `Worker.VideoCountWorker.constructor` | gui/main_window.py:26-45 | A new worker is in the initial loop state and satisfies the invariant. |
| `Worker.VideoCountWorker.Reset` | gui/main_window.py:26-45 | Sets the run's state to the initial one: nothing read, nothing counted. |
| `Worker.VideoCountWorker.SumOfYs` | gui/main_window.py:97-98 | The loop over the history returns the sum of its ys, which the mean is taken from. |
| `Worker.VideoCountWorker.ProcessObject` | gui/main_window.py:92-114 | Handling one reported object leaves exactly the state given by `StepObject`. The invariant is kept and the cadence fields are untouched. |
| `Worker.VideoCountWorker.ProcessObjects` | gui/main_window.py:91-114 | The per-object loop leaves exactly the state given by `StepFrame`, for the objects in the order the tracker lists them. |
| `Worker.VideoCountWorker.ReadFrame` | gui/main_window.py:58-147 | One loop pass leaves exactly the state given by `Advance` (skip, rebuild, count, Esc, `totalFrames += 1`). It reports a stop exactly when Esc is seen on a processed frame. |
| `Worker.VideoCountWorker.ReadFrames` | gui/main_window.py:54-57 | The `while` loop over the frames read leaves exactly the state given by `RunFrom`. |
| `Worker.VideoCountWorker.Run` | gui/main_window.py:22-147 | A whole run from a fresh state ends in `RunFrom(Start, frames, H)`, with the invariant holding. |

## Left out

- Opening the capture, `cap.read`, resizing, drawing, the line on screen, colour conversion and the Qt display (lines 27-30, 55-57, 62, 75, 87, 116-142). These are video I/O and rendering. The frames read are the input sequence.
- `get_person_coordinates`, the `dlib` correlation trackers and their positions, and `CentroidTracker.update` (lines 64-86, 89). These are detection and tracking libraries that are not part of this model. Their output per frame is the input `RawFrame.objects`, and the rebuild of the trackers is recorded only as the raw frame number.
- The 8-hour wall-clock limit, the FPS counter and the logging (lines 53, 148-161). These use clocks and floating point. `start_time` is not defined in `gui/main_window.py` and may come from the module imported at line 14, which is not part of this model.
- The floating-point rounding of `np.mean` and of the comparison with `1.1`. The model computes over exact rationals, so it can differ from the code when the exact direction lies within rounding distance of 0 or 1.1.
- `TrackableObject`'s own code. Its initial state is assumed as described above.
- The `MainWindow`, `CrowdCountingWindow` and `InitialWindow` widgets, the thread pool, `VideoStream`, YOLO decoding and `training/train.py`. These are UI plumbing, concurrency and library calls.
