# Smart object narrator: presence tracking and announcement scheduling

This project models the state machine at the heart of the narrator's frame
loop in `real_time_object_detection.py`. Each frame's detections are reduced
to identity keys such as `"dog on the center"`: the class label plus the
third of the frame the box centre falls in. For each key the tracker keeps
the time it was last seen. A key is queued for announcement when it appears
for the first time, or when it reappears after an absence longer than
`ABSENCE_RESET` (1.5 s). Entries older than `ABSENCE_RESET + 0.5` are pruned.

At most once every `SPEAK_INTERVAL` (2.0 s), all pending keys are sorted and
turned into one sentence: `"I see <k>"` for one key, `"I see: k1, k2, ..."`
for several. The sentence goes onto the speech queue unless the queue already
holds `SPEECH_QUEUE_MAX` (3) messages. In that case the pending keys wait for
the next attempt. The attempt clock advances either way.

Modules:

- `Direction` (direction.dfy) covers `get_direction` and the key format. It
  uses exact reals (`GetDirection`) and a division-free integer version
  (`BoxDirection`), and proves that the two agree. It also proves that keys
  are injective on (label, bucket).
- `Ordering` (ordering.dfy) models Python's string order (code-point
  lexicographic) and `sorted` on a set of keys (`SortedKeys`). It proves that
  this order is a strict total order and that a set has exactly one ascending
  enumeration.
- `Message` (message.dfy) defines `", ".join` and the two sentence shapes. A
  parser for those sentences gives the round trip: reading a sentence back
  yields the pending keys, each once, in ascending order.
- `Narrator` (narrator.dfy) holds the loop state as the class `Narrator`,
  with fields `lastSeen`, `pending` and `lastSpeakTime`:
  - `ProcessFrame` is the per-box loop plus pruning (lines 106-131).
  - `Tick` is the timed, back-pressured flush (lines 133-144).
  - Each method is proved equal to a pure step function on the abstract
    state (`FrameStep`, `TickStep`). The properties are proved about those
    functions and about runs of many loop iterations (`Run`).
- `Scenarios` (scenarios.dfy) holds concrete runs: three new objects give one
  sorted sentence, one object gives the singular sentence, re-announcement
  after a gap but not after exactly 1.5 s, deferral on a full queue, and a
  pending key outliving its pruned presence entry.

Modelling choices:

- Time is an exact `real` number of seconds, passed in where the source
  calls `time.time()` (line 104).
- Boxes are `(label, x1, x2)` with integer corners. Line 114 truncates them
  to `int` before use; `y1`, `y2` and the confidence do not affect the core.
- The frame width `w` is an input.
- The speech queue is a `seq<string>` passed to `Tick` and returned from it.
  `qsize()` is its length and `put` appends. Across iterations (`Run`) the
  queue is carried from one tick to the next. Before each iteration, the
  speech worker has taken some number of messages (`Frame.spoken`) off its
  front.

Where one might expect other behaviour, the model follows the code:

- One might expect stale keys never to be announced. The code never
  re-checks pending keys against the presence record, so a pending key can
  be pruned from `last_seen` and still be announced later
  (`Scenarios.PendingSurvivesPruning`).
- One might expect the tracker to return the new keys for the scheduler to
  merge. The code adds them to `objects_to_speak` directly inside the box
  loop (line 124). `FrameStep` does the same.
- The grace margin (0.5 s) and the cadence are not configurable and are
  not validated. They are constants (lines 15-17, 131), and the model uses
  those constants.

## Model

| member | source | states |
|---|---|---|
| `Direction.GetDirection` | real_time_object_detection.py:75-82 | The result is one of "left", "center", "right". It is "left" iff `cx < width/3`. For a positive width it is "center" iff `width/3 <= cx < 2*width/3` and "right" iff `cx >= 2*width/3`, so the ranges partition the line and each boundary goes to the bucket on its right. |
| `Direction.BoundariesGoRight` | real_time_object_detection.py:77-82 | For every positive width, a centre exactly at `width/3` is "center" and one exactly at `2*width/3` is "right". |
| `Direction.DirectionMonotone` | real_time_object_detection.py:75-82 | Moving the centre right never moves the bucket left. |
| `Direction.BoxDirection` | real_time_object_detection.py:114-116 | The division-free test on integer corners gives exactly `get_direction((x1+x2)/2, w)` on exact reals. |
| `Direction.KeyOf` | real_time_object_detection.py:117 | Definition: `label + " on the " + direction`. Its properties are stated by `KeyParts` and `KeyInjective`. |
| `Direction.KeyParts` | real_time_object_detection.py:117 | A key has length `|label| + 8 + |direction|`. It begins with the label and ends with the direction. |
| `Direction.BoxKey` | real_time_object_detection.py:114-117 | Definition: the key of a box's label and its division-free bucket. `BoxKeyOfCentre` ties it to `get_direction`. |
| `Direction.BoxKeyOfCentre` | real_time_object_detection.py:114-117 | A box's key is its label joined with `get_direction((x1+x2)/2, w)`, computed on the exact centre. |
| `Direction.KeyInjective` | real_time_object_detection.py:117 | Two keys `label + " on the " + direction` with valid buckets are equal only if both the labels and the buckets are equal. |
| `Direction.SameKeyIff` | real_time_object_detection.py:114-120 | Two boxes collapse to one identity iff they have the same label and the same bucket. |
| `Ordering.LexIrreflexive` | real_time_object_detection.py:137 | No string sorts before itself. |
| `Ordering.LexAsymmetric` | real_time_object_detection.py:137 | If `a` sorts before `b`, then `b` does not sort before `a`. |
| `Ordering.LexTransitive` | real_time_object_detection.py:137 | The string order used by `sorted` is transitive. |
| `Ordering.LexTotal` | real_time_object_detection.py:137 | Any two distinct strings are ordered one way or the other. |
| `Ordering.LeastExists` | real_time_object_detection.py:137 | Every non-empty set of keys has a least element. |
| `Ordering.SortedKeys` | real_time_object_detection.py:137 | `sorted(objects_to_speak)` has as many entries as the set, holds exactly its elements, and is strictly ascending, so each key appears once. |
| `Ordering.AscendingUnique` | real_time_object_detection.py:137 | Two strictly ascending sequences of equal length with the same elements are equal. |
| `Ordering.SortedKeysIsAscendingEnumeration` | real_time_object_detection.py:137 | Any strictly ascending enumeration of a set is its sorted list. |
| `Message.Render` | real_time_object_detection.py:137-138 | One pending key gives `"I see " + key`. The sentence starts with `"I see: "` iff more than one key is pending. |
| `Message.Join` | real_time_object_detection.py:138 | Definition of `", ".join`: empty for no items, the item itself for one, and otherwise the first item, the separator, then the join of the rest. Its partner is `SplitJoin`. |
| `Message.SplitJoin` | real_time_object_detection.py:138 | Splitting `", ".join(items)` at each `", "` gives back the items, when no item contains `", "`. A comma without the blank is not a cut, so the round trip also fixes the separator. |
| `Message.RenderRoundTrip` | real_time_object_detection.py:137-138 | Parsing the sentence yields the sorted pending keys, each once, in ascending order. |
| `Message.ParseSingular` | real_time_object_detection.py:138 | A single pending key is read back whole from the singular sentence, whatever characters it holds. |
| `Message.RenderInjective` | real_time_object_detection.py:137-138 | Different pending sets never produce the same sentence. |
| `Message.RenderThree` | real_time_object_detection.py:137-138 | Three keys `a < b < c` give exactly `"I see: a, b, c"`. |
| `Narrator.FrameKeys` | real_time_object_detection.py:106-120 | The frame's key set (`current_objects`) holds exactly the keys of the detected boxes: every box's key is in it, and every key in it is some box's key. |
| `Narrator.IsNewlyPresent` | real_time_object_detection.py:123 | Definition of the speak-worthiness test: the key is absent from the record, or `now` minus its time is strictly greater than 1.5. |
| `Narrator.Refresh` | real_time_object_detection.py:120-128 | The whole-frame effect of the per-box stamping. The domain grows by exactly the frame keys. Every frame key maps to `now`, and every other entry keeps its time. |
| `Narrator.NewlyPresent` | real_time_object_detection.py:122-124 | The speak-worthy keys of a frame are frame keys only. Every never-seen key is among them. A known key is among them iff it had been gone strictly longer than 1.5 s. |
| `Narrator.Prune` | real_time_object_detection.py:131 | No remaining entry is older than 2.0 s. Nothing is added or rewritten. Every entry at most 2.0 s old is kept. |
| `Narrator.PendingAdd` | real_time_object_detection.py:120-125 | Testing a key against the running `last_seen` inside the loop has the same effect as testing it against the record as it was before the frame. A key met twice in one frame is added at most once. |
| `Narrator.FrameStep` | real_time_object_detection.py:106-131 | After a frame: every observed key maps to the current time. An observed key is pending iff it was pending, or was absent, or was last seen more than 1.5 s ago. Pending only grows, and only by observed keys. No entry older than 2.0 s remains. An unobserved entry is kept unchanged iff it is at most 2.0 s old. No other keys appear. The clock is untouched. |
| `Narrator.TickStep` | real_time_object_detection.py:133-144 | Less than 2.0 s after the last attempt, nothing changes. From 2.0 s on, exactly 2.0 s included, an attempt is made: the clock becomes `now` and the record is untouched. A message is queued iff keys are pending and the queue holds fewer than 3 messages. That message is `Render(pending)`, appended once, and pending is cleared. If nothing is queued, pending is unchanged. A full queue stays as it is, and the queue never grows past 3. |
| `Narrator.Drain` | real_time_object_detection.py:29 | After the worker has taken `n` messages, the queue is its old suffix, `n` shorter, or empty if `n` covers it. |
| `Narrator.LoopStep` | real_time_object_detection.py:104-144 | A full loop iteration leaves the presence record as frame processing left it. It never pushes a queue within the limit past 3 messages. |
| `Narrator.Run` | real_time_object_detection.py:89-144 | Over any number of iterations, however few messages the worker takes, a queue that starts within the limit never holds more than 3 messages. |
| `Narrator.FirstFrameAllNew` | real_time_object_detection.py:70-71 | Starting from the empty record, every key of the first frame becomes pending. |
| `Narrator.NoSilentLoss` | real_time_object_detection.py:135-143 | After a tick, every key that was pending is still pending or is named in the message just queued. |
| `Narrator.AbsentEntryUnchanged` | real_time_object_detection.py:123-131 | While a key is unobserved, its entry is either gone or still holds its old time. |
| `Narrator.AbsentEntryKept` | real_time_object_detection.py:131 | An unobserved entry survives every frame that comes within 2.0 s of its time. |
| `Narrator.ReappearanceIffGap` | real_time_object_detection.py:123-131 | A key that goes unobserved and then reappears has `time - last_seen > 1.5`, so it becomes pending again, iff it was gone longer than 1.5 s. A gap of exactly 1.5 s does not re-announce. |
| `Narrator.ContinuousPresenceQuiet` | real_time_object_detection.py:122-128 | A key seen in every frame, each within 1.5 s of the previous sighting, never becomes pending again. |
| `Narrator.Narrator.constructor` | real_time_object_detection.py:70-72 | The record and pending set start empty, and the clock starts at the given time. |
| `Narrator.Narrator.Observe` | real_time_object_detection.py:123-128 | The key is stamped with `now`. It is added to pending iff it was absent or last seen more than 1.5 s ago. |
| `Narrator.Narrator.PruneStale` | real_time_object_detection.py:131 | The record becomes `Prune(old record)`. Pending and the clock are unchanged. |
| `Narrator.Narrator.ObserveFrame` | real_time_object_detection.py:106-128 | The per-box loop leaves the record refreshed with every frame key, and pending grown by exactly the speak-worthy keys. |
| `Narrator.Narrator.ProcessFrame` | real_time_object_detection.py:106-131 | The new state is `FrameStep` of the old state. |
| `Narrator.Narrator.Tick` | real_time_object_detection.py:133-144 | The new state and queue are `TickStep` of the old ones. |
| `Scenarios.KeysOfTheThreeBoxes` | real_time_object_detection.py:114-117 | In a 640-wide frame, centres 50, 320 and 550 give "left", "center" and "right" keys. |
| `Scenarios.ThreeNewObjectsOneSentence` | real_time_object_detection.py:133-141 | Three new objects give one queued sentence "I see: cat on the right, dog on the center, person on the left", and pending is cleared. |
| `Scenarios.OneObjectSingularSentence` | real_time_object_detection.py:138 | Two boxes with one identity give the singular "I see dog on the center". |
| `Scenarios.ReappearanceAnnouncedAgain` | real_time_object_detection.py:123-125 | Seen at 0, gone, back at 2.0: pending again. Back at exactly 1.5: not pending again. |
| `Scenarios.FullQueueDefers` | real_time_object_detection.py:136-144 | With 3 messages queued, nothing is enqueued, pending is kept, and the clock advances. |
| `Scenarios.PendingSurvivesPruning` | real_time_object_detection.py:124-131 | A pending key pruned from the record stays pending. |

## Left out

- Camera capture, resizing to `FRAME_WIDTH` and the retry on a missing frame (lines 58-68, 90-100): these are I/O. The frame width is an input.
- Model loading, inference and tensor conversion (lines 46-56, 102, 108-114): these are foreign library calls. Detections are given as `(label, x1, x2)` with integer corners.
- The TTS engine, the `speech_worker` thread, its timeout loop and the `"STOP"` sentinel (lines 20-44, 163-170): these are concurrency and a foreign engine. The worker's effect on the queue is FIFO removal of `Frame.spoken` messages before each iteration. How many it removes is an arbitrary input, not derived from speech timing. Removal during a tick, between the size check and the put, is not modelled.
- Drawing, on-screen text and the `q` key (lines 119, 146-161): these are UI.
- The confidence threshold and values (lines 13, 110): they do not affect the tracker or the scheduler.
- Floating-point time and division: time is an exact real, and buckets are computed exactly, so float rounding at a bucket boundary or at the 1.5 s / 2.0 s thresholds is not modelled.
- The `print` diagnostics (lines 140, 143): these are output only.
- `Message.RenderRoundTrip`, `Message.RenderInjective`, `Narrator.NoSilentLoss`: they assume no key contains `", "`. Detector labels contain none. A key containing `", "` is still rendered, but reading a plural sentence back would split it there. A single key is always read back whole (`Message.ParseSingular`).
