/**
 * Presence tracking and announcement scheduling, the state the main loop of
 * real_time_object_detection.py keeps between frames:
 *   - `lastSeen`: identity key -> time of its latest sighting;
 *   - `pending`: keys found speak-worthy and not yet announced;
 *   - `lastSpeakTime`: time of the latest announcement attempt.
 * Time is exact real seconds, handed in by the caller in place of the clock.
 * The speech queue is a sequence of messages: its length is the queue size
 * and putting a message appends it.
 */
module Narrator {
  import opened Direction
  import opened Message

  /** Re-announce an object once it has been gone longer than this (seconds). */
  const AbsenceReset: real := 1.5
  /** Entries older than this are dropped from the presence record. */
  const PruneAfter: real := AbsenceReset + 0.5
  /** Minimum time between two announcement attempts (seconds). */
  const SpeakInterval: real := 2.0
  /** No announcement is queued while the speech queue holds this many messages. */
  const SpeechQueueMax: nat := 3

  /** The abstract state of the loop. */
  datatype State = State(lastSeen: map<string, real>, pending: set<string>, lastSpeakTime: real)

  /**
   * One iteration's inputs: the boxes detected, the clock, and how many
   * messages the speech worker has taken off the front of the queue since
   * the previous iteration.
   */
  datatype Frame = Frame(dets: seq<Box>, now: real, spoken: nat)

  /** The set of identity keys observed in a frame (`current_objects`): exactly the keys of its boxes. */
  function FrameKeys(dets: seq<Box>, w: int): (keys: set<string>)
    ensures forall b :: b in dets ==> BoxKey(b, w) in keys
    ensures forall k :: k in keys ==> exists b :: b in dets && BoxKey(b, w) == k
  {
    set b | b in dets :: BoxKey(b, w)
  }

  /** A sighting of `k` at `now` is speak-worthy: never seen, or gone longer than `AbsenceReset`. */
  predicate IsNewlyPresent(lastSeen: map<string, real>, k: string, now: real)
  {
    k !in lastSeen || now - lastSeen[k] > AbsenceReset
  }

  /** The presence record after time-stamping every key in `keys` with `now`. */
  function Refresh(lastSeen: map<string, real>, keys: set<string>, now: real): (r: map<string, real>)
    ensures r.Keys == lastSeen.Keys + keys
    ensures forall k :: k in keys ==> r[k] == now
    ensures forall k :: k in lastSeen && k !in keys ==> r[k] == lastSeen[k]
  {
    map k | k in lastSeen.Keys + keys :: if k in keys then now else lastSeen[k]
  }

  /** The keys of `keys` that are speak-worthy against the record as it was before the frame. */
  function NewlyPresent(lastSeen: map<string, real>, keys: set<string>, now: real): (r: set<string>)
    ensures r <= keys
    // a key never seen before is always speak-worthy
    ensures forall k :: k in keys && k !in lastSeen ==> k in r
    // a known key is speak-worthy exactly when its absence exceeds the reset time
    ensures forall k :: k in keys && k in lastSeen ==> (k in r <==> now - lastSeen[k] > AbsenceReset)
  {
    set k | k in keys && IsNewlyPresent(lastSeen, k, now)
  }

  /** The presence record without the entries older than `PruneAfter`. */
  function Prune(lastSeen: map<string, real>, now: real): (r: map<string, real>)
    // nothing stale remains, and nothing is added or rewritten
    ensures forall k :: k in r ==> now - r[k] <= PruneAfter
    ensures forall k :: k in r ==> k in lastSeen && r[k] == lastSeen[k]
    // every recent entry is kept
    ensures forall k :: k in lastSeen && now - lastSeen[k] <= PruneAfter ==> k in r
  {
    map k | k in lastSeen && now - lastSeen[k] <= PruneAfter :: lastSeen[k]
  }

  /** Observing one more box adds its key to the frame's keys. */
  lemma FrameKeysExtend(dets: seq<Box>, i: nat, w: int)
    requires i < |dets|
    ensures FrameKeys(dets[..i + 1], w) == FrameKeys(dets[..i], w) + {BoxKey(dets[i], w)}
  {
    assert dets[..i + 1] == dets[..i] + [dets[i]];
    assert forall x :: x in dets[..i + 1] <==> x in dets[..i] || x == dets[i];
  }

  lemma RefreshAdd(m: map<string, real>, keys: set<string>, k: string, now: real)
    ensures Refresh(m, keys + {k}, now) == Refresh(m, keys, now)[k := now]
  {
  }

  /**
   * One box of the per-box loop, as far as `pending` goes. The source tests
   * the running record, not the record as it was before the frame; the two
   * agree because a key met a second time in a frame already carries `now`,
   * and `now - now` does not exceed `AbsenceReset`.
   */
  lemma PendingAdd(p0: set<string>, m: map<string, real>, keys: set<string>, k: string, now: real)
    ensures var p := p0 + NewlyPresent(m, keys, now);
            (if IsNewlyPresent(Refresh(m, keys, now), k, now) then p + {k} else p) ==
            p0 + NewlyPresent(m, keys + {k}, now)
  {
    if k in keys {
      assert Refresh(m, keys, now)[k] == now;
      assert NewlyPresent(m, keys + {k}, now) == NewlyPresent(m, keys, now);
    } else if IsNewlyPresent(m, k, now) {
      assert NewlyPresent(m, keys + {k}, now) == NewlyPresent(m, keys, now) + {k};
    } else {
      assert NewlyPresent(m, keys + {k}, now) == NewlyPresent(m, keys, now);
    }
  }

  /** The effect of processing one frame's detections on the state. */
  function FrameStep(st: State, dets: seq<Box>, now: real, w: int): (r: State)
    // every key observed this frame carries the current time, new or continuing
    ensures forall k :: k in FrameKeys(dets, w) ==> k in r.lastSeen && r.lastSeen[k] == now
    // a key seen this frame is pending afterwards iff it was pending or is speak-worthy
    ensures forall k :: k in FrameKeys(dets, w) ==>
              (k in r.pending <==> k in st.pending || IsNewlyPresent(st.lastSeen, k, now))
    // pending only grows, and only by keys observed this frame
    ensures st.pending <= r.pending
    ensures r.pending - st.pending <= FrameKeys(dets, w)
    // nothing stale survives the pruning
    ensures forall k :: k in r.lastSeen ==> now - r.lastSeen[k] <= PruneAfter
    // an unobserved entry is kept, unchanged, exactly when it is recent enough
    ensures forall k :: k in st.lastSeen && k !in FrameKeys(dets, w) ==>
              (k in r.lastSeen <==> now - st.lastSeen[k] <= PruneAfter)
    ensures forall k :: k in r.lastSeen && k !in FrameKeys(dets, w) ==>
              k in st.lastSeen && r.lastSeen[k] == st.lastSeen[k]
    ensures r.lastSpeakTime == st.lastSpeakTime
  {
    var keys := FrameKeys(dets, w);
    State(Prune(Refresh(st.lastSeen, keys, now), now),
          st.pending + NewlyPresent(st.lastSeen, keys, now),
          st.lastSpeakTime)
  }

  /** The effect of the announcement step on the state and the speech queue. */
  function TickStep(st: State, now: real, queue: seq<string>): (r: (State, seq<string>))
    // within the interval nothing at all changes
    ensures now - st.lastSpeakTime < SpeakInterval ==> r == (st, queue)
    // every attempt advances the clock, whether it emitted, deferred or had nothing to say
    ensures now - st.lastSpeakTime >= SpeakInterval ==> r.0.lastSpeakTime == now
    ensures r.0.lastSeen == st.lastSeen
    // a message is queued exactly when an attempt finds keys pending and room in the queue
    ensures r.1 != queue <==>
              now - st.lastSpeakTime >= SpeakInterval && st.pending != {} && |queue| < SpeechQueueMax
    // ... and then it is the only message added, and pending is emptied
    ensures r.1 != queue ==> st.pending != {} && r.1 == queue + [Render(st.pending)] && r.0.pending == {}
    // otherwise no pending key is lost
    ensures r.1 == queue ==> r.0.pending == st.pending
    // a full queue stays as it is
    ensures |queue| >= SpeechQueueMax ==> r.1 == queue
    // the tick never pushes the queue past its limit
    ensures |queue| <= SpeechQueueMax ==> |r.1| <= SpeechQueueMax
  {
    if now - st.lastSpeakTime >= SpeakInterval then
      if st.pending != {} && |queue| < SpeechQueueMax then
        (st.(pending := {}, lastSpeakTime := now), queue + [Render(st.pending)])
      else
        (st.(lastSpeakTime := now), queue)
    else
      (st, queue)
  }

  /** The queue once the speech worker has taken `n` messages off its front, oldest first. */
  function Drain(queue: seq<string>, n: nat): (r: seq<string>)
    ensures |r| == if n < |queue| then |queue| - n else 0
    ensures queue == queue[..|queue| - |r|] + r
  {
    if n < |queue| then queue[n..] else []
  }

  /**
   * One iteration of the main loop: the worker has drained part of the
   * queue, the detections are processed, then an announcement is tried.
   */
  function LoopStep(st: State, queue: seq<string>, f: Frame, w: int): (r: (State, seq<string>))
    ensures r.0.lastSeen == FrameStep(st, f.dets, f.now, w).lastSeen
    ensures |queue| <= SpeechQueueMax ==> |r.1| <= SpeechQueueMax
  {
    TickStep(FrameStep(st, f.dets, f.now, w), f.now, Drain(queue, f.spoken))
  }

  /**
   * The state and the speech queue after a sequence of loop iterations
   * (the `while True` loop). However slowly the worker speaks, the queue
   * never holds more than `SpeechQueueMax` messages.
   */
  function Run(st: State, queue: seq<string>, frames: seq<Frame>, w: int): (r: (State, seq<string>))
    ensures |queue| <= SpeechQueueMax ==> |r.1| <= SpeechQueueMax
    decreases |frames|
  {
    if frames == [] then (st, queue)
    else
      var next := LoopStep(st, queue, frames[0], w);
      Run(next.0, next.1, frames[1..], w)
  }

  /** On an empty record every key observed is speak-worthy. */
  lemma FirstFrameAllNew(dets: seq<Box>, now: real, w: int, start: real)
    ensures FrameStep(State(map[], {}, start), dets, now, w).pending == FrameKeys(dets, w)
  {
  }

  /**
   * No silent loss: after a tick every key that was pending is either still
   * pending or named in the message just queued (no key contains ", ").
   */
  lemma NoSilentLoss(st: State, now: real, queue: seq<string>)
    requires forall k :: k in st.pending ==> NoSeparator(k)
    ensures var (st', queue') := TickStep(st, now, queue);
            forall k :: k in st.pending ==>
              k in st'.pending || (|queue'| > 0 && k in Parse(queue'[|queue'| - 1]))
  {
    var (st', queue') := TickStep(st, now, queue);
    if queue' != queue {
      assert queue'[|queue'| - 1] == Render(st.pending);
      RenderRoundTrip(st.pending);
    }
  }

  /** While a key goes unobserved, its entry is either gone or still holds the old time. */
  lemma {:induction false} AbsentEntryUnchanged(st: State, queue: seq<string>, frames: seq<Frame>, w: int, k: string)
    requires forall i :: 0 <= i < |frames| ==> k !in FrameKeys(frames[i].dets, w)
    ensures var r := Run(st, queue, frames, w).0;
            k in r.lastSeen ==> k in st.lastSeen && r.lastSeen[k] == st.lastSeen[k]
    decreases |frames|
  {
    if frames != [] {
      var next := LoopStep(st, queue, frames[0], w);
      var st1 := next.0;
      assert k !in FrameKeys(frames[0].dets, w);
      forall i | 0 <= i < |frames[1..]|
        ensures k !in FrameKeys(frames[1..][i].dets, w)
      {
        assert frames[1..][i] == frames[i + 1];
      }
      AbsentEntryUnchanged(st1, next.1, frames[1..], w, k);
    }
  }

  /** An unobserved entry survives every frame that comes within `PruneAfter` of it. */
  lemma {:induction false} AbsentEntryKept(st: State, queue: seq<string>, frames: seq<Frame>, w: int, k: string)
    requires k in st.lastSeen
    requires forall i :: 0 <= i < |frames| ==>
               k !in FrameKeys(frames[i].dets, w) && frames[i].now - st.lastSeen[k] <= PruneAfter
    ensures var r := Run(st, queue, frames, w).0;
            k in r.lastSeen && r.lastSeen[k] == st.lastSeen[k]
    decreases |frames|
  {
    if frames != [] {
      var next := LoopStep(st, queue, frames[0], w);
      var st1 := next.0;
      assert k !in FrameKeys(frames[0].dets, w) && frames[0].now - st.lastSeen[k] <= PruneAfter;
      assert k in st1.lastSeen && st1.lastSeen[k] == st.lastSeen[k];
      forall i | 0 <= i < |frames[1..]|
        ensures k !in FrameKeys(frames[1..][i].dets, w) && frames[1..][i].now - st1.lastSeen[k] <= PruneAfter
      {
        assert frames[1..][i] == frames[i + 1];
      }
      AbsentEntryKept(st1, next.1, frames[1..], w, k);
    }
  }

  /**
   * Debounce and re-announcement across frames: a key last stamped at `t0`,
   * then unobserved for a while (the clock never passing `now` meanwhile),
   * and seen again at `now`, becomes pending again exactly when it was gone
   * longer than `AbsenceReset`. A gap of exactly `AbsenceReset` is not enough;
   * a key already pruned is always re-announced.
   */
  lemma ReappearanceIffGap(st: State, queue: seq<string>, frames: seq<Frame>, w: int, k: string, dets: seq<Box>, now: real)
    requires k in st.lastSeen
    requires forall i :: 0 <= i < |frames| ==> k !in FrameKeys(frames[i].dets, w) && frames[i].now <= now
    requires k in FrameKeys(dets, w)
    ensures var before := Run(st, queue, frames, w).0;
            IsNewlyPresent(before.lastSeen, k, now) <==> now - st.lastSeen[k] > AbsenceReset
    ensures var before := Run(st, queue, frames, w).0;
            k in FrameStep(before, dets, now, w).pending <==>
            k in before.pending || now - st.lastSeen[k] > AbsenceReset
  {
    if now - st.lastSeen[k] <= AbsenceReset {
      AbsentEntryKept(st, queue, frames, w, k);
    } else {
      AbsentEntryUnchanged(st, queue, frames, w, k);
    }
  }

  /**
   * An object that stays in view, each sighting within `AbsenceReset` of the
   * previous one, is never made pending again: it stays in the record and
   * out of the pending set.
   */
  lemma {:induction false} ContinuousPresenceQuiet(st: State, queue: seq<string>, frames: seq<Frame>, w: int, k: string)
    requires k in st.lastSeen && k !in st.pending
    requires |frames| > 0 ==> frames[0].now - st.lastSeen[k] <= AbsenceReset
    requires forall i :: 0 <= i < |frames| ==> k in FrameKeys(frames[i].dets, w)
    requires forall i :: 0 <= i < |frames| - 1 ==> frames[i + 1].now - frames[i].now <= AbsenceReset
    ensures var r := Run(st, queue, frames, w).0;
            k in r.lastSeen && k !in r.pending
    decreases |frames|
  {
    if frames != [] {
      var f := frames[0];
      var mid := FrameStep(st, f.dets, f.now, w);
      assert k in FrameKeys(f.dets, w);
      assert k !in mid.pending && mid.lastSeen[k] == f.now;
      var next := LoopStep(st, queue, f, w);
      var st1 := next.0;
      assert k !in st1.pending && st1.lastSeen[k] == f.now;
      var rest := frames[1..];
      forall i | 0 <= i < |rest|
        ensures k in FrameKeys(rest[i].dets, w)
      {
        assert rest[i] == frames[i + 1];
      }
      forall i | 0 <= i < |rest| - 1
        ensures rest[i + 1].now - rest[i].now <= AbsenceReset
      {
        assert rest[i] == frames[i + 1] && rest[i + 1] == frames[i + 2];
      }
      if |rest| > 0 {
        assert rest[0] == frames[1];
      }
      ContinuousPresenceQuiet(st1, next.1, rest, w, k);
    }
  }

  /**
   * The single-threaded owner of the loop state: `ProcessFrame` is the
   * per-box loop and the pruning, `Tick` the timed flush.
   */
  class Narrator {
    var lastSeen: map<string, real>
    var pending: set<string>
    var lastSpeakTime: real

    function Snapshot(): State
      reads this
    {
      State(lastSeen, pending, lastSpeakTime)
    }

    /** Empty record and pending set; the clock starts at `start`. */
    constructor (start: real)
      ensures Snapshot() == State(map[], {}, start)
    {
      lastSeen := map[];
      pending := {};
      lastSpeakTime := start;
    }

    /** One detected key: note it as speak-worthy if new or back after an absence; stamp it. */
    method Observe(key: string, now: real)
      modifies this
      ensures lastSeen == old(lastSeen)[key := now]
      ensures pending == if IsNewlyPresent(old(lastSeen), key, now) then old(pending) + {key} else old(pending)
      ensures lastSpeakTime == old(lastSpeakTime)
    {
      if key !in lastSeen || now - lastSeen[key] > AbsenceReset {
        pending := pending + {key};
        lastSeen := lastSeen[key := now];
      } else {
        lastSeen := lastSeen[key := now];
      }
    }

    /** Drop the entries not refreshed within `PruneAfter`. */
    method PruneStale(now: real)
      modifies this
      ensures lastSeen == Prune(old(lastSeen), now)
      ensures pending == old(pending) && lastSpeakTime == old(lastSpeakTime)
    {
      lastSeen := map k | k in lastSeen && now - lastSeen[k] <= PruneAfter :: lastSeen[k];
    }

    /** The per-box loop: stamp every detected key and collect the speak-worthy ones. */
    method ObserveFrame(dets: seq<Box>, now: real, w: int)
      modifies this
      ensures lastSeen == Refresh(old(lastSeen), FrameKeys(dets, w), now)
      ensures pending == old(pending) + NewlyPresent(old(lastSeen), FrameKeys(dets, w), now)
      ensures lastSpeakTime == old(lastSpeakTime)
    {
      ghost var seen0, pending0 := lastSeen, pending;
      var current: set<string> := {};
      var i := 0;
      while i < |dets|
        invariant 0 <= i <= |dets|
        invariant current == FrameKeys(dets[..i], w)
        invariant lastSeen == Refresh(seen0, current, now)
        invariant pending == pending0 + NewlyPresent(seen0, current, now)
        invariant lastSpeakTime == old(lastSpeakTime)
      {
        var b := dets[i];
        var direction := BoxDirection(b.x1, b.x2, w);
        var key := KeyOf(b.name, direction);
        var next := current + {key};
        assert FrameKeys(dets[..i + 1], w) == next by {
          FrameKeysExtend(dets, i, w);
        }
        assert lastSeen[key := now] == Refresh(seen0, next, now) by {
          RefreshAdd(seen0, current, key, now);
        }
        assert (if IsNewlyPresent(lastSeen, key, now) then pending + {key} else pending) ==
               pending0 + NewlyPresent(seen0, next, now) by {
          PendingAdd(pending0, seen0, current, key, now);
        }
        current := next;
        Observe(key, now);
        i := i + 1;
      }
      assert current == FrameKeys(dets, w) by {
        assert dets[..i] == dets;
      }
    }

    /** Process one frame's detections: the per-box loop, then the pruning. */
    method ProcessFrame(dets: seq<Box>, now: real, w: int)
      modifies this
      ensures Snapshot() == FrameStep(old(Snapshot()), dets, now, w)
    {
      ObserveFrame(dets, now, w);
      PruneStale(now);
    }

    /** If the interval has elapsed, announce the pending keys unless the queue is full. */
    method Tick(now: real, queue: seq<string>) returns (queue': seq<string>)
      modifies this
      ensures (Snapshot(), queue') == TickStep(old(Snapshot()), now, queue)
    {
      queue' := queue;
      if now - lastSpeakTime >= SpeakInterval {
        if pending != {} {
          if |queue| < SpeechQueueMax {
            var msg := Render(pending);
            queue' := queue + [msg];
            pending := {};
          }
        }
        lastSpeakTime := now;
      }
    }
  }
}
