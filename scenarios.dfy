/**
 * Concrete runs of the loop in a 640-pixel-wide frame, stated as lemmas.
 */
module Scenarios {
  import opened Direction
  import opened Ordering
  import opened Message
  import opened Narrator

  const Width: int := 640

  /** Boxes centred at x = 50, 320 and 550: one in each third. */
  const PersonLeft: Box := Box("person", 0, 100)
  const DogCenter: Box := Box("dog", 300, 340)
  const CatRight: Box := Box("cat", 500, 600)

  /** The keys of the three boxes: "person on the left", "dog on the center", "cat on the right". */
  const PersonKey: string := KeyOf("person", "left")
  const DogKey: string := KeyOf("dog", "center")
  const CatKey: string := KeyOf("cat", "right")

  lemma KeysOfTheThreeBoxes()
    ensures BoxKey(PersonLeft, Width) == PersonKey
    ensures BoxKey(DogCenter, Width) == DogKey
    ensures BoxKey(CatRight, Width) == CatKey
  {
  }

  /** A frame of three boxes observes exactly their three keys. */
  lemma FrameKeysOfThree(b1: Box, b2: Box, b3: Box, w: int)
    ensures FrameKeys([b1, b2, b3], w) == {BoxKey(b1, w), BoxKey(b2, w), BoxKey(b3, w)}
  {
    var dets := [b1, b2, b3];
    assert dets[0] == b1 && dets[1] == b2 && dets[2] == b3;
    assert forall b :: b in dets <==> b == b1 || b == b2 || b == b3;
  }

  lemma ThreeFrameKeys()
    ensures FrameKeys([PersonLeft, DogCenter, CatRight], Width) == {PersonKey, DogKey, CatKey}
  {
    FrameKeysOfThree(PersonLeft, DogCenter, CatRight, Width);
    KeysOfTheThreeBoxes();
  }

  lemma ThreeRendered()
    ensures Render({PersonKey, DogKey, CatKey}) ==
            PluralPrefix + (CatKey + ListSeparator + DogKey + ListSeparator + PersonKey)
  {
    assert CatKey[0] == 'c' && DogKey[0] == 'd' && PersonKey[0] == 'p';
    assert LexLess(CatKey, DogKey) && LexLess(DogKey, PersonKey);
    assert {PersonKey, DogKey, CatKey} == {CatKey, DogKey, PersonKey};
    RenderThree(CatKey, DogKey, PersonKey);
  }

  /**
   * Three objects new in the same interval are announced together, once,
   * sorted: "I see: cat on the right, dog on the center, person on the left".
   */
  lemma ThreeNewObjectsOneSentence()
    ensures var st := FrameStep(State(map[], {}, 0.0), [PersonLeft, DogCenter, CatRight], 2.0, Width);
            var (st', queue') := TickStep(st, 2.0, []);
            queue' == [PluralPrefix + (CatKey + ListSeparator + DogKey + ListSeparator + PersonKey)] &&
            st'.pending == {} && st'.lastSpeakTime == 2.0
  {
    ThreeFrameKeys();
    FirstFrameAllNew([PersonLeft, DogCenter, CatRight], 2.0, Width, 0.0);
    ThreeRendered();
  }

  /** Exactly one key pending (two boxes, one identity): the singular sentence, with no colon. */
  lemma OneObjectSingularSentence()
    ensures var st := FrameStep(State(map[], {}, 0.0), [DogCenter, DogCenter], 2.0, Width);
            TickStep(st, 2.0, []).1 == [SingularPrefix + DogKey]
  {
    var dets := [DogCenter, DogCenter];
    assert FrameKeys(dets, Width) == {DogKey} by {
      KeysOfTheThreeBoxes();
    }
    assert FrameStep(State(map[], {}, 0.0), dets, 2.0, Width).pending == {DogKey} by {
      FirstFrameAllNew(dets, 2.0, Width, 0.0);
    }
    assert |{DogKey}| == 1;
  }

  /**
   * Seen at 0.0, gone at 1.0, back at 2.0: it is made pending again, a second
   * speak-worthy event for the same key. Back at 1.5 instead, a gap of exactly
   * `AbsenceReset`, it is not.
   */
  lemma ReappearanceAnnouncedAgain()
    ensures var st1 := FrameStep(State(map[], {}, 0.0), [DogCenter], 0.0, Width);
            var st2 := FrameStep(st1.(pending := {}), [], 1.0, Width);
            DogKey in st1.pending &&
            DogKey in FrameStep(st2, [DogCenter], 2.0, Width).pending &&
            DogKey !in FrameStep(st2, [DogCenter], 1.5, Width).pending
  {
    KeysOfTheThreeBoxes();
    assert FrameKeys([DogCenter], Width) == {DogKey};
    assert FrameKeys([], Width) == {};
  }

  /** With three messages queued the announcement is deferred; the clock still advances. */
  lemma FullQueueDefers()
    ensures TickStep(State(map[], {DogKey}, 0.0), 2.0, ["a", "b", "c"]) ==
            (State(map[], {DogKey}, 2.0), ["a", "b", "c"])
  {
  }

  /**
   * A pending key outlives its presence entry: deferred at 0.0, unseen by
   * 3.0, it is pruned from the record and still waits to be announced.
   */
  lemma PendingSurvivesPruning()
    ensures var st := State(map[DogKey := 0.0], {DogKey}, 0.0);
            var r := FrameStep(st, [], 3.0, Width);
            r.lastSeen == map[] && r.pending == {DogKey}
  {
    assert FrameKeys([], Width) == {};
  }
}
