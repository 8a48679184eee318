/**
 * Rendering the pending keys into one spoken sentence: the keys are sorted;
 * a single key is spoken as "I see <key>", several as
 * "I see: <k1>, <k2>, ...". A parser for such sentences gives the partner
 * property: the sentence names every pending key once, in ascending order.
 */
module Message {
  import opened Ordering

  const SingularPrefix: string := "I see "
  const PluralPrefix: string := "I see: "
  const ListSeparator: string := ", "

  /** `sep.join(items)`. */
  function Join(items: seq<string>, sep: string): string
    decreases |items|
  {
    if |items| == 0 then ""
    else if |items| == 1 then items[0]
    else items[0] + sep + Join(items[1..], sep)
  }

  /** Index of the first ", " in `s`, or `|s|` when there is none. */
  function FirstSeparator(s: string): (i: nat)
    ensures i <= |s|
    ensures i < |s| ==> i + 1 < |s| && s[i] == ',' && s[i + 1] == ' '
    ensures forall j :: 0 <= j < i && j + 1 < |s| ==> !(s[j] == ',' && s[j + 1] == ' ')
    decreases |s|
  {
    if |s| < 2 then |s|
    else if s[0] == ',' && s[1] == ' ' then 0
    else 1 + FirstSeparator(s[1..])
  }

  /** `s` holds no ", ", so cutting at ", " never splits it. */
  predicate NoSeparator(s: string)
  {
    forall j :: 0 <= j < |s| - 1 ==> !(s[j] == ',' && s[j + 1] == ' ')
  }

  /** Cuts `s` at every ", "; a comma without the blank stays inside its item. */
  function SplitItems(s: string): (items: seq<string>)
    ensures |items| >= 1
    decreases |s|
  {
    var i := FirstSeparator(s);
    if i == |s| then [s]
    else [s[..i]] + SplitItems(s[i + 2..])
  }

  /** The keys named by a sentence of the two shapes `Render` produces. */
  function Parse(msg: string): seq<string>
  {
    if |msg| >= |PluralPrefix| && msg[..|PluralPrefix|] == PluralPrefix then
      SplitItems(msg[|PluralPrefix|..])
    else if |msg| >= |SingularPrefix| && msg[..|SingularPrefix|] == SingularPrefix then
      [msg[|SingularPrefix|..]]
    else []
  }

  /**
   * The announcement for a non-empty pending set: the singular sentence for
   * exactly one key, the plural list sentence for more.
   */
  function Render(keys: set<string>): (msg: string)
    requires keys != {}
    ensures |keys| == 1 ==> forall k :: k in keys ==> msg == SingularPrefix + k
    ensures (|msg| >= |PluralPrefix| && msg[..|PluralPrefix|] == PluralPrefix) <==> |keys| > 1
  {
    var items := SortedKeys(keys);
    if |items| > 1 then PluralPrefix + Join(items, ListSeparator)
    else
      assert items[0] in keys;
      assert (SingularPrefix + items[0])[5] == ' ';
      SingularPrefix + items[0]
  }

  /** Joining with ", " and splitting at ", " again gives back items that hold no ", ". */
  lemma {:induction false} SplitJoin(items: seq<string>)
    requires |items| >= 1
    requires forall x :: x in items ==> NoSeparator(x)
    ensures SplitItems(Join(items, ListSeparator)) == items
    decreases |items|
  {
    var x := items[0];
    assert x in items;
    if |items| == 1 {
      assert FirstSeparator(x) == |x|;
    } else {
      var tail := Join(items[1..], ListSeparator);
      var s := x + ListSeparator + tail;
      assert s == Join(items, ListSeparator);
      assert s[|x|] == ',';
      assert s[|x| + 1] == ' ';
      assert forall j :: 0 <= j < |x| ==> s[j] == x[j];
      var i := FirstSeparator(s);
      // no cut inside `x`, nor at its last character, which is followed by ','
      assert i == |x|;
      assert s[..i] == x;
      assert s[i + 2..] == tail;
      forall y | y in items[1..]
        ensures NoSeparator(y)
      {
        assert y in items;
      }
      SplitJoin(items[1..]);
    }
  }

  /**
   * Round trip: reading the rendered sentence back yields the pending keys in
   * ascending order, each once, provided no key contains ", " (detector
   * labels do not).
   */
  lemma RenderRoundTrip(keys: set<string>)
    requires keys != {}
    requires forall k :: k in keys ==> NoSeparator(k)
    ensures Parse(Render(keys)) == SortedKeys(keys)
  {
    var items := SortedKeys(keys);
    var msg := Render(keys);
    if |items| > 1 {
      assert msg == PluralPrefix + Join(items, ListSeparator);
      assert msg[|PluralPrefix|..] == Join(items, ListSeparator);
      forall x | x in items
        ensures NoSeparator(x)
      {
        assert x in keys;
      }
      SplitJoin(items);
    } else {
      assert msg == SingularPrefix + items[0];
      assert msg[5] == ' ';
      assert msg[..|SingularPrefix|] == SingularPrefix;
      assert msg[|SingularPrefix|..] == items[0];
      assert items == [items[0]];
    }
  }

  /** A single pending key is read back whole, whatever characters it holds. */
  lemma ParseSingular(k: string)
    ensures Parse(Render({k})) == [k]
  {
    var msg := Render({k});
    assert |{k}| == 1;
    assert msg == SingularPrefix + k;
    assert msg[5] == ' ';
    assert msg[..|SingularPrefix|] == SingularPrefix;
    assert msg[|SingularPrefix|..] == k;
  }

  /** Different pending sets are never announced with the same sentence. */
  lemma RenderInjective(a: set<string>, b: set<string>)
    requires a != {} && b != {}
    requires forall k :: k in a ==> NoSeparator(k)
    requires forall k :: k in b ==> NoSeparator(k)
    requires Render(a) == Render(b)
    ensures a == b
  {
    RenderRoundTrip(a);
    RenderRoundTrip(b);
    assert SortedKeys(a) == SortedKeys(b);
    forall k
      ensures k in a <==> k in b
    {
      assert k in SortedKeys(a) <==> k in a;
      assert k in SortedKeys(b) <==> k in b;
    }
  }

  lemma JoinThree(a: string, b: string, c: string, sep: string)
    ensures Join([a, b, c], sep) == a + sep + b + sep + c
  {
    var tail := b + sep + c;
    assert Join([b, c], sep) == tail by {
      assert [b, c][1..] == [c];
    }
    assert Join([a, b, c], sep) == a + sep + tail by {
      assert [a, b, c][1..] == [b, c];
    }
    assert a + sep + tail == a + sep + b + sep + c;
  }

  /**
   * Three keys pending at once give one sentence naming all three in
   * ascending order: "I see: a, b, c".
   */
  lemma RenderThree(a: string, b: string, c: string)
    requires LexLess(a, b) && LexLess(b, c)
    ensures Render({a, b, c}) == PluralPrefix + (a + ListSeparator + b + ListSeparator + c)
  {
    var keys := {a, b, c};
    var sorted := [a, b, c];
    assert SortedKeys(keys) == sorted && |keys| > 1 by {
      ThreeAscending(a, b, c);
      SortedKeysIsAscendingEnumeration(keys, sorted);
    }
    RenderPlural(keys);
    JoinThree(a, b, c, ListSeparator);
  }

  /** Several keys: the plural prefix followed by the sorted keys joined with ", ". */
  lemma RenderPlural(keys: set<string>)
    requires |keys| > 1
    ensures Render(keys) == PluralPrefix + Join(SortedKeys(keys), ListSeparator)
  {
  }

  lemma ThreeAscending(a: string, b: string, c: string)
    requires LexLess(a, b) && LexLess(b, c)
    ensures StrictlyAscending([a, b, c]) && |{a, b, c}| == 3
  {
    LexTransitive(a, b, c);
    LexIrreflexive(a);
    LexIrreflexive(b);
    LexIrreflexive(c);
  }
}
