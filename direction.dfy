/**
 * Horizontal position buckets and object identity keys.
 *
 * A detection is reduced to the pair (label, direction), where the direction
 * is the third of the frame its box centre falls in; the pair is rendered as
 * the key "<label> on the <direction>", and that key is the identity the
 * presence tracker works with.
 */
module Direction {

  /** The three buckets `get_direction` can return. */
  const Directions: set<string> := {"left", "center", "right"}

  /**
   * `get_direction(cx, width)` on exact reals: left of the first third is
   * "left", left of the second third is "center", everything else is "right".
   * For a positive width the three ranges partition the reals and each
   * boundary belongs to the bucket on its right.
   */
  function GetDirection(cx: real, width: real): (d: string)
    ensures d in Directions
    ensures d == "left" <==> cx < width / 3.0
    ensures width > 0.0 ==> (d == "center" <==> width / 3.0 <= cx < 2.0 * width / 3.0)
    ensures width > 0.0 ==> (d == "right" <==> 2.0 * width / 3.0 <= cx)
  {
    if cx < width / 3.0 then "left"
    else if cx < 2.0 * width / 3.0 then "center"
    else "right"
  }

  /** In a frame of any positive width, a centre exactly on a boundary belongs to the bucket on its right. */
  lemma BoundariesGoRight(width: real)
    requires width > 0.0
    ensures GetDirection(width / 3.0, width) == "center"
    ensures GetDirection(2.0 * width / 3.0, width) == "right"
  {
  }

  /** Position of a bucket from left to right. */
  function Rank(d: string): (n: nat)
    ensures n <= 2
  {
    if d == "left" then 0 else if d == "center" then 1 else 2
  }

  /** Moving a box centre to the right never moves it to a bucket further left. */
  lemma DirectionMonotone(cx1: real, cx2: real, width: real)
    requires cx1 <= cx2
    ensures Rank(GetDirection(cx1, width)) <= Rank(GetDirection(cx2, width))
  {
  }

  /**
   * The bucket of a box with integer corners x1, x2 in a frame of integer
   * width w, without division: `cx < w/3` with `cx = (x1+x2)/2` is
   * `3*(x1+x2) < 2*w`, and `cx < 2w/3` is `3*(x1+x2) < 4*w`.
   * It agrees with `get_direction` applied to the exact centre.
   */
  function BoxDirection(x1: int, x2: int, w: int): (d: string)
    ensures d == GetDirection((x1 + x2) as real / 2.0, w as real)
  {
    if 3 * (x1 + x2) < 2 * w then "left"
    else if 3 * (x1 + x2) < 4 * w then "center"
    else "right"
  }

  /** The identity key `f"{label} on the {direction}"`. */
  function KeyOf(name: string, direction: string): string
  {
    name + " on the " + direction
  }

  /** The key holds the label at its head and the bucket at its tail. */
  lemma KeyParts(name: string, direction: string)
    ensures var key := KeyOf(name, direction);
            |key| == |name| + 8 + |direction| &&
            key[..|name|] == name && key[|name| + 8..] == direction
  {
  }

  /**
   * Keys are injective on (label, bucket): two detections have the same key
   * exactly when they have the same label and the same bucket. The bucket
   * can be read off the key's tail ("left" and "right" both end in 't' but
   * differ four characters from the end; "center" ends in 'r'), and the label
   * is what precedes " on the <bucket>".
   */
  lemma KeyInjective(l1: string, d1: string, l2: string, d2: string)
    requires d1 in Directions && d2 in Directions
    requires KeyOf(l1, d1) == KeyOf(l2, d2)
    ensures l1 == l2 && d1 == d2
  {
    KeyParts(l1, d1);
    KeyParts(l2, d2);
    var s := KeyOf(l1, d1);
    var n := |s|;
    assert s[n - 1] == d1[|d1| - 1] == d2[|d2| - 1];
    assert s[n - 4] == d1[|d1| - 4] == d2[|d2| - 4];
    assert d1 == d2;
    assert l1 == s[..|l1|] == s[..|l2|] == l2;
  }

  /** A detection as the tracker sees it: class label and horizontal box extent. */
  datatype Box = Box(name: string, x1: int, x2: int)

  /** The identity key of a detected box. */
  function BoxKey(b: Box, w: int): string
  {
    KeyOf(b.name, BoxDirection(b.x1, b.x2, w))
  }

  /**
   * A box's key is its label with the bucket `get_direction` gives for the
   * exact centre `(x1 + x2) / 2`.
   */
  lemma BoxKeyOfCentre(b: Box, w: int)
    ensures BoxKey(b, w) == KeyOf(b.name, GetDirection((b.x1 + b.x2) as real / 2.0, w as real))
  {
  }

  /** Two boxes collapse to one identity iff they share name and bucket. */
  lemma SameKeyIff(a: Box, b: Box, w: int)
    ensures BoxKey(a, w) == BoxKey(b, w) <==>
            a.name == b.name && BoxDirection(a.x1, a.x2, w) == BoxDirection(b.x1, b.x2, w)
  {
    if BoxKey(a, w) == BoxKey(b, w) {
      KeyInjective(a.name, BoxDirection(a.x1, a.x2, w), b.name, BoxDirection(b.x1, b.x2, w));
    }
  }
}
