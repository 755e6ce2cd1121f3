/** Collision filter: the fish's padded hitbox, and the split of the bubble
    list into the bubbles it swallows and the bubbles that survive. */
module Collision {
  import opened Entities
  import opened Effects

  /** An axis-aligned rectangle; containment below is strict on every side. */
  datatype Box = Box(left: real, right: real, top: real, bottom: real)

  /** Total padding around the sprite, split evenly between the two sides. */
  const Padding: real := 20.0

  /** The fish's hitbox: the unflipped sprite as drawn (scaled 2x from the
      image's width and height) grown by 10 pixels on each side. */
  function Hitbox(f: FishState, fishWidth: nat, fishHeight: nat): (b: Box)
    ensures b.left == f.x - 10.0 && b.right == f.x + 2.0 * fishWidth as real + 10.0
    ensures b.top == f.y - 10.0 && b.bottom == f.y + 2.0 * fishHeight as real + 10.0
  {
    var width := fishWidth as real * 2.0 + Padding;
    var height := fishHeight as real * 2.0 + Padding;
    Box(f.x - Padding / 2.0, f.x + width - Padding / 2.0,
        f.y - Padding / 2.0, f.y + height - Padding / 2.0)
  }

  predicate Inside(b: Box, x: real, y: real)
  {
    b.left < x < b.right && b.top < y < b.bottom
  }

  predicate Hit(b: Box, bubble: Bubble)
  {
    Inside(b, bubble.x, bubble.y)
  }

  /** Every point of the unflipped sprite, which is drawn over
      [x, x + 2w] by [y, y + 2h], lies strictly inside the hitbox. */
  lemma SpriteInsideHitbox(f: FishState, fishWidth: nat, fishHeight: nat, px: real, py: real)
    requires f.x <= px <= f.x + 2.0 * fishWidth as real
    requires f.y <= py <= f.y + 2.0 * fishHeight as real
    ensures Inside(Hitbox(f, fishWidth, fishHeight), px, py)
  {
  }

  /** The flipped sprite is drawn over [x - w, x + w] instead, while the
      hitbox does not move: for an image wider than 10 pixels its left edge
      lies outside the hitbox. */
  lemma FlippedSpriteOverhang(f: FishState, fishWidth: nat, fishHeight: nat)
    requires fishWidth > 10
    ensures !Inside(Hitbox(f, fishWidth, fishHeight), f.x - fishWidth as real, f.y)
    ensures Inside(Hitbox(f, fishWidth, fishHeight), f.x + fishWidth as real, f.y)
  {
  }

  /** The bubbles that are not hit, in their original order. */
  function Survivors(bs: seq<Bubble>, box: Box): (r: seq<Bubble>)
    ensures forall b :: b in r <==> b in bs && !Hit(box, b)
  {
    if |bs| == 0 then []
    else
      var last := bs[|bs| - 1];
      assert bs == bs[..|bs| - 1] + [last];
      var rest := Survivors(bs[..|bs| - 1], box);
      if Hit(box, last) then rest else rest + [last]
  }

  /** The bubbles that are hit, in their original order. */
  function Caught(bs: seq<Bubble>, box: Box): (r: seq<Bubble>)
    ensures forall b :: b in r <==> b in bs && Hit(box, b)
  {
    if |bs| == 0 then []
    else
      var last := bs[|bs| - 1];
      assert bs == bs[..|bs| - 1] + [last];
      var rest := Caught(bs[..|bs| - 1], box);
      if Hit(box, last) then rest + [last] else rest
  }

  /** One fresh pop for each caught bubble, at its position, in order. */
  function PopsFor(cs: seq<Bubble>): (r: seq<PopEffect>)
    ensures |r| == |cs|
    ensures forall i :: 0 <= i < |cs| ==> r[i] == FreshPop(cs[i].x, cs[i].y)
  {
    if |cs| == 0 then []
    else PopsFor(cs[..|cs| - 1]) + [FreshPop(cs[|cs| - 1].x, cs[|cs| - 1].y)]
  }

  /** How one more bubble extends the split and its pops. */
  lemma CollideOneMore(bs: seq<Bubble>, b: Bubble, box: Box)
    ensures Hit(box, b) ==>
      Survivors(bs + [b], box) == Survivors(bs, box) &&
      Caught(bs + [b], box) == Caught(bs, box) + [b] &&
      PopsFor(Caught(bs + [b], box)) == PopsFor(Caught(bs, box)) + [FreshPop(b.x, b.y)]
    ensures !Hit(box, b) ==>
      Survivors(bs + [b], box) == Survivors(bs, box) + [b] &&
      Caught(bs + [b], box) == Caught(bs, box)
  {
    assert (bs + [b])[..|bs|] == bs;
    var cs := Caught(bs, box);
    assert (cs + [b])[..|cs|] == cs;
  }

  /** Survivors and caught bubbles together are exactly the input bubbles. */
  lemma {:induction false} CollisionSplit(bs: seq<Bubble>, box: Box)
    ensures multiset(Survivors(bs, box)) + multiset(Caught(bs, box)) == multiset(bs)
    ensures |Survivors(bs, box)| + |Caught(bs, box)| == |bs|
  {
    if |bs| > 0 {
      var init := bs[..|bs| - 1];
      assert bs == init + [bs[|bs| - 1]];
      CollisionSplit(init, box);
    }
  }

  /** Filtering distributes over concatenation, so survivors keep their order. */
  lemma {:induction false} SurvivorsConcat(a: seq<Bubble>, b: seq<Bubble>, box: Box)
    ensures Survivors(a + b, box) == Survivors(a, box) + Survivors(b, box)
    decreases |b|
  {
    if |b| == 0 {
      assert a + b == a;
    } else {
      var b' := b[..|b| - 1];
      assert (a + b)[..|a + b| - 1] == a + b';
      assert (a + b)[|a + b| - 1] == b[|b| - 1];
      SurvivorsConcat(a, b', box);
    }
  }

  /** The caught bubbles keep their order too, and so do their pops. */
  lemma {:induction false} CaughtConcat(a: seq<Bubble>, b: seq<Bubble>, box: Box)
    ensures Caught(a + b, box) == Caught(a, box) + Caught(b, box)
    decreases |b|
  {
    if |b| == 0 {
      assert a + b == a;
    } else {
      var b' := b[..|b| - 1];
      assert (a + b)[..|a + b| - 1] == a + b';
      assert (a + b)[|a + b| - 1] == b[|b| - 1];
      CaughtConcat(a, b', box);
    }
  }

  /** A bubble strictly inside the hitbox is removed and a pop appears at
      its position; a bubble outside it is kept and makes no pop. */
  lemma CollisionOutcome(bs: seq<Bubble>, box: Box, b: Bubble)
    requires b in bs
    ensures Hit(box, b) ==> b !in Survivors(bs, box) && FreshPop(b.x, b.y) in PopsFor(Caught(bs, box))
    ensures !Hit(box, b) ==> b in Survivors(bs, box) && b !in Caught(bs, box)
  {
    if Hit(box, b) {
      var cs := Caught(bs, box);
      var j :| 0 <= j < |cs| && cs[j] == b;
      assert PopsFor(cs)[j] == FreshPop(b.x, b.y);
    }
  }
}
