/** Bubble spawning behind the pointer cooldown, the upward float of
    bubbles, and the one-time seaweed placement. */
module Spawner {
  import opened Entities

  /** Vertical velocity of every bubble (negative is upward). */
  const BubbleRise: real := -0.2
  /** Ticks to wait after a pointer spawn before the next one. */
  const Cooldown: int := 40
  /** Seaweed count is WeedMin plus an integer draw below WeedSpread. */
  const WeedMin: int := 20
  const WeedSpread: int := 11

  /** A new bubble at the pointer; `u` is the uniform draw in [0, 1) for its scale. */
  function NewBubble(x: real, y: real, u: real): (b: Bubble)
    requires 0.0 <= u < 1.0
    ensures b.x == x && b.y == y && b.vy == BubbleRise
    ensures 0.5 <= b.scale < 1.0
  {
    Bubble(x, y, BubbleRise, u * 0.5 + 0.5)
  }

  /** What every bubble satisfies from its spawn on. */
  predicate BubbleOk(b: Bubble)
  {
    b.vy == BubbleRise && 0.5 <= b.scale < 1.0
  }

  /** The per-tick float: each bubble moves by its own vertical velocity. */
  function Float(bs: seq<Bubble>): (r: seq<Bubble>)
    ensures |r| == |bs|
    ensures forall i :: 0 <= i < |bs| ==>
      r[i].x == bs[i].x && r[i].vy == bs[i].vy && r[i].scale == bs[i].scale
    ensures forall i :: 0 <= i < |bs| ==> r[i].y - bs[i].y == bs[i].vy
  {
    seq(|bs|, i requires 0 <= i < |bs| => bs[i].(y := bs[i].y + bs[i].vy))
  }

  /** Floating keeps every bubble's x, raises it by 0.2, and keeps it well formed. */
  lemma FloatRises(bs: seq<Bubble>)
    requires forall b :: b in bs ==> BubbleOk(b)
    ensures |Float(bs)| == |bs|
    ensures forall i :: 0 <= i < |bs| ==>
      Float(bs)[i] == bs[i].(y := bs[i].y - 0.2) && BubbleOk(Float(bs)[i])
    ensures forall b :: b in Float(bs) ==> BubbleOk(b)
  {
    forall i | 0 <= i < |bs| ensures BubbleOk(bs[i]) {
      assert bs[i] in bs;
    }
    forall b | b in Float(bs) ensures BubbleOk(b) {
      var i :| 0 <= i < |Float(bs)| && Float(bs)[i] == b;
      assert bs[i] in bs;
    }
  }

  /** One seaweed from a uniform draw in [0, 1): anywhere across the width,
      standing on the bottom edge. */
  function WeedAt(u: real, seaweedHeight: nat): (w: Seaweed)
    requires 0.0 <= u < 1.0
    ensures 0.0 <= w.x < ScreenWidth
    ensures w.y == ScreenHeight - seaweedHeight as real
  {
    Seaweed(u * ScreenWidth, ScreenHeight - seaweedHeight as real)
  }

  /** The seaweed placed from a sequence of uniform draws, one per weed. */
  function Weeds(us: seq<real>, seaweedHeight: nat): (r: seq<Seaweed>)
    requires forall i :: 0 <= i < |us| ==> 0.0 <= us[i] < 1.0
    ensures |r| == |us|
    ensures forall i :: 0 <= i < |us| ==> r[i].x == us[i] * ScreenWidth
    ensures forall i :: 0 <= i < |us| ==>
      0.0 <= r[i].x < ScreenWidth && r[i].y == ScreenHeight - seaweedHeight as real
  {
    seq(|us|, i requires 0 <= i < |us| => WeedAt(us[i], seaweedHeight))
  }

  /** Placement draws WeedMin plus a draw below WeedSpread weeds, so 20 to 30,
      each somewhere across the width and every one on the same baseline. */
  lemma WeedsPlacement(count: int, us: seq<real>, seaweedHeight: nat)
    requires 0 <= count < WeedSpread && |us| == WeedMin + count
    requires forall i :: 0 <= i < |us| ==> 0.0 <= us[i] < 1.0
    ensures 20 <= |Weeds(us, seaweedHeight)| <= 30
    ensures forall w :: w in Weeds(us, seaweedHeight) ==>
      0.0 <= w.x < ScreenWidth && w.y == ScreenHeight - seaweedHeight as real
  {
  }

  /** The outcome of the cooldown gate in one tick. */
  datatype Gate = Gate(cd: int, spawned: bool)

  /** The cooldown counts down while positive; a pressed pointer spawns once
      the counter is at or below zero, and the spawn rearms it to Cooldown. */
  function CooldownTick(cd: int, pressed: bool): (g: Gate)
    ensures g.spawned <==> pressed && cd <= 1
    ensures g.spawned ==> g.cd == Cooldown
    ensures !g.spawned ==> g.cd == (if cd > 0 then cd - 1 else cd)
    ensures 0 <= cd <= Cooldown ==> 0 <= g.cd <= Cooldown
  {
    var counted := if cd > 0 then cd - 1 else cd;
    var fire := pressed && counted <= 0;
    Gate(if fire then Cooldown else counted, fire)
  }

  /** The counter after a run of ticks with the given pointer states. */
  function CooldownAfter(cd: int, presses: seq<bool>): (r: int)
    ensures 0 <= cd <= Cooldown ==> 0 <= r <= Cooldown
  {
    if |presses| == 0 then cd
    else CooldownTick(CooldownAfter(cd, presses[..|presses| - 1]), presses[|presses| - 1]).cd
  }

  /** While the counter exceeds the number of ticks run, it falls by one per
      tick and nothing spawns; after a spawn (counter 40) this rules out a
      spawn on each of the next 39 ticks. */
  lemma {:induction false} NoSpawnWhileCooling(cd: int, presses: seq<bool>)
    requires |presses| < cd
    ensures CooldownAfter(cd, presses) == cd - |presses|
    ensures forall k :: 0 <= k < |presses| ==>
      !CooldownTick(CooldownAfter(cd, presses[..k]), presses[k]).spawned
    decreases |presses|
  {
    if |presses| > 0 {
      NoSpawnWhileCooling(cd, presses[..|presses| - 1]);
    }
    forall k | 0 <= k < |presses|
      ensures !CooldownTick(CooldownAfter(cd, presses[..k]), presses[k]).spawned
    {
      NoSpawnWhileCooling(cd, presses[..k]);
    }
  }
}
