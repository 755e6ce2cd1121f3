/** One tick of the whole simulation as a function of the previous state and
    the tick's external inputs (random draws, pointer state, image sizes). */
module Simulation {
  import opened Entities
  import opened Kinematics
  import opened Effects
  import opened Collision
  import opened Spawner
  import opened Planner

  /** Everything the simulation owns. */
  datatype World = World(
    fish: FishState,
    bubbles: seq<Bubble>,
    weeds: seq<Seaweed>,
    pops: seq<PopEffect>,
    bubbleCD: int,
    cameraX: int,
    cameraY: int)

  /** The inputs one tick reads: the walk draws, the left button and the
      cursor (integer pixels), the bubble-scale draw, and the chase planner's
      two wander draws. */
  datatype TickInput = TickInput(
    walk: WalkDraws,
    pressed: bool,
    cursorX: int,
    cursorY: int,
    scaleDraw: real,
    chaseAx: real,
    chaseAy: real)

  predicate ValidInput(t: TickInput)
  {
    ValidDraws(t.walk) && 0.0 <= t.scaleDraw < 1.0 &&
    0.0 <= t.chaseAx < 1.0 && 0.0 <= t.chaseAy < 1.0
  }

  /** Does this tick spawn a bubble at the cursor? */
  predicate Spawns(w: World, t: TickInput)
  {
    CooldownTick(w.bubbleCD, t.pressed).spawned
  }

  /** The tick, in the program's order: random walk, collisions, pop aging
      and compaction, spawn cooldown and spawn, bubble float, chase. */
  function Step(w: World, t: TickInput, a: Assets): (r: World)
    requires ValidInput(t)
    ensures r.weeds == w.weeds && r.cameraX == w.cameraX && r.cameraY == w.cameraY
    ensures Spawns(w, t) ==> r.bubbleCD == Cooldown
  {
    var walked := Walk(w.fish, t.walk, a.seabedHeight);
    var box := Hitbox(walked, a.fishWidth, a.fishHeight);
    var kept := Survivors(w.bubbles, box);
    var popped := w.pops + PopsFor(Caught(w.bubbles, box));
    var pops := ActivePops(AgeAll(popped));
    var gate := CooldownTick(w.bubbleCD, t.pressed);
    var spawned :=
      if gate.spawned then kept + [NewBubble(t.cursorX as real, t.cursorY as real, t.scaleDraw)]
      else kept;
    var floated := Float(spawned);
    var chased := Chase(walked, floated, t.chaseAx, t.chaseAy);
    World(chased, floated, w.weeds, pops, gate.cd, w.cameraX, w.cameraY)
  }

  /** What holds between ticks: the lunge countdown and the cooldown stay in
      range, every bubble rises at the fixed speed with a scale in [0.5, 1),
      and every pop in the pool is live. */
  predicate WorldInv(w: World)
  {
    0 <= w.fish.lungeCount <= 3 &&
    0 <= w.bubbleCD <= Cooldown &&
    (forall b :: b in w.bubbles ==> BubbleOk(b)) &&
    (forall p :: p in w.pops ==> Live(p))
  }

  /** The state that construction produces. */
  function InitialWorld(weeds: seq<Seaweed>): (w: World)
    ensures WorldInv(w)
  {
    World(FishState(ScreenWidth / 2.0, ScreenHeight / 2.0, 0.0, 0.0, 0.0, 0.0, false, false, 0, 0),
          [], weeds, [], 0, -240, 0)
  }

  lemma AgedPopsLive(ps: seq<PopEffect>)
    requires forall p :: p in ps ==> Live(p)
    ensures forall p :: p in ActivePops(AgeAll(ps)) ==> Live(p)
  {
    forall p | p in ActivePops(AgeAll(ps)) ensures Live(p) {
      var i :| 0 <= i < |AgeAll(ps)| && AgeAll(ps)[i] == p;
      assert ps[i] in ps;
      AgeKeepsLive(ps[i]);
    }
  }

  /** Every tick preserves the invariant. */
  lemma StepPreservesInvariant(w: World, t: TickInput, a: Assets)
    requires WorldInv(w) && ValidInput(t)
    ensures WorldInv(Step(w, t, a))
  {
    var walked := Walk(w.fish, t.walk, a.seabedHeight);
    var box := Hitbox(walked, a.fishWidth, a.fishHeight);
    var kept := Survivors(w.bubbles, box);
    var newPops := PopsFor(Caught(w.bubbles, box));
    var popped := w.pops + newPops;
    forall p | p in popped ensures Live(p) {
      if p !in w.pops {
        var i :| 0 <= i < |newPops| && newPops[i] == p;
      }
    }
    AgedPopsLive(popped);
    var gate := CooldownTick(w.bubbleCD, t.pressed);
    var spawned :=
      if gate.spawned then kept + [NewBubble(t.cursorX as real, t.cursorY as real, t.scaleDraw)]
      else kept;
    FloatRises(spawned);
  }

  /** A run of ticks. */
  function Run(w: World, ts: seq<TickInput>, a: Assets): (r: World)
    requires forall i :: 0 <= i < |ts| ==> ValidInput(ts[i])
    ensures r.weeds == w.weeds && r.cameraX == w.cameraX && r.cameraY == w.cameraY
  {
    if |ts| == 0 then w else Step(Run(w, ts[..|ts| - 1], a), ts[|ts| - 1], a)
  }

  function Presses(ts: seq<TickInput>): (ps: seq<bool>)
    ensures |ps| == |ts| && forall i :: 0 <= i < |ts| ==> ps[i] == ts[i].pressed
  {
    seq(|ts|, i requires 0 <= i < |ts| => ts[i].pressed)
  }

  /** Over a run, the spawn cooldown evolves by the pointer states alone. */
  lemma {:induction false} RunCooldown(w: World, ts: seq<TickInput>, a: Assets)
    requires forall i :: 0 <= i < |ts| ==> ValidInput(ts[i])
    ensures Run(w, ts, a).bubbleCD == CooldownAfter(w.bubbleCD, Presses(ts))
    decreases |ts|
  {
    if |ts| > 0 {
      var init := ts[..|ts| - 1];
      RunCooldown(w, init, a);
      assert Presses(ts)[..|ts| - 1] == Presses(init);
    }
  }

  /** From a freshly armed cooldown no spawn happens on any of the next
      Cooldown - 1 ticks, whatever the pointer does. */
  lemma NoSpawnWhileArmed(w: World, ts: seq<TickInput>, a: Assets)
    requires w.bubbleCD == Cooldown
    requires forall i :: 0 <= i < |ts| ==> ValidInput(ts[i])
    requires |ts| < Cooldown
    ensures forall k :: 0 <= k < |ts| ==> !Spawns(Run(w, ts[..k], a), ts[k])
  {
    NoSpawnWhileCooling(Cooldown, Presses(ts));
    forall k | 0 <= k < |ts| ensures !Spawns(Run(w, ts[..k], a), ts[k]) {
      RunCooldown(w, ts[..k], a);
      assert Presses(ts[..k]) == Presses(ts)[..k];
    }
  }

  /** After a spawn no spawn happens on any of the next Cooldown - 1 ticks,
      whatever the pointer does. */
  lemma NoSpawnAfterSpawn(w: World, t: TickInput, ts: seq<TickInput>, a: Assets)
    requires ValidInput(t) && Spawns(w, t)
    requires forall i :: 0 <= i < |ts| ==> ValidInput(ts[i])
    requires |ts| < Cooldown
    ensures forall k :: 0 <= k < |ts| ==> !Spawns(Run(Step(w, t, a), ts[..k], a), ts[k])
  {
    NoSpawnWhileArmed(Step(w, t, a), ts, a);
  }

  /** Once a lunge is running with c ticks left, the next c ticks start no
      new lunge and count it down by exactly one each. */
  lemma {:induction false} LungeRunsOut(w: World, ts: seq<TickInput>, a: Assets)
    requires forall i :: 0 <= i < |ts| ==> ValidInput(ts[i])
    requires |ts| <= w.fish.lungeCount
    ensures Run(w, ts, a).fish.lungeCount == w.fish.lungeCount - |ts|
    ensures forall k :: 0 <= k < |ts| ==> !StartsLunge(Run(w, ts[..k], a).fish, ts[k].walk)
    decreases |ts|
  {
    if |ts| > 0 {
      LungeRunsOut(w, ts[..|ts| - 1], a);
    }
    forall k | 0 <= k < |ts| ensures !StartsLunge(Run(w, ts[..k], a).fish, ts[k].walk) {
      LungeRunsOut(w, ts[..k], a);
    }
  }
}
