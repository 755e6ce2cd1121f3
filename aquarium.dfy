/** The program's objects: the fish and the game, whose methods update their
    fields in place, tick by tick, in the order the program runs them. Every method
    states its new state through the functions of the other modules, so what
    is proved there holds of these objects. */
module Aquarium {
  import opened Entities
  import opened Kinematics
  import opened Effects
  import opened Collision
  import opened Spawner
  import opened Planner
  import opened Simulation

  class Fish {
    var x: real
    var y: real
    var vx: real
    var vy: real
    var ax: real
    var ay: real
    var flipped: bool
    var bored: bool
    var flipCount: int
    var lungeCount: int

    function State(): FishState
      reads this
    {
      FishState(x, y, vx, vy, ax, ay, flipped, bored, flipCount, lungeCount)
    }

    /** A fish at rest at (x0, y0); every other field has its zero value. */
    constructor (x0: real, y0: real)
      ensures State() == FishState(x0, y0, 0.0, 0.0, 0.0, 0.0, false, false, 0, 0)
    {
      x, y := x0, y0;
      vx, vy, ax, ay := 0.0, 0.0, 0.0, 0.0;
      flipped, bored := false, false;
      flipCount, lungeCount := 0, 0;
    }

    /** Lunge trigger and the acceleration draw. */
    method ChooseAcceleration(d: WalkDraws)
      requires ValidDraws(d)
      modifies this
      ensures State() == Kinematics.ChooseAcceleration(old(State()), d)
    {
      if lungeCount <= 0 && d.roll < LungeChance {
        ax := (d.ax - 0.7) * 0.008;
        ay := (d.ay - 0.9) * 0.005;
        lungeCount := d.duration + 1;
      } else {
        ax := (d.ax - 0.5) * 0.006;
        ay := (d.ay - 0.5) * 0.003;
      }
    }

    /** The per-axis velocity clamp. */
    method ClampVelocity()
      modifies this
      ensures State() == Kinematics.ClampVelocity(old(State()))
    {
      if vx > MaxVelocity {
        vx := MaxVelocity;
      } else if vx < -MaxVelocity {
        vx := -MaxVelocity;
      }
      if vy > MaxVelocity {
        vy := MaxVelocity;
      } else if vy < -MaxVelocity {
        vy := -MaxVelocity;
      }
    }

    /** Forward-Euler integration. */
    method Integrate()
      modifies this
      ensures State() == Kinematics.Integrate(old(State()))
    {
      vx := vx + ax;
      vy := vy + ay;
      x := x + vx;
      y := y + vy;
    }

    /** The lunge countdown. */
    method CountDownLunge()
      modifies this
      ensures State() == Kinematics.CountDownLunge(old(State()))
    {
      if lungeCount > 0 {
        lungeCount := lungeCount - 1;
      }
    }

    /** The facing flip. */
    method Face()
      modifies this
      ensures State() == Kinematics.Face(old(State()))
    {
      if vx > FlipThreshold && flipped {
        flipped := false;
      } else if vx < -FlipThreshold && !flipped {
        flipped := true;
      }
    }

    /** Clamp-and-bounce at the walls. */
    method Bounce(seabedHeight: nat)
      modifies this
      ensures State() == Kinematics.Bounce(old(State()), seabedHeight)
    {
      var seabed := seabedHeight as real;
      if x < 0.0 {
        x := 0.0;
        vx := -vx * Restitution;
      } else if x > RightWall {
        x := RightWall;
        vx := -vx * Restitution;
      }
      if y < 0.0 {
        y := 0.0;
        vy := -vy * Restitution;
      } else if y > ScreenHeight - seabed {
        y := ScreenHeight - seabed;
        vy := -vy * Restitution;
      }
    }
  }

  class Game {
    var cameraX: int
    var cameraY: int
    var bubbleCD: int
    var bubbles: seq<Bubble>
    var weeds: seq<Seaweed>
    var fish: Fish
    var pops: seq<PopEffect>
    /** How many times the pop sound has been played. */
    ghost var popSounds: nat

    function Snapshot(): World
      reads this, fish
    {
      World(fish.State(), bubbles, weeds, pops, bubbleCD, cameraX, cameraY)
    }

    ghost predicate Valid()
      reads this, fish
    {
      WorldInv(Snapshot())
    }

    /** A new game: the fish at rest mid-screen, no bubbles or pops, and the
        seaweed placed from `weedCount` (the draw below 11) and one draw per weed. */
    constructor (weedCount: int, weedDraws: seq<real>, seaweedHeight: nat)
      requires 0 <= weedCount < WeedSpread && |weedDraws| == WeedMin + weedCount
      requires forall i :: 0 <= i < |weedDraws| ==> 0.0 <= weedDraws[i] < 1.0
      ensures fresh(fish) && popSounds == 0
      ensures Snapshot() == InitialWorld(Weeds(weedDraws, seaweedHeight))
      ensures Valid()
    {
      cameraX := -240;
      cameraY := 0;
      bubbleCD := 0;
      bubbles := [];
      weeds := [];
      pops := [];
      popSounds := 0;
      fish := new Fish(ScreenWidth / 2.0, ScreenHeight / 2.0);
      new;
      SpawnWeeds(weedCount, weedDraws, seaweedHeight);
      assert weeds == Weeds(weedDraws, seaweedHeight);
    }

    /** Places the seaweed: `count + 20` weeds, one per draw. */
    method SpawnWeeds(count: int, draws: seq<real>, seaweedHeight: nat)
      requires 0 <= count < WeedSpread && |draws| == WeedMin + count
      requires forall i :: 0 <= i < |draws| ==> 0.0 <= draws[i] < 1.0
      modifies this
      ensures weeds == old(weeds) + Weeds(draws, seaweedHeight)
      ensures Snapshot() == old(Snapshot()).(weeds := weeds)
      ensures fish == old(fish) && popSounds == old(popSounds)
    {
      var numSpawn := count + WeedMin;
      var ws := weeds;
      for i := 0 to numSpawn
        invariant ws == weeds + Weeds(draws[..i], seaweedHeight)
      {
        var sw := Seaweed(draws[i] * ScreenWidth, ScreenHeight - seaweedHeight as real);
        assert Weeds(draws[..i + 1], seaweedHeight) == Weeds(draws[..i], seaweedHeight) + [sw];
        ws := ws + [sw];
      }
      assert draws[..numSpawn] == draws;
      weeds := ws;
    }

    /** The fish's random walk for one tick, one step of the program after another. */
    method RandomWalk(d: WalkDraws, seabedHeight: nat)
      requires ValidDraws(d)
      modifies fish
      ensures fish.State() == Walk(old(fish.State()), d, seabedHeight)
    {
      fish.ChooseAcceleration(d);
      fish.ClampVelocity();
      fish.Integrate();
      fish.CountDownLunge();
      fish.Face();
      fish.Bounce(seabedHeight);
    }

    /** Removes every bubble strictly inside the fish's hitbox, in order, and
        appends a fresh pop (and plays the pop sound) for each. */
    method CheckCollisions(fishWidth: nat, fishHeight: nat)
      modifies this
      ensures var box := Hitbox(fish.State(), fishWidth, fishHeight);
        bubbles == Survivors(old(bubbles), box) &&
        pops == old(pops) + PopsFor(Caught(old(bubbles), box)) &&
        popSounds == old(popSounds) + |Caught(old(bubbles), box)|
      ensures Snapshot() == old(Snapshot()).(bubbles := bubbles, pops := pops)
      ensures fish == old(fish)
    {
      var box := Hitbox(fish.State(), fishWidth, fishHeight);
      var bs := bubbles;
      var remaining: seq<Bubble> := [];
      var added: seq<PopEffect> := [];
      ghost var sounds := popSounds;
      for i := 0 to |bs|
        invariant remaining == Survivors(bs[..i], box)
        invariant added == PopsFor(Caught(bs[..i], box))
        invariant sounds == old(popSounds) + |Caught(bs[..i], box)|
        modifies {}
      {
        var bubble := bs[i];
        assert bs[..i + 1] == bs[..i] + [bubble];
        CollideOneMore(bs[..i], bubble, box);
        if bubble.x > box.left && bubble.x < box.right && bubble.y > box.top && bubble.y < box.bottom {
          sounds := sounds + 1;
          added := added + [PopEffect(bubble.x, bubble.y, 1.0, 14, 1.0, true)];
        } else {
          remaining := remaining + [bubble];
        }
      }
      assert bs[..|bs|] == bs;
      bubbles := remaining;
      pops := pops + added;
      popSounds := sounds;
    }

    /** Ages every active pop by one frame and one fade step, switching it
        off when either runs out. */
    method AgePops()
      modifies this
      ensures pops == AgeAll(old(pops))
      ensures Snapshot() == old(Snapshot()).(pops := pops)
      ensures fish == old(fish) && popSounds == old(popSounds)
    {
      var ps := pops;
      for i := 0 to |ps|
        invariant |ps| == |pops|
        invariant forall j :: 0 <= j < i ==> ps[j] == AgePop(pops[j])
        invariant forall j :: i <= j < |ps| ==> ps[j] == pops[j]
      {
        var pop := ps[i];
        if pop.active {
          pop := pop.(frames := pop.frames - 1, alpha := pop.alpha - FadeStep);
          if pop.frames <= 0 || pop.alpha <= 0.0 {
            pop := pop.(active := false);
          }
        }
        ps := ps[i := pop];
      }
      assert ps == AgeAll(pops);
      pops := ps;
    }

    /** Keeps only the active pops, in order. */
    method CompactPops()
      modifies this
      ensures pops == ActivePops(old(pops))
      ensures Snapshot() == old(Snapshot()).(pops := pops)
      ensures fish == old(fish) && popSounds == old(popSounds)
    {
      var activePops: seq<PopEffect> := [];
      for i := 0 to |pops|
        invariant activePops == ActivePops(pops[..i])
      {
        assert pops[..i + 1][..i] == pops[..i];
        if pops[i].active {
          activePops := activePops + [pops[i]];
        }
      }
      assert pops[..|pops|] == pops;
      pops := activePops;
    }

    /** Appends one bubble at (x, y); `u` is the scale draw. */
    method SpawnBubbleAt(x: real, y: real, u: real)
      requires 0.0 <= u < 1.0
      modifies this
      ensures bubbles == old(bubbles) + [NewBubble(x, y, u)]
      ensures Snapshot() == old(Snapshot()).(bubbles := bubbles)
      ensures fish == old(fish) && popSounds == old(popSounds)
    {
      var scale := u * 0.5 + 0.5;
      var bu := Bubble(x, y, BubbleRise, scale);
      bubbles := bubbles + [bu];
    }

    /** Moves every bubble by its vertical velocity. */
    method FloatBubbles()
      modifies this
      ensures bubbles == Float(old(bubbles))
      ensures Snapshot() == old(Snapshot()).(bubbles := bubbles)
      ensures fish == old(fish) && popSounds == old(popSounds)
    {
      var bs := bubbles;
      for i := 0 to |bs|
        invariant |bs| == |bubbles|
        invariant forall j :: 0 <= j < i ==> bs[j] == bubbles[j].(y := bubbles[j].y + bubbles[j].vy)
        invariant forall j :: i <= j < |bs| ==> bs[j] == bubbles[j]
      {
        var bubble := bs[i];
        bs := bs[i := bubble.(y := bubble.y + bubble.vy)];
      }
      assert bs == Float(bubbles);
      bubbles := bs;
    }

    /** The chase planner; `u1`, `u2` are the wander draws. */
    method GiveChase(u1: real, u2: real)
      requires 0.0 <= u1 < 1.0 && 0.0 <= u2 < 1.0
      modifies fish
      ensures fish.State() == Chase(old(fish.State()), bubbles, u1, u2)
    {
      if |bubbles| == 0 {
        fish.ax := (u1 - 0.5) * 0.01;
        fish.ay := (u2 - 0.5) * 0.009;
        return;
      }

      var closest := 0;
      var minDistance := SqDistance(fish.x, fish.y, bubbles[0].x, bubbles[0].y);
      for i := 0 to |bubbles|
        invariant NearestAmong(bubbles, fish.x, fish.y, i, closest)
        invariant minDistance == DistTo(fish.x, fish.y, bubbles[closest])
      {
        var dist := SqDistance(fish.x, fish.y, bubbles[i].x, bubbles[i].y);
        if dist < minDistance {
          minDistance := dist;
          closest := i;
        }
      }
      NearestUnique(bubbles, fish.x, fish.y, closest, NearestIndex(bubbles, fish.x, fish.y));
      var closestBub := bubbles[closest];

      if closestBub.y < 0.0 || closestBub.y > ScreenHeight || closestBub.x < 0.0 || closestBub.x > ScreenWidth {
        fish.ax := (u1 - 0.5) * 0.01;
        fish.ay := (u2 - 0.5) * 0.009;
        return;
      }

      var predictedX := closestBub.x + closestBub.vy * PredictionTicks;
      var predictedY := closestBub.y + closestBub.vy * PredictionTicks;

      fish.ax := (predictedX - fish.x) * SteerGain;
      fish.ay := (predictedY - fish.y) * SteerGain;

      fish.vx := fish.vx + fish.ax;
      fish.vy := fish.vy + fish.ay;

      fish.x := fish.x + fish.vx;
      fish.y := fish.y + fish.vy;
    }

    /** One tick. */
    method Update(t: TickInput, a: Assets)
      requires ValidInput(t)
      modifies this, fish
      ensures fish == old(fish)
      ensures Snapshot() == Step(old(Snapshot()), t, a)
      ensures old(Valid()) ==> Valid()
      ensures popSounds == old(popSounds) +
        |Caught(old(bubbles), Hitbox(Walk(old(fish.State()), t.walk, a.seabedHeight), a.fishWidth, a.fishHeight))|
    {
      ghost var w := Snapshot();
      RandomWalk(t.walk, a.seabedHeight);
      CheckCollisions(a.fishWidth, a.fishHeight);
      AgePops();
      CompactPops();

      if bubbleCD > 0 {
        bubbleCD := bubbleCD - 1;
      }
      if t.pressed && bubbleCD <= 0 {
        SpawnBubbleAt(t.cursorX as real, t.cursorY as real, t.scaleDraw);
        bubbleCD := Cooldown;
      }

      FloatBubbles();
      GiveChase(t.chaseAx, t.chaseAy);

      if WorldInv(w) {
        StepPreservesInvariant(w, t, a);
      }
    }
  }
}
