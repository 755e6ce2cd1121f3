/** The pop-effect pool: each tick every active pop loses one frame and
    fades by 0.06, turns inactive when either runs out, and the pool is then
    compacted to the active pops in their original order. */
module Effects {
  import opened Entities

  /** Frame budget of a fresh pop. */
  const PopFrames: int := 14
  /** Alpha lost per tick. */
  const FadeStep: real := 0.06

  /** A pop as created on contact: full size, full budget, opaque, active. */
  function FreshPop(x: real, y: real): (r: PopEffect)
    ensures r.x == x && r.y == y && r.scale == 1.0 && Live(r) && r.frames == PopFrames
  {
    PopEffect(x, y, 1.0, PopFrames, 1.0, true)
  }

  /** A pop that is still in the pool: active, and exactly as far faded as
      it is far through its frame budget. */
  predicate Live(p: PopEffect)
  {
    p.active && p.scale == 1.0 && 1 <= p.frames <= PopFrames &&
    p.alpha == 1.0 - FadeStep * (PopFrames - p.frames) as real
  }

  /** One aging pass over one pop. */
  function AgePop(p: PopEffect): (r: PopEffect)
    ensures !p.active ==> r == p
    ensures p.active ==> r.frames == p.frames - 1 && r.alpha == p.alpha - FadeStep
    ensures p.active ==> (r.active <==> r.frames > 0 && r.alpha > 0.0)
    ensures r.x == p.x && r.y == p.y && r.scale == p.scale
  {
    if !p.active then p
    else
      var aged := p.(frames := p.frames - 1, alpha := p.alpha - FadeStep);
      if aged.frames <= 0 || aged.alpha <= 0.0 then aged.(active := false) else aged
  }

  /** The aging pass over the whole pool. */
  function AgeAll(ps: seq<PopEffect>): (r: seq<PopEffect>)
    ensures |r| == |ps|
    ensures forall i :: 0 <= i < |ps| && !ps[i].active ==> r[i] == ps[i]
    ensures forall i :: 0 <= i < |ps| && ps[i].active ==>
      r[i].frames == ps[i].frames - 1 && r[i].alpha == ps[i].alpha - FadeStep &&
      (r[i].active <==> r[i].frames > 0 && r[i].alpha > 0.0)
    ensures forall i :: 0 <= i < |ps| ==>
      r[i].x == ps[i].x && r[i].y == ps[i].y && r[i].scale == ps[i].scale
  {
    seq(|ps|, i requires 0 <= i < |ps| => AgePop(ps[i]))
  }

  /** Compaction: the active pops, in their original order. */
  function ActivePops(ps: seq<PopEffect>): (r: seq<PopEffect>)
    ensures forall p :: p in r <==> p in ps && p.active
    ensures multiset(r) <= multiset(ps)
  {
    if |ps| == 0 then []
    else
      var last := ps[|ps| - 1];
      assert ps == ps[..|ps| - 1] + [last];
      var rest := ActivePops(ps[..|ps| - 1]);
      if last.active then rest + [last] else rest
  }

  /** Compaction distributes over concatenation, so it keeps relative order. */
  lemma {:induction false} ActivePopsConcat(a: seq<PopEffect>, b: seq<PopEffect>)
    ensures ActivePops(a + b) == ActivePops(a) + ActivePops(b)
    decreases |b|
  {
    if |b| == 0 {
      assert a + b == a;
    } else {
      var b' := b[..|b| - 1];
      assert (a + b)[..|a + b| - 1] == a + b';
      assert (a + b)[|a + b| - 1] == b[|b| - 1];
      ActivePopsConcat(a, b');
    }
  }

  /** A live pop survives its aging pass exactly when it had two or more
      frames left, and then it is live again. */
  lemma AgeKeepsLive(p: PopEffect)
    requires Live(p)
    ensures AgePop(p).active <==> p.frames >= 2
    ensures AgePop(p).active ==> Live(AgePop(p)) && AgePop(p).frames < PopFrames
  {
  }

  /** `n` aging passes over one pop. */
  function AgeTimes(p: PopEffect, n: nat): (r: PopEffect)
    ensures r.x == p.x && r.y == p.y && r.scale == p.scale
    ensures !p.active ==> r == p
  {
    if n == 0 then p else AgePop(AgeTimes(p, n - 1))
  }

  /** After n <= 13 passes a fresh pop is active with 14 - n frames and
      alpha 1 - 0.06 n. */
  lemma {:induction false} FreshPopTimeline(x: real, y: real, n: nat)
    requires n < PopFrames
    ensures AgeTimes(FreshPop(x, y), n) ==
      PopEffect(x, y, 1.0, PopFrames - n, 1.0 - FadeStep * n as real, true)
  {
    if n > 0 {
      FreshPopTimeline(x, y, n - 1);
    }
  }

  /** A fresh pop stays active through 13 aging passes and is switched off
      on the 14th, because its frames reach 0 while alpha is still 0.16. */
  lemma FreshPopLifetime(x: real, y: real)
    ensures forall n: nat :: n < PopFrames ==> AgeTimes(FreshPop(x, y), n).active
    ensures AgeTimes(FreshPop(x, y), PopFrames) == PopEffect(x, y, 1.0, 0, 0.16, false)
    ensures ActivePops([AgeTimes(FreshPop(x, y), PopFrames)]) == []
  {
    forall n: nat | n < PopFrames
      ensures AgeTimes(FreshPop(x, y), n).active
    {
      FreshPopTimeline(x, y, n);
    }
    FreshPopTimeline(x, y, PopFrames - 1);
  }
}
