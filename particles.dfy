/**
 * The particles of the falling-hearts animation: the three kinds of entity
 * the script constructs (Heart, MiniHeart, Rose), their constructors, and the
 * per-frame update rules of falling hearts and mini-hearts.
 *
 * Positions, velocities and opacities are exact reals (no IEEE-754 rounding).
 * Every Math.random() result is a parameter in [0, 1).
 */
module Particles {

  const HeartFriction: real := 0.8
  const HeartGravity: real := 1.0
  /** The vertical velocity every Heart starts with. */
  const HeartFallSpeed: real := 3.0
  const MiniFriction: real := 0.8
  const MiniGravity: real := 0.1
  const MiniLife: int := 100
  const MiniSize: real := 2.0
  const FadeRate: real := 0.0001
  const ShatterLoss: real := 3.0
  /** Mini-hearts pushed by n shatters. */
  function Fragments(n: nat): nat { 8 * n }
  /** Math.random() calls made by n MiniHeart constructions: Heart.call
      draws a horizontal velocity that is then overwritten, and MiniHeart
      draws vx and vy. */
  function FragmentDraws(n: nat): nat { 3 * n }
  /** Math.random() calls made by n shatters. */
  function ShatterDraws(n: nat): nat { 24 * n }
  /** Size of a freshly spawned falling heart. */
  const SpawnSize: real := 12.0

  /** A value Math.random() can return. */
  predicate IsUnit(r: real) { 0.0 <= r < 1.0 }

  predicate AllUnit(d: seq<real>) { forall i :: 0 <= i < |d| ==> IsUnit(d[i]) }

  datatype Heart = Heart(x: real, y: real, size: real, color: string,
                         vx: real, vy: real, friction: real, gravity: real)

  /** MiniHeart borrows Heart's fields through Heart.call; its color argument is
      never passed and never read, so it is not a field here. */
  datatype MiniHeart = MiniHeart(x: real, y: real, size: real, vx: real, vy: real,
                                 friction: real, gravity: real, ttl: int, opacity: real)

  datatype Rose = Rose(x: real, y: real, size: real, opacity: real)

  // ---------------------------------------------------------------- constructors

  /** `new Heart(x, y, size, color)`; `r` is the Math.random() behind velocity.x. */
  function NewHeart(x: real, y: real, size: real, color: string, r: real): (h: Heart)
    requires IsUnit(r)
    ensures h.x == x && h.y == y && h.size == size && h.color == color
    ensures -2.0 <= h.vx < 2.0 && h.vy == HeartFallSpeed
    ensures h.friction == HeartFriction && h.gravity == HeartGravity
  {
    Heart(x, y, size, color, (r - 0.5) * 4.0, HeartFallSpeed, HeartFriction, HeartGravity)
  }

  /** `new MiniHeart(x, y, size)`; `rx` and `ry` are the draws behind its velocity. */
  function NewMiniHeart(x: real, y: real, size: real, rx: real, ry: real): (m: MiniHeart)
    requires IsUnit(rx) && IsUnit(ry)
    ensures m.x == x && m.y == y && m.size == size
    ensures -3.0 <= m.vx < 3.0 && -3.0 <= m.vy < 3.0
    ensures m.friction == MiniFriction && m.gravity == MiniGravity
    ensures m.ttl == MiniLife && m.opacity == 1.0
  {
    MiniHeart(x, y, size, (rx - 0.5) * 6.0, (ry - 0.5) * 6.0, MiniFriction, MiniGravity, MiniLife, 1.0)
  }

  /** `new Rose(x, y, size)`; `r` is the draw behind its opacity. */
  function NewRose(x: real, y: real, size: real, r: real): (rose: Rose)
    requires IsUnit(r)
    ensures rose.x == x && rose.y == y && rose.size == size
    ensures 0.4 <= rose.opacity < 1.0
  {
    Rose(x, y, size, r * 0.6 + 0.4)
  }

  // ---------------------------------------------------------------- falling hearts

  predicate HitsGround(h: Heart, groundLine: real) {
    h.y + h.size + h.vy > groundLine
  }

  predicate HitsSide(h: Heart, width: real) {
    h.x + h.size + h.vx > width || h.x - h.size <= 0.0
  }

  /** What Heart.prototype.shatter does to the heart itself. */
  function Shrunk(h: Heart): Heart {
    h.(size := h.size - ShatterLoss)
  }

  /** The ground branch of Heart.prototype.update. */
  function AfterGround(h: Heart, groundLine: real): (a: Heart)
    ensures a.x == h.x && a.y == h.y && a.vx == h.vx
    ensures a.size == h.size || a.size == h.size - ShatterLoss
  {
    if HitsGround(h, groundLine) then Shrunk(h.(vy := -h.vy * h.friction))
    else h.(vy := h.vy + h.gravity)
  }

  /** The side-wall branch; it sees the heart as the ground branch left it. */
  function AfterSide(h: Heart, width: real): (a: Heart)
    ensures a.x == h.x && a.y == h.y && a.vy == h.vy
    ensures a.size == h.size || a.size == h.size - ShatterLoss
  {
    if HitsSide(h, width) then Shrunk(h.(vx := -h.vx * h.friction)) else h
  }

  /** The move at the end of an update: only the position changes, each
      coordinate by the velocity the heart carries. */
  function Moved(h: Heart): (m: Heart)
    ensures m.vx == h.vx && m.vy == h.vy && m.size == h.size
    ensures m.x - m.vx == h.x && m.y - m.vy == h.y
  {
    h.(x := h.x + h.vx, y := h.y + h.vy)
  }

  /** The heart after one Heart.prototype.update. */
  function HeartStep(h: Heart, width: real, groundLine: real): (r: Heart)
    ensures r.color == h.color && r.friction == h.friction && r.gravity == h.gravity
  {
    Moved(AfterSide(AfterGround(h, groundLine), width))
  }

  /** How many times one update calls shatter. */
  function Shatters(h: Heart, width: real, groundLine: real): (n: nat)
    ensures n <= 2
    ensures n == 0 <==> !HitsGround(h, groundLine) && !HitsSide(AfterGround(h, groundLine), width)
  {
    (if HitsGround(h, groundLine) then 1 else 0)
    + (if HitsSide(AfterGround(h, groundLine), width) then 1 else 0)
  }

  /** A mini-heart just built by shatter at (x, y). */
  predicate FreshFragment(m: MiniHeart, x: real, y: real) {
    m.x == x && m.y == y && m.size == MiniSize
    && -3.0 <= m.vx < 3.0 && -3.0 <= m.vy < 3.0
    && m.friction == MiniFriction && m.gravity == MiniGravity
    && m.ttl == MiniLife && m.opacity == 1.0
  }

  /** The i-th mini-heart of one shatter; it consumes draws 3i, 3i+1, 3i+2 of `d`. */
  function Fragment(x: real, y: real, d: seq<real>, i: nat): MiniHeart
    requires i < Fragments(1) && |d| >= ShatterDraws(1) && AllUnit(d)
  {
    NewMiniHeart(x, y, MiniSize, d[FragmentDraws(i) + 1], d[FragmentDraws(i) + 2])
  }

  /** The eight mini-hearts one shatter pushes, in push order. */
  function Burst(x: real, y: real, d: seq<real>): (b: seq<MiniHeart>)
    requires |d| >= ShatterDraws(1) && AllUnit(d)
    ensures |b| == Fragments(1)
    ensures forall i :: 0 <= i < |b| ==> FreshFragment(b[i], x, y)
  {
    seq(Fragments(1), i requires 0 <= i < Fragments(1) => Fragment(x, y, d, i))
  }

  /** Where one update calls shatter: once per branch that fires, both times
      at the heart's own position, since it moves only after both tests. */
  function ShatterSpots(h: Heart, width: real, groundLine: real): (ps: seq<(real, real)>)
    ensures |ps| == Shatters(h, width, groundLine)
    ensures forall i :: 0 <= i < |ps| ==> ps[i] == (h.x, h.y)
  {
    (if HitsGround(h, groundLine) then [(h.x, h.y)] else [])
    + (if HitsSide(AfterGround(h, groundLine), width) then [(h.x, h.y)] else [])
  }

  /** The mini-hearts pushed by shatters at the spots `ps`, in push order;
      each shatter takes the next 24 draws of `d`. */
  function Bursts(ps: seq<(real, real)>, d: seq<real>): (f: seq<MiniHeart>)
    requires |d| >= ShatterDraws(|ps|) && AllUnit(d)
    ensures |f| == Fragments(|ps|)
    decreases |ps|
  {
    if |ps| == 0 then []
    else Burst(ps[0].0, ps[0].1, d) + Bursts(ps[1..], d[ShatterDraws(1)..])
  }

  /** Shatters at one list of spots and then another push the first list's
      mini-hearts, then the second's drawn after the first's draws. */
  lemma {:induction false} BurstsAppend(a: seq<(real, real)>, b: seq<(real, real)>, d: seq<real>)
    requires |d| >= ShatterDraws(|a| + |b|) && AllUnit(d)
    ensures Bursts(a + b, d) == Bursts(a, d) + Bursts(b, d[ShatterDraws(|a|)..])
    decreases |a|
  {
    if |a| == 0 {
      assert a + b == b;
      assert d[ShatterDraws(|a|)..] == d;
    } else {
      var rest := d[ShatterDraws(1)..];
      var first := Burst(a[0].0, a[0].1, d);
      assert (a + b)[0] == a[0];
      assert (a + b)[1..] == a[1..] + b;
      assert rest[ShatterDraws(|a| - 1)..] == d[ShatterDraws(|a|)..];
      calc {
        Bursts(a + b, d);
        first + Bursts(a[1..] + b, rest);
        { BurstsAppend(a[1..], b, rest); }
        first + (Bursts(a[1..], rest) + Bursts(b, d[ShatterDraws(|a|)..]));
        (first + Bursts(a[1..], rest)) + Bursts(b, d[ShatterDraws(|a|)..]);
        Bursts(a, d) + Bursts(b, d[ShatterDraws(|a|)..]);
      }
    }
  }

  /** Every mini-heart pushed at a spot is fresh at that spot. */
  lemma {:induction false} BurstsFresh(ps: seq<(real, real)>, d: seq<real>, x: real, y: real)
    requires |d| >= ShatterDraws(|ps|) && AllUnit(d)
    requires forall i :: 0 <= i < |ps| ==> ps[i] == (x, y)
    ensures forall i :: 0 <= i < |Bursts(ps, d)| ==> FreshFragment(Bursts(ps, d)[i], x, y)
    decreases |ps|
  {
    if |ps| > 0 {
      BurstsFresh(ps[1..], d[ShatterDraws(1)..], x, y);
      assert ps[0] == (x, y);
    }
  }

  /** Mini-heart i of the bursts at the spots `ps` is fresh at spot i / 8:
      each spot's eight come together, in spot order. */
  lemma {:induction false} BurstsAt(ps: seq<(real, real)>, d: seq<real>)
    requires |d| >= ShatterDraws(|ps|) && AllUnit(d)
    ensures forall i :: 0 <= i < |Bursts(ps, d)| ==>
              FreshFragment(Bursts(ps, d)[i], ps[i / 8].0, ps[i / 8].1)
    decreases |ps|
  {
    if |ps| > 0 {
      var rest := ps[1..];
      BurstsAt(rest, d[ShatterDraws(1)..]);
      var b := Burst(ps[0].0, ps[0].1, d);
      var r := Bursts(rest, d[ShatterDraws(1)..]);
      assert Bursts(ps, d) == b + r;
      forall i | 0 <= i < |Bursts(ps, d)|
        ensures FreshFragment(Bursts(ps, d)[i], ps[i / 8].0, ps[i / 8].1)
      {
        if i >= 8 {
          assert Bursts(ps, d)[i] == r[i - 8];
          assert (i - 8) / 8 + 1 == i / 8;
          assert rest[(i - 8) / 8] == ps[i / 8];
        }
      }
    }
  }

  /** Every mini-heart a shatter pushes starts live with its full lifetime. */
  lemma {:induction false} BurstsLive(ps: seq<(real, real)>, d: seq<real>)
    requires |d| >= ShatterDraws(|ps|) && AllUnit(d)
    ensures forall i :: 0 <= i < |Bursts(ps, d)| ==>
              LiveMini(Bursts(ps, d)[i]) && Bursts(ps, d)[i].ttl == MiniLife
    decreases |ps|
  {
    if |ps| > 0 {
      BurstsLive(ps[1..], d[ShatterDraws(1)..]);
      var b := Burst(ps[0].0, ps[0].1, d);
      assert forall i :: 0 <= i < |b| ==> LiveMini(b[i]);
    }
  }

  /** The mini-hearts one Heart.prototype.update pushes, drawing from `d` in order:
      eight at the heart's position per shatter. */
  function HeartFragments(h: Heart, width: real, groundLine: real, d: seq<real>): (f: seq<MiniHeart>)
    requires |d| >= ShatterDraws(Shatters(h, width, groundLine)) && AllUnit(d)
    ensures |f| == Fragments(Shatters(h, width, groundLine))
    ensures forall i :: 0 <= i < |f| ==> FreshFragment(f[i], h.x, h.y)
  {
    var ps := ShatterSpots(h, width, groundLine);
    BurstsFresh(ps, d, h.x, h.y);
    Bursts(ps, d)
  }

  /** A heart the render loop splices out: exact equality, as in the script. */
  predicate Spent(h: Heart) { h.size == 0.0 }

  /** The updates and the removal test, as values for the sweep of module Sweep. */
  function HeartUpdate(width: real, groundLine: real): Heart -> Heart {
    h => HeartStep(h, width, groundLine)
  }

  function HeartGone(): Heart -> bool {
    h => Spent(h)
  }

  /** Sizes a falling heart can have: 12 minus a whole number of shatters. */
  function LadderSize(m: nat): real {
    SpawnSize - ShatterLoss * m as real
  }

  /** What holds of every heart in the falling-hearts list. */
  ghost predicate LiveHeart(h: Heart) {
    h.size != 0.0
    && (exists m: nat :: h.size == LadderSize(m))
    && h.friction == HeartFriction && h.gravity == HeartGravity
  }

  ghost predicate AllLiveHearts(hs: seq<Heart>) {
    forall i :: 0 <= i < |hs| ==> LiveHeart(hs[i])
  }

  // ---------------------------------------------------------------- mini-hearts

  /** The mini-heart after one MiniHeart.prototype.update. */
  function MiniStep(m: MiniHeart, groundLine: real): (r: MiniHeart)
    ensures r.ttl == m.ttl - 1 && r.vx == m.vx
    ensures r.size == m.size && r.friction == m.friction && r.gravity == m.gravity
  {
    var bounced := if m.y + m.size + m.vy > groundLine then m.(vy := -m.vy * m.friction)
                   else m.(vy := m.vy + m.gravity);
    var moved := bounced.(x := bounced.x + bounced.vx, y := bounced.y + bounced.vy);
    var aged := moved.(ttl := moved.ttl - 1);
    aged.(opacity := aged.opacity - FadeRate * aged.ttl as real)
  }

  predicate Expired(m: MiniHeart) { m.ttl == 0 }

  function MiniUpdate(groundLine: real): MiniHeart -> MiniHeart {
    m => MiniStep(m, groundLine)
  }

  function MiniGone(): MiniHeart -> bool {
    m => Expired(m)
  }

  /** The opacity of a mini-heart whose ttl has counted down from 100 to `ttl`. */
  function Fade(ttl: int): real
    requires 0 <= ttl <= MiniLife
    decreases MiniLife - ttl
  {
    if ttl == MiniLife then 1.0 else Fade(ttl + 1) - FadeRate * ttl as real
  }

  /** What holds of every mini-heart in the mini-hearts list. */
  predicate LiveMini(m: MiniHeart) {
    1 <= m.ttl <= MiniLife && m.opacity == Fade(m.ttl)
    && m.size == MiniSize && m.friction == MiniFriction && m.gravity == MiniGravity
  }

  predicate AllLiveMinis(ms: seq<MiniHeart>) {
    forall i :: 0 <= i < |ms| ==> LiveMini(ms[i])
  }

  // ---------------------------------------------------------------- lemmas

  /** Ground branch: a bounce reverses and damps vy and shatters once; otherwise gravity adds 1. */
  lemma GroundRule(h: Heart, width: real, groundLine: real)
    requires h.friction == HeartFriction && h.gravity == HeartGravity
    ensures HitsGround(h, groundLine) ==>
              HeartStep(h, width, groundLine).vy == -h.vy * 0.8
              && Shatters(h, width, groundLine) >= 1
    ensures !HitsGround(h, groundLine) ==>
              HeartStep(h, width, groundLine).vy == h.vy + 1.0
              && Shatters(h, width, groundLine) <= 1
  {
  }

  /** Side branch: tested on the heart the ground branch left (its size,
      its unchanged vx); a hit reverses and damps vx and shatters once more. */
  lemma SideRule(h: Heart, width: real, groundLine: real)
    requires h.friction == HeartFriction
    ensures var h1 := AfterGround(h, groundLine);
            h1.x == h.x && h1.vx == h.vx
            && h1.size == (if HitsGround(h, groundLine) then h.size - 3.0 else h.size)
            && HeartStep(h, width, groundLine).vx == (if HitsSide(h1, width) then -h.vx * 0.8 else h.vx)
  {
  }

  /** Position integrates after the velocity update. */
  lemma HeartIntegrates(h: Heart, width: real, groundLine: real)
    ensures var h' := HeartStep(h, width, groundLine);
            h'.x == h.x + h'.vx && h'.y == h.y + h'.vy
  {
  }

  /** Each shatter costs exactly 3 of size and yields exactly 8 mini-hearts at the heart's position. */
  lemma ShatterAccounting(h: Heart, width: real, groundLine: real, d: seq<real>)
    requires |d| >= ShatterDraws(2) && AllUnit(d)
    ensures var n := Shatters(h, width, groundLine);
            HeartStep(h, width, groundLine).size == h.size - 3.0 * n as real
            && |HeartFragments(h, width, groundLine, d)| == 8 * n
  {
  }

  /** Both branches can fire in one update: size drops by 6 and 16 mini-hearts appear. */
  lemma DoubleShatter(h: Heart, width: real, groundLine: real, d: seq<real>)
    requires |d| >= ShatterDraws(2) && AllUnit(d)
    requires HitsGround(h, groundLine) && HitsSide(AfterGround(h, groundLine), width)
    ensures HeartStep(h, width, groundLine).size == h.size - 6.0
    ensures |HeartFragments(h, width, groundLine, d)| == 16
  {
  }

  /** One update keeps a falling heart on the size ladder with its constants,
      so the only way out of the list is the exact `size == 0` test. */
  lemma HeartStepKeepsLive(h: Heart, width: real, groundLine: real)
    requires LiveHeart(h)
    requires !Spent(HeartStep(h, width, groundLine))
    ensures LiveHeart(HeartStep(h, width, groundLine))
  {
    var m: nat :| h.size == LadderSize(m);
    var n := Shatters(h, width, groundLine);
    assert HeartStep(h, width, groundLine).size == LadderSize(m + n);
  }

  /** Mini-heart update: bounce off the ground only, move, age by one, fade by 0.0001 * new ttl;
      vx, size and the constants never change, and no shatter is involved. */
  lemma MiniRules(m: MiniHeart, groundLine: real)
    ensures var m' := MiniStep(m, groundLine);
            m'.ttl == m.ttl - 1
            && m'.opacity == m.opacity - 0.0001 * m'.ttl as real
            && m'.vx == m.vx
            && m'.vy == (if m.y + m.size + m.vy > groundLine then -m.vy * m.friction else m.vy + m.gravity)
            && m'.x == m.x + m'.vx && m'.y == m.y + m'.vy
            && m'.size == m.size && m'.friction == m.friction && m'.gravity == m.gravity
  {
  }

  /** One update keeps a surviving mini-heart live: its opacity stays Fade(ttl). */
  lemma MiniStepKeepsLive(m: MiniHeart, groundLine: real)
    requires LiveMini(m)
    requires !Expired(MiniStep(m, groundLine))
    ensures LiveMini(MiniStep(m, groundLine))
  {
  }

  /** Closed form of the fade: the sum of the ttl values 99 down to `ttl`. */
  lemma {:induction false} FadeClosedForm(ttl: int)
    requires 0 <= ttl <= MiniLife
    ensures Fade(ttl) == 1.0 - FadeRate * ((100 - ttl) * (99 + ttl)) as real / 2.0
    decreases MiniLife - ttl
  {
    if ttl < MiniLife {
      FadeClosedForm(ttl + 1);
      var here, next := (100 - ttl) * (99 + ttl), (100 - (ttl + 1)) * (99 + (ttl + 1));
      assert here == next + 2 * ttl;
      assert Fade(ttl) == 1.0 - FadeRate * next as real / 2.0 - FadeRate * ttl as real;
    }
  }

  /** A mini-heart's opacity never leaves [0.505, 1] over its whole life. */
  lemma {:induction false} FadeBounds(ttl: int)
    requires 0 <= ttl <= MiniLife
    ensures 0.505 <= Fade(ttl) <= 1.0
    decreases ttl
  {
    if ttl == 0 {
      FadeClosedForm(0);
    } else {
      FadeBounds(ttl - 1);
      FadeUpper(ttl);
    }
  }

  lemma {:induction false} FadeUpper(ttl: int)
    requires 0 <= ttl <= MiniLife
    ensures Fade(ttl) <= 1.0
    decreases MiniLife - ttl
  {
    if ttl < MiniLife {
      FadeUpper(ttl + 1);
    }
  }

  /** A heart left alone for n updates. */
  function Fall(h: Heart, width: real, groundLine: real, n: nat): Heart
  {
    if n == 0 then h else HeartStep(Fall(h, width, groundLine, n - 1), width, groundLine)
  }

  /** The closed form of k quiet updates of h: vy grows by k * gravity, x by
      k * vx, and y by k * vy + gravity * k(k+1)/2; nothing else changes. */
  predicate ClosedFall(h: Heart, f: Heart, k: real) {
    f.vy == h.vy + k * h.gravity
    && f.y == h.y + k * h.vy + h.gravity * k * (k + 1.0) / 2.0
    && f.x == h.x + k * h.vx
    && f.vx == h.vx && f.size == h.size && f.gravity == h.gravity
  }

  /** Gravity integration: a heart with no contact for n updates follows the closed form. */
  lemma {:induction false} FreeFall(h: Heart, width: real, groundLine: real, n: nat)
    requires forall i :: 0 <= i < n ==> Shatters(Fall(h, width, groundLine, i), width, groundLine) == 0
    ensures ClosedFall(h, Fall(h, width, groundLine, n), n as real)
  {
    if n > 0 {
      FreeFall(h, width, groundLine, n - 1);
      var p := Fall(h, width, groundLine, n - 1);
      assert Shatters(p, width, groundLine) == 0;
      QuietStep(p, width, groundLine);
      OneMoreQuietStep(h, p, HeartStep(p, width, groundLine), (n - 1) as real, n as real);
    } else {
      ZeroSteps(h);
    }
  }

  lemma ZeroSteps(h: Heart)
    ensures ClosedFall(h, h, 0.0)
  {
  }

  /** An update with no contact: gravity, then integration, nothing else. */
  lemma QuietStep(h: Heart, width: real, groundLine: real)
    requires Shatters(h, width, groundLine) == 0
    ensures HeartStep(h, width, groundLine)
            == h.(vy := h.vy + h.gravity, x := h.x + h.vx, y := h.y + h.vy + h.gravity)
  {
  }

  /** The closed form after k quiet updates gives the closed form after k + 1. */
  lemma OneMoreQuietStep(h: Heart, p: Heart, f: Heart, k: real, next: real)
    requires next == k + 1.0
    requires ClosedFall(h, p, k)
    requires f == p.(vy := p.vy + p.gravity, x := p.x + p.vx, y := p.y + p.vy + p.gravity)
    ensures ClosedFall(h, f, next)
  {
    FallSum(h.y, h.x, h.vy, h.vx, h.gravity, k, next);
  }

  /** The arithmetic of one more quiet update. */
  lemma FallSum(y: real, x: real, vy: real, vx: real, g: real, k: real, next: real)
    requires next == k + 1.0
    ensures (vy + k * g) + g == vy + next * g
    ensures (x + k * vx) + vx == x + next * vx
    ensures (y + k * vy + g * k * (k + 1.0) / 2.0) + (vy + k * g) + g
            == y + next * vy + g * next * (next + 1.0) / 2.0
  {
    assert next * g == k * g + g;
    assert next * vx == k * vx + vx;
    assert next * vy == k * vy + vy;
    assert g * next * (next + 1.0) == g * k * (k + 1.0) + 2.0 * k * g + 2.0 * g;
  }

  /** Exact equality in the prune: a heart whose size went below zero (a double
      shatter at size 3 reaches -3) keeps a negative size forever, so it is never removed. */
  lemma {:induction false} NegativeStaysNegative(h: Heart, width: real, groundLine: real, n: nat)
    requires h.size < 0.0
    ensures Fall(h, width, groundLine, n).size < 0.0
    ensures !Spent(Fall(h, width, groundLine, n))
  {
    if n > 0 {
      NegativeStaysNegative(h, width, groundLine, n - 1);
    }
  }

  /** A concrete double shatter at size 3: ground and right wall in the same update. */
  lemma SizeThreeDoubleShatter()
    ensures var h := Heart(99.5, 500.0, 3.0, "#FFD1DC", 1.0, 3.0, HeartFriction, HeartGravity);
            Shatters(h, 100.0, 505.0) == 2
            && HeartStep(h, 100.0, 505.0).size == -3.0
            && !Spent(HeartStep(h, 100.0, 505.0))
  {
  }
}
