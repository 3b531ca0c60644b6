/**
 * The scene driver of the falling-hearts animation: the four particle lists,
 * the tick counter and the spawn interval, the initialisation that fills the
 * background, and the non-drawing half of one animation frame.
 *
 * The script keeps this state in globals next to a canvas; here it is one
 * `Scene` object. The canvas size is the pair of fields `width` and `height`.
 * Every Math.random() result the script would draw is taken, in the order the
 * script draws it, from a `draws` parameter of reals in [0, 1).
 */
module Stars {
  import opened Particles
  import opened Sweep

  /** The bound at which the tick counter wraps back to 0 (`inf = 1e9`). */
  const Inf: int := 1000000000
  const InitialSpawnRate: int := 75
  const MinSpawnRate: int := 125
  const MaxSpawnRate: int := 200
  const SpawnY: real := -100.0
  const SpawnColor: string := "#FFD1DC"
  const BackgroundColor: string := "white"
  const BackgroundCount: nat := 200
  const RoseCount: nat := 50
  /** The first of the draws of decoration i: x, y, size, then the constructor's own draw. */
  function DecorationDraws(i: nat): nat { 4 * i }
  const InitDraws: nat := 1000
  /** Draws of one spawn: x, the new heart's vx, the new spawn rate. */
  const SpawnDraws: nat := 3
  const GroundFraction: real := 0.09

  function Max(a: real, b: real): real { if a >= b then a else b }

  // ---------------------------------------------------------------- ticker and spawning

  /** `ticker++; if (ticker >= inf) ticker = 0`. */
  function NextTicker(t: int): (r: int)
    requires 0 <= t < Inf
    ensures 0 <= r < Inf
    ensures r == (t + 1) % Inf
  {
    var u := t + 1;
    if u >= Inf then 0 else u
  }

  /** The tick counter after n frames from the start. */
  function TickerAfter(n: nat): (t: int)
    ensures 0 <= t < Inf
  {
    if n == 0 then 0 else NextTicker(TickerAfter(n - 1))
  }

  /** The counter counts frames modulo 1e9. */
  lemma {:induction false} TickerCounts(n: nat)
    ensures TickerAfter(n) == n % Inf
  {
    if n > 0 {
      TickerCounts(n - 1);
      WrapStep(n - 1);
    }
  }

  /** Counting on from a remainder modulo 1e9 is counting on, then taking the remainder. */
  lemma WrapStep(m: nat)
    ensures (m % Inf + 1) % Inf == (m + 1) % Inf
  {
    var q, r := m / Inf, m % Inf;
    assert m == q * Inf + r;
    if r + 1 < Inf {
      assert m + 1 == q * Inf + (r + 1);
    } else {
      assert m + 1 == (q + 1) * Inf;
    }
  }

  /** `Math.floor(Math.random() * (200 - 125 + 1) + 125)`. */
  function NextSpawnRate(r: real): (rate: int)
    requires IsUnit(r)
    ensures MinSpawnRate <= rate <= MaxSpawnRate
  {
    (r * (MaxSpawnRate - MinSpawnRate + 1) as real + MinSpawnRate as real).Floor
  }

  /** `Math.max(size, Math.random() * canvas.width - size)` with size 12. */
  function SpawnX(width: real, r: real): (x: real)
    requires IsUnit(r) && width >= 0.0
    ensures x >= SpawnSize
    ensures x == SpawnSize || x < width - SpawnSize
  {
    SpawnRoom(r, width);
    var right := r * width - SpawnSize;
    assert right >= SpawnSize ==> right < width - SpawnSize;
    Max(SpawnSize, right)
  }

  lemma SpawnRoom(r: real, width: real)
    requires IsUnit(r) && width >= 0.0
    ensures r * width - SpawnSize >= SpawnSize ==> r * width - SpawnSize < width - SpawnSize
  {
    UnitScale(r, width);
    if width == 0.0 {
      assert r * width == 0.0;
    }
  }

  /** The heart the scheduler appends: at y = -100, size 12, light pink. */
  function SpawnedHeart(width: real, rx: real, rv: real): (h: Heart)
    requires IsUnit(rx) && IsUnit(rv) && width >= 0.0
    ensures h.y == SpawnY && h.size == SpawnSize && h.x >= SpawnSize && h.color == SpawnColor
    ensures LiveHeart(h)
  {
    assert LadderSize(0) == SpawnSize;
    NewHeart(SpawnX(width, rx), SpawnY, SpawnSize, SpawnColor, rv)
  }

  /** A spawn clamped to x = 12 has x - size == 0, so its first update meets
      the left-wall test and shatters once, at y = -100, far above the ground line. */
  lemma ClampedSpawnShatters(width: real, rx: real, rv: real, groundLine: real)
    requires IsUnit(rx) && IsUnit(rv) && width >= 0.0
    requires rx * width - SpawnSize <= SpawnSize && groundLine >= 0.0
    ensures var h := SpawnedHeart(width, rx, rv);
            h.x == SpawnSize
            && Shatters(h, width, groundLine) == 1
            && ShatterSpots(h, width, groundLine) == [(SpawnSize, SpawnY)]
            && HeartStep(h, width, groundLine).size == SpawnSize - 3.0
  {
  }

  // ---------------------------------------------------------------- initialisation

  /** A coordinate inside [0, bound), or 0 on a canvas of size 0. */
  predicate Within(v: real, bound: nat) {
    0.0 <= v && (v < bound as real || v == 0.0)
  }

  /** A draw scaled by a non-negative bound stays between 0 and the bound. */
  lemma UnitScale(r: real, bound: real)
    requires IsUnit(r) && bound >= 0.0
    ensures 0.0 <= r * bound <= bound
    ensures bound > 0.0 ==> r * bound < bound
  {
    assert bound - r * bound == (1.0 - r) * bound;
  }

  lemma ScaledDraw(r: real, bound: nat)
    requires IsUnit(r)
    ensures Within(r * bound as real, bound)
  {
    UnitScale(r, bound as real);
  }

  /** 200 background hearts and 50 roses, each placed on a canvas of the given
      size, with the sizes and opacities `init` can draw. */
  predicate Backdrop(bg: seq<Heart>, roses: seq<Rose>, width: nat, height: nat) {
    |bg| == BackgroundCount && |roses| == RoseCount
    && (forall i :: 0 <= i < |bg| ==>
          Within(bg[i].x, width) && Within(bg[i].y, height) && 0.0 <= bg[i].size < 5.0)
    && (forall i :: 0 <= i < |roses| ==>
          Within(roses[i].x, width) && Within(roses[i].y, height)
          && 5.0 <= roses[i].size < 15.0 && 0.4 <= roses[i].opacity < 1.0)
  }

  /** The i-th background heart `init` pushes. */
  function BackgroundHeartAt(width: nat, height: nat, d: seq<real>, i: nat): (h: Heart)
    requires i < BackgroundCount && |d| == InitDraws && AllUnit(d)
    ensures Within(h.x, width) && Within(h.y, height)
    ensures 0.0 <= h.size < 5.0 && h.color == BackgroundColor
  {
    var o := DecorationDraws(i);
    ScaledDraw(d[o], width);
    ScaledDraw(d[o + 1], height);
    NewHeart(d[o] * width as real, d[o + 1] * height as real, d[o + 2] * 5.0, BackgroundColor, d[o + 3])
  }

  /** The i-th rose `init` pushes; its draws follow all the background hearts' draws. */
  function RoseAt(width: nat, height: nat, d: seq<real>, i: nat): (rose: Rose)
    requires i < RoseCount && |d| == InitDraws && AllUnit(d)
    ensures Within(rose.x, width) && Within(rose.y, height)
    ensures 5.0 <= rose.size < 15.0 && 0.4 <= rose.opacity < 1.0
  {
    var o := DecorationDraws(BackgroundCount + i);
    ScaledDraw(d[o], width);
    ScaledDraw(d[o + 1], height);
    NewRose(d[o] * width as real, d[o + 1] * height as real, d[o + 2] * 10.0 + 5.0, d[o + 3])
  }

  // ---------------------------------------------------------------- the hearts pass

  /** Where a heart's update shatters it, as a value the sweep of module Sweep can emit. */
  function HeartSpots(width: real, groundLine: real): Heart -> seq<(real, real)> {
    h => ShatterSpots(h, width, groundLine)
  }

  /** Where the hearts pass shatters, in order: the spots of every heart the
      pass visits; the heart that slides into a removed slot is not visited. */
  function FrameSpots(hs: seq<Heart>, width: real, groundLine: real): (r: seq<(real, real)>)
    ensures |hs| > 0 ==> |r| >= Shatters(hs[0], width, groundLine)
  {
    Emit(hs, HeartUpdate(width, groundLine), HeartGone(), HeartSpots(width, groundLine))
  }

  /** The most draws a hearts pass over n hearts can need. */
  function SweepDraws(n: nat): nat { 48 * n }

  /** Each visited heart shatters at most twice, so a pass over n hearts
      shatters at most 2n times. */
  lemma {:induction false} FrameSpotsBound(hs: seq<Heart>, width: real, groundLine: real)
    ensures |FrameSpots(hs, width, groundLine)| <= 2 * |hs|
    decreases |hs|
  {
    if |hs| > 0 {
      var here := ShatterSpots(hs[0], width, groundLine);
      if Spent(HeartStep(hs[0], width, groundLine)) {
        if |hs| > 1 {
          FrameSpotsBound(hs[2..], width, groundLine);
          assert FrameSpots(hs, width, groundLine) == here + FrameSpots(hs[2..], width, groundLine);
        }
      } else {
        FrameSpotsBound(hs[1..], width, groundLine);
        assert FrameSpots(hs, width, groundLine) == here + FrameSpots(hs[1..], width, groundLine);
      }
    }
  }

  /** The mini-hearts the hearts pass pushes, in push order, drawing from `d`. */
  function FrameFragments(hs: seq<Heart>, width: real, groundLine: real, d: seq<real>): (f: seq<MiniHeart>)
    requires |d| >= SweepDraws(|hs|) && AllUnit(d)
    ensures |f| <= 16 * |hs|
    ensures AllLiveMinis(f)
    ensures var spots := FrameSpots(hs, width, groundLine);
            |f| == Fragments(|spots|)
            && forall i :: 0 <= i < |f| ==> FreshFragment(f[i], spots[i / 8].0, spots[i / 8].1)
  {
    FrameSpotsBound(hs, width, groundLine);
    BurstsLive(FrameSpots(hs, width, groundLine), d);
    BurstsAt(FrameSpots(hs, width, groundLine), d);
    Bursts(FrameSpots(hs, width, groundLine), d)
  }

  /** The hearts loop's invariant before its callback at index k over the
      list `hs`: the list half (module Sweep), the spots shattered so far,
      the mini-hearts `ms` they pushed and the `used` draws they took. */
  ghost predicate HeartsLoop(h0: seq<Heart>, m0: seq<MiniHeart>, d: seq<real>, width: real, groundLine: real,
                             hs: seq<Heart>, ms: seq<MiniHeart>, k: nat, spots: seq<(real, real)>, used: nat)
    requires |d| >= SweepDraws(|h0|) && AllUnit(d)
  {
    FrameSpotsBound(h0, width, groundLine);
    && PassLoop(h0, hs, k, HeartUpdate(width, groundLine), HeartGone())
    && EmitLoop(h0, hs, k, HeartUpdate(width, groundLine), HeartGone(), HeartSpots(width, groundLine), spots)
    && used == ShatterDraws(|spots|)
    && ms == m0 + Bursts(spots, d)
  }

  /** One callback keeps the hearts loop's invariant, and the draws left
      cover the heart's shatters. */
  lemma HeartsLoopStep(h0: seq<Heart>, m0: seq<MiniHeart>, d: seq<real>, width: real, groundLine: real,
                       hs: seq<Heart>, ms: seq<MiniHeart>, k: nat, spots: seq<(real, real)>, used: nat)
    requires |d| >= SweepDraws(|h0|) && AllUnit(d)
    requires HeartsLoop(h0, m0, d, width, groundLine, hs, ms, k, spots, used) && k < |hs|
    ensures used + ShatterDraws(Shatters(hs[k], width, groundLine)) <= |d|
    ensures var here := ShatterSpots(hs[k], width, groundLine);
            HeartsLoop(h0, m0, d, width, groundLine, Visit(hs, k, HeartUpdate(width, groundLine), HeartGone()),
                       ms + HeartFragments(hs[k], width, groundLine, d[used..]), k + 1, spots + here,
                       used + ShatterDraws(|here|))
  {
    var here := ShatterSpots(hs[k], width, groundLine);
    FrameSpotsBound(h0, width, groundLine);
    PassLoopStep(h0, hs, k, HeartUpdate(width, groundLine), HeartGone());
    EmitLoopStep(h0, hs, k, HeartUpdate(width, groundLine), HeartGone(), HeartSpots(width, groundLine), spots);
    assert HeartSpots(width, groundLine)(hs[k]) == here;
    assert HeartFragments(hs[k], width, groundLine, d[used..]) == Bursts(here, d[used..]);
    BurstsStep(m0, d, spots, here);
  }

  /** The mini-hearts pushed so far, followed by the next heart's bursts, are
      the bursts of all spots so far. */
  lemma BurstsStep(m0: seq<MiniHeart>, d: seq<real>, spots: seq<(real, real)>, here: seq<(real, real)>)
    requires |d| >= ShatterDraws(|spots| + |here|) && AllUnit(d)
    ensures m0 + Bursts(spots + here, d) == (m0 + Bursts(spots, d)) + Bursts(here, d[ShatterDraws(|spots|)..])
  {
    BurstsAppend(spots, here, d);
  }

  /** When the hearts loop stops, it has done the whole pass. */
  lemma HeartsLoopDone(h0: seq<Heart>, m0: seq<MiniHeart>, d: seq<real>, width: real, groundLine: real,
                       hs: seq<Heart>, ms: seq<MiniHeart>, k: nat, spots: seq<(real, real)>, used: nat)
    requires |d| >= SweepDraws(|h0|) && AllUnit(d)
    requires HeartsLoop(h0, m0, d, width, groundLine, hs, ms, k, spots, used) && k >= |hs|
    ensures hs == Pass(h0, HeartUpdate(width, groundLine), HeartGone())
    ensures ms == m0 + FrameFragments(h0, width, groundLine, d)
    ensures used == ShatterDraws(|FrameSpots(h0, width, groundLine)|) <= SweepDraws(|h0|)
  {
    FrameSpotsBound(h0, width, groundLine);
    PassLoopDone(h0, hs, k, HeartUpdate(width, groundLine), HeartGone());
    EmitLoopDone(h0, hs, k, HeartUpdate(width, groundLine), HeartGone(), HeartSpots(width, groundLine), spots);
  }

  /** Appending a live heart keeps every heart live. */
  lemma SpawnKeepsLive(hs: seq<Heart>, h: Heart)
    requires AllLiveHearts(hs) && LiveHeart(h)
    ensures AllLiveHearts(hs + [h])
  {
    assert forall i :: 0 <= i < |hs| ==> (hs + [h])[i] == hs[i];
  }

  /** One frame keeps every falling heart on the size ladder and every
      mini-heart, old or just pushed, within its lifetime. */
  lemma FrameKeepsLive(hs: seq<Heart>, ms: seq<MiniHeart>, width: real, groundLine: real, d: seq<real>)
    requires |d| >= SweepDraws(|hs|) && AllUnit(d)
    requires AllLiveHearts(hs) && AllLiveMinis(ms)
    ensures AllLiveHearts(Pass(hs, HeartUpdate(width, groundLine), HeartGone()))
    ensures AllLiveMinis(Pass(ms + FrameFragments(hs, width, groundLine, d), MiniUpdate(groundLine), MiniGone()))
  {
    forall x | LiveHeart(x) && !HeartGone()(HeartUpdate(width, groundLine)(x))
      ensures LiveHeart(HeartUpdate(width, groundLine)(x))
    {
      HeartStepKeepsLive(x, width, groundLine);
    }
    PassKeeps(hs, HeartUpdate(width, groundLine), HeartGone(), h => LiveHeart(h));
    forall m | LiveMini(m) && !MiniGone()(MiniUpdate(groundLine)(m))
      ensures LiveMini(MiniUpdate(groundLine)(m))
    {
      MiniStepKeepsLive(m, groundLine);
    }
    var all := ms + FrameFragments(hs, width, groundLine, d);
    assert AllLiveMinis(all);
    PassKeeps(all, MiniUpdate(groundLine), MiniGone(), LiveMini);
  }

  // ---------------------------------------------------------------- the scene

  class Scene {
    var width: nat
    var height: nat
    /** 9% of the canvas height at load time; a resize does not recompute it. */
    const groundHeight: real
    var hearts: seq<Heart>
    var miniHearts: seq<MiniHeart>
    var roses: seq<Rose>
    var backgroundHearts: seq<Heart>
    var ticker: int
    var randomSpawnRate: int

    /** `canvas.height - groundHeight`, the line hearts and mini-hearts bounce on. */
    function GroundLine(): real
      reads this`height
    {
      height as real - groundHeight
    }

    /** 200 background hearts and 50 roses, all inside the canvas. */
    ghost predicate Decorated()
      reads this`backgroundHearts, this`roses, this`width, this`height
    {
      Backdrop(backgroundHearts, roses, width, height)
    }

    /** The background exactly as `init` builds it from `draws`. */
    ghost predicate Populated(draws: seq<real>)
      reads this`backgroundHearts, this`roses, this`width, this`height
      requires |draws| == InitDraws && AllUnit(draws)
    {
      |backgroundHearts| == BackgroundCount
      && (forall i :: 0 <= i < BackgroundCount ==>
            backgroundHearts[i] == BackgroundHeartAt(width, height, draws, i))
      && |roses| == RoseCount
      && (forall i :: 0 <= i < RoseCount ==> roses[i] == RoseAt(width, height, draws, i))
    }

    /** The counter in range and the spawn interval a value the script can hold. */
    ghost predicate Counted()
      reads this`ticker, this`randomSpawnRate
    {
      0 <= ticker < Inf
      && (randomSpawnRate == InitialSpawnRate || MinSpawnRate <= randomSpawnRate <= MaxSpawnRate)
    }

    /** Every falling heart on the size ladder and every mini-heart within its lifetime. */
    ghost predicate Live()
      reads this`hearts, this`miniHearts
    {
      AllLiveHearts(hearts) && AllLiveMinis(miniHearts)
    }

    /** The scene invariant: the counters, the background and the particles. */
    ghost predicate Valid()
      reads this`ticker, this`randomSpawnRate, this`hearts, this`miniHearts
      reads this`backgroundHearts, this`roses, this`width, this`height
    {
      Counted() && Decorated() && Live()
    }

    /** Loading the script: size the canvas, set the globals, run `init`. */
    constructor (width: nat, height: nat, draws: seq<real>)
      requires |draws| == InitDraws && AllUnit(draws)
      ensures Valid()
      ensures this.width == width && this.height == height
      ensures groundHeight == GroundFraction * height as real
      ensures ticker == 0 && randomSpawnRate == InitialSpawnRate
      ensures hearts == [] && miniHearts == []
      ensures Populated(draws)
    {
      this.width := width;
      this.height := height;
      groundHeight := GroundFraction * height as real;
      ticker := 0;
      randomSpawnRate := InitialSpawnRate;
      hearts := [];
      miniHearts := [];
      roses := [];
      backgroundHearts := [];
      new;
      Init(draws);
    }

    /** `init`: empty the four lists, then push 200 background hearts and 50 roses. */
    method Init(draws: seq<real>)
      requires |draws| == InitDraws && AllUnit(draws)
      modifies this`hearts, this`miniHearts, this`roses, this`backgroundHearts
      ensures hearts == [] && miniHearts == []
      ensures Populated(draws) && Decorated()
    {
      hearts := [];
      miniHearts := [];
      roses := [];
      backgroundHearts := [];

      var i := 0;
      while i < BackgroundCount
        invariant 0 <= i <= BackgroundCount
        invariant |backgroundHearts| == i
        invariant forall j :: 0 <= j < i ==> backgroundHearts[j] == BackgroundHeartAt(width, height, draws, j)
        invariant roses == [] && hearts == [] && miniHearts == []
      {
        var o := DecorationDraws(i);
        var x := draws[o] * width as real;
        var y := draws[o + 1] * height as real;
        var size := draws[o + 2] * 5.0;
        backgroundHearts := backgroundHearts + [NewHeart(x, y, size, BackgroundColor, draws[o + 3])];
        i := i + 1;
      }

      i := 0;
      while i < RoseCount
        invariant 0 <= i <= RoseCount
        invariant |roses| == i
        invariant forall j :: 0 <= j < i ==> roses[j] == RoseAt(width, height, draws, j)
        invariant |backgroundHearts| == BackgroundCount
        invariant forall j :: 0 <= j < BackgroundCount ==>
                    backgroundHearts[j] == BackgroundHeartAt(width, height, draws, j)
        invariant hearts == [] && miniHearts == []
      {
        var o := DecorationDraws(BackgroundCount + i);
        var x := draws[o] * width as real;
        var y := draws[o + 1] * height as real;
        var size := draws[o + 2] * 10.0 + 5.0;
        roses := roses + [NewRose(x, y, size, draws[o + 3])];
        i := i + 1;
      }
    }

    /** The resize listener: take the new window size and run `init` again.
        The ground height keeps its load-time value. */
    method Resize(width: nat, height: nat, draws: seq<real>)
      requires Valid()
      requires |draws| == InitDraws && AllUnit(draws)
      modifies this`width, this`height, this`hearts, this`miniHearts, this`roses, this`backgroundHearts
      ensures Valid()
      ensures this.width == width && this.height == height
      ensures hearts == [] && miniHearts == []
      ensures Populated(draws)
      ensures ticker == old(ticker) && randomSpawnRate == old(randomSpawnRate)
    {
      this.width := width;
      this.height := height;
      Init(draws);
    }

    /** Heart.prototype.shatter for heart `h`: shrink it by 3 and push eight
        mini-hearts at its position; existing mini-hearts are untouched. */
    method Shatter(h: Heart, d: seq<real>) returns (shrunk: Heart)
      requires |d| >= ShatterDraws(1) && AllUnit(d)
      modifies this`miniHearts
      ensures shrunk == h.(size := h.size - ShatterLoss)
      ensures miniHearts == old(miniHearts) + Burst(h.x, h.y, d)
    {
      shrunk := h.(size := h.size - ShatterLoss);
      var i := 0;
      while i < Fragments(1)
        invariant 0 <= i <= Fragments(1)
        invariant miniHearts == old(miniHearts) + Burst(h.x, h.y, d)[..i]
      {
        miniHearts := miniHearts + [Fragment(shrunk.x, shrunk.y, d, i)];
        i := i + 1;
      }
    }

    /** Heart.prototype.update for the heart at position k of the list. */
    method UpdateHeart(k: nat, d: seq<real>)
      requires k < |hearts|
      requires |d| >= ShatterDraws(Shatters(hearts[k], width as real, GroundLine())) && AllUnit(d)
      modifies this`hearts, this`miniHearts
      ensures hearts == old(hearts)[k := HeartStep(old(hearts)[k], width as real, GroundLine())]
      ensures miniHearts == old(miniHearts) + HeartFragments(old(hearts)[k], width as real, GroundLine(), d)
    {
      var h := hearts[k];
      ghost var h0, w, g := h, width as real, GroundLine();
      ghost var spots := ShatterSpots(h0, w, g);
      var used := 0;
      // the ground
      if h.y + h.size + h.vy > GroundLine() {
        h := h.(vy := -h.vy * h.friction);
        h := Shatter(h, d);
        used := ShatterDraws(1);
      } else {
        h := h.(vy := h.vy + h.gravity);
      }
      assert h == AfterGround(h0, g);
      // the side walls
      if h.x + h.size + h.vx > width as real || h.x - h.size <= 0.0 {
        h := h.(vx := -h.vx * h.friction);
        h := Shatter(h, d[used..]);
      }
      assert h == AfterSide(AfterGround(h0, g), w);
      assert Bursts(spots, d) == (if HitsGround(h0, g) then Burst(h0.x, h0.y, d) else [])
                                 + (if HitsSide(AfterGround(h0, g), w) then Burst(h0.x, h0.y, d[used..]) else []);
      h := h.(x := h.x + h.vx, y := h.y + h.vy);
      hearts := hearts[k := h];
    }

    /** MiniHeart.prototype.update for the mini-heart at position k of the list. */
    method UpdateMiniHeart(k: nat)
      requires k < |miniHearts|
      modifies this`miniHearts
      ensures miniHearts == old(miniHearts)[k := MiniStep(old(miniHearts)[k], GroundLine())]
    {
      var m := miniHearts[k];
      ghost var m0 := m;
      if m.y + m.size + m.vy > GroundLine() {
        m := m.(vy := -m.vy * m.friction);
      } else {
        m := m.(vy := m.vy + m.gravity);
      }
      m := m.(x := m.x + m.vx, y := m.y + m.vy);
      m := m.(ttl := m.ttl - 1);
      m := m.(opacity := m.opacity - FadeRate * m.ttl as real);
      assert m == MiniStep(m0, GroundLine());
      miniHearts := miniHearts[k := m];
    }

    /** The forEach callback over the hearts at index k: update the heart,
        then splice it out when its size is now exactly 0. */
    method VisitHeart(k: nat, d: seq<real>)
      requires k < |hearts|
      requires |d| >= ShatterDraws(Shatters(hearts[k], width as real, GroundLine())) && AllUnit(d)
      modifies this`hearts, this`miniHearts
      ensures hearts == Visit(old(hearts), k, HeartUpdate(width as real, GroundLine()), HeartGone())
      ensures miniHearts == old(miniHearts) + HeartFragments(old(hearts)[k], width as real, GroundLine(), d)
    {
      UpdateHeart(k, d);
      if hearts[k].size == 0.0 {
        hearts := hearts[..k] + hearts[k + 1..];
      }
    }

    /** `hearts.forEach(...)`: update each heart and splice out those whose size
        is now exactly 0. Returns how many draws the pushed mini-hearts used. */
    method UpdateHearts(draws: seq<real>) returns (used: nat)
      requires |draws| >= SweepDraws(|hearts|) && AllUnit(draws)
      modifies this`hearts, this`miniHearts
      ensures hearts == Pass(old(hearts), HeartUpdate(width as real, GroundLine()), HeartGone())
      ensures miniHearts == old(miniHearts) + FrameFragments(old(hearts), width as real, GroundLine(), draws)
      ensures used == ShatterDraws(|FrameSpots(old(hearts), width as real, GroundLine())|)
      ensures used <= SweepDraws(|old(hearts)|)
    {
      ghost var h0, m0 := hearts, miniHearts;
      var w, g := width as real, GroundLine();
      ghost var spots: seq<(real, real)> := [];
      var k := 0;
      used := 0;
      PassLoopStart(h0, HeartUpdate(w, g), HeartGone());
      EmitLoopStart(h0, HeartUpdate(w, g), HeartGone(), HeartSpots(w, g));
      // forEach visits index k while it is inside the list; nothing is pushed
      // onto the list during the pass, so the list only shrinks.
      while k < |hearts|
        invariant HeartsLoop(h0, m0, draws, w, g, hearts, miniHearts, k, spots, used)
        decreases |hearts| + 1 - k
      {
        var h := hearts[k];
        HeartsLoopStep(h0, m0, draws, w, g, hearts, miniHearts, k, spots, used);
        VisitHeart(k, draws[used..]);
        spots := spots + ShatterSpots(h, w, g);
        used := used + ShatterDraws(Shatters(h, w, g));
        k := k + 1;
      }
      HeartsLoopDone(h0, m0, draws, w, g, hearts, miniHearts, k, spots, used);
    }

    /** The forEach callback over the mini-hearts at index k: update the
        mini-heart, then splice it out when its ttl is now exactly 0. */
    method VisitMiniHeart(k: nat)
      requires k < |miniHearts|
      modifies this`miniHearts
      ensures miniHearts == Visit(old(miniHearts), k, MiniUpdate(GroundLine()), MiniGone())
    {
      UpdateMiniHeart(k);
      if miniHearts[k].ttl == 0 {
        miniHearts := miniHearts[..k] + miniHearts[k + 1..];
      }
    }

    /** `miniHearts.forEach(...)`: update each mini-heart and splice out those
        whose ttl is now exactly 0. */
    method UpdateMiniHearts()
      modifies this`miniHearts
      ensures miniHearts == Pass(old(miniHearts), MiniUpdate(GroundLine()), MiniGone())
    {
      ghost var m0 := miniHearts;
      var g := GroundLine();
      var k := 0;
      PassLoopStart(m0, MiniUpdate(g), MiniGone());
      while k < |miniHearts|
        invariant PassLoop(m0, miniHearts, k, MiniUpdate(g), MiniGone())
        decreases |miniHearts| + 1 - k
      {
        ghost var ms := miniHearts;
        VisitMiniHeart(k);
        PassLoopStep(m0, ms, k, MiniUpdate(g), MiniGone());
        k := k + 1;
      }
      PassLoopDone(m0, miniHearts, k, MiniUpdate(g), MiniGone());
    }

    /** `ticker++` and its wrap at 1e9. */
    method AdvanceTicker()
      requires 0 <= ticker < Inf
      modifies this`ticker
      ensures ticker == NextTicker(old(ticker))
    {
      ticker := ticker + 1;
      if ticker >= Inf {
        ticker := 0;
      }
    }

    /** The spawn branch of `animate`: push a light pink heart of size 12 at
        y = -100 and draw the next spawn interval. */
    method Spawn(d: seq<real>)
      requires |d| >= SpawnDraws && AllUnit(d)
      modifies this`hearts, this`randomSpawnRate
      ensures hearts == old(hearts) + [SpawnedHeart(width as real, d[0], d[1])]
      ensures randomSpawnRate == NextSpawnRate(d[2])
    {
      var x := SpawnX(width as real, d[0]);
      hearts := hearts + [NewHeart(x, SpawnY, SpawnSize, SpawnColor, d[1])];
      randomSpawnRate := NextSpawnRate(d[2]);
    }

    /** The tail of `animate`: advance the counter, and spawn when it is a
        multiple of the interval. The counter stays in range, the interval in
        its bounds and every heart live. */
    method Schedule(d: seq<real>)
      requires Counted() && Live() && |d| >= SpawnDraws && AllUnit(d)
      modifies this`hearts, this`ticker, this`randomSpawnRate
      ensures ticker == NextTicker(old(ticker))
      ensures var spawn := ticker % old(randomSpawnRate) == 0;
              && hearts == old(hearts) + (if spawn then [SpawnedHeart(width as real, d[0], d[1])] else [])
              && randomSpawnRate == (if spawn then NextSpawnRate(d[2]) else old(randomSpawnRate))
      ensures Counted() && Live()
    {
      AdvanceTicker();
      if ticker % randomSpawnRate == 0 {
        ghost var h1 := hearts;
        Spawn(d);
        SpawnKeepsLive(h1, SpawnedHeart(width as real, d[0], d[1]));
      }
    }

    /** The two forEach passes of `animate`: the hearts, then the mini-hearts,
        including the ones this frame's shatters pushed. Both keep every
        particle live. */
    method UpdateParticles(draws: seq<real>) returns (used: nat)
      requires |draws| >= SweepDraws(|hearts|) && AllUnit(draws)
      requires Live()
      modifies this`hearts, this`miniHearts
      ensures used == ShatterDraws(|FrameSpots(old(hearts), width as real, GroundLine())|)
      ensures used <= SweepDraws(|old(hearts)|)
      ensures hearts == Pass(old(hearts), HeartUpdate(width as real, GroundLine()), HeartGone())
      ensures miniHearts == Pass(old(miniHearts) + FrameFragments(old(hearts), width as real, GroundLine(), draws),
                                 MiniUpdate(GroundLine()), MiniGone())
      ensures Live()
    {
      ghost var h0, m0 := hearts, miniHearts;
      ghost var w, g := width as real, GroundLine();
      used := UpdateHearts(draws);
      UpdateMiniHearts();
      FrameKeepsLive(h0, m0, w, g, draws);
    }

    /** The state half of `animate`: the hearts pass, the mini-hearts pass
        (which also visits the mini-hearts this frame's shatters pushed), the
        counter, and the spawn of one heart when the counter is a multiple of
        the spawn interval, followed by a new interval. */
    method Tick(draws: seq<real>)
      requires Valid()
      requires |draws| >= SweepDraws(|hearts|) + SpawnDraws && AllUnit(draws)
      modifies this`hearts, this`miniHearts, this`ticker, this`randomSpawnRate
      ensures Valid()
      ensures ticker == NextTicker(old(ticker))
      ensures var w, g := width as real, GroundLine();
              var fragments := FrameFragments(old(hearts), w, g, draws);
              var c := ShatterDraws(|FrameSpots(old(hearts), w, g)|);
              var spawn := ticker % old(randomSpawnRate) == 0;
              && c + SpawnDraws <= |draws|
              && hearts == Pass(old(hearts), HeartUpdate(w, g), HeartGone())
                           + (if spawn then [SpawnedHeart(w, draws[c], draws[c + 1])] else [])
              && miniHearts == Pass(old(miniHearts) + fragments, MiniUpdate(g), MiniGone())
              && randomSpawnRate == (if spawn then NextSpawnRate(draws[c + 2]) else old(randomSpawnRate))
    {
      var used := UpdateParticles(draws);
      Schedule(draws[used..]);
    }
  }

  // ---------------------------------------------------------------- scenarios

  /** An 800 x 600 canvas after loading and one frame: no falling hearts and no
      mini-hearts yet (1 is not a multiple of 75), 200 background hearts, 50 roses. */
  method FirstFrame(initDraws: seq<real>, frameDraws: seq<real>)
    returns (hearts: nat, miniHearts: nat, backgroundHearts: nat, roses: nat)
    requires |initDraws| == InitDraws && AllUnit(initDraws)
    requires |frameDraws| >= SpawnDraws && AllUnit(frameDraws)
    ensures hearts == 0 && miniHearts == 0
    ensures backgroundHearts == BackgroundCount && roses == RoseCount
  {
    var scene := new Scene(800, 600, initDraws);
    scene.Tick(frameDraws);
    hearts, miniHearts := |scene.hearts|, |scene.miniHearts|;
    backgroundHearts, roses := |scene.backgroundHearts|, |scene.roses|;
  }

  /** With the initial interval of 75, frames 1 to 74 spawn nothing and frame 75
      spawns exactly one heart at y = -100 with size 12, then draws an interval in [125, 200]. */
  method FirstSpawn(initDraws: seq<real>, frameDraws: seq<real>)
    returns (heartsBefore: nat, first: Heart, heartsAfter: nat, rate: int)
    requires |initDraws| == InitDraws && AllUnit(initDraws)
    requires |frameDraws| >= SpawnDraws && AllUnit(frameDraws)
    ensures heartsBefore == 0 && heartsAfter == 1
    ensures first.y == SpawnY && first.size == SpawnSize && first.x >= SpawnSize
    ensures MinSpawnRate <= rate <= MaxSpawnRate
  {
    var scene := new Scene(800, 600, initDraws);
    var frame := 0;
    while frame < InitialSpawnRate - 1
      invariant 0 <= frame <= InitialSpawnRate - 1
      invariant scene.Valid()
      invariant scene.hearts == [] && scene.miniHearts == []
      invariant scene.ticker == frame && scene.randomSpawnRate == InitialSpawnRate
    {
      scene.Tick(frameDraws);
      frame := frame + 1;
    }
    heartsBefore := |scene.hearts|;
    scene.Tick(frameDraws);
    first, heartsAfter, rate := scene.hearts[0], |scene.hearts|, scene.randomSpawnRate;
  }
}
