/**
 * The firmware's animation logic around the wander generator: picking a
 * random target inside the inset rectangle, rasterizing the beetle sprite
 * around a centre point, and the frame-tick step of the main loop that
 * either draws the next point of the current walk or starts a new walk.
 *
 * The random generator is an abstract source of 64-bit draws, passed in as
 * values; the display is the outcome of each pixel write, passed in as a
 * function from pixel to outcome.
 */
module Beetle {
  import opened Wrappers
  import opened Wander

  const ScreenWidth: int := 128
  const ScreenHeight: int := 64
  const SpriteSize: int := 32
  /** Half the sprite's edge: sprite centres stay this far inside the screen. */
  const Inset: int := SpriteSize / 2

  type U64 = n: int | 0 <= n < 0x1_0000_0000_0000_0000
  type Byte = n: int | 0 <= n < 0x100

  /** One set pixel of the sprite bitmap, relative to the bitmap's top-left corner. */
  type Offset = (Byte, Byte)

  /** The bitmap's offsets all fall inside the 32x32 sprite square. */
  predicate SpriteMap(bitmap: seq<Offset>) {
    forall i :: 0 <= i < |bitmap| ==> bitmap[i].0 < SpriteSize && bitmap[i].1 < SpriteSize
  }

  predicate OnScreen(p: Point) {
    0 <= p.0 < ScreenWidth && 0 <= p.1 < ScreenHeight
  }

  /** The rectangle of centres at which the whole sprite is on screen. */
  predicate InInset(p: Point) {
    Inset <= p.0 < ScreenWidth - Inset && Inset <= p.1 < ScreenHeight - Inset
  }

  /** Rust's `as i32` on a non-negative integer: keep the low 32 bits, read as two's complement. */
  function AsI32(n: nat): (r: int)
    ensures -0x8000_0000 <= r < 0x8000_0000
    ensures n < 0x8000_0000 ==> r == n
  {
    var low := n % 0x1_0000_0000;
    if low < 0x8000_0000 then low else low - 0x1_0000_0000
  }

  /**
   * The target picker, given the generator's next two draws: reduce each
   * modulo the inset-reduced screen dimension and shift it by the inset.
   */
  function RandomTarget(r1: U64, r2: U64): (t: Point)
    ensures InInset(t)
    ensures t == (r1 % 96 + 16, r2 % 32 + 16)
  {
    var width := ScreenWidth - SpriteSize;
    var height := ScreenHeight - SpriteSize;
    var x := r1 % width;
    var y := r2 % height;
    (AsI32(x + Inset), AsI32(y + Inset))
  }

  /** Every centre in the inset rectangle is a possible target. */
  lemma TargetCoversInset(p: Point)
    requires InInset(p)
    ensures RandomTarget(p.0 - Inset, p.1 - Inset) == p
  {
  }

  /** Scenario: a generator that always yields 0 picks the top-left inset corner. */
  lemma ZeroDrawsTarget()
    ensures RandomTarget(0, 0) == (Inset, Inset)
  {
  }

  /** The pixels of the sprite centred on (cx, cy), in bitmap order. */
  function SpritePixels(cx: int, cy: int, bitmap: seq<Offset>): (pixels: seq<Point>)
    ensures |pixels| == |bitmap|
  {
    seq(|bitmap|, i requires 0 <= i < |bitmap| => (cx - Inset + bitmap[i].0, cy - Inset + bitmap[i].1))
  }

  /** Every sprite pixel lies in the 32x32 square centred on (cx, cy). */
  lemma SpriteCentered(cx: int, cy: int, bitmap: seq<Offset>)
    requires SpriteMap(bitmap)
    ensures forall p :: p in SpritePixels(cx, cy, bitmap) ==>
      cx - Inset <= p.0 < cx + Inset && cy - Inset <= p.1 < cy + Inset
  {
    var pixels := SpritePixels(cx, cy, bitmap);
    forall p | p in pixels ensures cx - Inset <= p.0 < cx + Inset && cy - Inset <= p.1 < cy + Inset {
      var i :| 0 <= i < |pixels| && pixels[i] == p;
    }
  }

  /** A sprite centred in the inset rectangle is wholly on screen: nothing is clipped. */
  lemma SpriteOnScreen(c: Point, bitmap: seq<Offset>)
    requires InInset(c) && SpriteMap(bitmap)
    ensures forall p :: p in SpritePixels(c.0, c.1, bitmap) ==> OnScreen(p)
  {
    SpriteCentered(c.0, c.1, bitmap);
  }

  /**
   * Writes the sprite centred on (centerX, centerY), one pixel at a time in
   * bitmap order, stopping at the first write the display rejects. Returns the
   * writes attempted, in order, and the outcome.
   */
  method Draw<E>(setPixel: Point -> Outcome<E>, centerX: int, centerY: int, bitmap: seq<Offset>)
    returns (writes: seq<Point>, res: Outcome<E>)
    ensures |writes| <= |bitmap|
    ensures writes == SpritePixels(centerX, centerY, bitmap)[..|writes|]
    ensures res.Pass? <==> forall p :: p in SpritePixels(centerX, centerY, bitmap) ==> setPixel(p).Pass?
    ensures res.Pass? ==> writes == SpritePixels(centerX, centerY, bitmap)
    ensures res.Fail? ==> writes != [] && res == setPixel(writes[|writes| - 1])
    ensures forall i :: 0 <= i < |writes| - 1 ==> setPixel(writes[i]).Pass?
  {
    ghost var pixels := SpritePixels(centerX, centerY, bitmap);
    var offsetX := centerX - Inset;
    var offsetY := centerY - Inset;
    writes := [];
    var i := 0;
    while i < |bitmap|
      invariant 0 <= i <= |bitmap|
      invariant writes == pixels[..i]
      invariant forall j :: 0 <= j < i ==> setPixel(pixels[j]).Pass?
    {
      var p := (offsetX + bitmap[i].0, offsetY + bitmap[i].1);
      writes := writes + [p];
      var outcome := setPixel(p);
      if outcome.Fail? {
        assert pixels[i] == p;
        return writes, outcome;
      }
      i := i + 1;
    }
    res := Pass;
  }

  /** What one frame tick did. */
  datatype Tick<E> =
    | Respawned                                 // the walk was exhausted: a new one began, nothing drawn
    | Rendered(writes: seq<Point>)               // the sprite was drawn at the walk's next point
    | Faulted(writes: seq<Point>, error: E)      // a pixel write failed; the firmware then halts

  /**
   * t is what drawing the sprite centred on c yields when the display answers
   * each pixel write with setPixel: every pixel written and Rendered when all
   * writes succeed, otherwise Faulted with the writes up to and including the
   * first failing one, and that write's error.
   */
  ghost predicate DrewSpriteAt<E>(t: Tick<E>, c: Point, sprite: seq<Offset>, setPixel: Point -> Outcome<E>) {
    var pixels := SpritePixels(c.0, c.1, sprite);
    && !t.Respawned?
    && (t.Rendered? <==> forall p :: p in pixels ==> setPixel(p).Pass?)
    && (t.Rendered? ==> t.writes == pixels)
    && (t.Faulted? ==>
          && 0 < |t.writes| <= |pixels| && t.writes == pixels[..|t.writes|]
          && setPixel(t.writes[|t.writes| - 1]) == Fail(t.error)
          && forall i :: 0 <= i < |t.writes| - 1 ==> setPixel(t.writes[i]).Pass?)
  }

  /**
   * The drawing half of a frame tick: draw the sprite centred on c, and treat
   * a failed write as fatal. A centre in the inset rectangle keeps every write
   * on screen.
   */
  method RenderFrame<E>(setPixel: Point -> Outcome<E>, c: Point, sprite: seq<Offset>) returns (t: Tick<E>)
    requires InInset(c) && SpriteMap(sprite)
    ensures DrewSpriteAt(t, c, sprite, setPixel)
    ensures forall p :: p in t.writes ==> OnScreen(p)
  {
    SpriteOnScreen(c, sprite);
    var writes, res := Draw(setPixel, c.0, c.1, sprite);
    assert forall p :: p in writes ==> p in SpritePixels(c.0, c.1, sprite);
    t := if res.Pass? then Rendered(writes) else Faulted(writes, res.error);
  }

  /**
   * The main loop's state: the current position, the current target and the
   * walk between them.
   */
  class Animation {
    var x: int
    var y: int
    var target: Point
    var wanderer: Wanderer
    const sprite: seq<Offset>

    ghost predicate Valid()
      reads this, wanderer
    {
      && wanderer.Valid()
      && SpriteMap(sprite)
      && InInset((x, y)) && InInset(target)
      && wanderer.startX == x && wanderer.startY == y
      && wanderer.destX == target.0 && wanderer.destY == target.1
    }

    /** The loop's set-up: position (16, 16), a first target, and a walk towards it. */
    constructor (r1: U64, r2: U64, sprite: seq<Offset>)
      requires SpriteMap(sprite)
      ensures Valid()
      ensures (x, y) == (Inset, Inset) && target == RandomTarget(r1, r2)
      ensures this.sprite == sprite
      ensures fresh(wanderer) && wanderer.progress == 0
      ensures wanderer.Remaining() == Trajectory(Inset, Inset, target.0, target.1)
    {
      this.sprite := sprite;
      var t := RandomTarget(r1, r2);
      target := t;
      x, y := 16, 16;
      wanderer := new Wanderer(16, 16, t.0, t.1);
    }

    /**
     * One frame tick. If the walk has a next point, the sprite is drawn there
     * and the position is left as it is; otherwise the position snaps to the
     * target, a new target is picked from the draws r1 and r2, and a new walk
     * starts from the old target, with nothing drawn.
     */
    method FrameTick<E>(r1: U64, r2: U64, setPixel: Point -> Outcome<E>) returns (t: Tick<E>)
      requires Valid()
      modifies this, wanderer
      ensures Valid()
      ensures old(wanderer.Remaining()) != [] ==>
        && wanderer == old(wanderer)
        && (x, y) == old((x, y)) && target == old(target)
        && wanderer.Remaining() == old(wanderer.Remaining())[1..]
        && DrewSpriteAt(t, old(wanderer.Remaining())[0], sprite, setPixel)
        && forall p :: p in t.writes ==> OnScreen(p)
      ensures old(wanderer.Remaining()) == [] ==>
        && t == Respawned
        && old(wanderer).progress == old(wanderer.progress)
        && (x, y) == old(target) && target == RandomTarget(r1, r2)
        && fresh(wanderer) && wanderer.progress == 0
        && wanderer.Remaining() == Trajectory(x, y, target.0, target.1)
    {
      ghost var path := Trajectory(x, y, target.0, target.1);
      var next := wanderer.Next();
      match next {
        case Some(c) =>
          WanderStaysInset((x, y), target);
          assert c in path;
          t := RenderFrame(setPixel, c, sprite);
        case None =>
          x, y := target.0, target.1;
          target := RandomTarget(r1, r2);
          wanderer := new Wanderer(x, y, target.0, target.1);
          t := Respawned;
      }
    }
  }

  /** Every point of a walk between two centres of the inset rectangle is itself such a centre. */
  lemma WanderStaysInset(s: Point, d: Point)
    requires InInset(s) && InInset(d)
    ensures forall p :: p in Trajectory(s.0, s.1, d.0, d.1) ==> InInset(p)
  {
    Containment(s.0, s.1, d.0, d.1);
  }
}
