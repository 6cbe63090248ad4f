// The animation state the scripts keep in globals, and the per-frame step of
// `main`: 8 rotated sectors, the core, then the sparkles, with the counters
// advanced around them.
module Scene {

  import opened Remap
  import opened Primitives
  import opened Sector
  import opened Sparkles

  /** `glRotatef(y_rotation * 57.2958, 0, 1, 0)`: the global rotation in degrees. */
  function Degrees(radians: real): real {
    radians * 57.2958
  }

  /** Sector copies 0 .. count-1, copy i rotated by i * 45 degrees about Z. */
  function Sectors(env: Numerics, frame: int, pulse: real, yDegrees: real, count: nat): seq<Draw> {
    if count == 0 then []
    else Sectors(env, frame, pulse, yDegrees, count - 1)
         + Place(yDegrees, (45 * (count - 1)) as real, SectorSpec(env, frame, pulse))
  }

  /** Every copy is the same sector, drawn under its own rotation. */
  lemma {:induction false} SectorsLayout(env: Numerics, frame: int, pulse: real, yDegrees: real, count: nat)
    ensures |Sectors(env, frame, pulse, yDegrees, count)| == SectorSize * count
    ensures forall n :: 0 <= n < |Sectors(env, frame, pulse, yDegrees, count)| ==>
              Sectors(env, frame, pulse, yDegrees, count)[n]
              == Draw(yDegrees, (45 * (n / SectorSize)) as real, SectorSpec(env, frame, pulse)[n % SectorSize])
  {
    SectorLayout(env, frame, pulse);
    if count > 0 {
      SectorsLayout(env, frame, pulse, yDegrees, count - 1);
      var before := Sectors(env, frame, pulse, yDegrees, count - 1);
      forall n | |before| <= n < |Sectors(env, frame, pulse, yDegrees, count)|
        ensures n / SectorSize == count - 1 && n % SectorSize == n - |before|
      {
      }
    }
  }

  /**
   * Everything one iteration of the main loop draws: the sector 8 times,
   * the core, then the sparkles that survive the tick.
   */
  function FrameDraws(env: Numerics, frame: int, pulse: real, yRotation: real,
                      sparkles: seq<Sparkle>, candidate: Sparkle): seq<Draw> {
    var yDegrees := Degrees(yRotation);
    Sectors(env, frame, pulse, yDegrees, 8)
    + [Draw(yDegrees, 0.0, CoreSphere(env, frame, pulse))]
    + Place(yDegrees, 0.0, Glints(Spawned(sparkles, candidate)))
  }

  /**
   * A frame holds 8 x 149 sector primitives (copy i rotated by i * 45 degrees
   * about Z), then the core, then one sphere per surviving sparkle, all under
   * the same Y rotation.
   */
  lemma FrameLayout(env: Numerics, frame: int, pulse: real, yRotation: real,
                    sparkles: seq<Sparkle>, candidate: Sparkle)
    ensures var d := FrameDraws(env, frame, pulse, yRotation, sparkles, candidate);
            var glints := Glints(Spawned(sparkles, candidate));
            var y := Degrees(yRotation);
            |d| == 8 * 149 + 1 + |glints|
            && (forall n :: 0 <= n < 8 * 149 ==>
                  d[n] == Draw(y, (45 * (n / 149)) as real, SectorSpec(env, frame, pulse)[n % 149]))
            && d[8 * 149] == Draw(y, 0.0, CoreSphere(env, frame, pulse))
            && (forall g :: 0 <= g < |glints| ==> d[8 * 149 + 1 + g] == Draw(y, 0.0, glints[g]))
  {
    var y := Degrees(yRotation);
    var secs := Sectors(env, frame, pulse, y, 8);
    var core := Draw(y, 0.0, CoreSphere(env, frame, pulse));
    var rest := Place(y, 0.0, Glints(Spawned(sparkles, candidate)));
    SectorsLayout(env, frame, pulse, y, 8);
    var d := FrameDraws(env, frame, pulse, yRotation, sparkles, candidate);
    assert d == secs + [core] + rest;
    assert |secs| == 8 * 149;
    assert forall n :: 0 <= n < |secs| ==> d[n] == secs[n];
  }

  /** Inside the window the pointer tunes both scalars within their ranges, hitting the ends at the edges. */
  lemma TuningRanges(width: int, height: int, px: int, py: int)
    requires 0 < width && 0 < height && 0 <= px <= width && 0 <= py <= height
    ensures 0.005 <= MapValue(px as real, 0.0, width as real, 0.005, 0.02) <= 0.02
    ensures 0.8 <= MapValue(py as real, 0.0, height as real, 0.8, 1.2) <= 1.2
    ensures MapValue(0.0, 0.0, width as real, 0.005, 0.02) == 0.005
    ensures MapValue(0.0, 0.0, height as real, 0.8, 1.2) == 0.8
    ensures MapValue(width as real, 0.0, width as real, 0.005, 0.02) == 0.02
    ensures MapValue(height as real, 0.0, height as real, 0.8, 1.2) == 1.2
  {
    MapValueMonotone(0.0, px as real, 0.0, width as real, 0.005, 0.02);
    MapValueMonotone(px as real, width as real, 0.0, width as real, 0.005, 0.02);
    MapValueMonotone(0.0, py as real, 0.0, height as real, 0.8, 1.2);
    MapValueMonotone(py as real, height as real, 0.0, height as real, 0.8, 1.2);
  }

  /** The sector loop of `main`: copy i drawn under `glRotatef(i * 45, 0, 0, 1)`. */
  method DrawSectors(env: Numerics, frame: int, pulse: real, yDegrees: real) returns (draws: seq<Draw>)
    ensures draws == Sectors(env, frame, pulse, yDegrees, 8)
  {
    draws := [];
    var i := 0;
    while i < 8
      invariant 0 <= i <= 8
      invariant draws == Sectors(env, frame, pulse, yDegrees, i)
    {
      var sector := DrawSector(env, frame, pulse);
      draws := draws + Place(yDegrees, (i * 45) as real, sector);
      i := i + 1;
    }
  }

  /**
   * The loop of `update_sparkles` over its copy `sparkles[:]`: each visited
   * sparkle's lifetime is decremented where it sits in the live list; an
   * expired one is removed from the list by value, a survivor is drawn and
   * then grown and its hue turned in place.
   */
  method AgingPass(snapshot: seq<Sparkle>) returns (live: seq<Sparkle>, glints: seq<Primitive>)
    ensures live == Aged(snapshot)
    ensures glints == Glints(snapshot)
  {
    live := snapshot;
    glints := [];
    var at := 0;  // where the sparkle being visited now sits in the live list
    var i := 0;
    while i < |snapshot|
      invariant 0 <= i <= |snapshot|
      invariant at == |Aged(snapshot[..i])|
      invariant live == Aged(snapshot[..i]) + snapshot[i..]
      invariant glints == Glints(snapshot[..i])
    {
      VisitAt(snapshot, i, live);
      var current := Decremented(live[at]);
      live := live[at := current];
      if current.lifetime <= 0.0 {
        VisitDrop(snapshot, i, live);
        live := RemoveFirst(live, current);
      } else {
        VisitKeep(snapshot, i, live);
        glints := glints + [Glint(current)];
        live := live[at := Grown(current)];
        at := at + 1;
      }
      i := i + 1;
    }
    assert snapshot[..|snapshot|] == snapshot;
  }

  /** `rotate_speed` after a series of pointer motions: set by the last one, unchanged when there is none. */
  function SpeedAfter(speed: real, width: int, motions: seq<(int, int)>): real
    requires 0 < width
  {
    if motions == [] then speed
    else MapValue(motions[|motions| - 1].0 as real, 0.0, width as real, 0.005, 0.02)
  }

  /** `pulse_factor` after a series of pointer motions: set by the last one, unchanged when there is none. */
  function PulseAfter(pulse: real, height: int, motions: seq<(int, int)>): real
    requires 0 < height
  {
    if motions == [] then pulse
    else MapValue(motions[|motions| - 1].1 as real, 0.0, height as real, 0.8, 1.2)
  }

  /** Motions delivered in two batches tune the scalars as the joined batch does. */
  lemma TuningAppend(speed: real, pulse: real, width: int, height: int, a: seq<(int, int)>, b: seq<(int, int)>)
    requires 0 < width && 0 < height
    ensures SpeedAfter(SpeedAfter(speed, width, a), width, b) == SpeedAfter(speed, width, a + b)
    ensures PulseAfter(PulseAfter(pulse, height, a), height, b) == PulseAfter(pulse, height, a + b)
  {
    if b == [] {
      assert a + b == a;
    } else {
      assert (a + b)[|a + b| - 1] == b[|b| - 1];
    }
  }

  /** The pointer motions delivered before one frame, and that frame's spawn candidate. */
  datatype TickInput = TickInput(motions: seq<(int, int)>, candidate: Sparkle)

  function Candidates(inputs: seq<TickInput>): seq<Sparkle> {
    seq(|inputs|, i requires 0 <= i < |inputs| => inputs[i].candidate)
  }

  /** One more frame of inputs: one more tick of the sparkles and its motions after the earlier ones. */
  lemma RunStep(s: seq<Sparkle>, inputs: seq<TickInput>, i: nat)
    requires i < |inputs|
    ensures Run(s, Candidates(inputs)[..i + 1]) == Sparkles.SparkleTick(Run(s, Candidates(inputs)[..i]), inputs[i].candidate)
    ensures AllMotions(inputs[..i + 1]) == AllMotions(inputs[..i]) + inputs[i].motions
  {
    assert Candidates(inputs)[..i + 1][..i] == Candidates(inputs)[..i];
    assert inputs[..i + 1][..i] == inputs[..i];
  }

  /** Every pointer motion of a run of frames, in delivery order. */
  function AllMotions(inputs: seq<TickInput>): (ms: seq<(int, int)>)
    decreases |inputs|
  {
    if inputs == [] then [] else AllMotions(inputs[..|inputs| - 1]) + inputs[|inputs| - 1].motions
  }

  /** The script's global state; the window size is fixed when it starts (800 x 800 or 1920 x 1080). */
  class Kaleidoscope {
    const width: int
    const height: int
    var rotateSpeed: real
    var pulseFactor: real
    var frameCount: int
    var yRotation: real
    var sparkles: seq<Sparkle>

    ghost predicate Valid()
      reads this
    {
      0 < width && 0 < height && 0 <= frameCount && |sparkles| <= Cap && AllLive(sparkles)
    }

    /** The globals as the script initialises them. */
    constructor (width: int, height: int)
      requires 0 < width && 0 < height
      ensures Valid()
      ensures this.width == width && this.height == height
      ensures rotateSpeed == 0.01 && pulseFactor == 1.0
      ensures frameCount == 0 && yRotation == 0.0 && sparkles == []
    {
      this.width := width;
      this.height := height;
      rotateSpeed := 0.01;
      pulseFactor := 1.0;
      frameCount := 0;
      yRotation := 0.0;
      sparkles := [];
    }

    /** A MOUSEMOTION event: x tunes `rotate_speed`, y tunes `pulse_factor`. */
    method PointerMoved(px: int, py: int)
      requires Valid()
      modifies this`rotateSpeed, this`pulseFactor
      ensures Valid()
      ensures rotateSpeed == MapValue(px as real, 0.0, width as real, 0.005, 0.02)
      ensures pulseFactor == MapValue(py as real, 0.0, height as real, 0.8, 1.2)
    {
      rotateSpeed := MapValue(px as real, 0.0, width as real, 0.005, 0.02);
      pulseFactor := MapValue(py as real, 0.0, height as real, 0.8, 1.2);
    }

    /** The pointer motions among the events of one frame, in order; the last one decides. */
    method HandleMotions(motions: seq<(int, int)>)
      requires Valid()
      modifies this`rotateSpeed, this`pulseFactor
      ensures Valid()
      ensures motions != [] ==>
                rotateSpeed == MapValue(motions[|motions| - 1].0 as real, 0.0, width as real, 0.005, 0.02)
                && pulseFactor == MapValue(motions[|motions| - 1].1 as real, 0.0, height as real, 0.8, 1.2)
      ensures motions == [] ==> rotateSpeed == old(rotateSpeed) && pulseFactor == old(pulseFactor)
      ensures rotateSpeed == SpeedAfter(old(rotateSpeed), width, motions)
      ensures pulseFactor == PulseAfter(old(pulseFactor), height, motions)
    {
      var e := 0;
      while e < |motions|
        invariant 0 <= e <= |motions| && Valid()
        invariant e > 0 ==>
                    rotateSpeed == MapValue(motions[e - 1].0 as real, 0.0, width as real, 0.005, 0.02)
                    && pulseFactor == MapValue(motions[e - 1].1 as real, 0.0, height as real, 0.8, 1.2)
        invariant e == 0 ==> rotateSpeed == old(rotateSpeed) && pulseFactor == old(pulseFactor)
      {
        PointerMoved(motions[e].0, motions[e].1);
        e := e + 1;
      }
    }

    /**
     * `update_sparkles`: maybe spawn one, then run the aging loop over a
     * copy of the list.
     */
    method UpdateSparkles(candidate: Sparkle) returns (glints: seq<Primitive>)
      requires Valid() && SpawnRanges(candidate)
      modifies this`sparkles
      ensures Valid()
      ensures sparkles == Sparkles.SparkleTick(old(sparkles), candidate)
      ensures glints == Glints(Spawned(old(sparkles), candidate))
    {
      TickPreservesLive(sparkles, candidate);
      if |sparkles| < Cap {
        sparkles := sparkles + [candidate];
      }
      sparkles, glints := AgingPass(sparkles);
    }

    /**
     * One iteration of the main loop after the events: advance the Y
     * rotation, draw the 8 sectors and the core, update the sparkles, count
     * the frame. `rotate_speed` is never read.
     */
    method Tick(env: Numerics, candidate: Sparkle) returns (draws: seq<Draw>)
      requires Valid() && SpawnRanges(candidate)
      modifies this`yRotation, this`frameCount, this`sparkles
      ensures Valid()
      ensures yRotation == old(yRotation) + 0.005
      ensures frameCount == old(frameCount) + 1
      ensures sparkles == Sparkles.SparkleTick(old(sparkles), candidate)
      ensures draws == FrameDraws(env, old(frameCount), pulseFactor, yRotation, old(sparkles), candidate)
    {
      yRotation := yRotation + 0.005;
      var yDegrees := Degrees(yRotation);
      draws := DrawSectors(env, frameCount, pulseFactor, yDegrees);
      draws := draws + [Draw(yDegrees, 0.0, CoreSphere(env, frameCount, pulseFactor))];
      var glints := UpdateSparkles(candidate);
      draws := draws + Place(yDegrees, 0.0, glints);
      frameCount := frameCount + 1;
    }

    /** One iteration of `main`'s loop: the frame's pointer motions, then the tick. */
    method Frame(env: Numerics, input: TickInput) returns (draws: seq<Draw>)
      requires Valid() && SpawnRanges(input.candidate)
      modifies this`rotateSpeed, this`pulseFactor, this`yRotation, this`frameCount, this`sparkles
      ensures Valid()
      ensures rotateSpeed == SpeedAfter(old(rotateSpeed), width, input.motions)
      ensures pulseFactor == PulseAfter(old(pulseFactor), height, input.motions)
      ensures yRotation == old(yRotation) + 0.005
      ensures frameCount == old(frameCount) + 1
      ensures sparkles == Sparkles.SparkleTick(old(sparkles), input.candidate)
      ensures draws == FrameDraws(env, old(frameCount), pulseFactor, yRotation, old(sparkles), input.candidate)
    {
      HandleMotions(input.motions);
      draws := Tick(env, input.candidate);
    }

    /**
     * `main`'s loop over a finite run of frames: each frame applies its
     * pointer motions in order, then ticks. Stopping after the last input
     * stands for the QUIT event.
     */
    method Animate(env: Numerics, inputs: seq<TickInput>) returns (frames: seq<seq<Draw>>)
      requires Valid()
      requires forall i :: 0 <= i < |inputs| ==> SpawnRanges(inputs[i].candidate)
      modifies this`rotateSpeed, this`pulseFactor, this`yRotation, this`frameCount, this`sparkles
      ensures Valid() && |frames| == |inputs|
      ensures frameCount == old(frameCount) + |inputs|
      ensures yRotation == old(yRotation) + 0.005 * |inputs| as real
      ensures sparkles == Run(old(sparkles), Candidates(inputs))
      ensures rotateSpeed == SpeedAfter(old(rotateSpeed), width, AllMotions(inputs))
      ensures pulseFactor == PulseAfter(old(pulseFactor), height, AllMotions(inputs))
    {
      frames := [];
      var i := 0;
      while i < |inputs|
        invariant 0 <= i <= |inputs| && |frames| == i && Valid()
        invariant frameCount == old(frameCount) + i
        invariant yRotation == old(yRotation) + 0.005 * i as real
        invariant sparkles == Run(old(sparkles), Candidates(inputs)[..i])
        invariant rotateSpeed == SpeedAfter(old(rotateSpeed), width, AllMotions(inputs[..i]))
        invariant pulseFactor == PulseAfter(old(pulseFactor), height, AllMotions(inputs[..i]))
      {
        TuningAppend(old(rotateSpeed), old(pulseFactor), width, height, AllMotions(inputs[..i]), inputs[i].motions);
        RunStep(old(sparkles), inputs, i);
        var draws := Frame(env, inputs[i]);
        frames := frames + [draws];
        i := i + 1;
      }
      assert Candidates(inputs)[..|inputs|] == Candidates(inputs);
      assert inputs[..|inputs|] == inputs;
    }
  }
}
