/** The task set that `transform(targets, duration)` of dist/main.js leaves in
    the tween library's registry. The registry is modelled as the ordered list
    of started tasks; the library's ticking, easing curves and start-value
    capture are not modelled, so a task records only what `transform` decides:
    which property of which object it drives, toward which value, for how
    long, with which easing. `Math.random` is replaced by a supplied list of
    draws, consumed in call order. */
module Transition {
  import opened Geometry

  /** Which part of an object's transform a tween drives. */
  datatype Property = Position | Rotation

  /** `Linear` is the library default; `transform` sets `QuadraticInOut`. */
  datatype Easing = Linear | QuadraticInOut

  datatype Task =
    | Tween(node: nat, property: Property, end: Vec3, duration: real, easing: Easing)
      /** The closing tween over an empty property set: it only renders. */
    | Timer(duration: real, renderOnUpdate: bool)

  /** The registry after a call, and whether the call threw a `TypeError`
      (reading `.position` of a missing target). */
  datatype Outcome = Outcome(registry: seq<Task>, threw: bool)

  /** `Math.random() * duration + duration`. */
  function Jittered(draw: real, duration: real): real {
    draw * duration + duration
  }

  /** Task `j` of the loop of `transform`: for object `j / 2`, the position
      tween when `j` is even and the rotation tween when `j` is odd, timed by
      draw `j`. */
  function LoopTask(targets: seq<Object3D>, duration: real, draws: seq<real>, j: nat): Task
    requires j / 2 < |targets| && j < |draws|
  {
    var i := j / 2;
    if j % 2 == 0 then Tween(i, Position, targets[i].position, Jittered(draws[j], duration), QuadraticInOut)
    else Tween(i, Rotation, targets[i].rotation, Jittered(draws[j], duration), QuadraticInOut)
  }

  /** `ts` is exactly what the loop starts for objects `0 .. n - 1`. */
  predicate LoopTasks(ts: seq<Task>, targets: seq<Object3D>, duration: real, draws: seq<real>, n: nat)
    requires n <= |targets| && 2 * n <= |draws|
  {
    |ts| == 2 * n && forall j :: 0 <= j < |ts| ==> ts[j] == LoopTask(targets, duration, draws, j)
  }

  /** The tweens the loop starts for objects `0 .. n - 1`, in start order. */
  function StartTweens(targets: seq<Object3D>, duration: real, draws: seq<real>, n: nat): (ts: seq<Task>)
    requires n <= |targets| && 2 * n <= |draws|
    ensures LoopTasks(ts, targets, duration, draws, n)
  {
    if n == 0 then []
    else
      StartTweens(targets, duration, draws, n - 1)
      + [LoopTask(targets, duration, draws, 2 * (n - 1)), LoopTask(targets, duration, draws, 2 * (n - 1) + 1)]
  }

  /** `transform(targets, duration)` over `objects` objects. The registry
      `pending` is cleared first, which the definition expresses by never
      reading it; then one position and one rotation tween are
      started per object; then a `2 * duration` timer that renders on update.
      If `targets` is shorter than `objects`, the loop throws on the first
      missing target, leaving the tweens already started and no timer. */
  function Transform(pending: seq<Task>, objects: nat, targets: seq<Object3D>, duration: real, draws: seq<real>): (o: Outcome)
    requires 2 * objects <= |draws|
    ensures o.threw <==> |targets| < objects
    ensures o.threw ==> LoopTasks(o.registry, targets, duration, draws, |targets|)
    ensures !o.threw ==>
      |o.registry| == 2 * objects + 1
      && LoopTasks(o.registry[..2 * objects], targets, duration, draws, objects)
      && o.registry[2 * objects] == Timer(2.0 * duration, true)
  {
    if |targets| < objects then
      Outcome(StartTweens(targets, duration, draws, |targets|), true)
    else
      var ts := StartTweens(targets, duration, draws, objects);
      assert (ts + [Timer(2.0 * duration, true)])[..2 * objects] == ts;
      Outcome(ts + [Timer(2.0 * duration, true)], false)
  }

  /** Whatever was pending before the call has no influence on the result:
      every earlier task is discarded. The clearing is built into the
      definition of `Transform`, which never reads `pending`; this lemma
      records that consequence rather than deriving it. */
  lemma TransformDiscardsPending(p1: seq<Task>, p2: seq<Task>, objects: nat, targets: seq<Object3D>, duration: real, draws: seq<real>)
    requires 2 * objects <= |draws|
    ensures Transform(p1, objects, targets, duration, draws) == Transform(p2, objects, targets, duration, draws)
  {
  }

  /** Interrupting one transition with another leaves exactly what the second
      would have scheduled on an idle registry. Like the lemma above, this
      follows from `Transform` not reading `pending`. */
  lemma InterruptionKeepsOnlyLatest(pending: seq<Task>, objects: nat, a: seq<Object3D>, b: seq<Object3D>, duration: real, drawsA: seq<real>, drawsB: seq<real>)
    requires 2 * objects <= |drawsA| && 2 * objects <= |drawsB|
    ensures Transform(Transform(pending, objects, a, duration, drawsA).registry, objects, b, duration, drawsB)
         == Transform([], objects, b, duration, drawsB)
  {
  }

  /** Is `t` a tween of property `prop` of object `i`? */
  predicate Drives(t: Task, i: nat, prop: Property) {
    t.Tween? && t.node == i && t.property == prop
  }

  /** Task `j` of a completed call, below the timer, is loop task `j`. */
  lemma CompletedTaskAt(pending: seq<Task>, objects: nat, targets: seq<Object3D>, duration: real, draws: seq<real>, j: nat)
    requires 2 * objects <= |draws| && objects <= |targets| && j < 2 * objects
    ensures Transform(pending, objects, targets, duration, draws).registry[j] == LoopTask(targets, duration, draws, j)
  {
    var reg := Transform(pending, objects, targets, duration, draws).registry;
    assert reg[j] == reg[..2 * objects][j];
  }

  /** A completed call starts exactly one position tween for object `i`,
      aimed at its target's position, and exactly one rotation tween, aimed at
      its target's rotation. */
  lemma {:induction false} TransformDrivesObject(pending: seq<Task>, objects: nat, targets: seq<Object3D>, duration: real, draws: seq<real>, i: nat)
    requires 2 * objects <= |draws| && objects <= |targets| && i < objects
    ensures var reg := Transform(pending, objects, targets, duration, draws).registry;
      && (set j | 0 <= j < |reg| && Drives(reg[j], i, Position)) == {2 * i}
      && (set j | 0 <= j < |reg| && Drives(reg[j], i, Rotation)) == {2 * i + 1}
      && reg[2 * i].end == targets[i].position
      && reg[2 * i + 1].end == targets[i].rotation
  {
    var reg := Transform(pending, objects, targets, duration, draws).registry;
    forall j | 0 <= j < |reg| && (Drives(reg[j], i, Position) || Drives(reg[j], i, Rotation))
      ensures j / 2 == i && (Drives(reg[j], i, Position) <==> j % 2 == 0)
    {
      assert j < 2 * objects;
      CompletedTaskAt(pending, objects, targets, duration, draws, j);
    }
    CompletedTaskAt(pending, objects, targets, duration, draws, 2 * i);
    CompletedTaskAt(pending, objects, targets, duration, draws, 2 * i + 1);
  }

  /** A completed call drives only the given objects, eases every tween
      quadratically, and has a single timer: the last task, lasting twice
      the base duration and rendering on update. */
  lemma {:induction false} TransformTweensAndTimer(pending: seq<Task>, objects: nat, targets: seq<Object3D>, duration: real, draws: seq<real>)
    requires 2 * objects <= |draws| && objects <= |targets|
    ensures var reg := Transform(pending, objects, targets, duration, draws).registry;
      && (forall t :: t in reg && t.Tween? ==> t.node < objects && t.easing == QuadraticInOut)
      && (forall j :: 0 <= j < |reg| ==> (reg[j].Timer? <==> j == 2 * objects))
      && reg[2 * objects] == Timer(2.0 * duration, true)
  {
    var reg := Transform(pending, objects, targets, duration, draws).registry;
    forall j | 0 <= j < 2 * objects
      ensures reg[j].Tween? && reg[j].node < objects && reg[j].easing == QuadraticInOut
    {
      CompletedTaskAt(pending, objects, targets, duration, draws, j);
    }
  }

  /** The whole task set of a completed call: per object one position and one
      rotation tween aimed at its target, nothing else but the closing timer. */
  lemma TransformTaskSet(pending: seq<Task>, objects: nat, targets: seq<Object3D>, duration: real, draws: seq<real>)
    requires 2 * objects <= |draws| && objects <= |targets|
    ensures var reg := Transform(pending, objects, targets, duration, draws).registry;
      && |reg| == 2 * objects + 1
      && (forall i :: 0 <= i < objects ==>
            (set j | 0 <= j < |reg| && Drives(reg[j], i, Position)) == {2 * i}
            && (set j | 0 <= j < |reg| && Drives(reg[j], i, Rotation)) == {2 * i + 1})
      && (forall t :: t in reg && t.Tween? ==> t.node < objects && t.easing == QuadraticInOut)
      && (forall j :: 0 <= j < |reg| ==> (reg[j].Timer? <==> j == 2 * objects))
  {
    forall i | 0 <= i < objects {
      TransformDrivesObject(pending, objects, targets, duration, draws, i);
    }
    TransformTweensAndTimer(pending, objects, targets, duration, draws);
  }

  /** A draw in [0, 1) stretches a positive base duration into [d, 2d). */
  lemma JitteredBounds(draw: real, duration: real)
    requires 0.0 <= draw < 1.0 && duration > 0.0
    ensures duration <= Jittered(draw, duration) < 2.0 * duration
  {
    assert draw * duration < 1.0 * duration;
  }

  /** With draws in [0, 1) and a positive base duration, every tween lasts
      between one and two base durations, and the closing timer lasts
      exactly two, so no tween outlasts the timer. */
  lemma {:induction false} TransformDurations(pending: seq<Task>, objects: nat, targets: seq<Object3D>, duration: real, draws: seq<real>)
    requires 2 * objects <= |draws|
    requires forall j :: 0 <= j < |draws| ==> 0.0 <= draws[j] < 1.0
    requires duration > 0.0
    ensures var reg := Transform(pending, objects, targets, duration, draws).registry;
      forall t :: t in reg ==>
        (t.Tween? ==> duration <= t.duration < 2.0 * duration)
        && (t.Timer? ==> t.duration == 2.0 * duration)
  {
    var o := Transform(pending, objects, targets, duration, draws);
    var reg := o.registry;
    var n := if o.threw then |targets| else objects;
    assert forall j :: 0 <= j < 2 * n ==> reg[j] == LoopTask(targets, duration, draws, j) by {
      if !o.threw {
        assert forall j :: 0 <= j < 2 * n ==> reg[j] == reg[..2 * n][j];
      }
    }
    forall t | t in reg
      ensures t.Tween? ==> duration <= t.duration < 2.0 * duration
      ensures t.Timer? ==> t.duration == 2.0 * duration
    {
      var j :| 0 <= j < |reg| && reg[j] == t;
      if j < 2 * n {
        JitteredBounds(draws[j], duration);
      }
    }
  }

  /** With no objects nothing but the closing timer is scheduled, so a render
      still happens. */
  lemma NoObjectsOnlyTimer(pending: seq<Task>, targets: seq<Object3D>, duration: real, draws: seq<real>)
    ensures Transform(pending, 0, targets, duration, draws) == Outcome([Timer(2.0 * duration, true)], false)
  {
  }
}
