/**
 * The render loop's control logic: the key handler that switches modes and
 * resets the accumulation, the per-frame step that dispatches the compute
 * shader while the frame budget lasts, and the capture of a screenshot on
 * every hundredth frame. Graphics calls become values: a frame reports
 * what it would dispatch, which file it would capture and what it would
 * show, instead of doing it.
 */
module RenderLoop {
  import opened Wrappers
  import opened Capture
  import MeshLoader

  // ---------------------------------------------------------------------
  // Constants
  // ---------------------------------------------------------------------

  /** Frames accumulated before the compute dispatches stop. */
  const MaxFrames: nat := 1000
  const WindowWidth: nat := 1280
  const WindowHeight: nat := 720
  /** The number of render modes: brilliance, diffuse, bounces and fire. */
  const NumModes: int := 4
  /** Side of a compute work group, in pixels. */
  const GroupSize: nat := 8

  const KeySpace: int := 32
  const KeyR: int := 82
  const Press: int := 1

  /** A key event as the window system reports it. */
  datatype KeyEvent = KeyEvent(key: int, action: int)

  /** The two globals the key handler and the loop share. */
  datatype Controls = Controls(mode: int, frameIndex: nat)

  /** The state the program keeps to: a mode that names one of the four
      modes and a counter within the frame budget. */
  predicate ValidControls(c: Controls)
  {
    0 <= c.mode < NumModes && c.frameIndex <= MaxFrames
  }

  const Start: Controls := Controls(0, 0)

  /** C's `%`, which truncates toward zero. */
  function CRem(a: int, n: int): (r: int)
    requires n > 0
    ensures a >= 0 ==> 0 <= r < n
    ensures a < 0 ==> -n < r <= 0
  {
    if a >= 0 then
      a % n
    else
      -((-a) % n)
  }

  // ---------------------------------------------------------------------
  // The key handler
  // ---------------------------------------------------------------------

  /** SPACE moves to the next mode and restarts the accumulation; R
      restarts the accumulation only; other keys and non-press actions do
      nothing. The two tests are made one after the other. */
  function OnKey(c: Controls, e: KeyEvent): (r: Controls)
    ensures ValidControls(c) ==> ValidControls(r)
    ensures r == c || r.frameIndex == 0
  {
    var c1 := if e.key == KeySpace && e.action == Press then Controls(CRem(c.mode + 1, NumModes), 0) else c;
    if e.key == KeyR && e.action == Press then c1.(frameIndex := 0) else c1
  }

  /** The events polled at the start of one frame, handled in order. */
  function OnKeys(c: Controls, es: seq<KeyEvent>): Controls
  {
    if |es| == 0 then c else OnKey(OnKeys(c, es[..|es| - 1]), es[|es| - 1])
  }

  /** SPACE: the next mode modulo 4 and a counter of 0. */
  lemma SpaceAdvances(c: Controls)
    requires ValidControls(c)
    ensures OnKey(c, KeyEvent(KeySpace, Press)) == Controls((c.mode + 1) % NumModes, 0)
    ensures (c.mode + 1) % NumModes == if c.mode == NumModes - 1 then 0 else c.mode + 1
    ensures ValidControls(OnKey(c, KeyEvent(KeySpace, Press)))
  {
  }

  /** Four presses of SPACE come back to the starting mode. */
  lemma FourSpacesCycle(c: Controls)
    requires ValidControls(c)
    ensures OnKeys(c, seq(4, _ => KeyEvent(KeySpace, Press))) == Controls(c.mode, 0)
  {
    var sp := KeyEvent(KeySpace, Press);
    var es := seq(4, _ => sp);
    var e1, e2, e3 := [sp], [sp, sp], [sp, sp, sp];
    assert e1[..0] == [] && e2[..1] == e1 && e3[..2] == e2 && es[..3] == e3;
    assert OnKeys(c, e1[..0]) == c;
    SpaceAdvances(c);
    var c1 := OnKeys(c, e1);
    assert c1 == OnKey(c, sp);
    SpaceAdvances(c1);
    var c2 := OnKeys(c, e2);
    assert c2 == OnKey(c1, sp);
    SpaceAdvances(c2);
    var c3 := OnKeys(c, e3);
    assert c3 == OnKey(c2, sp);
    SpaceAdvances(c3);
    assert OnKeys(c, es) == OnKey(c3, sp);
    assert c1.mode == (if c.mode == 3 then 0 else c.mode + 1);
  }

  /** R: the counter goes back to 0 and the mode stays. */
  lemma ResetKeepsMode(c: Controls)
    ensures OnKey(c, KeyEvent(KeyR, Press)) == Controls(c.mode, 0)
  {
  }

  /** Any other key, and any action other than a press, changes nothing. */
  lemma OtherKeysIgnored(c: Controls, e: KeyEvent)
    requires e.action != Press || (e.key != KeySpace && e.key != KeyR)
    ensures OnKey(c, e) == c
  {
  }

  /** The handler keeps the mode an index into the mode names and the
      counter within the budget. */
  lemma {:induction false} OnKeysValid(c: Controls, es: seq<KeyEvent>)
    requires ValidControls(c)
    ensures ValidControls(OnKeys(c, es))
    decreases |es|
  {
    if |es| > 0 {
      OnKeysValid(c, es[..|es| - 1]);
    }
  }

  // ---------------------------------------------------------------------
  // One frame
  // ---------------------------------------------------------------------

  /** Work groups along one dimension: the smallest count whose groups of 8
      cover it. */
  function WorkGroups(dim: nat): (g: nat)
    ensures g * GroupSize >= dim
    ensures g == 0 || (g - 1) * GroupSize < dim
  {
    (dim + GroupSize - 1) / GroupSize
  }

  /** The window needs 160 by 90 groups. */
  lemma WindowWorkGroups()
    ensures WorkGroups(WindowWidth) == 160 && WorkGroups(WindowHeight) == 90
    ensures WorkGroups(WindowWidth) * GroupSize == WindowWidth
    ensures WorkGroups(WindowHeight) * GroupSize == WindowHeight
  {
  }

  /** What the loaded scene contributes to a dispatch. */
  datatype SceneInfo = SceneInfo(numVertices: nat, numTriangles: nat, framing: MeshLoader.Framing)

  /** One compute dispatch: the uniforms it is given and its group counts. */
  datatype Dispatch = Dispatch(frameIndex: nat, mode: int, groupsX: nat, groupsY: nat, scene: SceneInfo)

  /** What one frame does besides changing the controls: the dispatch, if
      any; the screenshot file, if any; the frame index the display pass
      divides by. */
  datatype FrameOutput = FrameOutput(dispatch: Option<Dispatch>, capture: Option<string>, displayFrameIndex: nat)

  datatype Frame = Frame(next: Controls, out: FrameOutput)

  /** The display pass never divides by 0: a counter of 0 is shown as 1. */
  function DisplayIndex(frameIndex: nat): (d: nat)
    ensures d >= 1
    ensures frameIndex >= 1 ==> d == frameIndex
  {
    if frameIndex == 0 then 1 else frameIndex
  }

  /** The body of the render loop after the events are polled. */
  function Ticked(c: Controls, scene: SceneInfo): Frame
    requires 0 <= c.mode < NumModes
  {
    var accumulating := c.frameIndex < MaxFrames;
    var dispatch :=
      if accumulating then Some(Dispatch(c.frameIndex, c.mode, WorkGroups(WindowWidth), WorkGroups(WindowHeight), scene))
      else None;
    var n := if accumulating then c.frameIndex + 1 else c.frameIndex;
    var capture := if ShouldCapture(n) then Some(CaptureFilename(c.mode, n)) else None;
    Frame(Controls(c.mode, n), FrameOutput(dispatch, capture, DisplayIndex(n)))
  }

  /** One iteration of the render loop: poll the events, then tick. */
  function Step(c: Controls, keys: seq<KeyEvent>, scene: SceneInfo): Frame
    requires ValidControls(c)
  {
    OnKeysValid(c, keys);
    Ticked(OnKeys(c, keys), scene)
  }

  /** A tick dispatches exactly when the counter is below the budget,
      passes the counter before the increment, and keeps the mode; past the
      budget it leaves the controls alone. */
  lemma TickDispatch(c: Controls, scene: SceneInfo)
    requires ValidControls(c)
    ensures var f := Ticked(c, scene);
      ValidControls(f.next) &&
      f.next.mode == c.mode &&
      (f.out.dispatch.Some? <==> c.frameIndex < MaxFrames) &&
      (f.out.dispatch.Some? ==> f.out.dispatch.value.frameIndex == c.frameIndex &&
                                f.out.dispatch.value.mode == c.mode &&
                                f.next.frameIndex == c.frameIndex + 1) &&
      (f.out.dispatch.None? ==> f.next == c)
  {
  }

  /** A tick captures exactly when the new counter is a positive multiple
      of 100, into the file named by the mode and the new counter, and shows
      the new counter (1 in place of 0). */
  lemma TickCapture(c: Controls, scene: SceneInfo)
    requires ValidControls(c)
    ensures var f := Ticked(c, scene);
      (f.out.capture.Some? <==> f.next.frameIndex >= 100 && f.next.frameIndex % 100 == 0) &&
      (f.out.capture.Some? ==> f.out.capture.value == CaptureFilename(c.mode, f.next.frameIndex)) &&
      f.out.displayFrameIndex == if f.next.frameIndex == 0 then 1 else f.next.frameIndex
  {
  }

  // ---------------------------------------------------------------------
  // Many frames
  // ---------------------------------------------------------------------

  datatype Trace = Trace(final: Controls, outputs: seq<FrameOutput>)

  /** The render loop over a run of frames, each with the events polled at
      its start. */
  function Run(c: Controls, frames: seq<seq<KeyEvent>>, scene: SceneInfo): (t: Trace)
    requires ValidControls(c)
    ensures ValidControls(t.final)
    ensures |t.outputs| == |frames|
  {
    if |frames| == 0 then Trace(c, [])
    else
      var before := Run(c, frames[..|frames| - 1], scene);
      var f := Step(before.final, frames[|frames| - 1], scene);
      OnKeysValid(before.final, frames[|frames| - 1]);
      TickDispatch(OnKeys(before.final, frames[|frames| - 1]), scene);
      Trace(f.next, before.outputs + [f.out])
  }

  /** n frames without key events. */
  function Quiet(n: nat): (frames: seq<seq<KeyEvent>>)
    ensures |frames| == n
    ensures forall i :: 0 <= i < n ==> frames[i] == []
  {
    seq(n, _ => [])
  }

  /** The number of frames in a trace that dispatch. */
  function Dispatches(outs: seq<FrameOutput>): (d: nat)
    ensures d <= |outs|
  {
    if |outs| == 0 then 0
    else Dispatches(outs[..|outs| - 1]) + (if outs[|outs| - 1].dispatch.Some? then 1 else 0)
  }

  /** The counter never goes past the budget, whatever keys are pressed. */
  lemma CounterBounded(c: Controls, frames: seq<seq<KeyEvent>>, scene: SceneInfo)
    requires ValidControls(c)
    ensures Run(c, frames, scene).final.frameIndex <= MaxFrames
    ensures 0 <= Run(c, frames, scene).final.mode < NumModes
  {
  }

  /** One more quiet frame extends the trace by one tick. */
  lemma QuietStep(c: Controls, n: nat, scene: SceneInfo)
    requires ValidControls(c)
    ensures var t0 := Run(c, Quiet(n), scene);
      var f := Ticked(t0.final, scene);
      Run(c, Quiet(n + 1), scene) == Trace(f.next, t0.outputs + [f.out])
  {
    assert Quiet(n + 1)[..n] == Quiet(n);
    var t0 := Run(c, Quiet(n), scene);
    assert OnKeys(t0.final, Quiet(n + 1)[n]) == t0.final;
  }

  /** Starting from counter 0 in some mode, n <= 1000 quiet frames leave
      the mode alone and the counter at n. */
  lemma {:induction false} AccumulateCounter(mode: int, n: nat, scene: SceneInfo)
    requires 0 <= mode < NumModes && n <= MaxFrames
    ensures Run(Controls(mode, 0), Quiet(n), scene).final == Controls(mode, n)
  {
    if n > 0 {
      var c := Controls(mode, 0);
      AccumulateCounter(mode, n - 1, scene);
      QuietStep(c, n - 1, scene);
      TickDispatch(Run(c, Quiet(n - 1), scene).final, scene);
    }
  }

  /** Starting from counter 0 in some mode, n <= 1000 quiet frames all
      dispatch, with frame indices 0, ..., n - 1 in that order and in that
      mode. */
  lemma {:induction false} AccumulateDispatches(mode: int, n: nat, scene: SceneInfo)
    requires 0 <= mode < NumModes && n <= MaxFrames
    ensures var t := Run(Controls(mode, 0), Quiet(n), scene);
      Dispatches(t.outputs) == n &&
      forall i :: 0 <= i < n ==>
        t.outputs[i].dispatch.Some? &&
        t.outputs[i].dispatch.value.frameIndex == i &&
        t.outputs[i].dispatch.value.mode == mode
  {
    if n > 0 {
      var c := Controls(mode, 0);
      AccumulateDispatches(mode, n - 1, scene);
      AccumulateCounter(mode, n - 1, scene);
      QuietStep(c, n - 1, scene);
      var t0 := Run(c, Quiet(n - 1), scene);
      var f := Ticked(t0.final, scene);
      TickDispatch(t0.final, scene);
      var outs := t0.outputs + [f.out];
      assert outs[..n - 1] == t0.outputs;
      assert Dispatches(outs) == Dispatches(t0.outputs) + 1;
      forall i | 0 <= i < n
        ensures outs[i].dispatch.Some? && outs[i].dispatch.value.frameIndex == i && outs[i].dispatch.value.mode == mode
      {
        if i < n - 1 {
          assert outs[i] == t0.outputs[i];
        }
      }
    }
  }

  /** While accumulating from counter 0, frame i (counting from 0) leaves
      the counter at i + 1, so it captures exactly when i + 1 is a positive
      multiple of 100, under the name of the mode and i + 1, and shows i + 1. */
  lemma {:induction false} AccumulateCaptures(mode: int, n: nat, scene: SceneInfo)
    requires 0 <= mode < NumModes && n <= MaxFrames
    ensures var t := Run(Controls(mode, 0), Quiet(n), scene);
      forall i :: 0 <= i < n ==>
        t.outputs[i].capture == (if ShouldCapture(i + 1) then Some(CaptureFilename(mode, i + 1)) else None) &&
        t.outputs[i].displayFrameIndex == i + 1
  {
    if n > 0 {
      var c := Controls(mode, 0);
      AccumulateCaptures(mode, n - 1, scene);
      AccumulateCounter(mode, n - 1, scene);
      QuietStep(c, n - 1, scene);
      var t0 := Run(c, Quiet(n - 1), scene);
      var f := Ticked(t0.final, scene);
      var outs := t0.outputs + [f.out];
      forall i | 0 <= i < n
        ensures outs[i].capture == (if ShouldCapture(i + 1) then Some(CaptureFilename(mode, i + 1)) else None)
        ensures outs[i].displayFrameIndex == i + 1
      {
        if i < n - 1 {
          assert outs[i] == t0.outputs[i];
        }
      }
    }
  }

  /** What an idle tick outputs: no dispatch, and a capture of the counter,
      which has stopped at the budget. */
  function IdleOutput(c: Controls): FrameOutput
    requires 0 <= c.mode < NumModes
  {
    FrameOutput(None, Some(CaptureFilename(c.mode, c.frameIndex)), c.frameIndex)
  }

  /** Once the budget is spent a quiet frame dispatches nothing, keeps the
      controls, and captures, since 1000 is a multiple of 100. */
  lemma IdleFrame(c: Controls, scene: SceneInfo)
    requires ValidControls(c) && c.frameIndex == MaxFrames
    ensures Step(c, [], scene) == Frame(c, IdleOutput(c))
    ensures Ticked(c, scene) == Frame(c, IdleOutput(c))
  {
  }

  /** Any number of idle frames after the budget: each one dispatches
      nothing and captures, and the controls stay as they are. */
  lemma {:induction false} IdleRun(c: Controls, k: nat, scene: SceneInfo)
    requires ValidControls(c) && c.frameIndex == MaxFrames
    ensures Run(c, Quiet(k), scene) == Trace(c, seq(k, _ => IdleOutput(c)))
  {
    if k > 0 {
      IdleRun(c, k - 1, scene);
      QuietStep(c, k - 1, scene);
      IdleFrame(c, scene);
      assert seq(k - 1, _ => IdleOutput(c)) + [IdleOutput(c)] == seq(k, _ => IdleOutput(c));
    }
  }

  /** A run of idle outputs has no dispatch. */
  lemma {:induction false} IdleDispatches(c: Controls, k: nat)
    requires 0 <= c.mode < NumModes
    ensures Dispatches(seq(k, _ => IdleOutput(c))) == 0
  {
    if k > 0 {
      IdleDispatches(c, k - 1);
      assert seq(k, _ => IdleOutput(c))[..k - 1] == seq(k - 1, _ => IdleOutput(c));
    }
  }

  /** Splitting a run of frames in two. */
  lemma {:induction false} RunAppend(c: Controls, a: seq<seq<KeyEvent>>, b: seq<seq<KeyEvent>>, scene: SceneInfo)
    requires ValidControls(c)
    ensures Run(c, a + b, scene) ==
      Trace(Run(Run(c, a, scene).final, b, scene).final,
            Run(c, a, scene).outputs + Run(Run(c, a, scene).final, b, scene).outputs)
    decreases |b|
  {
    if |b| == 0 {
      assert a + b == a;
    } else {
      var b' := b[..|b| - 1];
      assert (a + b)[..|a + b| - 1] == a + b';
      assert (a + b)[|a + b| - 1] == b[|b| - 1];
      RunAppend(c, a, b', scene);
    }
  }

  lemma {:induction false} DispatchesAppend(a: seq<FrameOutput>, b: seq<FrameOutput>)
    ensures Dispatches(a + b) == Dispatches(a) + Dispatches(b)
    decreases |b|
  {
    if |b| == 0 {
      assert a + b == a;
    } else {
      var b' := b[..|b| - 1];
      assert (a + b)[..|a + b| - 1] == a + b';
      DispatchesAppend(a, b');
    }
  }

  /** However long the window stays open past the budget, a session that
      starts from counter 0 and presses no key dispatches exactly 1000
      frames. */
  lemma FullBudget(mode: int, k: nat, scene: SceneInfo)
    requires 0 <= mode < NumModes
    ensures var t := Run(Controls(mode, 0), Quiet(MaxFrames + k), scene);
      t.final == Controls(mode, MaxFrames) && Dispatches(t.outputs) == MaxFrames
  {
    assert Quiet(MaxFrames + k) == Quiet(MaxFrames) + Quiet(k);
    RunAppend(Controls(mode, 0), Quiet(MaxFrames), Quiet(k), scene);
    AccumulateCounter(mode, MaxFrames, scene);
    AccumulateDispatches(mode, MaxFrames, scene);
    IdleRun(Controls(mode, MaxFrames), k, scene);
    IdleDispatches(Controls(mode, MaxFrames), k);
    DispatchesAppend(Run(Controls(mode, 0), Quiet(MaxFrames), scene).outputs,
                     Run(Controls(mode, MaxFrames), Quiet(k), scene).outputs);
  }

  // ---------------------------------------------------------------------
  // The controls as state
  // ---------------------------------------------------------------------

  /** The mode and the frame counter, updated by the key handler and by the
      loop. */
  class Renderer {
    var mode: int
    var frameIndex: nat

    constructor()
      ensures State() == Start
    {
      mode := 0;
      frameIndex := 0;
    }

    function State(): Controls
      reads this
    {
      Controls(mode, frameIndex)
    }

    /** The key callback. */
    method HandleKey(e: KeyEvent)
      modifies this
      ensures State() == OnKey(old(State()), e)
    {
      if e.key == KeySpace && e.action == Press {
        mode := CRem(mode + 1, NumModes);
        frameIndex := 0;
      }
      if e.key == KeyR && e.action == Press {
        frameIndex := 0;
      }
    }

    /** The body of the loop after polling. */
    method Tick(scene: SceneInfo) returns (out: FrameOutput)
      requires 0 <= mode < NumModes
      modifies this
      ensures Frame(State(), out) == Ticked(old(State()), scene)
    {
      var accumulating := frameIndex < MaxFrames;
      var m := mode;
      var dispatch: Option<Dispatch> := None;
      if accumulating {
        var groupsX := (WindowWidth + 7) / 8;
        var groupsY := (WindowHeight + 7) / 8;
        dispatch := Some(Dispatch(frameIndex, m, groupsX, groupsY, scene));
        frameIndex := frameIndex + 1;
      }
      var capture: Option<string> := None;
      if frameIndex >= 100 && frameIndex % 100 == 0 {
        capture := Some(CaptureFilename(mode, frameIndex));
      }
      out := FrameOutput(dispatch, capture, if frameIndex == 0 then 1 else frameIndex);
    }

    /** The render loop over a run of frames. */
    method RunLoop(frames: seq<seq<KeyEvent>>, scene: SceneInfo) returns (outs: seq<FrameOutput>)
      requires ValidControls(State())
      modifies this
      ensures Trace(State(), outs) == Run(old(State()), frames, scene)
    {
      ghost var c0 := State();
      outs := [];
      var i := 0;
      while i < |frames|
        invariant 0 <= i <= |frames|
        invariant Trace(State(), outs) == Run(c0, frames[..i], scene)
      {
        assert frames[..i + 1][..i] == frames[..i];
        ghost var before := State();
        var keys := frames[i];
        var j := 0;
        while j < |keys|
          invariant 0 <= j <= |keys|
          invariant State() == OnKeys(before, keys[..j])
        {
          assert keys[..j + 1][..j] == keys[..j];
          HandleKey(keys[j]);
          j := j + 1;
        }
        assert keys[..j] == keys;
        OnKeysValid(before, keys);
        var out := Tick(scene);
        outs := outs + [out];
        i := i + 1;
      }
      assert frames[..i] == frames;
    }
  }

  /** Loading the mesh and then running the loop. A failed load ends the
      session before any frame; otherwise the frames run from mode 0 and
      counter 0 on the loaded scene. */
  method Session(imported: MeshLoader.ImportResult, frames: seq<seq<KeyEvent>>)
    returns (r: Option<seq<FrameOutput>>)
    requires imported.Imported? && |imported.meshes| > 0 ==> MeshLoader.WellFormedMesh(imported.meshes[0])
    ensures r.None? <==> !(imported.Imported? && |imported.meshes| > 0)
    ensures r.Some? ==>
      var m := imported.meshes[0];
      var vs := MeshLoader.ConvertVertices(m);
      var info := SceneInfo(|vs|, |MeshLoader.KeepTriangles(m.faces)|, MeshLoader.FramingOf(MeshLoader.XZBounds(vs)));
      r.value == Run(Start, frames, info).outputs
  {
    var scene := new MeshLoader.Scene();
    var ok := scene.Load(imported);
    if !ok {
      return None;
    }
    var renderer := new Renderer();
    var info := SceneInfo(|scene.vertices|, |scene.triangles|, scene.Framed());
    var outs := renderer.RunLoop(frames, info);
    return Some(outs);
  }
}
