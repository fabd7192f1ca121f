/** The game's entry point and window procedure: startup, the initial upload
    of the mesh, the frame loop with its per-slot constants, render target
    and draws, the shutdown drain, and the window messages that change the
    app's state.

    Window plumbing (class registration, window creation, `SetWindowPos`,
    the mechanics of the message pump) is not modelled. A run of the game is
    a script of steps: a window message delivered, or a frame drawn once the
    pump finds no message waiting. Every status the system returns is a
    parameter. */
module Game {
  import opened HResults
  import opened GpuQueue
  import opened FrameContext
  import opened MeshFormat
  import opened MeshLayout

  /** 2^32, the range of a UINT. */
  const UINT_RANGE: int := 0x1_0000_0000
  /** `USER_DEFAULT_SCREEN_DPI`: the dpi window sizes are given at. */
  const DEFAULT_DPI: nat := 96
  /** The size the window is created with, at the default dpi. */
  const WINDOW_WIDTH: int := 800
  const WINDOW_HEIGHT: int := 600
  /** One constant buffer per frame slot, each created and then mapped. */
  const CONSTANT_STEPS: nat := 2 * BUFFER_COUNT

  /** `extent * dpi / 96` as WM_CREATE computes it: `cx` is an int and the
      dpi a UINT, so the product is an unsigned 32-bit value, taken modulo
      2^32, before the division. The quotient always fits the LONG it is
      stored in. */
  function ScaleToDpi(extent: int, dpi: nat): (scaled: int)
    requires dpi < UINT_RANGE
    ensures 0 <= scaled <= (UINT_RANGE - 1) / DEFAULT_DPI
  {
    ((extent % UINT_RANGE) * dpi) % UINT_RANGE / DEFAULT_DPI
  }

  /** When the product does not wrap, the scaled extent is the integer
      quotient: its 96ths do not exceed extent * dpi and fall short of it by
      less than 96. */
  lemma ScaleToDpiExact(extent: int, dpi: nat)
    requires 0 <= extent < UINT_RANGE && dpi < UINT_RANGE && extent * dpi < UINT_RANGE
    ensures ScaleToDpi(extent, dpi) * DEFAULT_DPI <= extent * dpi
    ensures extent * dpi < ScaleToDpi(extent, dpi) * DEFAULT_DPI + DEFAULT_DPI
  {
    assert extent % UINT_RANGE == extent;
    assert (extent * dpi) % UINT_RANGE == extent * dpi;
  }

  /** At the default dpi the window keeps the size it was asked for. */
  lemma ScaleAtDefaultDpi(extent: int)
    requires 0 <= extent && extent * DEFAULT_DPI < UINT_RANGE
    ensures ScaleToDpi(extent, DEFAULT_DPI) == extent
  {
    assert extent % UINT_RANGE == extent;
    assert (extent * DEFAULT_DPI) % UINT_RANGE == extent * DEFAULT_DPI;
  }

  /** `LOWORD`: bits 0-15 of a message parameter. */
  function LowWord(param: int): (word: nat)
    ensures word < 0x10000
  {
    param % 0x10000
  }

  /** `HIWORD`: bits 16-31 of a message parameter. */
  function HighWord(param: int): (word: nat)
    ensures word < 0x10000
  {
    (param / 0x10000) % 0x10000
  }

  /** A parameter packed from two 16-bit words gives them back. */
  lemma WordsRoundTrip(low: nat, high: nat)
    requires low < 0x10000 && high < 0x10000
    ensures LowWord(low + high * 0x10000) == low
    ensures HighWord(low + high * 0x10000) == high
  {
    var param := low + high * 0x10000;
    assert param / 0x10000 == high;
  }

  /** The two words are the low 32 bits of the parameter, whatever its sign. */
  lemma WordsCoverLowBits(param: int)
    ensures LowWord(param) + HighWord(param) * 0x10000 == param % UINT_RANGE
  {
    var q := param / 0x10000;
    assert param == q * 0x10000 + LowWord(param);
    assert q == (q / 0x10000) * 0x10000 + HighWord(param);
    assert param == (q / 0x10000) * UINT_RANGE + (LowWord(param) + HighWord(param) * 0x10000);
  }

  /** What the system answers while WM_SIZE runs `resize`: the drain's
      statuses, `ResizeBuffers`, the new back-buffer index, one `GetBuffer`
      status per back buffer, and the depth buffer's creation. */
  datatype ResizeOutcome = ResizeOutcome(
    drainSignalHr: HResult, drainEventHr: HResult, resizeHr: HResult,
    backBuffer: nat, getBufferHrs: seq<HResult>, depthHr: HResult)

  predicate ResizeWellFormed(o: ResizeOutcome) {
    o.backBuffer < BUFFER_COUNT && |o.getBufferHrs| == BUFFER_COUNT
  }

  predicate ResizeSucceeds(o: ResizeOutcome)
    requires ResizeWellFormed(o)
  {
    && !Failed(o.drainSignalHr) && !Failed(o.drainEventHr) && !Failed(o.resizeHr)
    && TargetsStatus(o.getBufferHrs, o.depthHr) == S_OK
  }

  /** The window messages the game handles; every other message goes to
      `DefWindowProc`, which does not touch the app. */
  datatype Message =
    | SizeMessage(lParam: int, outcome: ResizeOutcome)
    | DpiChangedMessage(wParam: int, clientWidth: int, clientHeight: int)
    | CloseMessage
    | DestroyMessage
    | OtherMessage

  /** What the system answers during one frame: `prepare`'s two resets, and
      `present`'s close, present, signal, new back-buffer index and wait. */
  datatype FrameOutcome = FrameOutcome(
    allocatorHr: HResult, listHr: HResult,
    closeHr: HResult, presentHr: HResult, signalHr: HResult, backBuffer: nat, setEventHr: HResult)

  predicate FrameSucceeds(o: FrameOutcome) {
    && !Failed(o.allocatorHr) && !Failed(o.listHr) && !Failed(o.closeHr) && !Failed(o.presentHr)
    && !Failed(o.signalHr) && !Failed(o.setEventHr)
  }

  /** The status `prepare` returns for these answers. */
  function PrepareStatus(o: FrameOutcome): HResult {
    if Failed(o.allocatorHr) then o.allocatorHr else if Failed(o.listHr) then o.listHr else S_OK
  }

  /** One step of the main thread: a message dispatched by the pump, or a
      frame drawn once the pump finds the queue empty. */
  datatype Step = Deliver(message: Message) | Render(frame: FrameOutcome)

  predicate StepWellFormed(step: Step) {
    match step
    case Deliver(SizeMessage(_, o)) => ResizeWellFormed(o)
    case Deliver(_) => true
    case Render(o) => o.backBuffer < BUFFER_COUNT
  }

  predicate StepSucceeds(step: Step)
    requires StepWellFormed(step)
  {
    match step
    case Deliver(SizeMessage(_, o)) => ResizeSucceeds(o)
    case Deliver(_) => true
    case Render(o) => FrameSucceeds(o)
  }

  predicate ScriptWellFormed(script: seq<Step>) {
    forall i | 0 <= i < |script| :: StepWellFormed(script[i])
  }

  predicate ScriptSucceeds(script: seq<Step>)
    requires ScriptWellFormed(script)
  {
    forall i | 0 <= i < |script| :: StepSucceeds(script[i])
  }

  /** The game's `Mesh`: a vertex view and an index view per group. */
  datatype Mesh = Mesh(vertexBuffers: seq<VertexBufferView>, indexBuffers: seq<IndexBufferView>)

  /** The views are the layout of `sizes` over the buffer at `base`. */
  predicate LaidOut(mesh: Mesh, sizes: seq<GroupSize>, base: nat) {
    && |mesh.vertexBuffers| == |sizes| && |mesh.indexBuffers| == |sizes|
    && (forall i | 0 <= i < |sizes| :: mesh.vertexBuffers[i] == VertexView(sizes, base, i))
    && (forall i | 0 <= i < |sizes| :: mesh.indexBuffers[i] == IndexView(sizes, base, i))
  }

  /** The draws of a frame: group i's vertex and index views are bound
      together and drawn with index count `SizeInBytes / sizeof(uint16_t)`. */
  function DrawCalls(indexBuffers: seq<IndexBufferView>): (calls: seq<Call>)
    ensures |calls| == |indexBuffers|
  {
    seq(|indexBuffers|, i requires 0 <= i < |indexBuffers| => DrawIndexed(i, indexBuffers[i].sizeInBytes / IndexBytes))
  }

  /** Each group is drawn with exactly the number of indices its header
      announces, so, with the writer's round trip, with the converter's
      index count for that group. */
  lemma DrawsMatchHeaders(mesh: Mesh, sizes: seq<GroupSize>, base: nat, i: nat)
    requires LaidOut(mesh, sizes, base) && i < |sizes|
    ensures DrawCalls(mesh.indexBuffers)[i] == DrawIndexed(i, sizes[i].numIndices)
  {
    assert mesh.indexBuffers[i].sizeInBytes == sizes[i].numIndices * IndexBytes;
  }

  /** The calls of one frame up to its draws: the slot's constants written,
      `prepare`, the slot's render-target view set, the slot's constants
      bound, the draws. */
  function FrameCalls(slot: nat, idle: bool, target: nat, draws: seq<Call>): seq<Call> {
    [WriteConstants(slot), ResetAllocator(slot, idle), ResetList(slot),
     Barrier(slot, PresentState, RenderTargetState), SetRenderTarget(target), BindConstants(slot)]
    + draws
  }

  /** Every allocator reset among these calls found its allocator free. */
  predicate ResetsIdle(calls: seq<Call>) {
    forall i | 0 <= i < |calls| && calls[i].ResetAllocator? :: calls[i].idle
  }

  lemma ResetsIdleAppend(a: seq<Call>, b: seq<Call>)
    ensures ResetsIdle(a + b) <==> ResetsIdle(a) && ResetsIdle(b)
  {
    if ResetsIdle(a) && ResetsIdle(b) {
      forall i | 0 <= i < |a + b| && (a + b)[i].ResetAllocator?
        ensures (a + b)[i].idle
      {
        if i >= |a| {
          assert (a + b)[i] == b[i - |a|];
        }
      }
    }
    if ResetsIdle(a + b) {
      forall i | 0 <= i < |a| && a[i].ResetAllocator?
        ensures a[i].idle
      {
        assert (a + b)[i] == a[i];
      }
      forall i | 0 <= i < |b| && b[i].ResetAllocator?
        ensures b[i].idle
      {
        assert (a + b)[|a| + i] == b[i];
      }
    }
  }

  /** A frame recorded on a free allocator resets nothing else. */
  lemma FrameCallsResetIdle(slot: nat, target: nat, indexBuffers: seq<IndexBufferView>)
    ensures ResetsIdle(FrameCalls(slot, true, target, DrawCalls(indexBuffers)))
  {
    var draws := DrawCalls(indexBuffers);
    assert ResetsIdle(draws) by {
      forall k | 0 <= k < |draws| ensures !draws[k].ResetAllocator? {
        assert draws[k] == DrawIndexed(k, indexBuffers[k].sizeInBytes / IndexBytes);
      }
    }
    ResetsIdleAppend([WriteConstants(slot), ResetAllocator(slot, true), ResetList(slot),
      Barrier(slot, PresentState, RenderTargetState), SetRenderTarget(target), BindConstants(slot)], draws);
  }

  /** The calls of `getRenderTargets` reset no allocator. */
  lemma {:induction false} TargetCallsResetNothing(start: nat, increment: nat, n: nat)
    ensures ResetsIdle(TargetCalls(start, increment, n))
  {
    if n > 0 {
      TargetCallsResetNothing(start, increment, n - 1);
      ResetsIdleAppend(TargetCalls(start, increment, n - 1),
                       [GetBuffer(n - 1), CreateRenderTargetView(n - 1, start + (n - 1) * increment)]);
    }
  }

  lemma TargetsLogResetsNothing(start: nat, increment: nat, getBufferHrs: seq<HResult>,
                                width: nat, height: nat, depthHr: HResult)
    ensures ResetsIdle(TargetsLog(start, increment, getBufferHrs, width, height, depthHr))
  {
    var k := FirstFailed(getBufferHrs);
    TargetCallsResetNothing(start, increment, k);
    ResetsIdleAppend(TargetCalls(start, increment, k),
                     if k < |getBufferHrs| then [GetBuffer(k)]
                     else [CreateDepthBuffer(width, height)] + (if Failed(depthHr) then [] else [CreateDepthStencilView]));
  }

  /** The calls `resize` makes. */
  function ResizeCalls(value: nat, drainSignalHr: HResult, resizeHr: HResult, start: nat, increment: nat,
                       getBufferHrs: seq<HResult>, width: nat, height: nat, depthHr: HResult): seq<Call>
  {
    DrainCalls(value, drainSignalHr) + [ResizeBuffers]
    + if Failed(resizeHr) then [] else TargetsLog(start, increment, getBufferHrs, width, height, depthHr)
  }

  lemma ResizeResetsNothing(value: nat, drainSignalHr: HResult, resizeHr: HResult, start: nat, increment: nat,
                            getBufferHrs: seq<HResult>, width: nat, height: nat, depthHr: HResult)
    ensures ResetsIdle(ResizeCalls(value, drainSignalHr, resizeHr, start, increment, getBufferHrs, width, height, depthHr))
  {
    TargetsLogResetsNothing(start, increment, getBufferHrs, width, height, depthHr);
    ResetsIdleAppend(DrainCalls(value, drainSignalHr), [ResizeBuffers]);
    ResetsIdleAppend(DrainCalls(value, drainSignalHr) + [ResizeBuffers],
                     if Failed(resizeHr) then [] else TargetsLog(start, increment, getBufferHrs, width, height, depthHr));
  }

  /** A log that grew by the calls of `resize` grew by appending and
      resets no allocator in its new part. */
  lemma ResizeLogResetsNothing(before: seq<Call>, log: seq<Call>, value: nat, drainSignalHr: HResult,
                               resizeHr: HResult, start: nat, increment: nat, getBufferHrs: seq<HResult>,
                               width: nat, height: nat, depthHr: HResult)
    requires log == before + ResizeCalls(value, drainSignalHr, resizeHr, start, increment, getBufferHrs,
                                         width, height, depthHr)
    ensures Extends(before, log) && ResetsIdle(log[|before|..])
  {
    ResizeResetsNothing(value, drainSignalHr, resizeHr, start, increment, getBufferHrs, width, height, depthHr);
    assert log[|before|..] == ResizeCalls(value, drainSignalHr, resizeHr, start, increment, getBufferHrs,
                                          width, height, depthHr);
  }

  /** `log` grew from `before` by appending. */
  predicate Extends(before: seq<Call>, log: seq<Call>) {
    |before| <= |log| && log[..|before|] == before
  }

  /** Growing an extension keeps it an extension, and the resets it adds are
      those of the two parts. */
  lemma ExtendsTrans(start: nat, a: seq<Call>, b: seq<Call>, c: seq<Call>)
    requires start <= |a| && Extends(a, b) && Extends(b, c)
    ensures Extends(a, c)
    ensures ResetsIdle(c[start..]) <==> ResetsIdle(a[start..]) && ResetsIdle(b[|a|..]) && ResetsIdle(c[|b|..])
  {
    assert c[..|a|] == c[..|b|][..|a|];
    assert c[start..] == a[start..] + b[|a|..] + c[|b|..] by {
      assert c[..|b|] == b;
      assert b[..|a|] == a;
      assert c == c[..|b|] + c[|b|..];
      assert b == b[..|a|] + b[|a|..];
    }
    ResetsIdleAppend(a[start..] + b[|a|..], c[|b|..]);
    ResetsIdleAppend(a[start..], b[|a|..]);
  }

  /** The calls of one frame, in a log that grew from `before`, all name the
      same slot: the constants written, the barrier to RENDER_TARGET, the
      constants bound, and the barrier back to PRESENT after the
      `groups` draws. */
  predicate FrameLogged(before: seq<Call>, log: seq<Call>, slot: nat, groups: nat) {
    var n := |before|;
    var closed := n + 6 + groups;
    && closed < |log|
    && log[n] == WriteConstants(slot)
    && log[n + 3] == Barrier(slot, PresentState, RenderTargetState)
    && log[n + 5] == BindConstants(slot)
    && log[closed] == Barrier(slot, RenderTargetState, PresentState)
  }

  /** A frame recorded after `before`, then a `present` opening with its
      barrier, leaves the frame's calls where `FrameLogged` says. */
  lemma FrameLayout(before: seq<Call>, recorded: seq<Call>, log: seq<Call>,
                    slot: nat, idle: bool, target: nat, draws: seq<Call>)
    requires recorded == before + FrameCalls(slot, idle, target, draws)
    requires Extends(recorded, log) && |log| > |recorded|
    requires log[|recorded|] == Barrier(slot, RenderTargetState, PresentState)
    ensures FrameLogged(before, log, slot, |draws|)
  {
    var n := |before|;
    assert log[n] == log[..|recorded|][n];
    assert log[n + 3] == log[..|recorded|][n + 3];
    assert log[n + 5] == log[..|recorded|][n + 5];
  }

  /** The log ends with `waitForGpu`: a signal, and a wait for that same
      value unless the signal failed. */
  predicate EndsWithDrain(log: seq<Call>, signalHr: HResult) {
    if Failed(signalHr) then |log| >= 1 && log[|log| - 1].SignalFence?
    else |log| >= 2 && log[|log| - 2].SignalFence? && log[|log| - 1] == SetEventOnCompletion(log[|log| - 2].value)
  }

  /** The fence state `create` leaves: nothing queued, every slot's value the
      fence's creation value, every back buffer in the PRESENT state. */
  predicate FreshFence(c: Context)
    reads c
  {
    && c.Valid() && !c.hung && c.queue.items == []
    && (forall s | 0 <= s < BUFFER_COUNT :: c.fenceValues[s] == c.queue.initial)
    && (forall s | 0 <= s < BUFFER_COUNT :: c.states[s] == PresentState)
  }

  /** Executing the upload list and incrementing the slot's value, on a
      fresh fence, establishes the fence bookkeeping. */
  lemma FirstSubmitKeepsBookkeeping(q: Queue, fenceValues: seq<nat>, frameIndex: nat)
    requires WellFormed(q) && q.items == [] && |fenceValues| == BUFFER_COUNT && frameIndex < BUFFER_COUNT
    requires forall s | 0 <= s < BUFFER_COUNT :: fenceValues[s] == q.initial
    ensures Bookkeeping(Submit(q, frameIndex), fenceValues[frameIndex := fenceValues[frameIndex] + 1], frameIndex)
  {
    var r := Submit(q, frameIndex);
    var fv := fenceValues[frameIndex := fenceValues[frameIndex] + 1];
    assert r.items == [Run(frameIndex)];
    assert ValueAfter(r.items, r.initial, 1) == ValueAfter(r.items, r.initial, 0) == q.initial;
    forall s | 0 <= s < BUFFER_COUNT
      ensures Guarded(r, s, fv[s])
    {
      assert ValueAfter(r.items, r.initial, 0) == q.initial;
    }
  }

  /** The upload as written: it signals the incremented value and does not
      wait, so the list recorded with the current slot's allocator is still
      queued when the first frame's `prepare` resets that allocator, and the
      value the slot holds has already been signalled. */
  lemma UploadAsWrittenLeavesAllocatorBusy(q: Queue, fenceValues: seq<nat>, frameIndex: nat)
    requires WellFormed(q) && q.items == [] && |fenceValues| == BUFFER_COUNT && frameIndex < BUFFER_COUNT
    requires forall s | 0 <= s < BUFFER_COUNT :: fenceValues[s] == q.initial
    ensures var r := Enqueue(Submit(q, frameIndex), fenceValues[frameIndex] + 1);
      && !Idle(r, frameIndex)
      && Latest(r) == fenceValues[frameIndex] + 1
      && !Bookkeeping(r, fenceValues[frameIndex := fenceValues[frameIndex] + 1], frameIndex)
  {
    var r := Enqueue(Submit(q, frameIndex), fenceValues[frameIndex] + 1);
    assert r.items[0] == Run(frameIndex);
  }

  /** What the system answers during startup: whether the window class is
      registered and the window created, the monitor's dpi, `Context::create`,
      the material, the upload heap, the upload's list reset, the mesh buffer
      and its address, the upload's signal and wait, and the creation and
      mapping of each constant buffer. */
  datatype Startup = Startup(
    registered: bool, windowCreated: bool,
    monitorDpi: nat, devices: Devices, materialHr: HResult, uploadHeapHr: HResult,
    listHr: HResult, meshHr: HResult, meshBase: nat, signalHr: HResult, eventHr: HResult,
    constantHrs: seq<HResult>)

  predicate StartupWellFormed(s: Startup) {
    s.monitorDpi < UINT_RANGE && DevicesWellFormed(s.devices) && |s.constantHrs| == CONSTANT_STEPS
  }

  /** Every step after the window exists succeeds. */
  predicate SetupSucceeds(s: Startup)
    requires StartupWellFormed(s)
  {
    && CreateSucceeds(s.devices)
    && !Failed(s.materialHr) && !Failed(s.uploadHeapHr) && !Failed(s.listHr) && !Failed(s.meshHr)
    && !Failed(s.signalHr) && !Failed(s.eventHr)
    && forall i | 0 <= i < CONSTANT_STEPS :: !Failed(s.constantHrs[i])
  }

  predicate StartupSucceeds(s: Startup)
    requires StartupWellFormed(s)
  {
    s.registered && s.windowCreated && SetupSucceeds(s)
  }

  /** The constant-buffer loop: for each slot, create its 64 KiB upload
      buffer, then map it; the first failure ends the program. `hrs` holds
      the two statuses of each slot in order. */
  method CreateConstantBuffers(hrs: seq<HResult>) returns (hr: HResult)
    requires |hrs| == CONSTANT_STEPS
    ensures hr == S_OK <==> forall i | 0 <= i < |hrs| :: !Failed(hrs[i])
    ensures hr != S_OK ==> FirstFailed(hrs) < |hrs| && hr == hrs[FirstFailed(hrs)]
  {
    for slot := 0 to BUFFER_COUNT
      invariant forall i | 0 <= i < 2 * slot :: !Failed(hrs[i])
    {
      if Failed(hrs[2 * slot]) {
        FirstFailedIs(hrs, 2 * slot);
        return hrs[2 * slot];
      }
      if Failed(hrs[2 * slot + 1]) {
        FirstFailedIs(hrs, 2 * slot + 1);
        return hrs[2 * slot + 1];
      }
    }
    return S_OK;
  }

  /** `wWinMain`: create the window (WM_CREATE sizes it by the monitor's
      dpi), set up the context, the material, the mesh and the constant
      buffers, each failure giving exit code 1, then run the loop over the
      script. When every startup step and every step of the script
      succeeds, no allocator is ever reset while the GPU may still use it,
      and leaving on WM_QUIT drains the GPU. */
  method WinMain(s: Startup, file: seq<Record>, script: seq<Step>, shutdownSignalHr: HResult, shutdownEventHr: HResult)
    returns (exit: Option<int>, app: App)
    requires StartupWellFormed(s) && HasHeaders(file) && ScriptWellFormed(script)
    ensures exit == None || exit == Some(0) || exit == Some(1)
    ensures !StartupSucceeds(s) ==> exit == Some(1)
    ensures StartupSucceeds(s) && exit == Some(1) ==>
      exists i | 0 <= i < |script| :: script[i].Render? && Failed(PrepareStatus(script[i].frame))
    ensures exit == Some(0) ==> EndsWithDrain(app.context.log, shutdownSignalHr)
    ensures StartupSucceeds(s) && ScriptSucceeds(script) ==> exit != Some(1) && ResetsIdle(app.context.log)
    ensures (exit == Some(0) && StartupSucceeds(s) && ScriptSucceeds(script)
             && !Failed(shutdownSignalHr) && !Failed(shutdownEventHr)) ==>
      forall slot | 0 <= slot < BUFFER_COUNT :: Idle(app.context.queue, slot)
  {
    app := new App();
    if !s.registered {
      return Some(1), app;
    }
    app.OnCreate(WINDOW_WIDTH, WINDOW_HEIGHT, s.monitorDpi);
    if !s.windowCreated {
      return Some(1), app;
    }
    var hr, mesh := app.Start(s, file);
    if hr != S_OK {
      return Some(1), app;
    }
    ghost var log0 := app.context.log;
    exit := app.Loop(mesh, script, shutdownSignalHr, shutdownEventHr);
    if StartupSucceeds(s) && ScriptSucceeds(script) {
      assert app.context.log == log0 + app.context.log[|log0|..];
      ResetsIdleAppend(log0, app.context.log[|log0|..]);
    }
  }

  class App {
    /** The monitor's dpi, as a UINT. */
    var dpi: nat
    var width: int
    var height: int
    var context: Context
    /** `PostQuitMessage` was called: the pump will return WM_QUIT once no
        other message is waiting. */
    var quitPosted: bool

    predicate Valid()
      reads this, context
    {
      dpi < UINT_RANGE && context.Valid()
    }

    /** Between frames of a run where everything succeeds: the context is
        ready for `prepare` and the views of the back buffers are laid out. */
    predicate Running()
      reads this, context
    {
      Valid() && context.Ready() && context.ViewsLaidOut() && context.rtvDescriptorSize > 0
    }

    /** Between `prepare` and `present` of a frame where everything
        succeeds: as `Running`, except that the slot being recorded is not
        back in PRESENT. */
    predicate Recording()
      reads this, context
    {
      && Valid() && context.Inv() && context.ViewsLaidOut() && context.rtvDescriptorSize > 0
      && forall s | 0 <= s < BUFFER_COUNT && s != context.frameIndex :: context.states[s] == PresentState
    }

    /** `App app_data`: the context's member initialisers; the size and dpi
        are set by WM_CREATE. */
    constructor ()
      ensures Valid() && fresh(context) && !quitPosted
      ensures context.log == [] && FreshFence(context) && !context.hasSwapChain
      ensures context.queue == Queue([], 0, 0) && context.fenceValues == [0, 0]
    {
      dpi, width, height := 0, 0, 0;
      context := new Context();
      quitPosted := false;
    }

    /** WM_CREATE: take the monitor's dpi and scale the requested size by it. */
    method OnCreate(cx: int, cy: int, monitorDpi: nat)
      requires monitorDpi < UINT_RANGE
      modifies this`dpi, this`width, this`height
      ensures dpi == monitorDpi
      ensures width == ScaleToDpi(cx, monitorDpi) && height == ScaleToDpi(cy, monitorDpi)
    {
      dpi := monitorDpi;
      width := ScaleToDpi(cx, dpi);
      height := ScaleToDpi(cy, dpi);
    }

    /** WM_SIZE: ignored until the swap chain exists; otherwise resize to the
        client size the message carries and post quit if that fails. The
        app's width and height, and so the viewport and scissor built before
        the loop, stay as they were. */
    method OnSize(lParam: int, o: ResizeOutcome) returns (hr: HResult)
      requires Valid() && !context.hung && ResizeWellFormed(o)
      modifies this`quitPosted, context`frameIndex, context`queue, context`log, context`hung,
        context`rtvDescriptors, context`depthWidth, context`depthHeight, context`fenceValues,
        context`renderTargets, context`states
      ensures Valid() && !context.hung && Extends(old(context.log), context.log)
      ensures !old(context.hasSwapChain) ==> hr == S_OK && unchanged(context)
      ensures hr == S_OK || Failed(hr)
      ensures quitPosted == (old(quitPosted) || Failed(hr))
      ensures old(context.hasSwapChain) && hr == S_OK ==>
        context.depthWidth == LowWord(lParam) && context.depthHeight == HighWord(lParam)
      ensures old(context.hasSwapChain) && ResizeSucceeds(o) ==> hr == S_OK
      ensures old(Running()) && ResizeSucceeds(o) ==> Running()
      ensures ResetsIdle(context.log[|old(context.log)|..])
    {
      if !context.hasSwapChain {
        return S_OK;
      }
      hr := ResizeToClient(LowWord(lParam), HighWord(lParam), o);
      if Failed(hr) {
        quitPosted := true;
      }
    }

    /** The swap-chain half of WM_SIZE: `resize` to the client size. */
    method ResizeToClient(width: nat, height: nat, o: ResizeOutcome) returns (hr: HResult)
      requires Valid() && !context.hung && ResizeWellFormed(o) && context.hasSwapChain
      modifies context`frameIndex, context`queue, context`log, context`hung,
        context`rtvDescriptors, context`depthWidth, context`depthHeight, context`fenceValues,
        context`renderTargets, context`states
      ensures Valid() && !context.hung && Extends(old(context.log), context.log)
      ensures ResetsIdle(context.log[|old(context.log)|..])
      ensures hr == S_OK || Failed(hr)
      ensures hr == S_OK ==> context.depthWidth == width && context.depthHeight == height
      ensures ResizeSucceeds(o) ==> hr == S_OK
      ensures old(Running()) && ResizeSucceeds(o) ==> Running()
    {
      ghost var before, value := context.log, context.fenceValues[context.frameIndex];
      hr := context.Resize(width, height, o.drainSignalHr, o.drainEventHr, o.resizeHr,
                           o.backBuffer, o.getBufferHrs, o.depthHr);
      ResizeLogResetsNothing(before, context.log, value, o.drainSignalHr, o.resizeHr,
                             context.rtvHeapStart, context.rtvDescriptorSize, o.getBufferHrs,
                             width, height, o.depthHr);
    }

    /** WM_DPICHANGED: the new dpi is the low word of wParam, and the size
        is the client area after the window was moved to the suggested
        rectangle. */
    method OnDpiChanged(wParam: int, clientWidth: int, clientHeight: int)
      modifies this`dpi, this`width, this`height
      ensures dpi == LowWord(wParam) && dpi < UINT_RANGE
      ensures width == clientWidth && height == clientHeight
    {
      dpi := LowWord(wParam);
      width := clientWidth;
      height := clientHeight;
    }

    /** `WindowProc`. WM_CLOSE destroys the window, whose WM_DESTROY posts
        quit; no message resets an allocator, and only a failed resize or
        the window's end posts quit. */
    method WindowProc(m: Message)
      requires Valid() && !context.hung && StepWellFormed(Deliver(m))
      modifies this`dpi, this`width, this`height, this`quitPosted, context`frameIndex, context`queue, context`log, context`hung,
        context`rtvDescriptors, context`depthWidth, context`depthHeight, context`fenceValues,
        context`renderTargets, context`states
      ensures Valid() && !context.hung && Extends(old(context.log), context.log)
      ensures ResetsIdle(context.log[|old(context.log)|..])
      ensures m.CloseMessage? || m.DestroyMessage? ==> quitPosted
      ensures m.DpiChangedMessage? || m.OtherMessage? ==> quitPosted == old(quitPosted) && unchanged(context)
      ensures m.SizeMessage? && ResizeSucceeds(m.outcome) ==> quitPosted == old(quitPosted)
      ensures old(Running()) && StepSucceeds(Deliver(m)) ==> Running()
    {
      match m
      case SizeMessage(lParam, o) =>
        var _ := OnSize(lParam, o);
      case DpiChangedMessage(wParam, clientWidth, clientHeight) =>
        OnDpiChanged(wParam, clientWidth, clientHeight);
      case CloseMessage =>
        // DestroyWindow sends WM_DESTROY
        quitPosted := true;
      case DestroyMessage =>
        quitPosted := true;
      case OtherMessage =>
    }

    /** `Mesh::create`: read the headers, create the mesh buffer (`TRY`),
        copy the payload into it through the upload heap, and lay the views
        out from the buffer's address. */
    method CreateMesh(file: seq<Record>, meshHr: HResult, base: nat) returns (hr: HResult, mesh: Mesh)
      requires Valid() && HasHeaders(file)
      modifies context`log
      ensures Valid()
      ensures hr == (if Failed(meshHr) then meshHr else S_OK)
      ensures Failed(meshHr) ==> context.log == old(context.log) && mesh == Mesh([], [])
      ensures !Failed(meshHr) ==>
        && context.log == old(context.log) + [CopyMesh(BufferBytes(HeadersOf(file)))]
        && LaidOut(mesh, HeadersOf(file), base)
    {
      var groups, bufferSize := ReadHeaders(file);
      assert groups == HeadersOf(file);
      if Failed(meshHr) {
        return meshHr, Mesh([], []);
      }
      context.log := context.log + [CopyMesh(bufferSize)];
      var vertexBuffers, indexBuffers := LayoutViews(groups, base);
      return S_OK, Mesh(vertexBuffers, indexBuffers);
    }

    /** The recording part of the upload: reset the list on the current
        slot's allocator, record the mesh copy, close the list (its status
        is not checked) and execute it. */
    method RecordUpload(file: seq<Record>, listHr: HResult, meshHr: HResult, base: nat)
      returns (hr: HResult, mesh: Mesh)
      requires Valid() && HasHeaders(file)
      modifies context`log, context`queue
      ensures Valid()
      ensures hr == (if Failed(listHr) then listHr else if Failed(meshHr) then meshHr else S_OK)
      ensures hr == S_OK ==>
        && context.queue == Submit(old(context.queue), context.frameIndex)
        && LaidOut(mesh, HeadersOf(file), base)
        && context.log == old(context.log) + [ResetList(context.frameIndex), CopyMesh(BufferBytes(HeadersOf(file))),
                                               CloseList, ExecuteList(context.frameIndex)]
      ensures hr != S_OK ==> context.queue == old(context.queue)
      ensures Extends(old(context.log), context.log) && ResetsIdle(context.log[|old(context.log)|..])
    {
      context.log := context.log + [ResetList(context.frameIndex)];
      if Failed(listHr) {
        return listHr, Mesh([], []);
      }
      hr, mesh := CreateMesh(file, meshHr, base);
      if hr != S_OK {
        return;
      }
      context.log := context.log + [CloseList, ExecuteList(context.frameIndex)];
      context.queue := Submit(context.queue, context.frameIndex);
    }

    /** The upload as written: execute the list, increment the current
        slot's value and signal it, with no wait. */
    method UploadAsWritten(file: seq<Record>, listHr: HResult, meshHr: HResult, base: nat, signalHr: HResult)
      returns (hr: HResult, mesh: Mesh)
      requires Valid() && HasHeaders(file)
      modifies context`log, context`queue, context`fenceValues
      ensures Valid()
      ensures hr == (if Failed(listHr) then listHr else if Failed(meshHr) then meshHr
                     else if Failed(signalHr) then signalHr else S_OK)
      ensures hr == S_OK ==>
        var fi := context.frameIndex;
        && context.fenceValues == old(context.fenceValues)[fi := old(context.fenceValues[fi]) + 1]
        && context.queue == Enqueue(Submit(old(context.queue), fi), old(context.fenceValues[fi]) + 1)
    {
      hr, mesh := RecordUpload(file, listHr, meshHr, base);
      if hr != S_OK {
        return;
      }
      var fi := context.frameIndex;
      context.fenceValues := context.fenceValues[fi := context.fenceValues[fi] + 1];
      hr := context.Signal(context.fenceValues[fi], signalHr);
    }

    /** The upload as intended: execute the list, increment the current
        slot's value, and drain with `waitForGpu`, so that the first frame
        finds the bookkeeping in place and every allocator free. */
    method Upload(file: seq<Record>, listHr: HResult, meshHr: HResult, base: nat, signalHr: HResult, eventHr: HResult)
      returns (hr: HResult, mesh: Mesh)
      requires Valid() && !context.hung && HasHeaders(file)
      modifies context`log, context`queue, context`fenceValues, context`hung
      ensures Valid() && !context.hung
      ensures hr == (if Failed(listHr) then listHr else if Failed(meshHr) then meshHr
                     else if Failed(signalHr) then signalHr else if Failed(eventHr) then eventHr else S_OK)
      ensures hr == S_OK ==> LaidOut(mesh, HeadersOf(file), base)
      ensures old(FreshFence(context)) && hr == S_OK ==> context.Ready()
      ensures Extends(old(context.log), context.log) && ResetsIdle(context.log[|old(context.log)|..])
    {
      ghost var wasFresh := FreshFence(context);
      ghost var q0, fv0 := context.queue, context.fenceValues;
      ghost var log0 := context.log;
      hr, mesh := RecordUpload(file, listHr, meshHr, base);
      if hr != S_OK {
        return;
      }
      ghost var log1 := context.log;
      var fi := context.frameIndex;
      context.fenceValues := context.fenceValues[fi := context.fenceValues[fi] + 1];
      if wasFresh {
        FirstSubmitKeepsBookkeeping(q0, fv0, fi);
      }
      hr := context.WaitForGpu(signalHr, eventHr);
      assert context.log[|log1|..] == DrainCalls(fv0[fi] + 1, signalHr);
      ExtendsTrans(|log0|, log0, log1, context.log);
    }

    /** The startup of `wWinMain` once the window exists: `Context::create`
        at the size WM_CREATE computed, the material, the upload heap, the
        upload, the constant buffers. Every failure returns its status. On
        success the game is running: the views are laid out, the bookkeeping
        holds, and every allocator is free. */
    method Start(s: Startup, file: seq<Record>) returns (hr: HResult, mesh: Mesh)
      requires Valid() && FreshFence(context) && !context.hasSwapChain
      requires StartupWellFormed(s) && HasHeaders(file) && width >= 0 && height >= 0
      modifies context`frameIndex, context`queue, context`rtvHeapStart, context`rtvHeapSize, context`rtvDescriptorSize,
        context`dsvHeapSize, context`hasSwapChain, context`log, context`rtvDescriptors, context`depthWidth,
        context`depthHeight, context`renderTargets, context`fenceValues, context`hung
      ensures Valid() && !context.hung
      ensures hr == S_OK <==> SetupSucceeds(s)
      ensures hr == S_OK || Failed(hr)
      ensures hr == S_OK ==> Running() && LaidOut(mesh, HeadersOf(file), s.meshBase)
      ensures Extends(old(context.log), context.log) && ResetsIdle(context.log[|old(context.log)|..])
    {
      ghost var log0 := context.log;
      hr := context.Create(width as nat, height as nat, s.devices);
      TargetsLogResetsNothing(context.rtvHeapStart, context.rtvDescriptorSize, s.devices.getBufferHrs,
                              width as nat, height as nat, s.devices.depthHr);
      assert context.log[|log0|..] == [] || context.log[|log0|..] == TargetsLog(context.rtvHeapStart,
        context.rtvDescriptorSize, s.devices.getBufferHrs, width as nat, height as nat, s.devices.depthHr);
      if hr != S_OK {
        return hr, Mesh([], []);
      }
      assert FreshFence(context);
      if Failed(s.materialHr) {
        return s.materialHr, Mesh([], []);
      }
      if Failed(s.uploadHeapHr) {
        return s.uploadHeapHr, Mesh([], []);
      }
      ghost var log1 := context.log;
      hr, mesh := Upload(file, s.listHr, s.meshHr, s.meshBase, s.signalHr, s.eventHr);
      ExtendsTrans(|log0|, log0, log1, context.log);
      if hr != S_OK {
        return;
      }
      hr := CreateConstantBuffers(s.constantHrs);
    }

    /** The draw loop: for each group, bind its vertex view and its index
        view and draw its indices. */
    method DrawGroups(mesh: Mesh)
      requires Valid() && |mesh.vertexBuffers| == |mesh.indexBuffers|
      modifies context`log
      ensures Valid()
      ensures context.log == old(context.log) + DrawCalls(mesh.indexBuffers)
    {
      for i := 0 to |mesh.vertexBuffers|
        invariant context.Valid()
        invariant context.log == old(context.log) + DrawCalls(mesh.indexBuffers)[..i]
      {
        var count := mesh.indexBuffers[i].sizeInBytes / IndexBytes;
        context.log := context.log + [DrawIndexed(i, count)];
      }
      assert DrawCalls(mesh.indexBuffers)[..|mesh.indexBuffers|] == DrawCalls(mesh.indexBuffers);
    }

    /** The recording half of a frame: write the slot's constants, `prepare`
        (exit 1 if it fails), set the slot's render-target view, bind the
        slot's constants, and draw each group from its own pair of views.
        Nothing in between changes the slot, so the constants written and
        bound, the view set and the buffer `prepare` transitioned are all
        the same slot's. */
    method RecordFrame(mesh: Mesh, allocatorHr: HResult, listHr: HResult) returns (hr: HResult)
      requires Valid() && |mesh.vertexBuffers| == |mesh.indexBuffers|
      modifies context`log, context`states
      ensures Valid()
      ensures hr == PrepareStatus(FrameOutcome(allocatorHr, listHr, S_OK, S_OK, S_OK, 0, S_OK))
      ensures Extends(old(context.log), context.log)
      ensures hr == S_OK ==> context.states == old(context.states)[context.frameIndex := RenderTargetState]
      ensures hr == S_OK ==>
        context.log == old(context.log) +
          FrameCalls(context.frameIndex, old(Idle(context.queue, context.frameIndex)),
                     context.rtvHeapStart + context.frameIndex * context.rtvDescriptorSize,
                     DrawCalls(mesh.indexBuffers))
      ensures context.ViewsLaidOut() ==>
        var target := context.rtvHeapStart + context.frameIndex * context.rtvDescriptorSize;
        target in context.rtvDescriptors && context.rtvDescriptors[target] == context.frameIndex
      ensures old(context.Ready()) ==> ResetsIdle(context.log[|old(context.log)|..])
      ensures old(Running()) ==> Recording()
    {
      var fi := context.frameIndex;
      context.log := context.log + [WriteConstants(fi)];
      hr := context.Prepare(allocatorHr, listHr);
      if Failed(hr) {
        return;
      }
      var rtv := context.rtvHeapStart + fi * context.rtvDescriptorSize;
      context.log := context.log + [SetRenderTarget(rtv), BindConstants(fi)];
      DrawGroups(mesh);
      FrameCallsResetIdle(fi, rtv, mesh.indexBuffers);
    }

    /** `present`, with its status discarded: the barrier it opens with
        returns the frame's back buffer to PRESENT, and when every call
        succeeds it resets no allocator and keeps the bookkeeping with the
        new slot's allocator free. */
    method Finish(o: FrameOutcome)
      requires Valid() && !context.hung && o.backBuffer < BUFFER_COUNT
      modifies context`log, context`states, context`frameIndex, context`queue, context`hung, context`fenceValues
      ensures Valid() && Extends(old(context.log), context.log)
      ensures |context.log| > |old(context.log)|
      ensures context.log[|old(context.log)|] == Barrier(old(context.frameIndex), RenderTargetState, PresentState)
      ensures context.states == old(context.states)[old(context.frameIndex) := PresentState]
      ensures old(context.CurrentIsLargest()) ==> !context.hung
      ensures FrameSucceeds(o) ==> ResetsIdle(context.log[|old(context.log)|..])
      ensures FrameSucceeds(o) && old(context.Inv()) ==> context.Inv() && Idle(context.queue, context.frameIndex)
      ensures FrameSucceeds(o) && old(Recording()) ==> Running()
    {
      var _ := context.Present(o.closeHr, o.presentHr, o.signalHr, o.backBuffer, o.setEventHr);
      if FrameSucceeds(o) {
        var added := [Barrier(old(context.frameIndex), RenderTargetState, PresentState), CloseList,
                      ExecuteList(old(context.frameIndex)), PresentFrame,
                      SignalFence(old(context.fenceValues[context.frameIndex]))];
        assert context.log[|old(context.log)|..] == added
            || context.log[|old(context.log)|..] == added + [SetEventOnCompletion(old(context.fenceValues[o.backBuffer]))];
      }
    }

    /** One iteration of the frame loop after the pump: record the frame,
        then `present`, whose status is discarded. A failing `prepare` ends
        the program with exit code 1; a failing `present` does not. The
        barrier that closes the frame names the back buffer the frame
        opened, and a frame where everything succeeds leaves the game
        running with every allocator reset on a free allocator. */
    method Frame(mesh: Mesh, o: FrameOutcome) returns (exit: Option<int>)
      requires Valid() && !context.hung && o.backBuffer < BUFFER_COUNT
      requires |mesh.vertexBuffers| == |mesh.indexBuffers|
      modifies context`log, context`states, context`frameIndex, context`queue, context`hung, context`fenceValues
      ensures Valid() && Extends(old(context.log), context.log)
      ensures exit == if Failed(PrepareStatus(o)) then Some(1) else None
      ensures exit.None? ==>
        FrameLogged(old(context.log), context.log, old(context.frameIndex), |mesh.indexBuffers|)
        && context.states[old(context.frameIndex)] == PresentState
      ensures old(context.CurrentIsLargest()) ==> !context.hung
      ensures old(Running()) && FrameSucceeds(o) ==> Running()
      ensures old(Running()) && FrameSucceeds(o) ==> ResetsIdle(context.log[|old(context.log)|..])
    {
      ghost var log0, slot := context.log, context.frameIndex;
      ghost var idle := Idle(context.queue, context.frameIndex);
      var hr := RecordFrame(mesh, o.allocatorHr, o.listHr);
      if Failed(hr) {
        return Some(1);
      }
      ghost var log1 := context.log;
      Finish(o);
      ExtendsTrans(|log0|, log0, log1, context.log);
      FrameLayout(log0, log1, context.log, slot, idle,
                  context.rtvHeapStart + slot * context.rtvDescriptorSize, DrawCalls(mesh.indexBuffers));
      return None;
    }

    /** One step of the main thread. A message is dispatched. Before a
        frame, a posted quit is picked up by the pump: the GPU is drained
        with `waitForGpu`, whose status is not checked, and the exit code is
        0. Otherwise the frame is drawn, and a failing `prepare` gives exit
        code 1. */
    method Tick(mesh: Mesh, step: Step, shutdownSignalHr: HResult, shutdownEventHr: HResult)
      returns (exit: Option<int>)
      requires Valid() && !context.hung && StepWellFormed(step)
      requires |mesh.vertexBuffers| == |mesh.indexBuffers|
      modifies this`dpi, this`width, this`height, this`quitPosted, context`frameIndex, context`queue, context`log, context`hung,
        context`rtvDescriptors, context`depthWidth, context`depthHeight, context`fenceValues,
        context`renderTargets, context`states
      ensures Valid() && Extends(old(context.log), context.log)
      ensures exit == None || exit == Some(0) || exit == Some(1)
      ensures exit == Some(1) ==> step.Render? && Failed(PrepareStatus(step.frame))
      ensures exit == Some(0) ==> step.Render? && quitPosted && !context.hung
      ensures exit == Some(0) ==> EndsWithDrain(context.log, shutdownSignalHr)
      ensures step.Deliver? ==> exit == None && !context.hung
      ensures old(Running()) && StepSucceeds(step) ==> exit != Some(1) && !context.hung
      ensures old(Running()) && StepSucceeds(step) ==> ResetsIdle(context.log[|old(context.log)|..])
      ensures old(Running()) && StepSucceeds(step) && exit == None ==> Running()
      ensures (exit == Some(0) && old(Running()) && !Failed(shutdownSignalHr) && !Failed(shutdownEventHr)) ==>
        forall s | 0 <= s < BUFFER_COUNT :: Idle(context.queue, s)
    {
      match step {
        case Deliver(m) =>
          WindowProc(m);
          return None;
        case Render(o) =>
          if quitPosted {
            ghost var value := context.fenceValues[context.frameIndex];
            var _ := context.WaitForGpu(shutdownSignalHr, shutdownEventHr);
            assert context.log[|old(context.log)|..] == DrainCalls(value, shutdownSignalHr);
            return Some(0);
          }
          exit := Frame(mesh, o);
      }
    }

    /** The `while (true)` loop of `wWinMain` over a script of steps. The
        result is `None` when the script runs out, or when the thread is
        blocked for ever in a wait. When every step succeeds, no frame fails,
        the thread never blocks, every allocator reset finds its allocator
        free, and leaving on WM_QUIT drains the GPU. */
    method Loop(mesh: Mesh, script: seq<Step>, shutdownSignalHr: HResult, shutdownEventHr: HResult)
      returns (exit: Option<int>)
      requires Valid() && !context.hung && ScriptWellFormed(script)
      requires |mesh.vertexBuffers| == |mesh.indexBuffers|
      modifies this`dpi, this`width, this`height, this`quitPosted, context`frameIndex, context`queue, context`log, context`hung,
        context`rtvDescriptors, context`depthWidth, context`depthHeight, context`fenceValues,
        context`renderTargets, context`states
      ensures Valid() && Extends(old(context.log), context.log)
      ensures exit == None || exit == Some(0) || exit == Some(1)
      ensures exit == Some(1) ==>
        exists i | 0 <= i < |script| :: script[i].Render? && Failed(PrepareStatus(script[i].frame))
      ensures exit == Some(0) ==> quitPosted && !context.hung && EndsWithDrain(context.log, shutdownSignalHr)
      ensures old(Running()) && ScriptSucceeds(script) ==> exit != Some(1) && !context.hung
      ensures old(Running()) && ScriptSucceeds(script) ==> ResetsIdle(context.log[|old(context.log)|..])
      ensures (exit == Some(0) && old(Running()) && ScriptSucceeds(script)
               && !Failed(shutdownSignalHr) && !Failed(shutdownEventHr)) ==>
        forall s | 0 <= s < BUFFER_COUNT :: Idle(context.queue, s)
    {
      ghost var good := Running() && ScriptSucceeds(script);
      ghost var log0 := context.log;
      for i := 0 to |script|
        invariant Valid() && !context.hung && Extends(log0, context.log)
        invariant good ==> Running() && ResetsIdle(context.log[|log0|..])
      {
        ghost var log1 := context.log;
        exit := Tick(mesh, script[i], shutdownSignalHr, shutdownEventHr);
        ExtendsTrans(|log0|, log0, log1, context.log);
        if exit.Some? {
          return;
        }
        if context.hung {
          return None;
        }
      }
      return None;
    }
  }
}
