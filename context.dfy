/** The renderer's `Context`: two back buffers, one command allocator and one
    stored fence value per frame slot, a single command list and command
    queue, and one fence. `prepare` and `present` bracket each frame,
    `waitForGpu` drains the queue, `resize` rebuilds the swap chain's buffers.

    Direct3D, DXGI and Win32 calls are abstract: each call the context makes is
    appended to `log`, its status comes in as a parameter, and the swap chain's
    current back-buffer index is a parameter (`backBuffer`) constrained only to
    be a valid index. The GPU is the queue model of `GpuQueue`: it advances by
    an unspecified amount whenever the program reads the fence or waits. */
module FrameContext {
  import opened HResults
  import opened GpuQueue
  import opened AdapterChoice

  /** `Context::BUFFER_COUNT`. */
  const BUFFER_COUNT: nat := 2

  /** The resource state a back buffer is in, as the barriers declare it. */
  datatype BufferState = PresentState | RenderTargetState

  /** The calls made on the device, the command list, the queue and the swap
      chain, in the order they are made. */
  datatype Call =
    | ResetAllocator(slot: nat, idle: bool)
    | ResetList(slot: nat)
    | Barrier(buffer: nat, before: BufferState, after: BufferState)
    | CloseList
    | ExecuteList(slot: nat)
    | PresentFrame
    | SignalFence(value: nat)
    | SetEventOnCompletion(value: nat)
    | ResizeBuffers
    | GetBuffer(index: nat)
    | CreateRenderTargetView(buffer: nat, address: nat)
    | CreateDepthBuffer(width: nat, height: nat)
    | CreateDepthStencilView
    // recorded by the game on the same command list
    | CopyMesh(bytes: nat)
    | WriteConstants(buffer: nat)
    | SetRenderTarget(address: nat)
    | BindConstants(buffer: nat)
    | DrawIndexed(group: nat, indexCount: nat)

  /** The fence bookkeeping, on values:
      - the current slot holds the largest stored fence value;
      - signals are queued in non-decreasing order;
      - everything queued so far signals less than the current slot's value,
        so that value has not been signalled yet;
      - every list recorded with slot s's allocator was submitted before the
        fence could reach `fenceValues[s]`, so a fence at that value means the
        allocator is free again. */
  predicate Bookkeeping(q: Queue, fenceValues: seq<nat>, frameIndex: nat) {
    && |fenceValues| == BUFFER_COUNT && frameIndex < BUFFER_COUNT && WellFormed(q)
    && (forall s | 0 <= s < BUFFER_COUNT :: fenceValues[s] <= fenceValues[frameIndex])
    && Ascending(q)
    && Latest(q) < fenceValues[frameIndex]
    && (forall s | 0 <= s < BUFFER_COUNT :: Guarded(q, s, fenceValues[s]))
  }

  /** Executing the current slot's list keeps the bookkeeping: the list is
      submitted while the fence is headed below that slot's value. */
  lemma SubmitKeepsBookkeeping(q: Queue, fenceValues: seq<nat>, frameIndex: nat)
    requires Bookkeeping(q, fenceValues, frameIndex)
    ensures Bookkeeping(Submit(q, frameIndex), fenceValues, frameIndex)
  {
    SubmitKeepsSignals(q, frameIndex);
    forall s | 0 <= s < BUFFER_COUNT
      ensures Guarded(Submit(q, frameIndex), s, fenceValues[s])
    {
      SubmitKeepsGuard(q, frameIndex, fenceValues[frameIndex], s, fenceValues[s]);
    }
  }

  /** The tail of `present` from the fence's point of view: signal the
      current slot's value, let the GPU run until the new slot's stored value
      is reached, store the signalled value + 1 in the new slot. The
      bookkeeping is kept and the new slot's allocator is free. */
  lemma AdvanceKeepsBookkeeping(q: Queue, fenceValues: seq<nat>, frameIndex: nat, backBuffer: nat, r: Queue)
    requires Bookkeeping(q, fenceValues, frameIndex) && backBuffer < BUFFER_COUNT
    requires Progressed(Enqueue(q, fenceValues[frameIndex]), r)
    requires Completed(r) >= fenceValues[backBuffer]
    ensures Bookkeeping(r, fenceValues[backBuffer := fenceValues[frameIndex] + 1], backBuffer)
    ensures Idle(r, backBuffer)
  {
    var current := fenceValues[frameIndex];
    EnqueueKeepsAscending(q, current);
    forall s | 0 <= s < BUFFER_COUNT
      ensures Guarded(r, s, fenceValues[s])
    {
      EnqueueKeepsGuard(q, current, s, fenceValues[s]);
    }
    WaitRetires(r, backBuffer, fenceValues[backBuffer]);
    GuardAboveLatest(r, backBuffer, current + 1);
  }

  /** `waitForGpu` from the fence's point of view: signal the current value,
      wait for it, store it + 1. The invariant is kept and every slot is free. */
  lemma DrainKeepsBookkeeping(q: Queue, fenceValues: seq<nat>, frameIndex: nat, r: Queue)
    requires Bookkeeping(q, fenceValues, frameIndex)
    requires Progressed(Enqueue(q, fenceValues[frameIndex]), r)
    requires Completed(r) >= fenceValues[frameIndex]
    ensures Bookkeeping(r, fenceValues[frameIndex := fenceValues[frameIndex] + 1], frameIndex)
    ensures forall s | 0 <= s < BUFFER_COUNT :: Idle(r, s)
  {
    var current := fenceValues[frameIndex];
    EnqueueKeepsAscending(q, current);
    forall s | 0 <= s < BUFFER_COUNT
      ensures Guarded(r, s, fenceValues[s]) && Idle(r, s)
    {
      EnqueueKeepsGuard(q, current, s, fenceValues[s]);
      WaitRetires(r, s, fenceValues[s]);
    }
    GuardAboveLatest(r, frameIndex, current + 1);
  }

  /** After a drain, `resize` copies the current slot's value to every slot;
      whichever back buffer comes next, the invariant holds and its allocator
      is free. */
  lemma ResizeKeepsBookkeeping(q: Queue, fenceValues: seq<nat>, frameIndex: nat, backBuffer: nat)
    requires Bookkeeping(q, fenceValues, frameIndex) && backBuffer < BUFFER_COUNT
    requires forall s | 0 <= s < BUFFER_COUNT :: Idle(q, s)
    ensures Bookkeeping(q, seq(BUFFER_COUNT, _ => fenceValues[frameIndex]), backBuffer)
    ensures Idle(q, backBuffer)
  {
    forall s | 0 <= s < BUFFER_COUNT
      ensures Guarded(q, s, fenceValues[frameIndex])
    {
      GuardAboveLatest(q, s, fenceValues[frameIndex]);
    }
  }

  /** The index of the first failing status, or the length when none fails. */
  function FirstFailed(hrs: seq<HResult>): (k: nat)
    ensures k <= |hrs|
    ensures forall i | 0 <= i < k :: !Failed(hrs[i])
    ensures k < |hrs| ==> Failed(hrs[k])
  {
    if hrs == [] then 0
    else if Failed(hrs[0]) then 0
    else 1 + FirstFailed(hrs[1..])
  }

  /** The first failing index is the one before which nothing fails and at
      which something does (or the end). */
  lemma FirstFailedIs(hrs: seq<HResult>, k: nat)
    requires k <= |hrs| && (forall i | 0 <= i < k :: !Failed(hrs[i])) && (k < |hrs| ==> Failed(hrs[k]))
    ensures FirstFailed(hrs) == k
  {
  }

  /** The calls `getRenderTargets` makes for the first n back buffers: fetch
      buffer i, then create its view at heap start + i * increment. */
  function TargetCalls(start: nat, increment: nat, n: nat): (calls: seq<Call>)
    ensures |calls| == 2 * n
  {
    if n == 0 then []
    else
      TargetCalls(start, increment, n - 1)
      + [GetBuffer(n - 1), CreateRenderTargetView(n - 1, start + (n - 1) * increment)]
  }

  /** Every call `getRenderTargets` makes: the views of the back buffers
      fetched before the first failing fetch, then either that fetch or the
      depth buffer and, when it was created, its view. */
  function TargetsLog(start: nat, increment: nat, getBufferHrs: seq<HResult>,
                      width: nat, height: nat, depthHr: HResult): seq<Call>
  {
    var k := FirstFailed(getBufferHrs);
    TargetCalls(start, increment, k)
    + if k < |getBufferHrs| then [GetBuffer(k)]
      else [CreateDepthBuffer(width, height)] + (if Failed(depthHr) then [] else [CreateDepthStencilView])
  }

  /** What `getRenderTargets` returns: the first failing status, S_OK when
      every buffer was fetched and the depth buffer was created. */
  function TargetsStatus(getBufferHrs: seq<HResult>, depthHr: HResult): (hr: HResult)
    ensures hr == S_OK <==> (forall i | 0 <= i < |getBufferHrs| :: !Failed(getBufferHrs[i])) && !Failed(depthHr)
    ensures hr == S_OK || Failed(hr)
  {
    var k := FirstFailed(getBufferHrs);
    if k < |getBufferHrs| then getBufferHrs[k] else if Failed(depthHr) then depthHr else S_OK
  }

  /** The calls `waitForGpu` makes: the signal, and the wait when the signal
      was queued. */
  function DrainCalls(value: nat, signalHr: HResult): seq<Call> {
    [SignalFence(value)] + (if Failed(signalHr) then [] else [SetEventOnCompletion(value)])
  }

  /** The render-target view table after views were written for the first n
      back buffers: the descriptor at heap start + i * increment names buffer i. */
  function Descriptors(table: map<nat, nat>, start: nat, increment: nat, n: nat): map<nat, nat> {
    if n == 0 then table
    else Descriptors(table, start, increment, n - 1)[start + (n - 1) * increment := n - 1]
  }

  /** With a positive increment the views do not overwrite each other: slot i
      of the heap describes back buffer i for every i < BUFFER_COUNT. */
  lemma {:induction false} DescriptorsLaidOut(table: map<nat, nat>, start: nat, increment: nat, n: nat)
    requires increment > 0
    ensures forall i | 0 <= i < n ::
      start + i * increment in Descriptors(table, start, increment, n)
      && Descriptors(table, start, increment, n)[start + i * increment] == i
  {
    if n > 0 {
      DescriptorsLaidOut(table, start, increment, n - 1);
      forall i | 0 <= i < n - 1
        ensures start + i * increment != start + (n - 1) * increment
      {
        ScaledBelow(i, n - 1, increment);
      }
    }
  }

  /** In the view table, the descriptor at start + i * increment names back
      buffer i, for every back buffer. */
  predicate ViewsAt(table: map<nat, nat>, start: nat, increment: nat) {
    forall i | 0 <= i < BUFFER_COUNT ::
      start + i * increment in table && table[start + i * increment] == i
  }

  /** Distinct back-buffer indices give distinct heap offsets. */
  lemma {:induction false} ScaledBelow(i: nat, j: nat, increment: nat)
    requires i < j && increment > 0
    ensures i * increment < j * increment
    decreases j - i
  {
    assert (i + 1) * increment == i * increment + increment;
    if i + 1 < j {
      ScaledBelow(i + 1, j, increment);
    }
  }

  /** The statuses of `create`'s device-dependent steps, in call order. */
  function DeviceSteps(factoryHr: HResult, chooseHr: HResult, deviceHr: HResult, queueHr: HResult,
                       allocatorHrs: seq<HResult>, listHr: HResult, rtvHeapHr: HResult,
                       dsvHeapHr: HResult, fenceHr: HResult): seq<HResult>
  {
    [factoryHr, chooseHr, deviceHr, queueHr] + allocatorHrs + [listHr, rtvHeapHr, dsvHeapHr, fenceHr]
  }

  /** What the device, DXGI and Win32 report to `create`, in call order.
      `eventError` is 0 when the fence event is created and otherwise the
      `GetLastError` code. */
  datatype Devices = Devices(
    factoryHr: HResult, adapters: seq<Enumerated>, deviceHr: HResult, queueHr: HResult,
    allocatorHrs: seq<HResult>, listHr: HResult,
    rtvHeapHr: HResult, rtvHeapStart: nat, rtvIncrement: nat, dsvHeapHr: HResult,
    fenceHr: HResult, eventError: HResult,
    swapChainHr: HResult, castHr: HResult, latencyHr: HResult, associationHr: HResult,
    backBuffer: nat, getBufferHrs: seq<HResult>, depthHr: HResult)

  /** What the device guarantees: two allocator and buffer statuses, a valid
      back-buffer index, a positive descriptor increment, a Win32 error code
      that is a positive number, and an enumeration that yields adapters or
      failures. */
  predicate DevicesWellFormed(d: Devices) {
    && ValidEnumeration(d.adapters)
    && |d.allocatorHrs| == BUFFER_COUNT && |d.getBufferHrs| == BUFFER_COUNT
    && d.backBuffer < BUFFER_COUNT && d.rtvIncrement > 0 && d.eventError >= 0
  }

  /** Every step of `create` succeeds. */
  predicate CreateSucceeds(d: Devices)
    requires DevicesWellFormed(d)
  {
    && (forall i | 0 <= i < |DeviceStatuses(d)| :: !Failed(DeviceStatuses(d)[i]))
    && d.eventError == 0
    && (forall i | 0 <= i < |WindowStatuses(d)| :: !Failed(WindowStatuses(d)[i]))
  }

  function DeviceStatuses(d: Devices): seq<HResult> {
    DeviceSteps(d.factoryHr, Choose(d.adapters).0, d.deviceHr, d.queueHr, d.allocatorHrs,
                d.listHr, d.rtvHeapHr, d.dsvHeapHr, d.fenceHr)
  }

  function WindowStatuses(d: Devices): seq<HResult> {
    [d.swapChainHr, d.castHr, d.latencyHr, d.associationHr] + d.getBufferHrs + [d.depthHr]
  }

  /** The status `create` reports when the fence event cannot be made, the
      `GetLastError` code converted with `HRESULT_FROM_WIN32` so that `FAILED`
      sees it. */
  function EventStatus(lastError: HResult): (hr: HResult)
    requires lastError > 0
    ensures Failed(hr)
  {
    FromWin32(lastError)
  }

  /** As written, `create` reports a failure to create the fence event by
      returning the raw `GetLastError` code. Every such code is positive: not
      S_OK, yet not a status `FAILED` sees, so the game carries on with a
      context that has no swap chain. Converted, every one is a failure. */
  lemma EventFailureLooksLikeSuccess(lastError: HResult)
    requires lastError > 0
    ensures lastError != S_OK && !Failed(lastError)
    ensures Failed(EventStatus(lastError))
  {
  }

  class Context {
    /** The back buffer being drawn; `frameIndex` of context.h. */
    var frameIndex: nat
    /** The fence value each slot waits for before its allocator is reused. */
    var fenceValues: seq<nat>
    /** The state each back buffer was last transitioned to. */
    var states: seq<BufferState>
    /** Whether `renderTargets[i]` holds a reference to back buffer i. */
    var renderTargets: seq<bool>
    var rtvHeapStart: nat
    var rtvHeapSize: nat
    var rtvDescriptorSize: nat
    /** The render-target views written into the RTV heap: address to back buffer. */
    var rtvDescriptors: map<nat, nat>
    var dsvHeapSize: nat
    var depthWidth: nat
    var depthHeight: nat
    var hasSwapChain: bool
    /** The command queue and the fence. */
    var queue: Queue
    var log: seq<Call>
    /** The thread is blocked for ever in `WaitForSingleObjectEx`. */
    var hung: bool

    predicate Valid()
      reads this
    {
      && |fenceValues| == BUFFER_COUNT && |states| == BUFFER_COUNT
      && |renderTargets| == BUFFER_COUNT
      && frameIndex < BUFFER_COUNT && WellFormed(queue)
    }

    /** The current slot holds the largest stored fence value. */
    predicate CurrentIsLargest()
      reads this
    {
      Valid() && forall s | 0 <= s < BUFFER_COUNT :: fenceValues[s] <= fenceValues[frameIndex]
    }

    predicate Inv()
      reads this
    {
      Valid() && Bookkeeping(queue, fenceValues, frameIndex)
    }

    /** Ready for `prepare`: the invariant holds, the current slot's allocator
        is free, and every back buffer is in the PRESENT state. */
    predicate Ready()
      reads this
    {
      Inv() && Idle(queue, frameIndex) && !hung
      && forall s | 0 <= s < BUFFER_COUNT :: states[s] == PresentState
    }

    /** The render-target view of back buffer i is at heap start + i * increment. */
    predicate ViewsLaidOut()
      reads this
    {
      ViewsAt(rtvDescriptors, rtvHeapStart, rtvDescriptorSize)
    }

    /** The member initialisers of context.h: slot 0, every fence value 0. */
    constructor ()
      ensures Valid() && frameIndex == 0
      ensures fenceValues == [0, 0] && states == [PresentState, PresentState]
      ensures renderTargets == [false, false]
      ensures rtvDescriptors == map[] && rtvHeapSize == 0 && dsvHeapSize == 0 && !hasSwapChain
      ensures queue == Queue([], 0, 0) && log == [] && !hung
    {
      frameIndex := 0;
      fenceValues := [0, 0];
      states := [PresentState, PresentState];
      renderTargets := [false, false];
      rtvHeapStart, rtvHeapSize, rtvDescriptorSize := 0, 0, 0;
      rtvDescriptors := map[];
      dsvHeapSize, depthWidth, depthHeight := 0, 0, 0;
      hasSwapChain := false;
      queue := Queue([], 0, 0);
      log := [];
      hung := false;
    }

    /** `SetEventOnCompletion(target)` followed by
        `WaitForSingleObjectEx(fenceEvent, INFINITE)`: once the event is armed
        the GPU runs on until the fence shows `target`; if the queue can never
        get there, the thread blocks for ever. */
    method WaitFor(target: nat, setEventHr: HResult) returns (hr: HResult)
      requires Valid()
      modifies this`queue, this`log, this`hung
      ensures Valid() && log == old(log) + [SetEventOnCompletion(target)]
      ensures hr == (if Failed(setEventHr) then setEventHr else S_OK)
      ensures Failed(setEventHr) ==> queue == old(queue) && hung == old(hung)
      ensures !Failed(setEventHr) ==> Progressed(old(queue), queue)
      ensures !Failed(setEventHr) ==> hung == (old(hung) || !Reachable(old(queue), target))
      ensures !Failed(setEventHr) && !hung ==> Completed(queue) >= target
    {
      log := log + [SetEventOnCompletion(target)];
      if Failed(setEventHr) {
        return setEventHr;
      }
      if exists d | queue.done <= d <= |queue.items| :: ValueAfter(queue.items, queue.initial, d) >= target {
        var d :| queue.done <= d <= |queue.items| && ValueAfter(queue.items, queue.initial, d) >= target;
        queue := queue.(done := d);
      } else {
        hung := true;
      }
      return S_OK;
    }

    /** `commandQueue->Signal(fence, value)`: the signal is queued behind
        everything submitted so far. */
    method Signal(value: nat, signalHr: HResult) returns (hr: HResult)
      requires Valid()
      modifies this`queue, this`log
      ensures Valid() && log == old(log) + [SignalFence(value)]
      ensures hr == (if Failed(signalHr) then signalHr else S_OK)
      ensures queue == if Failed(signalHr) then old(queue) else Enqueue(old(queue), value)
    {
      log := log + [SignalFence(value)];
      if Failed(signalHr) {
        return signalHr;
      }
      queue := Enqueue(queue, value);
      return S_OK;
    }

    /** `Context::prepare`: reset the current slot's allocator and the command
        list, then transition the current back buffer PRESENT -> RENDER_TARGET.
        The log records whether the allocator was free when it was reset. */
    method Prepare(allocatorHr: HResult, listHr: HResult) returns (hr: HResult)
      requires Valid()
      modifies this`log, this`states
      ensures hr == (if Failed(allocatorHr) then allocatorHr else if Failed(listHr) then listHr else S_OK)
      ensures log == old(log) + [ResetAllocator(frameIndex, Idle(queue, frameIndex))]
        + (if Failed(allocatorHr) then [] else [ResetList(frameIndex)])
        + (if hr == S_OK then [Barrier(frameIndex, PresentState, RenderTargetState)] else [])
      ensures states == if hr == S_OK then old(states)[frameIndex := RenderTargetState] else old(states)
      ensures old(Ready()) ==> log[|old(log)|] == ResetAllocator(frameIndex, true)
    {
      log := log + [ResetAllocator(frameIndex, Idle(queue, frameIndex))];
      if Failed(allocatorHr) {
        return allocatorHr;
      }
      log := log + [ResetList(frameIndex)];
      if Failed(listHr) {
        return listHr;
      }
      log := log + [Barrier(frameIndex, PresentState, RenderTargetState)];
      states := states[frameIndex := RenderTargetState];
      return S_OK;
    }

    /** The first half of `Context::present`: transition the current back
        buffer back to PRESENT, close the list, execute it, present. */
    method EndFrame(closeHr: HResult, presentHr: HResult) returns (hr: HResult)
      requires Valid()
      modifies this`queue, this`log, this`states
      ensures Valid()
      ensures states == old(states)[frameIndex := PresentState]
      ensures hr == (if Failed(closeHr) then closeHr else if Failed(presentHr) then presentHr else S_OK)
      ensures log == old(log) + [Barrier(frameIndex, RenderTargetState, PresentState), CloseList]
        + (if Failed(closeHr) then [] else [ExecuteList(frameIndex), PresentFrame])
      ensures queue == if Failed(closeHr) then old(queue) else Submit(old(queue), frameIndex)
      ensures old(CurrentIsLargest()) ==> CurrentIsLargest()
      ensures old(Inv()) ==> Inv()
    {
      if Inv() && !Failed(closeHr) {
        SubmitKeepsBookkeeping(queue, fenceValues, frameIndex);
      }
      log := log + [Barrier(frameIndex, RenderTargetState, PresentState)];
      states := states[frameIndex := PresentState];
      log := log + [CloseList];
      if Failed(closeHr) {
        return closeHr;
      }
      queue := Submit(queue, frameIndex);
      log := log + [ExecuteList(frameIndex), PresentFrame];
      if Failed(presentHr) {
        return presentHr;
      }
      return S_OK;
    }

    /** The wait at the end of `present`: read the fence, and if it does not
        show `target` yet, wait for it. If the last thing queued signals at
        least `target`, the wait returns. */
    method SyncTo(target: nat, setEventHr: HResult) returns (hr: HResult)
      requires Valid() && !hung
      modifies this`queue, this`log, this`hung
      ensures Valid() && Progressed(old(queue), queue)
      ensures log == old(log) || log == old(log) + [SetEventOnCompletion(target)]
      ensures hr == S_OK || (hr == setEventHr && Failed(setEventHr))
      ensures SignalsAtLeast(old(queue), target) ==> !hung
      ensures hr == S_OK && !hung ==> Completed(queue) >= target
    {
      // the GPU runs on while the fence is read
      var d :| queue.done <= d <= |queue.items|;
      queue := queue.(done := d);
      if Completed(queue) < target {
        if SignalsAtLeast(queue, target) {
          SignalledIsReachable(queue, target);
        }
        hr := WaitFor(target, setEventHr);
      } else {
        hr := S_OK;
      }
    }

    /** The second half of `Context::present`: signal the current slot's
        value, take the new back buffer, read the fence, wait for the new
        slot's stored value if the fence does not show it yet, and store the
        signalled value + 1 in the new slot. */
    method SignalAndAdvance(signalHr: HResult, backBuffer: nat, setEventHr: HResult) returns (hr: HResult)
      requires Valid() && !hung && backBuffer < BUFFER_COUNT
      modifies this`frameIndex, this`queue, this`log, this`hung, this`fenceValues
      ensures Valid()
      ensures Failed(signalHr) ==>
        && hr == signalHr && queue == old(queue) && frameIndex == old(frameIndex)
        && log == old(log) + [SignalFence(old(fenceValues[frameIndex]))]
      ensures !Failed(signalHr) ==>
        && frameIndex == backBuffer && (hr == S_OK || (hr == setEventHr && Failed(setEventHr)))
        && Progressed(Enqueue(old(queue), old(fenceValues[frameIndex])), queue)
        && var signalled := old(log) + [SignalFence(old(fenceValues[frameIndex]))];
           log == signalled || log == signalled + [SetEventOnCompletion(old(fenceValues[backBuffer]))]
      ensures hr == S_OK && !hung ==> Completed(queue) >= old(fenceValues[backBuffer])
      ensures fenceValues == if hr == S_OK && !hung then old(fenceValues)[backBuffer := old(fenceValues[frameIndex]) + 1]
        else old(fenceValues)
      ensures old(CurrentIsLargest()) ==> !hung
      ensures old(Inv()) && hr == S_OK ==> Inv()
      ensures old(Inv()) && hr == S_OK ==> Idle(queue, frameIndex)
    {
      var fi := frameIndex;
      ghost var q0, fv0 := queue, fenceValues;
      var currentFenceValue := fenceValues[fi];
      hr := Signal(currentFenceValue, signalHr);
      if hr != S_OK {
        return;
      }
      frameIndex := backBuffer;
      hr := SyncTo(fenceValues[frameIndex], setEventHr);
      if hr != S_OK || hung {
        return;
      }
      fenceValues := fenceValues[frameIndex := currentFenceValue + 1];
      if old(Inv()) {
        AdvanceKeepsBookkeeping(q0, fv0, fi, backBuffer, queue);
      }
    }

    /** `Context::present`: end the frame, signal the current slot's value,
        move to the swap chain's new back buffer. The wait in it always
        returns when the current slot holds the largest stored value, and a
        successful present keeps the fence bookkeeping with the new slot's
        allocator free. */
    method Present(closeHr: HResult, presentHr: HResult, signalHr: HResult, backBuffer: nat, setEventHr: HResult)
      returns (hr: HResult)
      requires Valid() && !hung && backBuffer < BUFFER_COUNT
      modifies this`frameIndex, this`queue, this`log, this`hung, this`states, this`fenceValues
      ensures Valid()
      ensures states == old(states)[old(frameIndex) := PresentState]
      ensures Failed(closeHr) ==>
        && hr == closeHr && queue == old(queue) && frameIndex == old(frameIndex)
        && log == old(log) + [Barrier(old(frameIndex), RenderTargetState, PresentState), CloseList]
      ensures !Failed(closeHr) && Failed(presentHr) ==>
        && hr == presentHr && queue == Submit(old(queue), old(frameIndex)) && frameIndex == old(frameIndex)
        && log == old(log) + [Barrier(old(frameIndex), RenderTargetState, PresentState), CloseList,
                              ExecuteList(old(frameIndex)), PresentFrame]
      ensures !Failed(closeHr) && !Failed(presentHr) && Failed(signalHr) ==>
        && hr == signalHr && queue == Submit(old(queue), old(frameIndex)) && frameIndex == old(frameIndex)
        && log == old(log) + [Barrier(old(frameIndex), RenderTargetState, PresentState), CloseList,
                              ExecuteList(old(frameIndex)), PresentFrame, SignalFence(old(fenceValues[frameIndex]))]
      ensures !Failed(closeHr) && !Failed(presentHr) && !Failed(signalHr) ==>
        && frameIndex == backBuffer && (hr == S_OK || (hr == setEventHr && Failed(setEventHr)))
        && Progressed(Enqueue(Submit(old(queue), old(frameIndex)), old(fenceValues[frameIndex])), queue)
        && var signalled := old(log) + [Barrier(old(frameIndex), RenderTargetState, PresentState), CloseList,
                                        ExecuteList(old(frameIndex)), PresentFrame,
                                        SignalFence(old(fenceValues[frameIndex]))];
           log == signalled || log == signalled + [SetEventOnCompletion(old(fenceValues[backBuffer]))]
      ensures hr == S_OK && !hung ==> Completed(queue) >= old(fenceValues[backBuffer])
      ensures fenceValues == if hr == S_OK && !hung then old(fenceValues)[backBuffer := old(fenceValues[frameIndex]) + 1]
        else old(fenceValues)
      ensures old(CurrentIsLargest()) ==> !hung
      ensures old(CurrentIsLargest()) ==> forall s | 0 <= s < BUFFER_COUNT :: old(fenceValues[s]) <= fenceValues[s]
      ensures old(CurrentIsLargest()) && (hr == S_OK || frameIndex == old(frameIndex)) ==> CurrentIsLargest()
      ensures old(Inv()) && hr == S_OK ==> Inv()
      ensures old(Inv()) && hr == S_OK ==> Idle(queue, frameIndex)
    {
      hr := EndFrame(closeHr, presentHr);
      if hr != S_OK {
        return;
      }
      hr := SignalAndAdvance(signalHr, backBuffer, setEventHr);
    }

    /** `Context::waitForGpu`: signal the current slot's value, wait for it
        without first reading the fence, and increment that slot's value. The
        wait always returns, and a successful drain keeps the fence
        bookkeeping with every allocator free. */
    method WaitForGpu(signalHr: HResult, setEventHr: HResult) returns (hr: HResult)
      requires Valid() && !hung
      modifies this`queue, this`log, this`hung, this`fenceValues
      ensures Valid() && !hung
      ensures Failed(signalHr) ==>
        hr == signalHr && queue == old(queue) && fenceValues == old(fenceValues)
      ensures log == old(log) + DrainCalls(old(fenceValues[frameIndex]), signalHr)
      ensures !Failed(signalHr) && Failed(setEventHr) ==>
        hr == setEventHr && queue == Enqueue(old(queue), old(fenceValues[frameIndex])) && fenceValues == old(fenceValues)
      ensures !Failed(signalHr) && !Failed(setEventHr) ==>
        && hr == S_OK && Progressed(Enqueue(old(queue), old(fenceValues[frameIndex])), queue)
        && Completed(queue) >= old(fenceValues[frameIndex])
        && fenceValues == old(fenceValues)[frameIndex := old(fenceValues[frameIndex]) + 1]
      ensures old(CurrentIsLargest()) ==> CurrentIsLargest()
      ensures old(Inv()) && hr == S_OK ==> Inv()
      ensures old(Inv()) && hr == S_OK ==> forall s | 0 <= s < BUFFER_COUNT :: Idle(queue, s)
    {
      ghost var q0, fv0 := queue, fenceValues;
      var fenceValue := fenceValues[frameIndex];
      hr := Signal(fenceValue, signalHr);
      if hr != S_OK {
        return;
      }
      SignalledIsReachable(queue, fenceValue);
      hr := WaitFor(fenceValue, setEventHr);
      if hr != S_OK {
        return;
      }
      fenceValues := fenceValues[frameIndex := fenceValue + 1];
      if old(Inv()) {
        DrainKeepsBookkeeping(q0, fv0, frameIndex, queue);
      }
    }

    /** The loop of `getRenderTargets`: for each back buffer in turn, take it
        from the swap chain and write its view at the next RTV heap slot,
        stopping at the first buffer that cannot be taken. */
    method CreateViews(getBufferHrs: seq<HResult>) returns (hr: HResult)
      requires Valid() && |getBufferHrs| == BUFFER_COUNT
      modifies this`log, this`rtvDescriptors, this`renderTargets
      ensures Valid()
      ensures forall i | 0 <= i < BUFFER_COUNT ::
        renderTargets[i] == (i < FirstFailed(getBufferHrs) || old(renderTargets[i]))
      ensures rtvDescriptors == Descriptors(old(rtvDescriptors), rtvHeapStart, rtvDescriptorSize, FirstFailed(getBufferHrs))
      ensures var k := FirstFailed(getBufferHrs);
        && log == old(log) + TargetCalls(rtvHeapStart, rtvDescriptorSize, k) + (if k < BUFFER_COUNT then [GetBuffer(k)] else [])
        && hr == if k < BUFFER_COUNT then getBufferHrs[k] else S_OK
    {
      var rtv := rtvHeapStart;
      for i := 0 to BUFFER_COUNT
        invariant Valid() && rtv == rtvHeapStart + i * rtvDescriptorSize
        invariant forall j | 0 <= j < i :: !Failed(getBufferHrs[j])
        invariant forall j | 0 <= j < BUFFER_COUNT :: renderTargets[j] == (j < i || old(renderTargets[j]))
        invariant rtvDescriptors == Descriptors(old(rtvDescriptors), rtvHeapStart, rtvDescriptorSize, i)
        invariant log == old(log) + TargetCalls(rtvHeapStart, rtvDescriptorSize, i)
      {
        log := log + [GetBuffer(i)];
        if Failed(getBufferHrs[i]) {
          FirstFailedIs(getBufferHrs, i);
          return getBufferHrs[i];
        }
        renderTargets := renderTargets[i := true];
        log := log + [CreateRenderTargetView(i, rtv)];
        rtvDescriptors := rtvDescriptors[rtv := i];
        rtv := rtv + rtvDescriptorSize;
      }
      FirstFailedIs(getBufferHrs, BUFFER_COUNT);
      return S_OK;
    }

    /** `getRenderTargets`: the views of the back buffers, then the depth
        buffer at the window's size and its view. */
    method GetRenderTargets(width: nat, height: nat, getBufferHrs: seq<HResult>, depthHr: HResult) returns (hr: HResult)
      requires Valid() && |getBufferHrs| == BUFFER_COUNT
      modifies this`log, this`rtvDescriptors, this`depthWidth, this`depthHeight, this`renderTargets
      ensures Valid()
      ensures forall i | 0 <= i < BUFFER_COUNT ::
        renderTargets[i] == (i < FirstFailed(getBufferHrs) || old(renderTargets[i]))
      ensures rtvDescriptors == Descriptors(old(rtvDescriptors), rtvHeapStart, rtvDescriptorSize, FirstFailed(getBufferHrs))
      ensures log == old(log) + TargetsLog(rtvHeapStart, rtvDescriptorSize, getBufferHrs, width, height, depthHr)
      ensures hr == TargetsStatus(getBufferHrs, depthHr)
      ensures if hr == S_OK then depthWidth == width && depthHeight == height
        else depthWidth == old(depthWidth) && depthHeight == old(depthHeight)
      ensures hr == S_OK && rtvDescriptorSize > 0 ==> ViewsLaidOut()
    {
      hr := CreateViews(getBufferHrs);
      if hr != S_OK {
        return;
      }
      log := log + [CreateDepthBuffer(width, height)];
      if Failed(depthHr) {
        return depthHr;
      }
      depthWidth, depthHeight := width, height;
      log := log + [CreateDepthStencilView];
      if rtvDescriptorSize > 0 {
        DescriptorsLaidOut(old(rtvDescriptors), rtvHeapStart, rtvDescriptorSize, BUFFER_COUNT);
      }
      return S_OK;
    }

    /** The loop of `resize`: release every back buffer and give every slot
        the current slot's fence value. */
    method ReleaseTargets()
      requires Valid()
      modifies this`fenceValues, this`renderTargets
      ensures Valid()
      ensures var value := old(fenceValues[frameIndex]); fenceValues == seq(BUFFER_COUNT, _ => value)
      ensures renderTargets == seq(BUFFER_COUNT, _ => false)
    {
      for i := 0 to BUFFER_COUNT
        invariant Valid() && fenceValues[frameIndex] == old(fenceValues[frameIndex])
        invariant forall j | 0 <= j < i :: fenceValues[j] == old(fenceValues[frameIndex]) && !renderTargets[j]
      {
        renderTargets := renderTargets[i := false];
        fenceValues := fenceValues[i := fenceValues[frameIndex]];
      }
    }

    /** The first half of `Context::resize`: drain the GPU (its status is not
        checked), release the back buffers and give every slot the current
        slot's fence value, and resize the swap chain's buffers. After a
        successful drain the bookkeeping holds and every allocator is free. */
    method ReleaseBuffers(drainSignalHr: HResult, drainEventHr: HResult, resizeHr: HResult) returns (hr: HResult)
      requires Valid() && !hung
      modifies this`queue, this`log, this`hung, this`fenceValues, this`renderTargets
      ensures Valid() && !hung && CurrentIsLargest()
      ensures var drained := !Failed(drainSignalHr) && !Failed(drainEventHr);
        var value := old(fenceValues[frameIndex]) + (if drained then 1 else 0);
        fenceValues == seq(BUFFER_COUNT, _ => value)
      ensures renderTargets == seq(BUFFER_COUNT, _ => false)
      ensures log == old(log) + DrainCalls(old(fenceValues[frameIndex]), drainSignalHr) + [ResizeBuffers]
      ensures hr == if Failed(resizeHr) then resizeHr else S_OK
      ensures old(Inv()) && !Failed(drainSignalHr) && !Failed(drainEventHr) ==>
        forall b | 0 <= b < BUFFER_COUNT :: Bookkeeping(queue, fenceValues, b) && Idle(queue, b)
    {
      var drainHr := WaitForGpu(drainSignalHr, drainEventHr);
      ghost var fv1 := fenceValues;
      ReleaseTargets();
      if old(Inv()) && drainHr == S_OK {
        forall b | 0 <= b < BUFFER_COUNT
          ensures Bookkeeping(queue, fenceValues, b) && Idle(queue, b)
        {
          ResizeKeepsBookkeeping(queue, fv1, frameIndex, b);
        }
      }
      log := log + [ResizeBuffers];
      if Failed(resizeHr) {
        return resizeHr;
      }
      return S_OK;
    }

    /** The second half of `Context::resize`: the resized buffers start in
        the PRESENT state; take the new back-buffer index and rebuild the
        views and the depth buffer. */
    method Rebuild(width: nat, height: nat, backBuffer: nat, getBufferHrs: seq<HResult>, depthHr: HResult)
      returns (hr: HResult)
      requires Valid() && backBuffer < BUFFER_COUNT && |getBufferHrs| == BUFFER_COUNT
      modifies this`frameIndex, this`log, this`rtvDescriptors, this`depthWidth, this`depthHeight,
        this`renderTargets, this`states
      ensures Valid() && frameIndex == backBuffer
      ensures forall s | 0 <= s < BUFFER_COUNT :: states[s] == PresentState
      ensures log == old(log) + TargetsLog(rtvHeapStart, rtvDescriptorSize, getBufferHrs, width, height, depthHr)
      ensures hr == TargetsStatus(getBufferHrs, depthHr)
      ensures hr == S_OK ==>
        && depthWidth == width && depthHeight == height
        && (forall s | 0 <= s < BUFFER_COUNT :: renderTargets[s])
        && (rtvDescriptorSize > 0 ==> ViewsLaidOut())
    {
      states := seq(BUFFER_COUNT, _ => PresentState);
      frameIndex := backBuffer;
      hr := GetRenderTargets(width, height, getBufferHrs, depthHr);
    }

    /** `Context::resize`: release the buffers, take the new back-buffer
        index, and rebuild the views and the depth buffer at the new size.
        After a successful drain and rebuild the context is ready for the
        next frame. */
    method Resize(width: nat, height: nat, drainSignalHr: HResult, drainEventHr: HResult, resizeHr: HResult,
                  backBuffer: nat, getBufferHrs: seq<HResult>, depthHr: HResult) returns (hr: HResult)
      requires Valid() && !hung && backBuffer < BUFFER_COUNT && |getBufferHrs| == BUFFER_COUNT
      modifies this`frameIndex, this`queue, this`log, this`hung, this`rtvDescriptors, this`depthWidth,
        this`depthHeight, this`fenceValues, this`renderTargets, this`states
      ensures Valid() && !hung && CurrentIsLargest()
      ensures var drained := !Failed(drainSignalHr) && !Failed(drainEventHr);
        var value := old(fenceValues[frameIndex]) + (if drained then 1 else 0);
        fenceValues == seq(BUFFER_COUNT, _ => value)
      ensures old(CurrentIsLargest()) ==> forall s | 0 <= s < BUFFER_COUNT :: old(fenceValues[s]) <= fenceValues[s]
      ensures log == old(log) + DrainCalls(old(fenceValues[frameIndex]), drainSignalHr) + [ResizeBuffers]
        + if Failed(resizeHr) then []
          else TargetsLog(rtvHeapStart, rtvDescriptorSize, getBufferHrs, width, height, depthHr)
      ensures Failed(resizeHr) ==>
        && hr == resizeHr && frameIndex == old(frameIndex) && states == old(states)
        && forall s | 0 <= s < BUFFER_COUNT :: !renderTargets[s]
      ensures !Failed(resizeHr) ==>
        && frameIndex == backBuffer && (forall s | 0 <= s < BUFFER_COUNT :: states[s] == PresentState)
        && hr == TargetsStatus(getBufferHrs, depthHr)
      ensures hr == S_OK ==>
        && depthWidth == width && depthHeight == height
        && (forall s | 0 <= s < BUFFER_COUNT :: renderTargets[s])
        && (rtvDescriptorSize > 0 ==> ViewsLaidOut())
      ensures old(Inv()) && !Failed(drainSignalHr) && !Failed(drainEventHr) && hr == S_OK ==> Ready()
    {
      hr := ReleaseBuffers(drainSignalHr, drainEventHr, resizeHr);
      if hr != S_OK {
        return;
      }
      hr := Rebuild(width, height, backBuffer, getBufferHrs, depthHr);
    }

    /** The device-dependent half of `Context::create`: factory, adapter,
        device, queue, one allocator per slot, the command list, an RTV heap of
        BUFFER_COUNT descriptors, a DSV heap of one, the fence at
        `fenceValues[0]`, and the fence event, whose failure is reported as a
        failing HRESULT. */
    method CreateDeviceObjects(d: Devices) returns (hr: HResult)
      requires Valid() && DevicesWellFormed(d)
      modifies this`queue, this`rtvHeapStart, this`rtvHeapSize, this`rtvDescriptorSize, this`dsvHeapSize
      ensures Valid()
      ensures hr == S_OK <==>
        (forall i | 0 <= i < |DeviceStatuses(d)| :: !Failed(DeviceStatuses(d)[i])) && d.eventError == 0
      ensures hr == S_OK || Failed(hr)
      ensures hr == S_OK ==>
        && rtvHeapSize == BUFFER_COUNT && dsvHeapSize == 1
        && rtvHeapStart == d.rtvHeapStart && rtvDescriptorSize == d.rtvIncrement
        && queue == Queue([], 0, fenceValues[0])
    {
      var statuses := DeviceStatuses(d);
      if Failed(d.factoryHr) {
        assert Failed(statuses[0]);
        return d.factoryHr;
      }
      var chooseHr, adapter := ChooseAdapter(d.adapters);
      ChosenIsHardware(d.adapters, 0, None);
      if Failed(chooseHr) {
        assert Failed(statuses[1]);
        return chooseHr;
      }
      if Failed(d.deviceHr) {
        assert Failed(statuses[2]);
        return d.deviceHr;
      }
      if Failed(d.queueHr) {
        assert Failed(statuses[3]);
        return d.queueHr;
      }
      for i := 0 to BUFFER_COUNT
        invariant forall j | 0 <= j < i :: !Failed(d.allocatorHrs[j])
      {
        if Failed(d.allocatorHrs[i]) {
          assert Failed(statuses[4 + i]);
          return d.allocatorHrs[i];
        }
      }
      if Failed(d.listHr) {
        assert Failed(statuses[6]);
        return d.listHr;
      }
      if Failed(d.rtvHeapHr) {
        assert Failed(statuses[7]);
        return d.rtvHeapHr;
      }
      rtvHeapStart, rtvHeapSize, rtvDescriptorSize := d.rtvHeapStart, BUFFER_COUNT, d.rtvIncrement;
      if Failed(d.dsvHeapHr) {
        assert Failed(statuses[8]);
        return d.dsvHeapHr;
      }
      dsvHeapSize := 1;
      if Failed(d.fenceHr) {
        assert Failed(statuses[9]);
        return d.fenceHr;
      }
      queue := Queue([], 0, fenceValues[0]);
      assert forall i | 0 <= i < |statuses| :: !Failed(statuses[i]);
      if d.eventError != 0 {
        return EventStatus(d.eventError);
      }
      return S_OK;
    }

    /** The window-dependent half of `Context::create`: the swap chain, its
        frame latency and window association, the current back-buffer index,
        and the render targets at the window's size. */
    method CreateWindowObjects(width: nat, height: nat, d: Devices) returns (hr: HResult)
      requires Valid() && DevicesWellFormed(d) && rtvDescriptorSize > 0
      modifies this`frameIndex, this`hasSwapChain, this`log, this`rtvDescriptors, this`depthWidth,
        this`depthHeight, this`renderTargets
      ensures Valid()
      ensures hr == S_OK <==> forall i | 0 <= i < |WindowStatuses(d)| :: !Failed(WindowStatuses(d)[i])
      ensures hr == S_OK || Failed(hr)
      ensures hr == S_OK ==>
        && frameIndex == d.backBuffer && hasSwapChain && ViewsLaidOut()
        && depthWidth == width && depthHeight == height
        && forall s | 0 <= s < BUFFER_COUNT :: renderTargets[s]
      ensures !hasSwapChain ==> frameIndex == old(frameIndex) && log == old(log)
      ensures log == old(log) || log == old(log) + TargetsLog(rtvHeapStart, rtvDescriptorSize, d.getBufferHrs, width, height, d.depthHr)
      ensures old(hasSwapChain) ==> hasSwapChain
    {
      var window := WindowStatuses(d);
      if Failed(d.swapChainHr) {
        assert Failed(window[0]);
        return d.swapChainHr;
      }
      if Failed(d.castHr) {
        assert Failed(window[1]);
        return d.castHr;
      }
      hasSwapChain := true;
      if Failed(d.latencyHr) {
        assert Failed(window[2]);
        return d.latencyHr;
      }
      if Failed(d.associationHr) {
        assert Failed(window[3]);
        return d.associationHr;
      }
      frameIndex := d.backBuffer;
      hr := GetRenderTargets(width, height, d.getBufferHrs, d.depthHr);
      var k := FirstFailed(d.getBufferHrs);
      if k < BUFFER_COUNT {
        assert Failed(window[4 + k]);
      } else if Failed(d.depthHr) {
        assert Failed(window[6]);
      }
      if Failed(hr) {
        return hr;
      }
      return S_OK;
    }

    /** `Context::create`: the device-dependent objects, then the
        window-dependent ones; the first failure is returned. */
    method Create(width: nat, height: nat, d: Devices) returns (hr: HResult)
      requires Valid() && DevicesWellFormed(d) && !hasSwapChain
      modifies this`frameIndex, this`queue, this`rtvHeapStart, this`rtvHeapSize, this`rtvDescriptorSize,
        this`dsvHeapSize, this`hasSwapChain, this`log, this`rtvDescriptors, this`depthWidth,
        this`depthHeight, this`renderTargets
      ensures Valid()
      ensures hr == S_OK <==> CreateSucceeds(d)
      ensures hr == S_OK || Failed(hr)
      ensures hr == S_OK ==>
        && rtvHeapSize == BUFFER_COUNT && dsvHeapSize == 1
        && rtvHeapStart == d.rtvHeapStart && rtvDescriptorSize == d.rtvIncrement
        && queue == Queue([], 0, fenceValues[0]) && frameIndex == d.backBuffer && hasSwapChain
        && ViewsLaidOut() && depthWidth == width && depthHeight == height
        && forall s | 0 <= s < BUFFER_COUNT :: renderTargets[s]
      ensures !hasSwapChain ==> frameIndex == old(frameIndex) && log == old(log)
      ensures log == old(log) || log == old(log) + TargetsLog(rtvHeapStart, rtvDescriptorSize, d.getBufferHrs, width, height, d.depthHr)
    {
      hr := CreateDeviceObjects(d);
      if hr != S_OK {
        return hr;
      }
      hr := CreateWindowObjects(width, height, d);
    }
  }
}
