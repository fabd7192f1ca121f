/** The GPU side of the frame loop, as the CPU code relies on it: one command
    queue that runs submitted command lists and fence signals in order, and
    one fence whose completed value is the value of the last signal the GPU
    has processed (Direct3D 12 fences take the signalled value, so the value
    only rises if the signals do). The GPU's progress is not under the
    program's control; a queue records how far it has got. */
module GpuQueue {

  /** An item of the command queue: a command list recorded with a slot's
      allocator, or a fence signal. */
  datatype Work = Run(slot: nat) | Signal(value: nat)

  /** The submitted items, how many of them the GPU has finished, and the
      value the fence was created with. */
  datatype Queue = Queue(items: seq<Work>, done: nat, initial: nat)

  predicate WellFormed(q: Queue) {
    q.done <= |q.items|
  }

  /** The fence value once the GPU has processed the first `n` items. */
  function ValueAfter(items: seq<Work>, initial: nat, n: nat): nat
    requires n <= |items|
  {
    if n == 0 then initial
    else if items[n - 1].Signal? then items[n - 1].value
    else ValueAfter(items, initial, n - 1)
  }

  /** `ID3D12Fence::GetCompletedValue`. */
  function Completed(q: Queue): nat
    requires WellFormed(q)
  {
    ValueAfter(q.items, q.initial, q.done)
  }

  /** The fence value once everything submitted has run. */
  function Latest(q: Queue): nat {
    ValueAfter(q.items, q.initial, |q.items|)
  }

  /** No command list recorded with `slot`'s allocator is still waiting or
      running, so the allocator may be reset. */
  predicate Idle(q: Queue, slot: nat) {
    forall p | q.done <= p < |q.items| :: q.items[p] != Run(slot)
  }

  /** Signals never lower the fence: each is at least the creation value and
      at least every earlier signal. */
  predicate Ascending(q: Queue) {
    && (forall i | 0 <= i < |q.items| && q.items[i].Signal? :: q.initial <= q.items[i].value)
    && (forall i, j | 0 <= i < j < |q.items| && q.items[i].Signal? && q.items[j].Signal? ::
          q.items[i].value <= q.items[j].value)
  }

  /** Every command list of `slot` was submitted while the value the fence
      would reach by then was below `guard`: a fence value of `guard` can
      only be seen after all of them have run. */
  predicate Guarded(q: Queue, slot: nat, guard: nat) {
    forall p {:trigger ValueAfter(q.items, q.initial, p)} | 0 <= p < |q.items| && q.items[p] == Run(slot) ::
      ValueAfter(q.items, q.initial, p) < guard
  }

  /** `ExecuteCommandLists` with a list recorded on `slot`'s allocator. */
  function Submit(q: Queue, slot: nat): (r: Queue)
    ensures r.items == q.items + [Run(slot)] && r.done == q.done && r.initial == q.initial
  {
    q.(items := q.items + [Run(slot)])
  }

  /** `ID3D12CommandQueue::Signal`. */
  function Enqueue(q: Queue, value: nat): (r: Queue)
    ensures r.items == q.items + [Signal(value)] && r.done == q.done && r.initial == q.initial
  {
    q.(items := q.items + [Signal(value)])
  }

  /** The GPU may have finished more of the queue, never less. */
  predicate Progressed(q: Queue, r: Queue) {
    r.items == q.items && r.initial == q.initial && q.done <= r.done <= |q.items|
  }

  /** The fence's value is the value of the last processed signal, which in
      an ascending queue is the largest one processed. */
  lemma {:induction false} ValueAfterBounds(items: seq<Work>, initial: nat, n: nat)
    requires n <= |items|
    ensures ValueAfter(items, initial, n) == initial
      || exists i | 0 <= i < n :: items[i].Signal? && ValueAfter(items, initial, n) == items[i].value
  {
    if n > 0 && !items[n - 1].Signal? {
      ValueAfterBounds(items, initial, n - 1);
    }
  }

  /** In an ascending queue the fence only rises as the GPU advances. */
  lemma {:induction false} ValueAfterMonotone(q: Queue, m: nat, n: nat)
    requires Ascending(q) && m <= n <= |q.items|
    ensures ValueAfter(q.items, q.initial, m) <= ValueAfter(q.items, q.initial, n)
    decreases n - m
  {
    if m < n {
      if q.items[n - 1].Signal? {
        ValueAfterBounds(q.items, q.initial, m);
      } else {
        ValueAfterMonotone(q, m, n - 1);
      }
    }
  }

  /** Appending to the queue does not change what the fence shows after
      items that were already there. */
  lemma {:induction false} ValueAfterAppend(items: seq<Work>, more: seq<Work>, initial: nat, n: nat)
    requires n <= |items|
    ensures ValueAfter(items + more, initial, n) == ValueAfter(items, initial, n)
  {
    if n > 0 {
      assert (items + more)[n - 1] == items[n - 1];
      ValueAfterAppend(items, more, initial, n - 1);
    }
  }

  /** The central fact the frame loop relies on: once the fence shows at
      least `guard`, every command list guarded by `guard` has run, so the
      allocator it was recorded with may be reset. */
  lemma WaitRetires(q: Queue, slot: nat, guard: nat)
    requires WellFormed(q) && Ascending(q) && Guarded(q, slot, guard) && Completed(q) >= guard
    ensures Idle(q, slot)
  {
    forall p | q.done <= p < |q.items|
      ensures q.items[p] != Run(slot)
    {
      ValueAfterMonotone(q, q.done, p);
    }
  }

  /** Some amount of further GPU progress shows the fence at `target` or above:
      a wait for `target` returns. */
  predicate Reachable(q: Queue, target: nat) {
    exists d | q.done <= d <= |q.items| :: ValueAfter(q.items, q.initial, d) >= target
  }

  /** The last thing queued is a signal of `target` or more. */
  predicate SignalsAtLeast(q: Queue, target: nat) {
    |q.items| > 0 && q.items[|q.items| - 1].Signal? && q.items[|q.items| - 1].value >= target
  }

  /** Waiting for a value no higher than the last queued signal always
      returns: the GPU reaches that signal by running to the end. */
  lemma SignalledIsReachable(q: Queue, target: nat)
    requires WellFormed(q) && SignalsAtLeast(q, target)
    ensures Reachable(q, target)
  {
    assert ValueAfter(q.items, q.initial, |q.items|) >= target;
  }

  /** Submitting a list leaves the signals, hence the fence's final value and
      the ordering of signals, as they were. */
  lemma SubmitKeepsSignals(q: Queue, slot: nat)
    ensures Latest(Submit(q, slot)) == Latest(q)
    ensures Ascending(q) ==> Ascending(Submit(q, slot))
  {
    ValueAfterAppend(q.items, [Run(slot)], q.initial, |q.items|);
  }

  /** Submitting a list while the fence is headed below `guard` keeps the
      slot guarded. */
  lemma SubmitKeepsGuard(q: Queue, slot: nat, guard: nat, other: nat, otherGuard: nat)
    requires Guarded(q, other, otherGuard)
    requires other == slot ==> Latest(q) < otherGuard
    ensures Guarded(Submit(q, slot), other, otherGuard)
  {
    var r := Submit(q, slot);
    forall p | 0 <= p < |r.items| && r.items[p] == Run(other)
      ensures ValueAfter(r.items, r.initial, p) < otherGuard
    {
      ValueAfterAppend(q.items, [Run(slot)], q.initial, p);
    }
  }

  /** Signalling keeps every guard. */
  lemma EnqueueKeepsGuard(q: Queue, value: nat, slot: nat, guard: nat)
    requires Guarded(q, slot, guard)
    ensures Guarded(Enqueue(q, value), slot, guard)
  {
    var r := Enqueue(q, value);
    forall p | 0 <= p < |r.items| && r.items[p] == Run(slot)
      ensures ValueAfter(r.items, r.initial, p) < guard
    {
      ValueAfterAppend(q.items, [Signal(value)], q.initial, p);
    }
  }

  /** Raising a guard above everything the fence can reach guards every list. */
  lemma GuardAboveLatest(q: Queue, slot: nat, guard: nat)
    requires Ascending(q) && Latest(q) < guard
    ensures Guarded(q, slot, guard)
  {
    forall p | 0 <= p < |q.items| && q.items[p] == Run(slot)
      ensures ValueAfter(q.items, q.initial, p) < guard
    {
      ValueAfterMonotone(q, p, |q.items|);
    }
  }

  /** A signal no lower than the fence's final value keeps the queue ascending. */
  lemma EnqueueKeepsAscending(q: Queue, value: nat)
    requires Ascending(q) && Latest(q) <= value
    ensures Ascending(Enqueue(q, value))
  {
    forall i | 0 <= i < |q.items| && q.items[i].Signal?
      ensures q.items[i].value <= value
    {
      ValueAfterMonotone(q, i + 1, |q.items|);
    }
    ValueAfterBounds(q.items, q.initial, |q.items|);
    if q.items != [] {
      ValueAfterMonotone(q, 0, |q.items|);
    }
  }
}
