/** `chooseAdapter`: walk the DXGI adapters in enumeration order and take the
    first hardware adapter on which a feature-level 11.0 device can be made. */
module AdapterChoice {
  import opened HResults

  /** What `EnumAdapters1(i)` yields: an adapter, whose `As` cast may fail, which
      may be a software adapter, and whose device probe may fail; or a failing
      status. Past the last entry the enumeration reports DXGI_ERROR_NOT_FOUND. */
  datatype Enumerated =
    | Adapter(castHr: HResult, software: bool, probeHr: HResult)
    | EnumError(hr: HResult)

  /** `EnumAdapters1` either succeeds with an adapter or fails. */
  predicate ValidEnumeration(adapters: seq<Enumerated>) {
    forall i | 0 <= i < |adapters| :: adapters[i].EnumError? ==> Failed(adapters[i].hr)
  }

  /** An adapter the loop stops at: cast and probe succeed, not software. */
  predicate Usable(e: Enumerated) {
    e.Adapter? && !Failed(e.castHr) && !e.software && !Failed(e.probeHr)
  }

  /** An entry the loop passes over: enumerated and cast, but software or failing the probe. */
  predicate PassedOver(e: Enumerated) {
    e.Adapter? && !Failed(e.castHr) && (e.software || Failed(e.probeHr))
  }

  /** After the loop: no adapter held means the enumeration status is
      returned; a held adapter is returned with S_OK. */
  function Conclude(adapter: Option<nat>): (HResult, Option<nat>) {
    if adapter.None? then (DXGI_ERROR_NOT_FOUND, None) else (S_OK, adapter)
  }

  /** The loop from enumeration index `i`, holding `adapter`. A probe failure
      continues without releasing the adapter; a software adapter is released. */
  function ChooseFrom(adapters: seq<Enumerated>, i: nat, adapter: Option<nat>): (HResult, Option<nat>)
    requires i <= |adapters|
    decreases |adapters| - i
  {
    if i == |adapters| then Conclude(adapter)
    else
      match adapters[i]
      case EnumError(e) => if e == DXGI_ERROR_NOT_FOUND then Conclude(adapter) else (e, None)
      case Adapter(castHr, software, probeHr) =>
        if Failed(castHr) then (castHr, None)
        else if software then ChooseFrom(adapters, i + 1, None)
        else if Failed(probeHr) then ChooseFrom(adapters, i + 1, Some(i))
        else (S_OK, Some(i))
  }

  function Choose(adapters: seq<Enumerated>): (HResult, Option<nat>) {
    ChooseFrom(adapters, 0, None)
  }

  /** The enumeration loop of `chooseAdapter`. */
  method ChooseAdapter(adapters: seq<Enumerated>) returns (hr: HResult, adapter: Option<nat>)
    requires ValidEnumeration(adapters)
    ensures (hr, adapter) == Choose(adapters)
  {
    adapter := None;
    var adapterIndex := 0;
    while true
      invariant adapterIndex <= |adapters|
      invariant ChooseFrom(adapters, adapterIndex, adapter) == Choose(adapters)
      decreases |adapters| - adapterIndex
    {
      if adapterIndex == |adapters| {
        hr := DXGI_ERROR_NOT_FOUND;
        break;
      }
      match adapters[adapterIndex]
      case EnumError(e) =>
        hr := e;
        if hr == DXGI_ERROR_NOT_FOUND {
          break;
        }
        return hr, None;
      case Adapter(castHr, software, probeHr) =>
        if Failed(castHr) {
          return castHr, None;
        }
        adapter := Some(adapterIndex);
        if software {
          adapter := None;
          adapterIndex := adapterIndex + 1;
          continue;
        }
        hr := probeHr;
        if Failed(hr) {
          adapterIndex := adapterIndex + 1;
          continue;
        }
        break;
    }
    if adapter.None? {
      return hr, None;
    }
    return S_OK, adapter;
  }

  /** Whatever is returned is a hardware adapter that was cast successfully,
      and it comes with S_OK; with no adapter a failure is returned. */
  lemma {:induction false} ChosenIsHardware(adapters: seq<Enumerated>, i: nat, adapter: Option<nat>)
    requires i <= |adapters| && ValidEnumeration(adapters)
    requires adapter.Some? ==>
      (adapter.value < |adapters| && adapters[adapter.value].Adapter?
       && !adapters[adapter.value].software && !Failed(adapters[adapter.value].castHr))
    ensures var (hr, chosen) := ChooseFrom(adapters, i, adapter);
      && (chosen.Some? ==>
            (hr == S_OK && chosen.value < |adapters| && adapters[chosen.value].Adapter?
             && !adapters[chosen.value].software && !Failed(adapters[chosen.value].castHr)))
      && (chosen.None? ==> Failed(hr))
    decreases |adapters| - i
  {
    if i < |adapters| && adapters[i].Adapter? && !Failed(adapters[i].castHr) {
      if adapters[i].software {
        ChosenIsHardware(adapters, i + 1, None);
      } else if Failed(adapters[i].probeHr) {
        ChosenIsHardware(adapters, i + 1, Some(i));
      }
    }
  }

  /** The first usable adapter wins, provided every adapter before it was
      enumerated and cast successfully. */
  lemma {:induction false} FirstUsableWins(adapters: seq<Enumerated>, i: nat, adapter: Option<nat>, k: nat)
    requires i <= k < |adapters| && Usable(adapters[k])
    requires forall j | i <= j < k :: PassedOver(adapters[j])
    ensures ChooseFrom(adapters, i, adapter) == (S_OK, Some(k))
    decreases k - i
  {
    if i < k {
      var e := adapters[i];
      assert PassedOver(e);
      if e.software {
        FirstUsableWins(adapters, i + 1, None, k);
      } else {
        FirstUsableWins(adapters, i + 1, Some(i), k);
      }
    }
  }

  /** With only passed-over adapters left, the loop ends holding the last
      hardware adapter whose probe failed, and returns it with S_OK; with none
      (all software, or no adapters at all) it returns DXGI_ERROR_NOT_FOUND. */
  lemma {:induction false} NoUsableAdapter(adapters: seq<Enumerated>, i: nat, adapter: Option<nat>)
    requires i <= |adapters|
    requires forall j | i <= j < |adapters| :: PassedOver(adapters[j])
    ensures ChooseFrom(adapters, i, adapter) == Conclude(LastHeld(adapters, i, adapter))
    decreases |adapters| - i
  {
    if i < |adapters| {
      if adapters[i].software {
        NoUsableAdapter(adapters, i + 1, None);
      } else {
        NoUsableAdapter(adapters, i + 1, Some(i));
      }
    }
  }

  /** The adapter held when the loop runs past the end: the last entry when it
      is hardware, None when it is software, and the one held before when
      there is no entry left. */
  function LastHeld(adapters: seq<Enumerated>, i: nat, adapter: Option<nat>): Option<nat>
    requires i <= |adapters|
  {
    if i == |adapters| then adapter
    else if adapters[|adapters| - 1].Adapter? && adapters[|adapters| - 1].software then None
    else Some(|adapters| - 1)
  }

  /** The cases the enumeration contract promises: no adapters gives
      DXGI_ERROR_NOT_FOUND, and a last adapter that fails its probe after
      passed-over ones is returned with S_OK. */
  lemma ChooseEdgeCases(adapters: seq<Enumerated>)
    requires forall j | 0 <= j < |adapters| :: PassedOver(adapters[j])
    ensures adapters == [] ==> Choose(adapters) == (DXGI_ERROR_NOT_FOUND, None)
    ensures adapters != [] && adapters[|adapters| - 1].Adapter? && !adapters[|adapters| - 1].software ==>
      Choose(adapters) == (S_OK, Some((|adapters| - 1) as nat))
    ensures (forall j | 0 <= j < |adapters| :: adapters[j].Adapter? && adapters[j].software) ==>
      Choose(adapters) == (DXGI_ERROR_NOT_FOUND, None)
  {
    NoUsableAdapter(adapters, 0, None);
  }
}
