# A verified model of the d3d12 sample game's frame loop and asset pipeline

This project models in Dafny the core of a small Direct3D 12 renderer and its offline asset builder.

- **The frame context** (`code/game/context.cpp`, `code/game/context.h`). Two back buffers, one command allocator per slot and one fence. A slot's allocator may be reset only once the fence has passed the value stored for that slot. `create`, `resize`, `prepare`, `present` and `waitForGpu` are methods of the class `FrameContext.Context`. The class holds the slot index, the fence values, the back-buffer states, the render-target references and views, and a log of the calls made on the device. The GPU side is a pure model in module `GpuQueue`: a queue of submitted lists and signals, of which the GPU has processed a prefix. The property the bookkeeping exists for is proved from it: every allocator reset in a run where every call succeeds finds its allocator free (`ResetsIdle`).
- **The game's driver** (`code/game/game.cpp`). `wWinMain`'s startup, the mesh upload, the constant buffers, the main loop over a script of window messages and frames, and `WindowProc`. These are methods of the class `Game.App`.
- **The mesh loader** (`code/game/mesh.cpp`). It reads the headers of the mesh file and lays a vertex view and an index view per group over the one buffer (module `MeshLayout`).
- **The OBJ converter** (`code/tools/asset-builder/mesh.cpp`). Line dispatch, vertex deduplication keyed on the 1-based (position, normal, texcoord) triple, triangulation of quads, and the two write loops of the binary file. Modules `ObjKey`, `ObjMesh` and `MeshFormat`.
  - `ObjMeshProofs` checks the converter against a reference that keeps one vertex per triangle corner. The reference skips a face with fewer than three complete corners, as the converter evidently intends (`StepIntended`); the converter as written pads such a face with index 0 (see Findings), and matches the reference on every file without such faces.
  - `MeshLayout.RoundTrip` ties the writer to the game's reader.
- **The asset builder's driver** (`code/tools/asset-builder/asset-builder.cpp`). The incremental `build` loop and `main` (module `AssetBuilder`).

How the world outside the program is modelled:

- Each call into Windows, DXGI or Direct3D is a parameter holding the status it returns. Examples are `Devices`, `Startup`, `FrameOutcome`, `ResizeOutcome` and the asset builder's `FileSystem`.
- `HRESULT` is an `int`; `FAILED` is a negative value (`HResults.Failed`).
- The GPU's progress is chosen where the CPU reads the fence or waits: any amount of further progress (`Progressed`). A wait for a value the queue will never signal leaves the thread `hung`.

## Model

| member | source | states |
|---|---|---|
| HResults.FromWin32 | code/game/context.cpp:71-74 | A positive Win32 code becomes a value `FAILED` recognises; zero and HRESULTs pass through unchanged. |
| GpuQueue.Submit | code/game/context.cpp:229 | `ExecuteCommandLists` appends one list of the slot and leaves GPU progress unchanged. |
| GpuQueue.Enqueue | code/game/context.cpp:233-234 | `Signal` appends one signal of the value and leaves GPU progress unchanged. |
| GpuQueue.ValueAfterBounds | code/game/context.cpp:67-69 | Before the GPU processes any signal, the fence holds the value it was created with. |
| GpuQueue.ValueAfterMonotone | code/game/context.cpp:233-241 | With ascending signals the fence never goes down as the GPU advances. |
| GpuQueue.ValueAfterAppend | code/game/context.cpp:229-234 | Queuing more work does not change what the fence shows for work already processed. |
| GpuQueue.WaitRetires | code/game/context.cpp:237-241 | Once the fence reaches a slot's guard value, no list of that slot is still queued or running. The slot's allocator is free. |
| GpuQueue.SignalledIsReachable | code/game/context.cpp:233-241 | Waiting for a value no higher than the last queued signal can always be satisfied by further GPU progress. |
| GpuQueue.SubmitKeepsSignals | code/game/context.cpp:229 | Submitting a list changes neither the final fence value nor ascending order. |
| GpuQueue.SubmitKeepsGuard | code/game/context.cpp:229-234 | A list submitted while the fence is headed below a slot's guard keeps that slot guarded. |
| GpuQueue.EnqueueKeepsGuard | code/game/context.cpp:233-234 | Signalling keeps every slot's guard. |
| GpuQueue.GuardAboveLatest | code/game/context.cpp:236-242 | A guard above every value the fence can reach guards every list. |
| GpuQueue.EnqueueKeepsAscending | code/game/context.cpp:233-234 | Signalling a value at least the fence's final value keeps the signals ascending. |
| AdapterChoice.ChooseAdapter | code/game/context.cpp:104-140 | The enumeration loop returns what the recursive definition `Choose` gives, over any enumeration. |
| AdapterChoice.ChosenIsHardware | code/game/context.cpp:104-140 | A returned adapter is a hardware adapter whose cast succeeded, and it comes with S_OK. With no adapter, a failing status is returned. |
| AdapterChoice.FirstUsableWins | code/game/context.cpp:110-131 | The first hardware adapter whose probe succeeds is chosen, when every entry before it was skipped. |
| AdapterChoice.NoUsableAdapter | code/game/context.cpp:121-136 | With only skipped adapters, the last hardware adapter that failed its probe is returned with S_OK. If none failed a probe, DXGI_ERROR_NOT_FOUND is returned. |
| AdapterChoice.ChooseEdgeCases | code/game/context.cpp:111-136 | No adapters, or only software adapters, give DXGI_ERROR_NOT_FOUND. A final probe-failing hardware adapter is returned with S_OK. |
| FrameContext.SubmitKeepsBookkeeping | code/game/context.cpp:226-229 | Executing the current slot's list keeps the fence bookkeeping: every slot stays guarded by its stored value. |
| FrameContext.AdvanceKeepsBookkeeping | code/game/context.cpp:233-242 | Signalling the current value, then waiting for the next slot's value and storing value + 1, keeps the bookkeeping. It also frees the next slot's allocator. |
| FrameContext.DrainKeepsBookkeeping | code/game/context.cpp:247-255 | `waitForGpu` keeps the bookkeeping and leaves every slot's allocator free. |
| FrameContext.ResizeKeepsBookkeeping | code/game/context.cpp:143-153 | After a drain, copying the current value to every slot and switching to the new back buffer keeps the bookkeeping. |
| FrameContext.FirstFailed | code/game/context.cpp:161-170 | The index of the first failing status: nothing before it fails, and it fails unless it is the length. |
| FrameContext.FirstFailedIs | code/game/context.cpp:161-170 | That index is unique. |
| FrameContext.TargetCalls | code/game/context.cpp:161-170 | Two calls per back buffer: fetch it, then write its view. |
| FrameContext.TargetsStatus | code/game/context.cpp:159-202 | `getRenderTargets` returns S_OK exactly when every buffer fetch and the depth buffer succeed. Otherwise it returns a failure. |
| FrameContext.DescriptorsLaidOut | code/game/context.cpp:161-170 | With a positive increment, each view written at heap start + i × increment names back buffer i, and no view overwrites another. |
| FrameContext.EventStatus | code/game/context.cpp:71-74 | The fence-event failure converted to an HRESULT is a failure. |
| FrameContext.EventFailureLooksLikeSuccess | code/game/context.cpp:71-74 | As written, a failed `CreateEvent` makes `create` return the raw `GetLastError` code. Every such code is positive: not S_OK, yet `FAILED` does not see it. Converted, every one is a failure. |
| FrameContext.Context.constructor | code/game/context.h:7-20 | Slot 0, every fence value 0, no swap chain, nothing queued. |
| FrameContext.Context.WaitFor | code/game/context.cpp:237-241 | `SetEventOnCompletion` then the wait. A failing call returns its status with nothing waited. Otherwise the GPU advances until the fence reaches the target, or the thread hangs if the target is unreachable. |
| FrameContext.Context.Signal | code/game/context.cpp:233-234 | Queues the signal exactly when the call succeeds; returns its status. |
| FrameContext.Context.Prepare | code/game/context.cpp:204-216 | Resets the current allocator and then the list, with TRY semantics, and on success transitions the back buffer to RENDER_TARGET. From a ready state the reset finds its allocator free. |
| FrameContext.Context.EndFrame | code/game/context.cpp:218-231 | Barrier back to PRESENT, close the list, execute it only if the close succeeded, present. The bookkeeping is kept. |
| FrameContext.Context.SyncTo | code/game/context.cpp:236-241 | Waits only when the fence is below the target. The thread never hangs when the target was signalled, and on success the fence has reached it. |
| FrameContext.Context.SignalAndAdvance | code/game/context.cpp:233-242 | Signal the slot's value; on success take the new back buffer, wait for its value, store value + 1. The bookkeeping is kept and the new slot's allocator is free. |
| FrameContext.Context.Present | code/game/context.cpp:218-245 | The whole of `present` with each early return. The log and queue for every failing step. On success the next slot's allocator is free, its stored value is the signalled value + 1, and fence values never decrease. |
| FrameContext.Context.WaitForGpu | code/game/context.cpp:247-255 | Signal the current value, wait for it, increment it. On success every allocator is free and the bookkeeping holds. A failing signal or wait returns its status. |
| FrameContext.Context.CreateViews | code/game/context.cpp:161-170 | The loop takes back buffers in order until the first failing fetch. The views written are those of the buffers before it, and the failing status is returned. |
| FrameContext.Context.GetRenderTargets | code/game/context.cpp:159-202 | Views of the back buffers, then the depth buffer and its view. Returns the first failure. On success the views are laid out and the depth buffer has the requested size. |
| FrameContext.Context.ReleaseTargets | code/game/context.cpp:144-147 | Every back buffer is released and every slot gets the current slot's fence value. |
| FrameContext.Context.ReleaseBuffers | code/game/context.cpp:142-151 | Drain (status ignored), release the buffers, `ResizeBuffers`. After a successful drain every slot is free and guarded by the common value. |
| FrameContext.Context.Rebuild | code/game/context.cpp:153-156 | The new back-buffer index, every buffer in PRESENT, then `getRenderTargets`. |
| FrameContext.Context.Resize | code/game/context.cpp:142-157 | The whole of `resize`. Every slot ends with the same fence value, and a failing `ResizeBuffers` leaves no buffer held. After a successful drain and rebuild the context is ready for `prepare` again. |
| FrameContext.Context.CreateDeviceObjects | code/game/context.cpp:14-74 | Succeeds exactly when every device-dependent step and the fence event succeed. Sets up an RTV heap of BUFFER_COUNT views, a DSV heap of one, and a fence at `fenceValues[0]` with nothing queued. |
| FrameContext.Context.CreateWindowObjects | code/game/context.cpp:78-99 | Succeeds exactly when the swap-chain steps and `getRenderTargets` succeed. Then the back-buffer index is the swap chain's, and the views are laid out. |
| FrameContext.Context.Create | code/game/context.cpp:14-102 | With the fence-event failure converted (`EventStatus`), `Context::create` succeeds exactly when every step does, and otherwise returns a failure. It then leaves a fresh fence, all views laid out, the depth buffer at the window size, and every back buffer held. |
| Game.ScaleToDpi | code/game/game.cpp:267-268 | `cx * dpi / 96` with UINT wrap-around of the product: always in range. |
| Game.ScaleToDpiExact | code/game/game.cpp:267-268 | Without wrap-around it is the integer quotient of the scaled extent. |
| Game.ScaleAtDefaultDpi | code/game/game.cpp:267-268 | At 96 dpi the window keeps the requested size. |
| Game.LowWord | code/game/game.cpp:296 | `LOWORD` is a 16-bit value. |
| Game.HighWord | code/game/game.cpp:296 | `HIWORD` is a 16-bit value. |
| Game.WordsRoundTrip | code/game/game.cpp:296 | Packing two words and taking `LOWORD`/`HIWORD` gives them back. |
| Game.WordsCoverLowBits | code/game/game.cpp:296 | The two words are exactly the low 32 bits of the parameter. |
| Game.DrawCalls | code/game/game.cpp:238-244 | One draw per group. |
| Game.DrawsMatchHeaders | code/game/game.cpp:238-244 | Group i is drawn with the index count its header announced. |
| Game.ResetsIdleAppend | code/game/context.cpp:204-216 | The no-busy-reset property of a log holds exactly when it holds for both halves. |
| Game.FrameCallsResetIdle | code/game/game.cpp:209-244 | A frame recorded after a reset on a free allocator makes no other reset. |
| Game.TargetCallsResetNothing | code/game/context.cpp:161-170 | Creating views resets no allocator. |
| Game.TargetsLogResetsNothing | code/game/context.cpp:159-202 | `getRenderTargets` resets no allocator. |
| Game.ResizeResetsNothing | code/game/context.cpp:142-157 | `resize` resets no allocator. |
| Game.ResizeLogResetsNothing | code/game/context.cpp:142-157 | A log grown by `resize` grew by appending and its new part resets nothing. |
| Game.ExtendsTrans | code/game/game.cpp:195-247 | Logs grown by appending compose, and the no-busy-reset property of the whole is that of the parts. |
| Game.FrameLayout | code/game/game.cpp:209-246 | A frame's log writes the slot's constants, barriers the back buffer to RENDER_TARGET, binds the constants, then barriers it back to PRESENT, all on the same slot. |
| Game.FirstSubmitKeepsBookkeeping | code/game/game.cpp:117-121 | Executing the upload list on a fresh fence and incrementing the slot's value establishes the bookkeeping. |
| Game.UploadAsWrittenLeavesAllocatorBusy | code/game/game.cpp:117-128 | The upload as written signals value + 1 without waiting. The slot's allocator is still busy, the fence will reach the slot's stored value, and the bookkeeping fails. |
| Game.CreateConstantBuffers | code/game/game.cpp:147-177 | Succeeds exactly when every create and map succeeds. Otherwise it returns the first failing status. |
| Game.WinMain | code/game/game.cpp:32-251 | With the fence-event failure converted, exit 1 on any failed startup step, and otherwise only on a failed `prepare`. Exit 0 only on WM_QUIT, after a drain. When every step succeeds, no allocator is ever reset while the GPU may still use it, and the final drain leaves every allocator free. |
| Game.App.constructor | code/game/game.cpp:35 | A fresh context and no quit posted. |
| Game.App.OnCreate | code/game/game.cpp:258-281 | The dpi is the monitor's, and the size is the requested size scaled by it. |
| Game.App.OnSize | code/game/game.cpp:291-303 | Ignored before the swap chain exists. Otherwise it resizes to the message's size and posts quit exactly when that fails. A successful resize of a running game leaves it running, and no busy allocator is reset. |
| Game.App.ResizeToClient | code/game/game.cpp:296 | `resize` with the message's words: a running game stays running when every call succeeds. |
| Game.App.OnDpiChanged | code/game/game.cpp:305-319 | The dpi is `LOWORD(wParam)` and the size is the new client area. |
| Game.App.WindowProc | code/game/game.cpp:254-324 | WM_CLOSE/WM_DESTROY post quit. WM_DPICHANGED and other messages leave the context alone. No message resets a busy allocator. |
| Game.App.CreateMesh | code/game/mesh.cpp:19-94 | A failing buffer creation returns its status with nothing recorded. Otherwise it records a copy of exactly the announced bytes and lays the views out over the buffer. |
| Game.App.RecordUpload | code/game/game.cpp:103-119 | Reset the list, record the mesh, close and execute it. Each failure returns its status. |
| Game.App.UploadAsWritten | code/game/game.cpp:103-128 | The upload as written: increment the slot's value and signal it. |
| Game.App.Upload | code/game/game.cpp:103-128 | The corrected upload drains with `waitForGpu`. From a fresh fence, success leaves the context ready for the first frame. |
| Game.App.Start | code/game/game.cpp:62-177 | With the fence-event failure converted, succeeds exactly when every startup step does, and otherwise returns a failure. On success the game is running with the mesh views laid out over the file's headers. |
| Game.App.DrawGroups | code/game/game.cpp:238-244 | The draws of the mesh, in group order. |
| Game.App.RecordFrame | code/game/game.cpp:209-244 | `prepare`'s status. On success the back buffer is in RENDER_TARGET and the frame's calls are recorded; from a ready state they reset no busy allocator. |
| Game.App.Finish | code/game/game.cpp:246 | `present` with its status ignored. When it succeeds, the bookkeeping holds and the new slot's allocator is free. |
| Game.App.Frame | code/game/game.cpp:206-246 | Exit 1 exactly when `prepare` fails. A running game stays running when every call succeeds. |
| Game.App.Tick | code/game/game.cpp:195-251 | One message or one frame. Exit 0 only on WM_QUIT after a drain; exit 1 only when a frame's `prepare` fails. |
| Game.App.Loop | code/game/game.cpp:195-251 | The main loop over a script. Exit 1 only when some frame's `prepare` failed. When every step succeeds, no busy allocator is reset. |
| MeshFormat.HeaderRecords | code/tools/asset-builder/mesh.cpp:184-190 | Two counts per group. |
| MeshFormat.PayloadRecords | code/tools/asset-builder/mesh.cpp:192-198 | Each group's vertices, then its indices. |
| MeshFormat.Encode | code/tools/asset-builder/mesh.cpp:181-198 | The count, the headers, the payload: 1 + 4n records. |
| MeshLayout.HeadersOf | code/game/mesh.cpp:24-37 | As many headers as the count announces. |
| MeshLayout.ReadHeaders | code/game/mesh.cpp:24-37 | The header loop reads exactly the announced pairs in file order. `bufferSize` is their total bytes. |
| MeshLayout.BufferBytesSnoc | code/game/mesh.cpp:35 | The running sum of group bytes adds one group at a time. |
| MeshLayout.LayoutViews | code/game/mesh.cpp:74-91 | One vertex view (stride 32) and one R16 index view per group, each where `VertexView`/`IndexView` place it. |
| MeshLayout.ViewsTileBuffer | code/game/mesh.cpp:74-91 | Each index view follows its vertex view, each group follows the previous one, and the last view ends at base + bufferSize. |
| MeshLayout.SizesOf | code/tools/asset-builder/mesh.cpp:185-189 | One size pair per converter group. |
| MeshLayout.HeaderRecordsAt | code/tools/asset-builder/mesh.cpp:184-190 | Header pair i holds group i's counts. |
| MeshLayout.PayloadRecordsPrefix | code/tools/asset-builder/mesh.cpp:192-198 | The payload of the first i groups is a prefix of the payload. |
| MeshLayout.PayloadBytes | code/game/mesh.cpp:35 | The payload takes exactly the bytes the headers announce. |
| MeshLayout.RoundTrip | code/game/mesh.cpp:24-61 | The loader reads back from the converter's file exactly the groups' sizes and its payload, and copies exactly the payload's bytes. |
| MeshLayout.ViewsMatchPayload | code/game/mesh.cpp:74-91 | Group i's views cover exactly its vertex run and its index run of the written payload, and the index count recovered from the view is the group's. |
| AssetBuilder.Snprintf | code/tools/asset-builder/asset-builder.cpp:19-23 | The result is a prefix of the text, truncated to size − 1 characters. |
| AssetBuilder.PathNotTruncated | code/tools/asset-builder/asset-builder.cpp:16-23 | The buffers are large enough: both paths are written whole, the directory first and the dot after the asset name. |
| AssetBuilder.Build | code/tools/asset-builder/asset-builder.cpp:6-72 | The builder is called for exactly the stale assets, in order. `error` is the most recent failure, as `LastError` defines it. |
| AssetBuilder.LastErrorIsMostRecentFailure | code/tools/asset-builder/asset-builder.cpp:14-71 | `build` returns S_OK exactly when no asset failed. Otherwise it returns the outcome of the last asset that failed. |
| AssetBuilder.InvocationsAreStaleAssets | code/tools/asset-builder/asset-builder.cpp:25-68 | Every builder call is for an asset whose source exists and whose target is missing or not newer than both the source and the builder. Every such asset is built. |
| AssetBuilder.BuilderMain | code/tools/asset-builder/asset-builder.cpp:74-130 | Exit 1 when the setup fails. Otherwise the three builds run in order, and the exit code is `FAILED` of the mesh build's status only. |
| AssetBuilder.Win32CodesNeverFail | code/tools/asset-builder/asset-builder.cpp:26-68 | A builder returning only S_OK or positive Win32 codes never makes `build` report a failure. |
| AssetBuilder.MissingMeshSourceExitsZero | code/tools/asset-builder/asset-builder.cpp:31-35 | A missing mesh source makes the mesh build return the positive code 2, which `FAILED` does not see. |
| AssetBuilder.BuildSucceedsIffAllAssets | code/tools/asset-builder/asset-builder.cpp:14-71 | With Win32 codes converted, `build` returns S_OK exactly when every asset's source exists and it is up to date or rebuilt successfully. |
| AssetBuilder.BuilderMainReportingFailures | code/tools/asset-builder/asset-builder.cpp:74-130 | Exit 0 exactly when the setup and every asset of all three builds succeed. |
| ObjKey.LittleEndian | code/tools/asset-builder/mesh.cpp:31 | The low bytes of a number, least significant first. |
| ObjKey.Byte | code/tools/asset-builder/mesh.cpp:31 | A byte with the given value. |
| ObjKey.LittleEndianRoundTrip | code/tools/asset-builder/mesh.cpp:31-33 | Reading the bytes back gives the number. |
| ObjKey.KeyBytes | code/tools/asset-builder/mesh.cpp:14-18 | A key occupies 24 bytes. |
| ObjKey.KeyBytesDecode | code/tools/asset-builder/mesh.cpp:14-18 | Each field can be read back from its 8 bytes. |
| ObjKey.KeysEqual | code/tools/asset-builder/mesh.cpp:41-43 | `memcmp` of the images is true exactly when the keys are equal. |
| ObjKey.Widen | code/tools/asset-builder/mesh.cpp:34 | `(size_t)` of a signed `char` keeps the low byte and sign-extends it. |
| ObjKey.Hash | code/tools/asset-builder/mesh.cpp:31-37 | The hash loop computes 64-bit FNV-1a over a byte string, as the reference `Fnv` defines it. |
| ObjKey.HashKey | code/tools/asset-builder/mesh.cpp:20-38 | Hashing a key is 64-bit FNV-1a over its 24-byte image. |
| ObjKey.HashRespectsKeys | code/tools/asset-builder/mesh.cpp:20-43 | The consequence of `KeysEqual`'s contract (the `memcmp` of the images is key equality) that the table needs: keys `operator==` calls equal get equal hashes. |
| ObjMesh.KeywordHeads | code/tools/asset-builder/mesh.cpp:80-122 | The first characters that tell the keywords apart. |
| ObjMesh.Classify | code/tools/asset-builder/mesh.cpp:80-122 | Each line takes exactly one branch: a kind is chosen exactly when its prefix test holds. |
| ObjMesh.Resolve | code/tools/asset-builder/mesh.cpp:141-144 | A corner in range resolves to the position, normal and texcoord its 1-based indices name. |
| ObjMesh.AddCorners | code/tools/asset-builder/mesh.cpp:134-154 | One vertex index per corner. Looking corners up leaves the group's indices as they were. |
| ObjMesh.StepIntended | code/tools/asset-builder/mesh.cpp:122-163 | The intended face rule, which skips a face line with fewer than three complete corners, agrees with the source on every other line. |
| ObjMesh.FaceIndicesAsWritten | code/tools/asset-builder/mesh.cpp:133-163 | As written, three or six indices from the face, padded with 0 when fewer than three corners were read. |
| ObjMesh.AddCornersFailureSticks | code/tools/asset-builder/mesh.cpp:146 | Once a corner fails the vertex-count assertion, the whole face fails. |
| ObjMesh.RunFailureSticks | code/tools/asset-builder/mesh.cpp:146 | Once the assertion fails, the conversion stays aborted. |
| ObjMesh.RunKeepsAttributes | code/tools/asset-builder/mesh.cpp:90-101 | The attribute lists are exactly those of the `v`, `vt` and `vn` lines read. |
| ObjMesh.AddFaceCorners | code/tools/asset-builder/mesh.cpp:122-163 | The face branch as written: it looks up or creates the vertex of every complete corner, then pushes the padded face indices (`AddFace`, `FaceIndicesAsWritten`). It fails exactly when the vertex-count assertion does. |
| ObjMesh.LookUpCorners | code/tools/asset-builder/mesh.cpp:134-154 | The corner loop matches `AddCorners`, including its failure. |
| ObjMesh.LookUpCorner | code/tools/asset-builder/mesh.cpp:135-153 | A known key reuses its index. A new key gets the next vertex, unless the group already holds 65535. |
| ObjMesh.PushFaceIndices | code/tools/asset-builder/mesh.cpp:133-163 | The index loops over the zero-initialised `faceIndices` append `FaceIndicesAsWritten`: entries 0, 1, 2, then 2, 3, 0 for a quad. |
| ObjMesh.BuildMesh | code/tools/asset-builder/mesh.cpp:57-203 | The converter computes `Convert` as written: the read loop with the source's face rule, the final group and the write. On every input its groups are shaped (`RunShape`). |
| ObjMesh.WriteMesh | code/tools/asset-builder/mesh.cpp:181-198 | The write loops produce `Encode` of the groups. |
| ObjMeshProofs.Expand | code/tools/asset-builder/mesh.cpp:156-163 | An indexed group stands for one corner per index. |
| ObjMeshProofs.FaceVertices | code/tools/asset-builder/mesh.cpp:141-144 | One vertex per corner. |
| ObjMeshProofs.ExpandAppend | code/tools/asset-builder/mesh.cpp:156-163 | Appending indices appends their corners. |
| ObjMeshProofs.ExpandExtended | code/tools/asset-builder/mesh.cpp:147-148 | Appending vertices does not change what existing indices stand for. |
| ObjMeshProofs.IndicesNeedVertices | code/tools/asset-builder/mesh.cpp:110 | An indexed group with indices has vertices. |
| ObjMeshProofs.ResolveStable | code/tools/asset-builder/mesh.cpp:90-101 | Reading more attributes does not change what a corner resolves to. |
| ObjMeshProofs.AddCornerSound | code/tools/asset-builder/mesh.cpp:137-150 | One corner keeps the table sound: every key maps to the vertex it resolves to. It appends at most that one vertex. |
| ObjMeshProofs.AddCornersSound | code/tools/asset-builder/mesh.cpp:134-154 | The face's corners keep the table sound. Each face index names the vertex its corner resolves to, and every new vertex is used. |
| ObjMeshProofs.CornersSoundExtend | code/tools/asset-builder/mesh.cpp:134-154 | One more corner extends that guarantee. |
| ObjMeshProofs.ExpandTriangulate | code/tools/asset-builder/mesh.cpp:156-163 | A triangulated face's indices stand for the triangulated vertices, and every corner is used. |
| ObjMeshProofs.AppendFace | code/tools/asset-builder/mesh.cpp:156-163 | Appending a face keeps an indexed group representing its reference corners. |
| ObjMeshProofs.FaceSimulates | code/tools/asset-builder/mesh.cpp:122-163 | A face line of three or four corners keeps the converter's group in step with the reference's corners. |
| ObjMeshProofs.FaceLineSimulates | code/tools/asset-builder/mesh.cpp:122-163 | A face line of three or four complete corners, as written, keeps the converter in step with the reference. |
| ObjMeshProofs.StepSimulates | code/tools/asset-builder/mesh.cpp:80-164 | Under the intended face rule, every line keeps the converter in step with the reference. |
| ObjMeshProofs.AttributeLineSimulates | code/tools/asset-builder/mesh.cpp:90-101 | `v`, `vt`, `vn` lines keep the two in step. |
| ObjMeshProofs.GroupLineSimulates | code/tools/asset-builder/mesh.cpp:102-115 | A `g` line closes or drops the current group on both sides alike. |
| ObjMeshProofs.AttributesGrow | code/tools/asset-builder/mesh.cpp:90-101 | Reading another attribute keeps the table sound. |
| ObjMeshProofs.RunIntendedKeepsAttributes | code/tools/asset-builder/mesh.cpp:90-101 | Under the intended face rule, the attribute lists are exactly those of the `v`, `vt` and `vn` lines read. |
| ObjMeshProofs.RunSimulates | code/tools/asset-builder/mesh.cpp:72-165 | Under the intended face rule, the read loop keeps the converter in step with the reference. |
| ObjMeshProofs.IntendedGroupsMatchReference | code/tools/asset-builder/mesh.cpp:57-174 | Under the intended face rule, the written groups match the reference's in number and names. Each is an indexed form of the reference corners, with every index naming one of its vertices and every vertex used. |
| ObjMeshProofs.CompleteFacesRunAlike | code/tools/asset-builder/mesh.cpp:122-163 | On a file whose every face has three or four complete corners, the converter as written and the intended rule reach the same state. |
| ObjMeshProofs.ConvertedGroupsMatchReference | code/tools/asset-builder/mesh.cpp:57-174 | The converter as written, on a file whose every face has three or four complete corners: the written groups match the reference's in number and names, each an indexed form of the reference corners. |
| ObjMeshProofs.AddCornersBounded | code/tools/asset-builder/mesh.cpp:146-148 | Looking up corners never takes a group past 65535 vertices. |
| ObjMeshProofs.FaceShaped | code/tools/asset-builder/mesh.cpp:122-163 | A face line as written, short or not, adds a whole number of triangles' indices and keeps the vertex bound. |
| ObjMeshProofs.StepShaped | code/tools/asset-builder/mesh.cpp:80-164 | Every line keeps every closed group and the current one shaped. |
| ObjMeshProofs.RunStaysShaped | code/tools/asset-builder/mesh.cpp:72-165 | After any lines, short faces included, every group is shaped. |
| ObjMeshProofs.RunShape | code/tools/asset-builder/mesh.cpp:57-174 | On every input, each group the converter as written writes has at most 65535 vertices and an index count that is a multiple of three. |
| ObjMeshProofs.ClosedGroupsNonEmpty | code/tools/asset-builder/mesh.cpp:109-114 | Every group closed by a `g` line has vertices. Only the final group can be empty. |
| ObjMeshProofs.ConvertStatusNeverFails | code/tools/asset-builder/mesh.cpp:75-202 | The status is S_OK, ERROR_FILE_NOT_FOUND exactly when the target cannot be opened, or ERROR_FILE_CORRUPT exactly on a read error. `FAILED` recognises none of them. |
| ObjMeshProofs.FaceIndicesAgree | code/tools/asset-builder/mesh.cpp:156-163 | On faces of three or four corners, the loops as written emit the triangulation. |
| ObjMeshProofs.ShortFaceEmitsPadding | code/tools/asset-builder/mesh.cpp:132-158 | As written, every face with fewer than three complete corners still appends three indices: its corners' vertex indices, then zeros from no corner. It fails only where a corner does. |
| ObjMeshProofs.ShortFaceIndexesMissingVertex | code/tools/asset-builder/mesh.cpp:132-158 | As written, a face line with no complete corner in a group with no vertices yet leaves a final group with no vertices and three more indices (0, 0, 0). Those indices name no vertex. |
| ObjMeshProofs.LoneShortFaceFile | code/tools/asset-builder/mesh.cpp:57-203 | As written, the one-line file `f 1 2 3` converts with S_OK into one group with no vertices and the indices (0, 0, 0). |

## Left out

- The shaders, the material (`code/game/material.cpp`) and the pipeline state are not part of this model. The material's creation appears only as a status.
- Floating point is left out: the matrices, the clear colour, the viewport and scissor values, the projection. Vertex attributes are kept as 32-bit patterns that are never computed with.
- Window creation, the class registration, `ShowWindow`, `AdjustWindowRectEx` and `SetWindowPos` appear only as results (registered, created, the monitor's dpi, the new client size).
- `PeekMessage`/`DispatchMessage`: the message pump is a script of delivered messages and frames. WM_QUIT is posted by WM_DESTROY and is seen before the next frame.
- The debug layer and `printWindowsError` are left out; they change no state the model tracks.
- The mesh file's reading, the 8 MB upload heap and its `Map`/`memcpy` are left out. The file is a sequence of records, and the copy is one logged call of the announced size.
- Game.App.CreateMesh: requires that the file holds its announced headers. A short or corrupt file makes `Mesh::create` read indeterminate counts, which the model does not represent.
- `fgets`'s 256-byte chunks and `sscanf` are left out. A line is given with what `sscanf` reads from it, and the `g` name's `%256s` overflow is not modelled.
- ObjMesh.BuildMesh: assumes a build with assertions enabled. Under `NDEBUG` the vertex-count `assert` (code/tools/asset-builder/mesh.cpp:146) disappears, so the `(uint16_t)` cast at line 147 could wrap past 65535 vertices. The `fwrite` calls at lines 182-197 sit inside `assert` and would not run, leaving the target file empty. The model keeps the assertions: the 65535th new vertex aborts (`Aborted`), and every write happens.
- ObjMesh.BuildMesh: the source file's `fopen` (code/tools/asset-builder/mesh.cpp:71) is not checked in the source. A source that exists but cannot be opened makes the loop call `feof` on a null stream. The model's input is the sequence of lines, so it always has an opened source, and that path is not modelled.
- ObjKey.Hash: only the 64-bit (`_WIN64`) FNV constants are modelled; the 32-bit branch (code/tools/asset-builder/mesh.cpp:26-28) is not.
- ObjMesh.Resolve: an out-of-range corner gives an undefined vertex in the source (out-of-bounds `std::vector` access). The model requires every face to name attributes already read (`WellIndexed`) and leaves out-of-range corners unconstrained.
- `(UINT)` truncation of view sizes and UINT64 fence overflow are not modelled: sizes and fence values are unbounded naturals.
- GPU progress is observed only where the CPU reads the fence or waits (`Progressed`). Any amount of progress is allowed there, and the model ignores progress at other times.
- FrameContext.Context.ReleaseBuffers: like the source, it ignores the drain's status. When the drain fails, the bookkeeping after `resize` is not claimed.
- FrameContext.Context.CreateDeviceObjects: uses the converted fence-event status (`EventStatus`, see Findings). What the raw code does is stated by `EventFailureLooksLikeSuccess`.
- `CloseList` status in the upload is not checked in the source, and it is not modelled as a failure path.
- The context's fixed arrays (`fenceValues`, `renderTargets`, `commandAllocators`) are `seq` fields with field-level frames rather than `array`s. Aliasing between them cannot occur in the source, so nothing is lost but in-place update.
- WM_SIZE does not update the app's width and height, nor the viewport and scissor built before the loop.
- Game.WinMain: "exit 1 on any failed startup step" relies on the converted fence-event status; as written, `FAILED` at code/game/game.cpp:63 misses the raw code and the loop starts (see Findings). It also uses the corrected upload (`Upload`, which drains); the as-written upload is modelled by `UploadAsWritten` (see Findings).
- FrameContext.Context.Create: returns the fence-event failure converted (`EventStatus`), so "S_OK or a failure" holds for the corrected `create`. As written, line 73 of code/game/context.cpp returns the raw positive `GetLastError` code, which is neither (`EventFailureLooksLikeSuccess`).
- Game.App.Start: relies on the converted fence-event status from `Create`; as written, a failed `CreateEvent` lets startup go on (see Findings). It also runs the corrected upload (`Upload`, which drains before the loop), so its guarantee that every allocator is free holds for the corrected program, not for the source as written (see Findings).
- Game.App.Finish: `present`'s status is discarded, as in the source, so its contract claims nothing about failures of `present` beyond keeping the context valid.
- AssetBuilder.BuilderMain: the shader builders (`code/tools/asset-builder/shader.cpp`) are not part of this model. Any builder is a function from the two paths to a status, and its file writes are left out.
- AssetBuilder.Build: file queries always succeed: `FileSystem` maps each existing file to its last write time. In the source, `getFileExists` and `getLastWriteTime` (code/tools/asset-builder/util.cpp:62-71, 83-88) can return a positive `GetLastError` code. The `FAILED` tests at code/tools/asset-builder/asset-builder.cpp:26, 38, 45 and 52 do not catch such a code, and the loop then reads an uninitialised flag or time. That path is not modelled.
- The asset builder's `getEnv`, `makeDir` and `getLastWriteTime` are parameters (`Query` values). `GetLastError` codes are positive, as in `code/tools/asset-builder/util.cpp`.

## Findings

| source | as written | input that shows it | evidently intended | confidence | as-written member | corrected member |
|---|---|---|---|---|---|---|
| code/game/game.cpp:117-128 | The upload increments the slot's fence value and signals it without waiting. The first frame's `prepare` then resets the allocator the upload list may still be using. The first `present` signals the same value again. | A successful start in which no WM_SIZE reaches `resize` between the upload and the first frame (`resize` drains the GPU first, code/game/context.cpp:143). After the upload the queue holds the upload list, then a signal of value + 1, and the fence need not have passed it when the first `prepare` runs. | Increment, then drain the GPU (`waitForGpu`) before the loop, so that the bookkeeping holds and every allocator is free. | not executed | Game.UploadAsWrittenLeavesAllocatorBusy | Game.App.Upload |
| code/tools/asset-builder/asset-builder.cpp:31-35 | Helpers and `buildMesh` return positive Win32 codes, which `FAILED` does not see. `main` also returns `FAILED(hr)` of the last build only, not `error`. | No `human.obj` in the asset directory: the mesh build returns 2, and `main` exits 0. | Treat Win32 codes as failures, and make the exit code reflect every build. | not executed | AssetBuilder.MissingMeshSourceExitsZero | AssetBuilder.BuilderMainReportingFailures |
| code/tools/asset-builder/mesh.cpp:132-158 | When fewer than three complete `p/t/n` corners are read, the face still emits three indices, padded with 0. | The file `f 1 2 3` (no slashes): `sscanf` reads one field, no corner is resolved, and the one group written has no vertices and the indices (0, 0, 0). With `f 1/1/1 1/1/1` the padding makes a degenerate triangle. | Skip a face that has fewer than three complete corners (`StepIntended`). | not executed | ObjMeshProofs.ShortFaceIndexesMissingVertex | ObjMeshProofs.IntendedGroupsMatchReference |
| code/game/context.cpp:71-74 | A failed `CreateEvent` returns `GetLastError()`, a positive code. `create` returns it at line 73, before the swap chain and the render targets are made (lines 77-98). `wWinMain`'s `FAILED` test does not see it, and the game goes on with no fence event, no swap chain and no render targets. | `CreateEvent` fails with code 8 (not enough memory): `create` returns 8, and `FAILED(8)` is false. | Return `HRESULT_FROM_WIN32(GetLastError())`. | not executed | FrameContext.EventFailureLooksLikeSuccess | FrameContext.EventStatus |
