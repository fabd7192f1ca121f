/** The incremental asset build driver of the offline asset builder: for each
    asset of a kind it builds the source and target paths, skips the asset when
    the target is newer than both its source and the builder executable, runs
    the per-kind builder otherwise, and remembers the most recent failure.

    The file system is a map from path to last write time; the per-kind
    builders (shader compiler, mesh converter) are functions from the two paths
    to the status they return. */
module AssetBuilder {
  import opened HResults

  type Path = string

  /** Every existing file, with its last write time. */
  type FileSystem = map<Path, nat>

  /** A per-kind builder: called with the source and the target path. */
  type Builder = (Path, Path) -> HResult

  /** One call of `build`: where sources and targets live and their extensions. */
  datatype Job = Job(sourceDir: string, targetDir: string, sourceExt: string, targetExt: string)

  /** A query through an out-parameter: the status returned and the value
      left in the out-parameter. */
  datatype Query<T> = Query(status: HResult, value: T)

  /** `snprintf(buffer, size, "%s", text)`: at most `size - 1` characters of
      `text` end up in the buffer. */
  function Snprintf(text: string, size: nat): (r: string)
    ensures r <= text
    ensures size > 0 ==> |r| == (if |text| < size then |text| else size - 1)
    ensures size == 0 ==> r == []
  {
    if size == 0 then [] else if |text| < size then text else text[..size - 1]
  }

  /** The `"%s%s.%s"` format of both paths. */
  function JoinPath(dir: string, asset: string, ext: string): string {
    dir + asset + "." + ext
  }

  /** The buffers are sized `strlen(dir) + (strlen(asset) + 1 + strlen(ext)) + 1`,
      one more than the formatted text, so the path is never cut short. */
  lemma PathNotTruncated(dir: string, asset: string, ext: string)
    ensures Snprintf(JoinPath(dir, asset, ext), |dir| + (|asset| + 1 + |ext|) + 1)
         == JoinPath(dir, asset, ext)
    ensures JoinPath(dir, asset, ext)[..|dir|] == dir
    ensures JoinPath(dir, asset, ext)[|dir| + |asset|] == '.'
  {
  }

  function SourceOf(job: Job, asset: string): Path {
    JoinPath(job.sourceDir, asset, job.sourceExt)
  }

  function TargetOf(job: Job, asset: string): Path {
    JoinPath(job.targetDir, asset, job.targetExt)
  }

  /** The target exists and is strictly newer than both the source and the builder. */
  predicate UpToDate(fs: FileSystem, job: Job, builderTime: nat, asset: string)
    requires SourceOf(job, asset) in fs
  {
    var target := TargetOf(job, asset);
    target in fs && fs[target] > fs[SourceOf(job, asset)] && fs[target] > builderTime
  }

  /** The builder is called for this asset. */
  predicate Rebuilds(fs: FileSystem, job: Job, builderTime: nat, asset: string) {
    SourceOf(job, asset) in fs && !UpToDate(fs, job, builderTime, asset)
  }

  /** What one asset contributes to `error`: a missing source, a failing builder,
      or nothing (`S_OK`). */
  function Outcome(fs: FileSystem, job: Job, builderTime: nat, f: Builder, asset: string): HResult {
    var source, target := SourceOf(job, asset), TargetOf(job, asset);
    if source !in fs then ERROR_FILE_NOT_FOUND
    else if UpToDate(fs, job, builderTime, asset) then S_OK
    else if Failed(f(source, target)) then f(source, target)
    else S_OK
  }

  /** The builder calls for `assets`, in order. */
  function Invocations(fs: FileSystem, job: Job, builderTime: nat, assets: seq<string>): seq<(Path, Path)> {
    if assets == [] then []
    else
      var last := assets[|assets| - 1];
      Invocations(fs, job, builderTime, assets[..|assets| - 1])
        + (if Rebuilds(fs, job, builderTime, last) then [(SourceOf(job, last), TargetOf(job, last))] else [])
  }

  /** The most recent non-`S_OK` outcome, or `S_OK`. */
  function LastError(fs: FileSystem, job: Job, builderTime: nat, f: Builder, assets: seq<string>): HResult {
    if assets == [] then S_OK
    else
      var outcome := Outcome(fs, job, builderTime, f, assets[|assets| - 1]);
      if outcome != S_OK then outcome else LastError(fs, job, builderTime, f, assets[..|assets| - 1])
  }

  /** `build`: one pass over the assets in array order; a failure on one asset
      never stops the loop. */
  method Build(fs: FileSystem, job: Job, builderTime: nat, f: Builder, assets: seq<string>)
    returns (error: HResult, calls: seq<(Path, Path)>)
    ensures calls == Invocations(fs, job, builderTime, assets)
    ensures error == LastError(fs, job, builderTime, f, assets)
  {
    error := S_OK;
    calls := [];
    for i := 0 to |assets|
      invariant calls == Invocations(fs, job, builderTime, assets[..i])
      invariant error == LastError(fs, job, builderTime, f, assets[..i])
    {
      assert assets[..i + 1][..i] == assets[..i];
      var asset := assets[i];
      var sourceLen := |asset| + 1 + |job.sourceExt|;
      var targetLen := |asset| + 1 + |job.targetExt|;
      var sourcePath := Snprintf(JoinPath(job.sourceDir, asset, job.sourceExt), |job.sourceDir| + sourceLen + 1);
      var targetPath := Snprintf(JoinPath(job.targetDir, asset, job.targetExt), |job.targetDir| + targetLen + 1);
      PathNotTruncated(job.sourceDir, asset, job.sourceExt);
      PathNotTruncated(job.targetDir, asset, job.targetExt);

      if sourcePath !in fs {
        error := ERROR_FILE_NOT_FOUND;
        continue;
      }
      if targetPath in fs {
        var sourceTime, targetTime := fs[sourcePath], fs[targetPath];
        if targetTime > sourceTime && targetTime > builderTime {
          continue;
        }
      }
      calls := calls + [(sourcePath, targetPath)];
      var hr := f(sourcePath, targetPath);
      if Failed(hr) {
        error := hr;
      }
    }
    assert assets[..|assets|] == assets;
  }

  /** `build` reports `S_OK` exactly when no asset failed, and otherwise the
      outcome of the last asset that failed. */
  lemma {:induction false} LastErrorIsMostRecentFailure(fs: FileSystem, job: Job, builderTime: nat, f: Builder, assets: seq<string>)
    ensures var e := LastError(fs, job, builderTime, f, assets);
      (e == S_OK <==> forall k | 0 <= k < |assets| :: Outcome(fs, job, builderTime, f, assets[k]) == S_OK)
      && (e != S_OK ==> exists k | 0 <= k < |assets| ::
            e == Outcome(fs, job, builderTime, f, assets[k])
            && forall j | k < j < |assets| :: Outcome(fs, job, builderTime, f, assets[j]) == S_OK)
  {
    if assets != [] {
      var init := assets[..|assets| - 1];
      LastErrorIsMostRecentFailure(fs, job, builderTime, f, init);
      var n := |assets| - 1;
      if Outcome(fs, job, builderTime, f, assets[n]) == S_OK {
        assert forall k | 0 <= k < n :: assets[k] == init[k];
        var e := LastError(fs, job, builderTime, f, init);
        if e != S_OK {
          var k :| 0 <= k < |init| && e == Outcome(fs, job, builderTime, f, init[k])
            && forall j | k < j < |init| :: Outcome(fs, job, builderTime, f, init[j]) == S_OK;
          assert e == Outcome(fs, job, builderTime, f, assets[k]);
        }
      } else {
        assert Outcome(fs, job, builderTime, f, assets[n]) != S_OK;
      }
    }
  }

  /** The builder is called once for every asset whose source exists and whose
      target is missing or stale, and for no other asset. */
  lemma {:induction false} InvocationsAreStaleAssets(fs: FileSystem, job: Job, builderTime: nat, assets: seq<string>)
    ensures |Invocations(fs, job, builderTime, assets)| <= |assets|
    ensures forall c | c in Invocations(fs, job, builderTime, assets) ::
      exists k | 0 <= k < |assets| :: Rebuilds(fs, job, builderTime, assets[k])
        && c == (SourceOf(job, assets[k]), TargetOf(job, assets[k]))
    ensures forall k | 0 <= k < |assets| && Rebuilds(fs, job, builderTime, assets[k]) ::
      (SourceOf(job, assets[k]), TargetOf(job, assets[k])) in Invocations(fs, job, builderTime, assets)
  {
    if assets != [] {
      var n := |assets| - 1;
      var init := assets[..n];
      InvocationsAreStaleAssets(fs, job, builderTime, init);
      assert forall k | 0 <= k < n :: assets[k] == init[k];
      var calls := Invocations(fs, job, builderTime, assets);
      assert Invocations(fs, job, builderTime, init) <= calls;
      forall c | c in calls
        ensures exists k | 0 <= k < |assets| ::
          Rebuilds(fs, job, builderTime, assets[k]) && c == (SourceOf(job, assets[k]), TargetOf(job, assets[k]))
      {
        if c !in Invocations(fs, job, builderTime, init) {
          assert Rebuilds(fs, job, builderTime, assets[n]);
        }
      }
    }
  }

  /** The source and target extensions of the three kinds `main` builds. */
  function ShaderJob(assetDir: string, dataDir: string): Job {
    Job(assetDir, dataDir, "hlsl", "cso")
  }

  function MeshJob(assetDir: string, dataDir: string): Job {
    Job(assetDir, dataDir, "obj", "mesh")
  }

  const VertexShaders: seq<string> := ["vertex"]
  const PixelShaders: seq<string> := ["pixel"]
  const Meshes: seq<string> := ["human"]

  /** `main` gets past its set-up: both environment variables are read, and
      neither `makeDir` nor the builder's own write time reports `FAILED`. */
  predicate SetupPasses(assetDir: Query<string>, dataDir: Query<string>, makeDirStatus: HResult, builderTime: Query<nat>) {
    assetDir.status == S_OK && dataDir.status == S_OK && !Failed(makeDirStatus) && !Failed(builderTime.status)
  }

  /** `main`: the set-up checks, then the vertex shaders, the pixel shaders and
      the meshes in that order; the exit code is `FAILED(hr)` of the last build. */
  method BuilderMain(
    fs: FileSystem, assetDir: Query<string>, dataDir: Query<string>, makeDirStatus: HResult,
    builderTime: Query<nat>, vertexShader: Builder, pixelShader: Builder, meshBuilder: Builder
  ) returns (exit: int, calls: seq<(Path, Path)>)
    ensures !SetupPasses(assetDir, dataDir, makeDirStatus, builderTime) ==> exit == 1 && calls == []
    ensures SetupPasses(assetDir, dataDir, makeDirStatus, builderTime) ==>
      var shaders, meshes := ShaderJob(assetDir.value, dataDir.value), MeshJob(assetDir.value, dataDir.value);
      && calls == Invocations(fs, shaders, builderTime.value, VertexShaders)
                + Invocations(fs, shaders, builderTime.value, PixelShaders)
                + Invocations(fs, meshes, builderTime.value, Meshes)
      && exit == (if Failed(LastError(fs, meshes, builderTime.value, meshBuilder, Meshes)) then 1 else 0)
  {
    calls := [];
    if assetDir.status != S_OK {
      return 1, calls;
    }
    if dataDir.status != S_OK {
      return 1, calls;
    }
    if Failed(makeDirStatus) {
      return 1, calls;
    }
    if Failed(builderTime.status) {
      return 1, calls;
    }
    var shaders := ShaderJob(assetDir.value, dataDir.value);
    var meshes := MeshJob(assetDir.value, dataDir.value);

    var error := S_OK;
    var hr, made := Build(fs, shaders, builderTime.value, vertexShader, VertexShaders);
    calls := calls + made;
    if Failed(hr) {
      error := hr;
    }
    hr, made := Build(fs, shaders, builderTime.value, pixelShader, PixelShaders);
    calls := calls + made;
    if Failed(hr) {
      error := hr;
    }
    hr, made := Build(fs, meshes, builderTime.value, meshBuilder, Meshes);
    calls := calls + made;
    if Failed(hr) {
      error := hr;
    }
    exit := if Failed(hr) then 1 else 0;
  }

  /** A builder that, like the mesh converter, only ever returns `S_OK` or a
      positive Win32 code can never make `build` report `FAILED`: a missing
      source is `ERROR_FILE_NOT_FOUND` (2) and the builder's own codes are not
      `FAILED` either. */
  lemma {:induction false} Win32CodesNeverFail(fs: FileSystem, job: Job, builderTime: nat, f: Builder, assets: seq<string>)
    requires forall s: Path, t: Path :: !Failed(f(s, t))
    ensures !Failed(LastError(fs, job, builderTime, f, assets))
  {
    if assets != [] {
      Win32CodesNeverFail(fs, job, builderTime, f, assets[..|assets| - 1]);
    }
  }

  /** A missing mesh source: `build` returns the positive code 2, which
      `FAILED` does not see, so `main` exits with 0. */
  lemma MissingMeshSourceExitsZero(fs: FileSystem, assetDir: string, dataDir: string, builderTime: nat, meshBuilder: Builder)
    requires SourceOf(MeshJob(assetDir, dataDir), "human") !in fs
    ensures LastError(fs, MeshJob(assetDir, dataDir), builderTime, meshBuilder, Meshes) == ERROR_FILE_NOT_FOUND
    ensures !Failed(LastError(fs, MeshJob(assetDir, dataDir), builderTime, meshBuilder, Meshes))
  {
    assert Meshes[..0] == [];
  }

  /** An asset is in order: its source exists and its target is up to date or
      its builder returned exactly `S_OK`. */
  predicate AssetSucceeds(fs: FileSystem, job: Job, builderTime: nat, f: Builder, asset: string) {
    SourceOf(job, asset) in fs
    && (UpToDate(fs, job, builderTime, asset) || f(SourceOf(job, asset), TargetOf(job, asset)) == S_OK)
  }

  /** Every asset of a build is in order. */
  predicate AllSucceed(fs: FileSystem, job: Job, builderTime: nat, f: Builder, assets: seq<string>) {
    forall k | 0 <= k < |assets| :: AssetSucceeds(fs, job, builderTime, f, assets[k])
  }

  /** The builder with its Win32 codes turned into HRESULTs. */
  function AsHResult(f: Builder): Builder {
    (s: Path, t: Path) => FromWin32(f(s, t))
  }

  /** With Win32 codes turned into HRESULTs, `build` reports `S_OK` exactly
      when every asset is in order. */
  lemma BuildSucceedsIffAllAssets(fs: FileSystem, job: Job, builderTime: nat, f: Builder, assets: seq<string>)
    ensures LastError(fs, job, builderTime, AsHResult(f), assets) == S_OK
        <==> AllSucceed(fs, job, builderTime, f, assets)
  {
    LastErrorIsMostRecentFailure(fs, job, builderTime, AsHResult(f), assets);
    forall k | 0 <= k < |assets|
      ensures Outcome(fs, job, builderTime, AsHResult(f), assets[k]) == S_OK
          <==> AssetSucceeds(fs, job, builderTime, f, assets[k])
    {
      var s, t := SourceOf(job, assets[k]), TargetOf(job, assets[k]);
      assert AsHResult(f)(s, t) == FromWin32(f(s, t));
    }
  }

  /** `main` as it evidently should behave: Win32 codes from the builders and
      the set-up helpers are treated as failures, and the exit code reflects
      every build, not only the last one. */
  method BuilderMainReportingFailures(
    fs: FileSystem, assetDir: Query<string>, dataDir: Query<string>, makeDirStatus: HResult,
    builderTime: Query<nat>, vertexShader: Builder, pixelShader: Builder, meshBuilder: Builder
  ) returns (exit: int)
    ensures exit == 0 <==>
      && assetDir.status == S_OK && dataDir.status == S_OK && makeDirStatus == S_OK && builderTime.status == S_OK
      && AllSucceed(fs, ShaderJob(assetDir.value, dataDir.value), builderTime.value, vertexShader, VertexShaders)
      && AllSucceed(fs, ShaderJob(assetDir.value, dataDir.value), builderTime.value, pixelShader, PixelShaders)
      && AllSucceed(fs, MeshJob(assetDir.value, dataDir.value), builderTime.value, meshBuilder, Meshes)
    ensures exit == 0 || exit == 1
  {
    if assetDir.status != S_OK || dataDir.status != S_OK || makeDirStatus != S_OK || builderTime.status != S_OK {
      return 1;
    }
    var shaders := ShaderJob(assetDir.value, dataDir.value);
    var meshes := MeshJob(assetDir.value, dataDir.value);
    var error := S_OK;
    var hr, calls := Build(fs, shaders, builderTime.value, AsHResult(vertexShader), VertexShaders);
    BuildSucceedsIffAllAssets(fs, shaders, builderTime.value, vertexShader, VertexShaders);
    var vertexOk := hr == S_OK;
    if hr != S_OK {
      error := hr;
    }
    hr, calls := Build(fs, shaders, builderTime.value, AsHResult(pixelShader), PixelShaders);
    BuildSucceedsIffAllAssets(fs, shaders, builderTime.value, pixelShader, PixelShaders);
    var pixelOk := hr == S_OK;
    if hr != S_OK {
      error := hr;
    }
    hr, calls := Build(fs, meshes, builderTime.value, AsHResult(meshBuilder), Meshes);
    BuildSucceedsIffAllAssets(fs, meshes, builderTime.value, meshBuilder, Meshes);
    var meshOk := hr == S_OK;
    if hr != S_OK {
      error := hr;
    }
    assert error == S_OK <==> vertexOk && pixelOk && meshOk;
    exit := if error != S_OK then 1 else 0;
  }
}
