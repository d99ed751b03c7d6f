/** Time-trial replay files (src/tt/mod.rs): where a replay is stored, the
    gates an uploaded replay must pass, and reading its format version. The
    simulator and the replay-info reader are foreign code and appear as
    function parameters. */
module TimeTrial {
  import opened Common
  import FileSystem

  /** The upload ceiling: 10 MiB. */
  const MaxUploadBytes: nat := 10 * 1024 * 1024

  /** What the simulator reports about a replay. */
  datatype SimulateTimeTrialResult = SimulateTimeTrialResult(
    hasError: bool,
    message: string,
    elapsedTicks: Int32,
    expectedTicks: Int32)

  /** What the replay-info reader reports about a replay. */
  datatype TtInfo = TtInfo(hasError: bool, message: string, replayVersion: Int32)

  /** The foreign simulator, `nfmw_simulate_tt`. */
  type Simulator = seq<byte> -> SimulateTimeTrialResult

  /** The foreign replay-info reader, `nfmw_get_tt_info`. */
  type InfoReader = seq<byte> -> TtInfo

  /** Where the replay of time trial `id` is stored under the file-store root. */
  function TtFilePath(root: string, id: Uuid): string {
    root + "/tt/" + Hyphenated(id) + ".timetrial"
  }

  /** Distinct time trials are stored at distinct paths. */
  lemma TtFilePathInjective(root: string, a: Uuid, b: Uuid)
    ensures TtFilePath(root, a) == TtFilePath(root, b) <==> a == b
  {
    var n := |root| + 4;
    assert TtFilePath(root, a)[n..n + 36] == Hyphenated(a);
    assert TtFilePath(root, b)[n..n + 36] == Hyphenated(b);
    HyphenatedInjective(a, b);
  }

  /** A simulator result the server accepts: no error, and the two positive
      tick counts agree. */
  predicate Consistent(r: SimulateTimeTrialResult) {
    !r.hasError && r.elapsedTicks > 0 && r.expectedTicks > 0 && r.elapsedTicks == r.expectedTicks
  }

  /** `validate_upload_tt_file`: the size gate, then the simulator's verdict. */
  function ValidateUploadTtFile(file: seq<byte>, simulate: Simulator): (r: Result<SimulateTimeTrialResult, string>)
    ensures |file| > MaxUploadBytes ==> r == Err("File size exceeds 10 MB limit")
    ensures r.Ok? <==> |file| <= MaxUploadBytes && Consistent(simulate(file))
    ensures r.Ok? ==> r.value == simulate(file) && r.value.elapsedTicks == r.value.expectedTicks > 0
    ensures |file| <= MaxUploadBytes && simulate(file).hasError ==>
      r == Err("TT simulation failed: " + simulate(file).message)
    ensures |file| <= MaxUploadBytes && !simulate(file).hasError && simulate(file).elapsedTicks <= 0 ==>
      r == Err("Simulated TT has non-positive tick count, invalid TT data")
    ensures (|file| <= MaxUploadBytes && !simulate(file).hasError && simulate(file).elapsedTicks > 0
             && simulate(file).expectedTicks <= 0) ==>
      r == Err("Simulated TT has non-positive expected tick count, invalid TT data")
    ensures (|file| <= MaxUploadBytes && !simulate(file).hasError && simulate(file).elapsedTicks > 0
             && simulate(file).expectedTicks > 0 && simulate(file).elapsedTicks != simulate(file).expectedTicks) ==>
      r == Err("The simulation did not succeed; either the car or stage is corrupted, or you are using an old version.")
    ensures simulate(file).elapsedTicks != simulate(file).expectedTicks ==> r.Err?
  {
    if |file| > MaxUploadBytes then
      Err("File size exceeds 10 MB limit")
    else
      var sim := simulate(file);
      if sim.hasError then
        Err("TT simulation failed: " + sim.message)
      else if sim.elapsedTicks <= 0 then
        Err("Simulated TT has non-positive tick count, invalid TT data")
      else if sim.expectedTicks <= 0 then
        Err("Simulated TT has non-positive expected tick count, invalid TT data")
      else if sim.elapsedTicks != sim.expectedTicks then
        Err("The simulation did not succeed; either the car or stage is corrupted, or you are using an old version.")
      else
        Ok(sim)
  }

  /** `get_tt_version`: the replay format version, unless the reader fails. */
  function GetTtVersion(file: seq<byte>, info: InfoReader): (r: Result<Int32, string>)
    ensures r.Ok? <==> !info(file).hasError
    ensures r.Ok? ==> r.value == info(file).replayVersion
    ensures r.Err? ==> r.error == "TT info fetch failed: " + info(file).message
  {
    var i := info(file);
    if i.hasError then Err("TT info fetch failed: " + i.message) else Ok(i.replayVersion)
  }

  /** `write_tt_file`: the replay of `id` becomes exactly `data`. */
  method WriteTtFile(fs: FileSystem.FileStore, root: string, id: Uuid, data: seq<byte>)
    modifies fs
    ensures fs.files == old(fs.files)[TtFilePath(root, id) := data]
  {
    fs.Write(TtFilePath(root, id), data);
  }

  /** Writing the replay of one time trial leaves every other time trial's
      replay as it was. */
  lemma WriteKeepsOtherReplays(files: map<string, seq<byte>>, root: string, id: Uuid, data: seq<byte>, other: Uuid)
    requires other != id
    ensures var after := files[TtFilePath(root, id) := data];
      (TtFilePath(root, other) in after <==> TtFilePath(root, other) in files)
      && (TtFilePath(root, other) in files ==> after[TtFilePath(root, other)] == files[TtFilePath(root, other)])
  {
    TtFilePathInjective(root, id, other);
  }
}
