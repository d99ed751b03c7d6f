/** `upload_tt` (src/route/tt/upload_tt.rs): a signed-in user submits a
    replay for a (car, stage) pair; once the replay passes the gates it is
    reconciled with the one record kept per (user, car, stage): a first
    replay inserts the record, a replay at least as fast replaces the
    record's version and ticks and its file, and a slower one changes
    nothing. JSON decoding, UUID parsing, the simulator and the replay-info
    reader are library or foreign code and are parameters. */
module UploadTt {
  import opened Common
  import opened Token
  import opened TtEntry
  import opened TimeTrial
  import opened FileSystem

  /** `UploadTTMetadata`. */
  datatype UploadTtMetadata = UploadTtMetadata(carId: string, stageId: string)

  /** `Uuid::parse_str`. */
  type UuidParser = string -> Option<Uuid>

  /** What the handler uses from outside the core: the metadata's JSON
      decoding, UUID parsing, the simulator, the replay-info reader, the file
      store's root, and the text of an operating-system error. */
  datatype UploadEnv = UploadEnv(
    decodeMetadata: seq<byte> -> Option<UploadTtMetadata>,
    parseUuid: UuidParser,
    simulate: Simulator,
    info: InfoReader,
    root: string,
    ioError: string)

  /** `validate_upload_tt_metadata`: both ids parsed, the car's first. */
  function ValidateUploadTtMetadata(m: UploadTtMetadata, parse: UuidParser): (r: Result<(Uuid, Uuid), string>)
    ensures r.Ok? <==> parse(m.carId).Some? && parse(m.stageId).Some?
    ensures r.Ok? ==> r.value == (parse(m.carId).value, parse(m.stageId).value)
    ensures parse(m.carId).None? ==> r == Err("Invalid car_id UUID")
    ensures parse(m.carId).Some? && parse(m.stageId).None? ==> r == Err("Invalid stage_id UUID")
  {
    match parse(m.carId)
    case None => Err("Invalid car_id UUID")
    case Some(car) =>
      match parse(m.stageId)
      case None => Err("Invalid stage_id UUID")
      case Some(stage) => Ok((car, stage))
  }

  /** `Vec::pop`: the last element, if any. */
  function Pop<T>(s: seq<T>): (r: Option<T>)
    ensures r.None? <==> s == []
    ensures r.Some? ==> r.value == s[|s| - 1]
  {
    if s == [] then None else Some(s[|s| - 1])
  }

  const DatabaseError := Response(InternalError500, "internal database error")
  const Uploaded := Response(Ok200, "file validated successfully")

  function WriteFailed(env: UploadEnv): Response {
    Response(InternalError500, "failed to write TT file: " + env.ioError)
  }

  /** A replay that has passed every gate: whose it is, what it shows, and
      its format version. */
  datatype Submission = Submission(triple: Triple, file: seq<byte>, ticks: Int32, version: Int32)

  /** Both multipart fields are there and the metadata decodes: only then
      is the token looked up. */
  predicate FieldsPresent(parts: seq<seq<byte>>, env: UploadEnv) {
    |parts| >= 2 && env.decodeMetadata(parts[0]).Some?
  }

  /** The gates, in source order: the two multipart fields, the
      authorization header and the token lookup (`lookup` is what
      `get_user_by_token` answered), the metadata, the replay, the record
      lookup's failure, and the replay's version. */
  function Admit(parts: seq<seq<byte>>, auth: Header, lookup: Option<UserToken>, env: UploadEnv, faults: Faults)
    : (r: Result<Submission, Response>)
    ensures r.Ok? ==> |parts| >= 2 && env.decodeMetadata(parts[0]).Some? && auth.Text? && lookup.Some?
    ensures r.Ok? ==> ValidateUploadTtFile(parts[1], env.simulate).Ok?
    ensures r.Ok? ==> r.value.file == parts[1] && r.value.triple.userId == lookup.value.userId
    ensures r.Ok? ==> ValidateUploadTtMetadata(env.decodeMetadata(parts[0]).value, env.parseUuid)
                        == Ok((r.value.triple.carId, r.value.triple.stageId))
    ensures r.Ok? ==> r.value.ticks == env.simulate(parts[1]).elapsedTicks > 0
    ensures r.Ok? ==> r.value.version == env.info(parts[1]).replayVersion
    ensures r.Err? ==> r.error.status in {BadRequest400, Unauthorized401, InternalError500}
  {
    if |parts| == 0 then Err(Response(BadRequest400, "missing metadata field"))
    else match env.decodeMetadata(parts[0])
      case None => Err(Response(BadRequest400, "invalid metadata"))
      case Some(metadata) =>
        if |parts| < 2 then Err(Response(BadRequest400, "missing file field"))
        else
          var file := parts[1];
          if !auth.Text? then Err(Response(Unauthorized401, "missing or invalid Authorization header"))
          else if TokenLookup in faults then Err(DatabaseError)
          else if lookup.None? then Err(Response(Unauthorized401, "invalid token"))
          else match ValidateUploadTtMetadata(metadata, env.parseUuid)
            case Err(e) => Err(Response(BadRequest400, e))
            case Ok(ids) =>
              match ValidateUploadTtFile(file, env.simulate)
              case Err(e) => Err(Response(BadRequest400, e))
              case Ok(res) =>
                if RecordFilter in faults then Err(DatabaseError)
                else match GetTtVersion(file, env.info)
                  case Err(e) => Err(Response(BadRequest400, e))
                  case Ok(version) => Ok(Submission(Triple(lookup.value.userId, ids.0, ids.1), file, res.elapsedTicks, version))
  }

  datatype UploadOutcome = UploadOutcome(response: Response, rows: seq<TimeTrialEntry>, files: map<string, seq<byte>>)

  /** The reconciliation with `existing`, the record the filter found. */
  function Reconcile(s: Submission, existing: Option<TimeTrialEntry>, rows: seq<TimeTrialEntry>,
                     files: map<string, seq<byte>>, env: UploadEnv, newId: Uuid, now: Timestamp, faults: Faults)
    : UploadOutcome
  {
    match existing
    case Some(record) =>
      if record.totalTicks >= s.ticks then
        if RecordUpdate in faults then UploadOutcome(DatabaseError, rows, files)
        else
          var updated := UpdateRows(rows, record.id, s.version, s.ticks, now);
          if BlobWrite in faults then UploadOutcome(WriteFailed(env), updated, files)
          else UploadOutcome(Uploaded, updated, files[TtFilePath(env.root, record.id) := s.file])
      else UploadOutcome(Uploaded, rows, files)
    case None =>
      if RecordInsert in faults then UploadOutcome(DatabaseError, rows, files)
      else
        var (inserted, entry) := InsertRows(rows, s.triple, s.version, s.ticks, newId, now);
        if BlobWrite in faults then UploadOutcome(WriteFailed(env), inserted, files)
        else UploadOutcome(Uploaded, inserted, files[TtFilePath(env.root, entry.id) := s.file])
  }

  /** The handler: the gates, the filter by all three keys, then the
      reconciliation with the last row found. */
  function UploadTtOutcome(parts: seq<seq<byte>>, auth: Header, lookup: Option<UserToken>, rows: seq<TimeTrialEntry>,
                           files: map<string, seq<byte>>, env: UploadEnv, newId: Uuid, now: Timestamp, faults: Faults)
    : UploadOutcome
  {
    match Admit(parts, auth, lookup, env, faults)
    case Err(r) => UploadOutcome(r, rows, files)
    case Ok(s) => Reconcile(s, Pop(SelectMatching(rows, FullCriteria(s.triple))), rows, files, env, newId, now, faults)
  }

  // ---------------------------------------------------------------------------
  // The gates
  // ---------------------------------------------------------------------------

  /** The gates before authentication: the multipart fields are read
      before the header is looked at. */
  lemma FieldsCheckedBeforeAuth(parts: seq<seq<byte>>, auth: Header, lookup: Option<UserToken>, env: UploadEnv, faults: Faults)
    ensures |parts| == 0 ==> Admit(parts, auth, lookup, env, faults) == Err(Response(BadRequest400, "missing metadata field"))
    ensures |parts| > 0 && env.decodeMetadata(parts[0]).None? ==>
      Admit(parts, auth, lookup, env, faults) == Err(Response(BadRequest400, "invalid metadata"))
    ensures |parts| == 1 && env.decodeMetadata(parts[0]).Some? ==>
      Admit(parts, auth, lookup, env, faults) == Err(Response(BadRequest400, "missing file field"))
  {
  }

  /** With both fields present, a missing header or an unknown token is a
      401. */
  lemma UnknownCallerIs401(parts: seq<seq<byte>>, auth: Header, lookup: Option<UserToken>, env: UploadEnv, faults: Faults)
    requires |parts| >= 2 && env.decodeMetadata(parts[0]).Some?
    requires !auth.Text? || (TokenLookup !in faults && lookup.None?)
    ensures Admit(parts, auth, lookup, env, faults).Err?
    ensures Admit(parts, auth, lookup, env, faults).error.status == Unauthorized401
  {
  }

  /** A known caller with bad ids or a replay that fails validation gets
      400 with the gate's message. */
  lemma InvalidSubmissionIs400(parts: seq<seq<byte>>, auth: Header, lookup: Option<UserToken>, env: UploadEnv, faults: Faults)
    requires |parts| >= 2 && env.decodeMetadata(parts[0]).Some? && auth.Text? && TokenLookup !in faults && lookup.Some?
    ensures var m := env.decodeMetadata(parts[0]).value;
      ValidateUploadTtMetadata(m, env.parseUuid).Err? ==>
        Admit(parts, auth, lookup, env, faults) == Err(Response(BadRequest400, ValidateUploadTtMetadata(m, env.parseUuid).error))
    ensures var m := env.decodeMetadata(parts[0]).value;
      ValidateUploadTtMetadata(m, env.parseUuid).Ok? && ValidateUploadTtFile(parts[1], env.simulate).Err? ==>
        Admit(parts, auth, lookup, env, faults) == Err(Response(BadRequest400, ValidateUploadTtFile(parts[1], env.simulate).error))
  {
  }

  /** A refusal by the gates, a failed record statement, or any reply but a
      200 or a failed file write leaves the table and the file store as
      they were. */
  lemma RefusalChangesNothing(parts: seq<seq<byte>>, auth: Header, lookup: Option<UserToken>, rows: seq<TimeTrialEntry>,
                              files: map<string, seq<byte>>, env: UploadEnv, newId: Uuid, now: Timestamp, faults: Faults)
    ensures var o := UploadTtOutcome(parts, auth, lookup, rows, files, env, newId, now, faults);
      o.response != Uploaded && o.response != WriteFailed(env) ==> o.rows == rows && o.files == files
    ensures Admit(parts, auth, lookup, env, faults).Err? ==>
      UploadTtOutcome(parts, auth, lookup, rows, files, env, newId, now, faults).response.status != Ok200
    ensures var o := UploadTtOutcome(parts, auth, lookup, rows, files, env, newId, now, faults);
      o.response == WriteFailed(env) ==> o.files == files
  {
  }

  // ---------------------------------------------------------------------------
  // The ledger
  // ---------------------------------------------------------------------------

  /** Appending a row for a new triple leaves every other triple's row. */
  lemma AppendKeepsOtherTriples(rows: seq<TimeTrialEntry>, e: TimeTrialEntry, other: Triple)
    requires UniqueTriples(rows) && UniqueTriples(rows + [e]) && TripleOf(e) != other
    ensures RowFor(rows + [e], other) == RowFor(rows, other)
  {
    SameRowFor(rows + [e], rows, other);
  }

  /** Updating the row kept for `t` changes no other triple's row, and
      leaves `t`'s row with the same id and the new version and ticks. */
  lemma UpdateKeepsOtherTriples(rows: seq<TimeTrialEntry>, t: Triple, version: Int32, ticks: Int32, now: Timestamp, other: Triple)
    requires TableInvariant(rows) && RowFor(rows, t).Some?
    ensures var after := UpdateRows(rows, RowFor(rows, t).value.id, version, ticks, now);
      && TableInvariant(after)
      && RowFor(after, t) == Some(RowFor(rows, t).value.(ttVersion := version, totalTicks := ticks, createdAt := Some(now)))
      && (other != t ==> RowFor(after, other) == RowFor(rows, other))
  {
    var record := RowFor(rows, t).value;
    UpdateKeepsInvariant(rows, record.id, version, ticks, now);
    var k :| 0 <= k < |rows| && rows[k] == record;
    UpdatedRow(rows, k, version, ticks, now);
    if other != t {
      UpdateLeavesTriple(rows, k, version, ticks, now, other);
    }
  }

  /** Updating the record at `k` by its id puts the new values in its place. */
  lemma UpdatedRow(rows: seq<TimeTrialEntry>, k: nat, version: Int32, ticks: Int32, now: Timestamp)
    requires TableInvariant(rows) && k < |rows|
    ensures var after := UpdateRows(rows, rows[k].id, version, ticks, now);
      RowFor(after, TripleOf(rows[k])) == Some(rows[k].(ttVersion := version, totalTicks := ticks, createdAt := Some(now)))
  {
    var after := UpdateRows(rows, rows[k].id, version, ticks, now);
    UpdateKeepsInvariant(rows, rows[k].id, version, ticks, now);
    assert after[k] == rows[k].(ttVersion := version, totalTicks := ticks, createdAt := Some(now));
    RowForExact(after, TripleOf(rows[k]), after[k]);
  }

  /** Updating the record at `k` by its id leaves every other triple's
      record where it was. */
  lemma UpdateLeavesTriple(rows: seq<TimeTrialEntry>, k: nat, version: Int32, ticks: Int32, now: Timestamp, other: Triple)
    requires TableInvariant(rows) && k < |rows| && other != TripleOf(rows[k])
    ensures RowFor(UpdateRows(rows, rows[k].id, version, ticks, now), other) == RowFor(rows, other)
  {
    var record := rows[k];
    var after := UpdateRows(rows, record.id, version, ticks, now);
    forall e | TripleOf(e) == other ensures e in after <==> e in rows {
      if e in after {
        var i :| 0 <= i < |after| && after[i] == e;
        assert rows[i].id != record.id;
      }
      if e in rows {
        var i :| 0 <= i < |rows| && rows[i] == e;
        assert rows[i].id != record.id by {
          if i != k { assert rows[i].id != rows[k].id; }
        }
        assert after[i] == e;
      }
    }
    SameRowFor(after, rows, other);
  }

  /** A first replay for a triple becomes a new record under the fresh id,
      with its replay stored there; no other triple's record changes. */
  lemma ReconcileFirstReplay(s: Submission, rows: seq<TimeTrialEntry>, files: map<string, seq<byte>>, env: UploadEnv,
                             newId: Uuid, now: Timestamp, faults: Faults, other: Triple)
    requires TableInvariant(rows) && IdFree(rows, newId) && RowFor(rows, s.triple).None?
    requires Reconcile(s, None, rows, files, env, newId, now, faults).response == Uploaded
    ensures var o := Reconcile(s, None, rows, files, env, newId, now, faults);
      && TableInvariant(o.rows)
      && RowFor(o.rows, s.triple) == Some(TimeTrialEntry(newId, s.triple.userId, s.triple.carId, s.triple.stageId,
                                                         s.version, s.ticks, Some(now)))
      && o.files == files[TtFilePath(env.root, newId) := s.file]
      && (other != s.triple ==> RowFor(o.rows, other) == RowFor(rows, other))
  {
    var t := s.triple;
    var (inserted, entry) := InsertRows(rows, t, s.version, s.ticks, newId, now);
    InsertKeepsInvariant(rows, t, s.version, s.ticks, newId, now);
    RowForExact(inserted, t, entry);
    if other != t {
      AppendKeepsOtherTriples(rows, entry, other);
    }
  }

  /** A replay for a triple that has a record: at least as fast, it keeps
      the record's id, takes the new version and ticks and overwrites the
      record's replay; slower, it changes nothing. */
  lemma ReconcileExisting(s: Submission, rows: seq<TimeTrialEntry>, files: map<string, seq<byte>>, env: UploadEnv,
                          newId: Uuid, now: Timestamp, faults: Faults, other: Triple)
    requires TableInvariant(rows) && RowFor(rows, s.triple).Some?
    requires Reconcile(s, RowFor(rows, s.triple), rows, files, env, newId, now, faults).response == Uploaded
    ensures var o := Reconcile(s, RowFor(rows, s.triple), rows, files, env, newId, now, faults);
      var before := RowFor(rows, s.triple).value;
      && TableInvariant(o.rows)
      && RowFor(o.rows, s.triple).Some?
      && RowFor(o.rows, s.triple).value.id == before.id
      && RowFor(o.rows, s.triple).value.totalTicks == Min(before.totalTicks, s.ticks)
      && (before.totalTicks >= s.ticks ==>
            && RowFor(o.rows, s.triple).value.ttVersion == s.version
            && o.files == files[TtFilePath(env.root, before.id) := s.file])
      && (before.totalTicks < s.ticks ==> o.rows == rows && o.files == files)
      && (other != s.triple ==> RowFor(o.rows, other) == RowFor(rows, other))
  {
    if RowFor(rows, s.triple).value.totalTicks >= s.ticks {
      UpdateKeepsOtherTriples(rows, s.triple, s.version, s.ticks, now, other);
    }
  }

  /** A replay slower than the record is acknowledged with 200 and changes
      neither the ledger nor the files, whatever the storage would do. */
  lemma SlowerReplayChangesNothing(s: Submission, rows: seq<TimeTrialEntry>, files: map<string, seq<byte>>,
                                   env: UploadEnv, newId: Uuid, now: Timestamp, faults: Faults)
    requires RowFor(rows, s.triple).Some? && RowFor(rows, s.triple).value.totalTicks < s.ticks
    ensures Reconcile(s, RowFor(rows, s.triple), rows, files, env, newId, now, faults) == UploadOutcome(Uploaded, rows, files)
  {
  }

  /** The same for the whole handler: an admitted upload slower than the
      caller's record for that car and stage gets 200 and changes nothing. */
  lemma SlowerUploadIs200(parts: seq<seq<byte>>, auth: Header, lookup: Option<UserToken>, rows: seq<TimeTrialEntry>,
                          files: map<string, seq<byte>>, env: UploadEnv, newId: Uuid, now: Timestamp, faults: Faults)
    requires UniqueTriples(rows)
    requires Admit(parts, auth, lookup, env, faults).Ok?
    requires var s := Admit(parts, auth, lookup, env, faults).value;
      RowFor(rows, s.triple).Some? && RowFor(rows, s.triple).value.totalTicks < s.ticks
    ensures UploadTtOutcome(parts, auth, lookup, rows, files, env, newId, now, faults) == UploadOutcome(Uploaded, rows, files)
  {
    UploadIsReconcile(parts, auth, lookup, rows, files, env, newId, now, faults);
  }

  function Min(a: int, b: int): int {
    if a <= b then a else b
  }

  /** Once the gates pass, the filter finds exactly the record kept for the
      caller's triple, so the handler is the reconciliation with it. */
  lemma UploadIsReconcile(parts: seq<seq<byte>>, auth: Header, lookup: Option<UserToken>, rows: seq<TimeTrialEntry>,
                          files: map<string, seq<byte>>, env: UploadEnv, newId: Uuid, now: Timestamp, faults: Faults)
    requires UniqueTriples(rows)
    requires Admit(parts, auth, lookup, env, faults).Ok?
    ensures var s := Admit(parts, auth, lookup, env, faults).value;
      UploadTtOutcome(parts, auth, lookup, rows, files, env, newId, now, faults)
        == Reconcile(s, RowFor(rows, s.triple), rows, files, env, newId, now, faults)
  {
    SelectFullTriple(rows, Admit(parts, auth, lookup, env, faults).value.triple);
  }

  // ---------------------------------------------------------------------------
  // The handler
  // ---------------------------------------------------------------------------

  /** The gates against the token store. */
  method AdmitRequest(tokens: TokenStore, parts: seq<seq<byte>>, auth: Header, env: UploadEnv, faults: Faults)
    returns (r: Result<Submission, Response>, ghost lookup: Option<UserToken>)
    ensures FieldsPresent(parts, env) && auth.Text? && TokenLookup !in faults ==> AnswersLookup(tokens.pairs, auth.value, lookup)
    ensures r == Admit(parts, auth, lookup, env, faults)
  {
    lookup := None;
    if |parts| == 0 {
      return Err(Response(BadRequest400, "missing metadata field")), lookup;
    }
    var metadata := env.decodeMetadata(parts[0]);
    if metadata.None? {
      return Err(Response(BadRequest400, "invalid metadata")), lookup;
    }
    if |parts| < 2 {
      return Err(Response(BadRequest400, "missing file field")), lookup;
    }
    var file := parts[1];
    if !auth.Text? {
      return Err(Response(Unauthorized401, "missing or invalid Authorization header")), lookup;
    }
    if TokenLookup in faults {
      return Err(DatabaseError), lookup;
    }
    var owner := tokens.GetUserByToken(auth.value);
    lookup := owner;
    if owner.None? {
      return Err(Response(Unauthorized401, "invalid token")), lookup;
    }
    var ids := ValidateUploadTtMetadata(metadata.value, env.parseUuid);
    if ids.Err? {
      return Err(Response(BadRequest400, ids.error)), lookup;
    }
    var res := ValidateUploadTtFile(file, env.simulate);
    if res.Err? {
      return Err(Response(BadRequest400, res.error)), lookup;
    }
    if RecordFilter in faults {
      return Err(DatabaseError), lookup;
    }
    var version := GetTtVersion(file, env.info);
    if version.Err? {
      return Err(Response(BadRequest400, version.error)), lookup;
    }
    return Ok(Submission(Triple(owner.value.userId, ids.value.0, ids.value.1), file, res.value.elapsedTicks, version.value)), lookup;
  }

  /** The handler against the token store, the `time_trials` table and the
      file store. `newId` is the id the database would generate for a new
      record, `now` its clock. */
  method UploadTimeTrial(tokens: TokenStore, table: TimeTrialTable, fs: FileStore, parts: seq<seq<byte>>, auth: Header,
                         env: UploadEnv, newId: Uuid, now: Timestamp, faults: Faults)
    returns (response: Response, ghost lookup: Option<UserToken>)
    requires table.Valid() && IdFree(table.rows, newId)
    modifies table, fs
    ensures table.Valid()
    ensures FieldsPresent(parts, env) && auth.Text? && TokenLookup !in faults ==> AnswersLookup(tokens.pairs, auth.value, lookup)
    ensures UploadOutcome(response, table.rows, fs.files)
      == UploadTtOutcome(parts, auth, lookup, old(table.rows), old(fs.files), env, newId, now, faults)
  {
    var admitted;
    admitted, lookup := AdmitRequest(tokens, parts, auth, env, faults);
    if admitted.Err? {
      return admitted.error, lookup;
    }
    var s := admitted.value;
    var found := table.Filter(Some(s.triple.userId), Some(s.triple.carId), Some(s.triple.stageId));
    assert found == SelectMatching(table.rows, FullCriteria(s.triple));
    var existing := Pop(found);
    if existing.Some? {
      var record := existing.value;
      if record.totalTicks >= s.ticks {
        if RecordUpdate in faults {
          return DatabaseError, lookup;
        }
        table.Update(record.id, s.version, s.ticks, now);
        if BlobWrite in faults {
          return WriteFailed(env), lookup;
        }
        WriteTtFile(fs, env.root, record.id, s.file);
      }
    } else {
      if RecordInsert in faults {
        return DatabaseError, lookup;
      }
      var entry := table.Insert(s.triple.userId, s.triple.carId, s.triple.stageId, s.version, s.ticks, newId, now);
      if BlobWrite in faults {
        return WriteFailed(env), lookup;
      }
      WriteTtFile(fs, env.root, entry.id, s.file);
    }
    return Uploaded, lookup;
  }
}
