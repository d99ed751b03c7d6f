/** `search_tt` (src/route/tt/search_tt.rs): look up time-trial records by
    any combination of username, car and stage, and report each with its
    owner's name. UUID parsing and the rendering of a timestamp are library
    code and are parameters. */
module SearchTt {
  import opened Common
  import opened TtEntry
  import opened Users

  /** `SearchTTRequest`: the ids arrive as text still to be parsed. */
  datatype SearchTtRequest = SearchTtRequest(username: Option<string>, carId: Option<string>, stageId: Option<string>)

  /** `SearchTTResponse`. */
  datatype SearchTtResponse = SearchTtResponse(
    id: string,
    ticks: Int32,
    username: string,
    carId: string,
    stageId: string,
    createdAt: string)

  /** `Uuid::parse_str`. */
  type UuidParser = string -> Option<Uuid>

  /** The `Display` of a stored timestamp. */
  type Renderer = Timestamp -> string

  const NoParameter := "At least one search parameter must be provided"

  /** `validate_search_tt_request`. */
  function ValidateSearchTtRequest(req: SearchTtRequest): (r: Result<(), string>)
    ensures r.Ok? <==> req.username.Some? || req.carId.Some? || req.stageId.Some?
    ensures r.Err? ==> r.error == NoParameter
  {
    if req.username.None? && req.carId.None? && req.stageId.None? then Err(NoParameter) else Ok(())
  }

  /** `from_time_trial_entry`: the ids in hyphenated form, the ticks, the
      given name, and the creation time rendered or left empty. */
  function FromTimeTrialEntry(e: TimeTrialEntry, username: string, render: Renderer): (r: SearchTtResponse)
    ensures |r.id| == |r.carId| == |r.stageId| == 36
    ensures r.ticks == e.totalTicks && r.username == username
    ensures e.createdAt.None? ==> r.createdAt == ""
    ensures e.createdAt.Some? ==> r.createdAt == render(e.createdAt.value)
  {
    SearchTtResponse(
      Hyphenated(e.id), e.totalTicks, username, Hyphenated(e.carId), Hyphenated(e.stageId),
      match e.createdAt case None => "" case Some(dt) => render(dt))
  }

  /** The three ids of a response read back as the record's ids. */
  lemma ResponseIdsRoundTrip(e: TimeTrialEntry, username: string, render: Renderer)
    ensures var r := FromTimeTrialEntry(e, username, render);
      Unhex(r.id) == e.id && Unhex(r.carId) == e.carId && Unhex(r.stageId) == e.stageId
  {
    UnhexHyphenated(e.id);
    UnhexHyphenated(e.carId);
    UnhexHyphenated(e.stageId);
  }

  /** An optional id, parsed if present: `None` stays `None`, text that is
      not a UUID is an error. */
  function ParseOptionalUuid(s: Option<string>, parse: UuidParser): (r: Result<Option<Uuid>, ()>)
    ensures r.Err? <==> s.Some? && parse(s.value).None?
    ensures r.Ok? ==> (r.value.Some? <==> s.Some?)
    ensures r.Ok? && s.Some? ==> r.value == parse(s.value)
  {
    match s
    case None => Ok(None)
    case Some(text) => match parse(text) case None => Err(()) case Some(u) => Ok(Some(u))
  }

  /** The name reported for a record's owner: "Unknown" when the user no
      longer exists. */
  function OwnerName(users: seq<UserRow>, userId: Int32): (name: string)
    ensures (exists row :: row in users && row.id == userId) ==>
      exists row :: row in users && row.id == userId && row.username == name
    ensures (forall row :: row in users ==> row.id != userId) ==> name == "Unknown"
  {
    match ById(users, userId) case None => "Unknown" case Some(row) => row.username
  }

  /** The response line for one record. */
  function Line(users: seq<UserRow>, e: TimeTrialEntry, render: Renderer): SearchTtResponse {
    FromTimeTrialEntry(e, OwnerName(users, e.userId), render)
  }

  /** `Line` for a fixed users table and renderer, as a function value. */
  function LineOf(users: seq<UserRow>, render: Renderer): TimeTrialEntry -> SearchTtResponse {
    e => Line(users, e, render)
  }

  /** `f` applied to each element of `s`, in order. */
  function MapSeq<T, U>(f: T -> U, s: seq<T>): (r: seq<U>)
    ensures |r| == |s|
  {
    if s == [] then [] else MapSeq(f, s[..|s| - 1]) + [f(s[|s| - 1])]
  }

  lemma {:induction false} MapSeqAt<T, U>(f: T -> U, s: seq<T>, i: nat)
    requires i < |s|
    ensures MapSeq(f, s)[i] == f(s[i])
  {
    var init := s[..|s| - 1];
    if i < |init| {
      MapSeqAt(f, init, i);
      assert init[i] == s[i];
    }
  }

  /** The response list for the selected records, one per record, in order. */
  function Report(users: seq<UserRow>, raw: seq<TimeTrialEntry>, render: Renderer): (r: seq<SearchTtResponse>)
    ensures |r| == |raw|
  {
    MapSeq(LineOf(users, render), raw)
  }

  /** Line `i` of the report is the line of record `i`. */
  lemma ReportLine(users: seq<UserRow>, raw: seq<TimeTrialEntry>, render: Renderer, i: nat)
    requires i < |raw|
    ensures Report(users, raw, render)[i] == Line(users, raw[i], render)
  {
    MapSeqAt(LineOf(users, render), raw, i);
  }

  /** Reporting one more record adds its line at the end. */
  lemma ReportSnoc(users: seq<UserRow>, raw: seq<TimeTrialEntry>, i: nat, render: Renderer)
    requires i < |raw|
    ensures Report(users, raw[..i + 1], render) == Report(users, raw[..i], render) + [Line(users, raw[i], render)]
  {
    assert raw[..i + 1][..i] == raw[..i];
  }

  datatype SearchOutcome = Refused(response: Response) | Found(results: seq<SearchTtResponse>)

  const DatabaseError := Response(InternalError500, "internal database error")

  /** The keys of the search once the request has been read. */
  datatype Keys = Keys(userId: Option<Int32>, carId: Option<Uuid>, stageId: Option<Uuid>)

  /** Validation, the two id parses, the username lookup: the keys, or the
      reply that ends the request. */
  function SearchKeys(users: seq<UserRow>, req: SearchTtRequest, parse: UuidParser, faults: Faults)
    : (r: Result<Keys, Response>)
    ensures r.Ok? ==> (r.value.userId.Some? <==> req.username.Some?)
    ensures r.Ok? ==> (r.value.userId.None? && r.value.carId.None? ==> r.value.stageId.Some?)
    ensures r.Ok? ==> (r.value.carId.Some? <==> req.carId.Some?) && (r.value.stageId.Some? <==> req.stageId.Some?)
    ensures r.Ok? && req.username.Some? ==>
      exists row :: row in users && row.username == req.username.value && row.id == r.value.userId.value
  {
    if ValidateSearchTtRequest(req).Err? then Err(Response(BadRequest400, NoParameter))
    else match ParseOptionalUuid(req.carId, parse)
      case Err(_) => Err(Response(BadRequest400, "invalid car_id uuid"))
      case Ok(car) =>
        match ParseOptionalUuid(req.stageId, parse)
        case Err(_) => Err(Response(BadRequest400, "invalid stage_id uuid"))
        case Ok(stage) =>
          if req.username.None? then Ok(Keys(None, car, stage))
          else if UserIdLookup in faults then Err(DatabaseError)
          else match ByUsername(users, req.username.value)
            case None => Err(Response(NotFound404, "user not found"))
            case Some(row) => Ok(Keys(Some(row.id), car, stage))
  }

  function CriteriaOf(k: Keys): Criteria {
    Criteria(k.userId, k.carId, k.stageId)
  }

  /** The handler's reply. `UserByIdLookup` in `faults` makes every
      per-record owner lookup fail, which matters only when a record was
      found. */
  function SearchTtOutcome(users: seq<UserRow>, entries: seq<TimeTrialEntry>, req: SearchTtRequest,
                           parse: UuidParser, render: Renderer, faults: Faults): SearchOutcome
  {
    match SearchKeys(users, req, parse, faults)
    case Err(r) => Refused(r)
    case Ok(k) =>
      if RecordFilter in faults then Refused(DatabaseError)
      else
        var raw := SelectMatching(entries, CriteriaOf(k));
        if UserByIdLookup in faults && raw != [] then Refused(DatabaseError)
        else Found(Report(users, raw, render))
  }

  /** The refusals in source order: no key, a bad car id, a bad stage id,
      then an unknown user. */
  lemma SearchRefusals(users: seq<UserRow>, entries: seq<TimeTrialEntry>, req: SearchTtRequest,
                       parse: UuidParser, render: Renderer, faults: Faults)
    ensures req.username.None? && req.carId.None? && req.stageId.None? ==>
      SearchTtOutcome(users, entries, req, parse, render, faults) == Refused(Response(BadRequest400, NoParameter))
    ensures req.carId.Some? && parse(req.carId.value).None? ==>
      SearchTtOutcome(users, entries, req, parse, render, faults) == Refused(Response(BadRequest400, "invalid car_id uuid"))
    ensures (req.carId.None? || parse(req.carId.value).Some?) && req.stageId.Some? && parse(req.stageId.value).None? ==>
      SearchTtOutcome(users, entries, req, parse, render, faults) == Refused(Response(BadRequest400, "invalid stage_id uuid"))
    ensures && (req.carId.None? || parse(req.carId.value).Some?)
            && (req.stageId.None? || parse(req.stageId.value).Some?)
            && req.username.Some? && UserIdLookup !in faults
            && (forall row :: row in users ==> row.username != req.username.value) ==>
      SearchTtOutcome(users, entries, req, parse, render, faults) == Refused(Response(NotFound404, "user not found"))
  {
  }

  /** A search that succeeds reports exactly the records matching every key
      given: each reported line is a stored record that matches, in storage
      order, and every matching record is reported. */
  lemma SearchFindsExactlyMatches(users: seq<UserRow>, entries: seq<TimeTrialEntry>, req: SearchTtRequest,
                                  parse: UuidParser, render: Renderer, faults: Faults)
    requires SearchTtOutcome(users, entries, req, parse, render, faults).Found?
    ensures SearchKeys(users, req, parse, faults).Ok?
    ensures var k := SearchKeys(users, req, parse, faults).value;
      var raw := SelectMatching(entries, CriteriaOf(k));
      var rs := SearchTtOutcome(users, entries, req, parse, render, faults).results;
      && |rs| == |raw|
      && (forall i :: 0 <= i < |raw| ==>
            && raw[i] in entries
            && (req.carId.Some? ==> raw[i].carId == k.carId.value)
            && (req.stageId.Some? ==> raw[i].stageId == k.stageId.value)
            && (req.username.Some? ==> exists row :: row in users && row.username == req.username.value && row.id == raw[i].userId)
            && Unhex(rs[i].id) == raw[i].id
            && rs[i].ticks == raw[i].totalTicks)
      && (forall e :: e in entries && Matches(e, CriteriaOf(k)) ==> e in raw)
  {
    var k := SearchKeys(users, req, parse, faults).value;
    var raw := SelectMatching(entries, CriteriaOf(k));
    var rs := SearchTtOutcome(users, entries, req, parse, render, faults).results;
    assert rs == Report(users, raw, render);
    forall i | 0 <= i < |raw|
      ensures raw[i] in entries && Matches(raw[i], CriteriaOf(k))
      ensures Unhex(rs[i].id) == raw[i].id && rs[i].ticks == raw[i].totalTicks
    {
      assert raw[i] in raw;
      ReportIds(users, raw, render, i);
    }
  }

  /** Line `i` of the report carries the id and the ticks of record `i`. */
  lemma ReportIds(users: seq<UserRow>, raw: seq<TimeTrialEntry>, render: Renderer, i: nat)
    requires i < |raw|
    ensures Unhex(Report(users, raw, render)[i].id) == raw[i].id
    ensures Report(users, raw, render)[i].ticks == raw[i].totalTicks
  {
    ReportLine(users, raw, render, i);
    ResponseIdsRoundTrip(raw[i], OwnerName(users, raw[i].userId), render);
  }

  /** A record whose owner is gone is still reported, under "Unknown". */
  lemma MissingOwnerIsUnknown(users: seq<UserRow>, raw: seq<TimeTrialEntry>, render: Renderer, i: nat)
    requires i < |raw| && forall row :: row in users ==> row.id != raw[i].userId
    ensures Report(users, raw, render)[i].username == "Unknown"
  {
    ReportLine(users, raw, render, i);
  }

  /** The request checks and the username lookup against the `users` table. */
  method ReadKeys(users: UserTable, req: SearchTtRequest, parse: UuidParser, faults: Faults)
    returns (r: Result<Keys, Response>)
    ensures r == SearchKeys(users.rows, req, parse, faults)
  {
    if ValidateSearchTtRequest(req).Err? {
      return Err(Response(BadRequest400, NoParameter));
    }
    var car := ParseOptionalUuid(req.carId, parse);
    if car.Err? {
      return Err(Response(BadRequest400, "invalid car_id uuid"));
    }
    var stage := ParseOptionalUuid(req.stageId, parse);
    if stage.Err? {
      return Err(Response(BadRequest400, "invalid stage_id uuid"));
    }
    var userId: Option<Int32> := None;
    if req.username.Some? {
      if UserIdLookup in faults {
        return Err(DatabaseError);
      }
      userId := users.GetIdFromUsername(req.username.value);
      if userId.None? {
        return Err(Response(NotFound404, "user not found"));
      }
    }
    return Ok(Keys(userId, car.value, stage.value));
  }

  /** The loop that names each record's owner. */
  method ReportOwners(users: UserTable, raw: seq<TimeTrialEntry>, render: Renderer, faults: Faults)
    returns (o: SearchOutcome)
    ensures o == if UserByIdLookup in faults && raw != [] then Refused(DatabaseError)
                 else Found(Report(users.rows, raw, render))
  {
    var tts: seq<SearchTtResponse> := [];
    var i := 0;
    while i < |raw|
      invariant 0 <= i <= |raw|
      invariant |tts| == i
      invariant i > 0 ==> UserByIdLookup !in faults
      invariant tts == Report(users.rows, raw[..i], render)
    {
      if UserByIdLookup in faults {
        return Refused(DatabaseError);
      }
      var owner := users.GetByUserId(raw[i].userId);
      var username := if owner.Some? then owner.value.username else "Unknown";
      assert username == OwnerName(users.rows, raw[i].userId);
      ReportSnoc(users.rows, raw, i, render);
      tts := tts + [FromTimeTrialEntry(raw[i], username, render)];
      i := i + 1;
    }
    assert raw[..i] == raw;
    return Found(tts);
  }

  /** The handler against the two tables; it changes neither. */
  method SearchTimeTrials(users: UserTable, table: TimeTrialTable, req: SearchTtRequest,
                          parse: UuidParser, render: Renderer, faults: Faults)
    returns (o: SearchOutcome)
    ensures o == SearchTtOutcome(users.rows, table.rows, req, parse, render, faults)
  {
    var keys := ReadKeys(users, req, parse, faults);
    if keys.Err? {
      return Refused(keys.error);
    }
    if RecordFilter in faults {
      return Refused(DatabaseError);
    }
    var k := keys.value;
    var raw := table.Filter(k.userId, k.carId, k.stageId);
    assert raw == SelectMatching(table.rows, CriteriaOf(k));
    o := ReportOwners(users, raw, render, faults);
  }
}
