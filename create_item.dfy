/** `create_archive_item` (src/route/archive/create_item.rs): an
    authenticated user uploads an archive item as multipart fields; the
    fields are decoded one by one, then checked in a fixed order, the
    description is parsed, the text is written to the file store and the
    item is recorded in `archive_items`. UTF-8 decoding, UUID parsing and the
    `Display` of the item type are library or unshown code and are
    parameters; so is the text of an operating-system error. */
module CreateItem {
  import opened Common
  import opened Token
  import opened FileSystem
  import opened ArchiveParse

  /** `ArchiveItemType`. */
  datatype ItemType = Car | Stage | StagePiece | Wheel

  /** `String::from_utf8`. */
  type Utf8Decoder = seq<byte> -> Option<string>

  /** `Uuid::parse_str`. */
  type UuidParser = string -> Option<Uuid>

  /** What the handler uses from outside the core: the two decoders, the
      item type's `Display`, the configured file-store root, and the text of
      an operating-system error. */
  datatype Env = Env(
    utf8: Utf8Decoder,
    parseUuid: UuidParser,
    typeName: ItemType -> string,
    filestore: string,
    ioError: string)

  function BadRequest(message: string): Response {
    Response(BadRequest400, message)
  }

  /** The type byte: 0, 1, 2, 3 name the four types. */
  function ItemTypeOf(b: byte): (t: Option<ItemType>)
    ensures t.Some? <==> b <= 3
    ensures t == Some(Car) <==> b == 0
    ensures t == Some(Stage) <==> b == 1
    ensures t == Some(StagePiece) <==> b == 2
    ensures t == Some(Wheel) <==> b == 3
  {
    if b == 0 then Some(Car)
    else if b == 1 then Some(Stage)
    else if b == 2 then Some(StagePiece)
    else if b == 3 then Some(Wheel)
    else None
  }

  /** An id is refused when its version is known and is not the random
      version. */
  predicate VersionAccepted(u: Uuid) {
    GetVersion(u).None? || GetVersion(u) == Some(Random)
  }

  // ---------------------------------------------------------------------------
  // The field loop
  // ---------------------------------------------------------------------------

  /** A multipart field: its name, if it has one, and its bytes. */
  datatype Field = Field(name: Option<string>, bytes: seq<byte>)

  /** The loop's local variables; `data` keeps the received bytes with the
      text they decode to. */
  datatype Draft = Draft(
    stName: Option<string>,
    stData: Option<seq<byte>>,
    itemType: Option<ItemType>,
    data: Option<(seq<byte>, string)>,
    id: Option<Uuid>)

  const EmptyDraft := Draft(None, None, None, None, None)

  predicate IsKnownField(name: string) {
    name == "type" || name == "data" || name == "st_name" || name == "st_data" || name == "id"
  }

  /** One turn of the field loop: the field is stored, or the request ends. */
  function DecodeField(d: Draft, f: Field, env: Env): Result<Draft, Response> {
    if f.name.None? then Err(BadRequest("invalid multipart"))
    else
      var name := f.name.value;
      if name == "type" then
        if |f.bytes| == 0 then Err(Response(Panicked, ""))
        else match ItemTypeOf(f.bytes[0])
          case None => Err(BadRequest("invalid item type"))
          case Some(t) => Ok(d.(itemType := Some(t)))
      else if name == "data" then
        match env.utf8(f.bytes)
        case None => Err(BadRequest("invalid item data"))
        case Some(text) => Ok(d.(data := Some((f.bytes, text))))
      else if name == "st_name" then
        match env.utf8(f.bytes)
        case None => Err(BadRequest("invalid soundtrack name"))
        case Some(text) => Ok(d.(stName := Some(text)))
      else if name == "st_data" then Ok(d.(stData := Some(f.bytes)))
      else if name == "id" then
        match env.utf8(f.bytes)
        case None => Err(BadRequest("invalid id"))
        case Some(text) =>
          match env.parseUuid(text)
          case None => Err(BadRequest("invalid id"))
          case Some(u) => if VersionAccepted(u) then Ok(d.(id := Some(u))) else Err(BadRequest("invalid id version"))
      else Err(BadRequest("invalid multipart entry: " + name))
  }

  /** The whole loop, ending at the first field that ends the request. */
  function DecodeFields(d: Draft, fields: seq<Field>, env: Env): Result<Draft, Response>
    decreases |fields|
  {
    if fields == [] then Ok(d)
    else match DecodeField(d, fields[0], env)
      case Err(r) => Err(r)
      case Ok(next) => DecodeFields(next, fields[1..], env)
  }

  /** The field loop of the source. */
  method ReadFields(fields: seq<Field>, env: Env) returns (r: Result<Draft, Response>)
    ensures r == DecodeFields(EmptyDraft, fields, env)
  {
    var stName: Option<string> := None;
    var stData: Option<seq<byte>> := None;
    var itemType: Option<ItemType> := None;
    var data: Option<(seq<byte>, string)> := None;
    var id: Option<Uuid> := None;
    var i := 0;
    while i < |fields|
      invariant 0 <= i <= |fields|
      invariant DecodeFields(EmptyDraft, fields, env)
        == DecodeFields(Draft(stName, stData, itemType, data, id), fields[i..], env)
    {
      ghost var before := Draft(stName, stData, itemType, data, id);
      assert fields[i..][1..] == fields[i + 1..];
      var field := fields[i];
      if field.name.None? {
        return Err(BadRequest("invalid multipart"));
      }
      var name := field.name.value;
      var bytes := field.bytes;
      if name == "type" {
        if |bytes| == 0 {
          return Err(Response(Panicked, ""));
        }
        var t := ItemTypeOf(bytes[0]);
        if t.None? {
          return Err(BadRequest("invalid item type"));
        }
        itemType := t;
      } else if name == "data" {
        var text := env.utf8(bytes);
        if text.None? {
          return Err(BadRequest("invalid item data"));
        }
        data := Some((bytes, text.value));
      } else if name == "st_name" {
        var text := env.utf8(bytes);
        if text.None? {
          return Err(BadRequest("invalid soundtrack name"));
        }
        stName := text;
      } else if name == "st_data" {
        stData := Some(bytes);
      } else if name == "id" {
        var text := env.utf8(bytes);
        if text.None? {
          return Err(BadRequest("invalid id"));
        }
        var raw := env.parseUuid(text.value);
        if raw.None? {
          return Err(BadRequest("invalid id"));
        }
        if !VersionAccepted(raw.value) {
          return Err(BadRequest("invalid id version"));
        }
        id := raw;
      } else {
        return Err(BadRequest("invalid multipart entry: " + name));
      }
      assert DecodeField(before, field, env) == Ok(Draft(stName, stData, itemType, data, id));
      i := i + 1;
    }
    assert fields[i..] == [];
    return Ok(Draft(stName, stData, itemType, data, id));
  }

  /** Decoding a sequence of fields is decoding its two halves in turn. */
  lemma {:induction false} DecodeFieldsAppend(d: Draft, a: seq<Field>, b: seq<Field>, env: Env)
    ensures DecodeFields(d, a + b, env) ==
      match DecodeFields(d, a, env)
      case Err(r) => Err(r)
      case Ok(next) => DecodeFields(next, b, env)
    decreases |a|
  {
    if a == [] {
      assert a + b == b;
    } else {
      assert (a + b)[1..] == a[1..] + b;
      match DecodeField(d, a[0], env)
      case Err(_) =>
      case Ok(next) => DecodeFieldsAppend(next, a[1..], b, env);
    }
  }

  /** A field the loop reaches that has an unknown name, or an empty `type`
      field, ends the request whatever follows. */
  lemma FieldEndsRequest(d: Draft, before: seq<Field>, f: Field, after: seq<Field>, env: Env)
    requires DecodeFields(d, before, env).Ok? && f.name.Some?
    ensures !IsKnownField(f.name.value) ==>
      DecodeFields(d, before + [f] + after, env) == Err(BadRequest("invalid multipart entry: " + f.name.value))
    ensures f.name.value == "type" && f.bytes == [] ==>
      DecodeFields(d, before + [f] + after, env) == Err(Response(Panicked, ""))
  {
    DecodeFieldsAppend(d, before, [f] + after, env);
    assert before + [f] + after == before + ([f] + after);
    assert ([f] + after)[1..] == after;
  }

  /** The loop only ends the request with a refusal, never a 200. */
  lemma {:induction false} DecodeNeverSucceedsEarly(d: Draft, fields: seq<Field>, env: Env)
    ensures DecodeFields(d, fields, env).Err? ==> DecodeFields(d, fields, env).error.status != Ok200
    decreases |fields|
  {
    if fields != [] && DecodeField(d, fields[0], env).Ok? {
      DecodeNeverSucceedsEarly(DecodeField(d, fields[0], env).value, fields[1..], env);
    }
  }

  /** The bytes of the last field named `name`. */
  function LastBytes(fields: seq<Field>, name: string): Option<seq<byte>>
    decreases |fields|
  {
    if fields == [] then None
    else match LastBytes(fields[1..], name)
      case Some(b) => Some(b)
      case None => if fields[0].name == Some(name) then Some(fields[0].bytes) else None
  }

  /** After a successful loop every variable holds what its last field
      carried, so a repeated field overwrites the earlier one; a variable
      with no field keeps its starting value. */
  lemma {:induction false} LastFieldWins(d: Draft, fields: seq<Field>, env: Env)
    requires DecodeFields(d, fields, env).Ok?
    ensures var r := DecodeFields(d, fields, env).value;
      && (LastBytes(fields, "type").Some? ==>
            |LastBytes(fields, "type").value| > 0 && r.itemType == ItemTypeOf(LastBytes(fields, "type").value[0]))
      && (LastBytes(fields, "type").None? ==> r.itemType == d.itemType)
      && (LastBytes(fields, "data").Some? ==>
            env.utf8(LastBytes(fields, "data").value).Some?
            && r.data == Some((LastBytes(fields, "data").value, env.utf8(LastBytes(fields, "data").value).value)))
      && (LastBytes(fields, "data").None? ==> r.data == d.data)
      && (LastBytes(fields, "st_name").Some? ==> r.stName == env.utf8(LastBytes(fields, "st_name").value))
      && (LastBytes(fields, "st_name").None? ==> r.stName == d.stName)
      && (LastBytes(fields, "st_data").Some? ==> r.stData == LastBytes(fields, "st_data"))
      && (LastBytes(fields, "st_data").None? ==> r.stData == d.stData)
      && (LastBytes(fields, "id").Some? ==>
            env.utf8(LastBytes(fields, "id").value).Some?
            && r.id == env.parseUuid(env.utf8(LastBytes(fields, "id").value).value))
      && (LastBytes(fields, "id").None? ==> r.id == d.id)
  {
    LastTypeAndDataWin(d, fields, env);
    LastSoundtrackWins(d, fields, env);
    LastIdWins(d, fields, env);
  }

  lemma {:induction false} LastTypeAndDataWin(d: Draft, fields: seq<Field>, env: Env)
    requires DecodeFields(d, fields, env).Ok?
    ensures var r := DecodeFields(d, fields, env).value;
      && (LastBytes(fields, "type").Some? ==>
            |LastBytes(fields, "type").value| > 0 && r.itemType == ItemTypeOf(LastBytes(fields, "type").value[0]))
      && (LastBytes(fields, "type").None? ==> r.itemType == d.itemType)
      && (LastBytes(fields, "data").Some? ==>
            env.utf8(LastBytes(fields, "data").value).Some?
            && r.data == Some((LastBytes(fields, "data").value, env.utf8(LastBytes(fields, "data").value).value)))
      && (LastBytes(fields, "data").None? ==> r.data == d.data)
    decreases |fields|
  {
    if fields != [] {
      LastTypeAndDataWin(DecodeField(d, fields[0], env).value, fields[1..], env);
    }
  }

  lemma {:induction false} LastSoundtrackWins(d: Draft, fields: seq<Field>, env: Env)
    requires DecodeFields(d, fields, env).Ok?
    ensures var r := DecodeFields(d, fields, env).value;
      && (LastBytes(fields, "st_name").Some? ==> r.stName == env.utf8(LastBytes(fields, "st_name").value))
      && (LastBytes(fields, "st_name").None? ==> r.stName == d.stName)
      && (LastBytes(fields, "st_data").Some? ==> r.stData == LastBytes(fields, "st_data"))
      && (LastBytes(fields, "st_data").None? ==> r.stData == d.stData)
    decreases |fields|
  {
    if fields != [] {
      LastSoundtrackWins(DecodeField(d, fields[0], env).value, fields[1..], env);
    }
  }

  lemma {:induction false} LastIdWins(d: Draft, fields: seq<Field>, env: Env)
    requires DecodeFields(d, fields, env).Ok?
    ensures var r := DecodeFields(d, fields, env).value;
      && (LastBytes(fields, "id").Some? ==>
            env.utf8(LastBytes(fields, "id").value).Some?
            && r.id == env.parseUuid(env.utf8(LastBytes(fields, "id").value).value))
      && (LastBytes(fields, "id").None? ==> r.id == d.id)
    decreases |fields|
  {
    if fields != [] {
      LastIdWins(DecodeField(d, fields[0], env).value, fields[1..], env);
    }
  }

  /** Every id the loop keeps has an accepted version; in particular the
      nil UUID, whose version the uuid crate reports as `Nil`, never gets
      past the loop. */
  lemma {:induction false} LoopKeepsAcceptedIds(d: Draft, fields: seq<Field>, env: Env)
    requires d.id.Some? ==> VersionAccepted(d.id.value)
    requires DecodeFields(d, fields, env).Ok?
    ensures var r := DecodeFields(d, fields, env).value;
      r.id.Some? ==> VersionAccepted(r.id.value) && !IsNil(r.id.value)
    decreases |fields|
  {
    if fields != [] {
      LoopKeepsAcceptedIds(DecodeField(d, fields[0], env).value, fields[1..], env);
    } else if d.id.Some? {
      assert GetVersion(d.id.value) != Some(Nil);
    }
  }

  // ---------------------------------------------------------------------------
  // The gates after the loop
  // ---------------------------------------------------------------------------

  /** What the gates let through: the type, the data and the id. */
  datatype Checked = Checked(itemType: ItemType, bytes: seq<byte>, text: string, id: Uuid)

  /** The soundtrack gate, then the missing type, data and id, in that
      order, then empty data. */
  function CheckDraft(d: Draft): (r: Result<Checked, Response>)
    ensures r.Ok? <==>
      && d.itemType.Some? && d.data.Some? && d.id.Some? && d.data.value.1 != []
      && ((d.stName.Some? || d.stData.Some?) ==> d.itemType == Some(Stage))
    ensures r.Ok? ==> r.value == Checked(d.itemType.value, d.data.value.0, d.data.value.1, d.id.value)
  {
    if (d.stData.Some? || d.stName.Some?) && d.itemType.Some? && d.itemType.value != Stage then
      Err(BadRequest("soundtracks can only be uploaded with stages"))
    else if d.itemType.None? then Err(BadRequest("item must have a type"))
    else if d.data.None? then Err(BadRequest("item must have data"))
    else if d.id.None? then Err(BadRequest("item must have an id"))
    else if d.data.value.1 == [] then Err(BadRequest("item must have data"))
    else Ok(Checked(d.itemType.value, d.data.value.0, d.data.value.1, d.id.value))
  }

  /** Which missing part is reported: the type first, then the data, then
      the id; a soundtrack with a known type other than Stage is refused
      before any of them. */
  lemma MissingPartsInOrder(d: Draft)
    ensures (d.stName.Some? || d.stData.Some?) && d.itemType.Some? && d.itemType != Some(Stage) ==>
      CheckDraft(d) == Err(BadRequest("soundtracks can only be uploaded with stages"))
    ensures d.itemType.None? ==> CheckDraft(d) == Err(BadRequest("item must have a type"))
    ensures d.itemType.Some? && d.data.None? && (d.itemType == Some(Stage) || (d.stName.None? && d.stData.None?)) ==>
      CheckDraft(d) == Err(BadRequest("item must have data"))
    ensures (d.itemType.Some? && d.data.Some? && d.id.None?
             && (d.itemType == Some(Stage) || (d.stName.None? && d.stData.None?))) ==>
      CheckDraft(d) == Err(BadRequest("item must have an id"))
  {
  }

  /** `format!("{}/{}/{}.txt", filestore, type, id.hyphenated())`. */
  function ItemPath(env: Env, t: ItemType, id: Uuid): string {
    env.filestore + "/" + env.typeName(t) + "/" + Hyphenated(id) + ".txt"
  }

  /** Two ids of one type never share a path. */
  lemma ItemPathInjective(env: Env, t: ItemType, a: Uuid, b: Uuid)
    ensures ItemPath(env, t, a) == ItemPath(env, t, b) <==> a == b
  {
    if ItemPath(env, t, a) == ItemPath(env, t, b) {
      var n := |env.filestore + "/" + env.typeName(t) + "/"|;
      assert ItemPath(env, t, a)[n..n + 36] == Hyphenated(a);
      assert ItemPath(env, t, b)[n..n + 36] == Hyphenated(b);
      HyphenatedInjective(a, b);
    }
  }

  // ---------------------------------------------------------------------------
  // The `archive_items` table
  // ---------------------------------------------------------------------------

  /** A row of `archive_items` as the handler inserts it. */
  datatype ArchiveItem = ArchiveItem(
    id: Uuid,
    path: string,
    itemType: string,
    name: string,
    author: Option<string>,
    ownerUserId: Int32)

  /** The primary key. */
  ghost predicate UniqueItemIds(rows: seq<ArchiveItem>) {
    forall i, j :: 0 <= i < j < |rows| ==> rows[i].id != rows[j].id
  }

  predicate ItemIdFree(rows: seq<ArchiveItem>, id: Uuid) {
    forall i :: 0 <= i < |rows| ==> rows[i].id != id
  }

  class ItemTable {
    var rows: seq<ArchiveItem>

    ghost predicate Valid()
      reads this
    {
      UniqueItemIds(rows)
    }

    constructor (initial: seq<ArchiveItem>)
      requires UniqueItemIds(initial)
      ensures Valid() && rows == initial
    {
      rows := initial;
    }

    /** `ArchiveItem::insert`: fails on a taken id or a storage failure. */
    method Insert(item: ArchiveItem, fails: bool) returns (ok: bool)
      requires Valid()
      modifies this
      ensures Valid()
      ensures ok <==> !fails && ItemIdFree(old(rows), item.id)
      ensures rows == if ok then old(rows) + [item] else old(rows)
    {
      ok := !fails && ItemIdFree(rows, item.id);
      if ok {
        rows := rows + [item];
      }
    }
  }

  // ---------------------------------------------------------------------------
  // The handler
  // ---------------------------------------------------------------------------

  /** Who is asking: the owner of the presented token, or the reply that
      refuses the request. */
  datatype Caller = Caller(userId: Int32) | Refused(response: Response)

  /** The authorization header and the token lookup; `lookup` is what
      `get_user_by_token` answered. */
  function Authenticate(auth: Header, lookup: Option<UserToken>, faults: Faults): (c: Caller)
    ensures c.Caller? <==> auth.Text? && TokenLookup !in faults && lookup.Some?
    ensures c.Caller? ==> c.userId == lookup.value.userId
  {
    match auth
    case Absent => Refused(Response(Unauthorized401, "no authorization token provided"))
    case Unreadable => Refused(Response(Unauthorized401, "invalid authorization token"))
    case Text(_) =>
      if TokenLookup in faults then Refused(Response(InternalError500, "internal database error"))
      else if lookup.None? then Refused(Response(Unauthorized401, "invalid authorization token"))
      else Caller(lookup.value.userId)
  }

  datatype ItemOutcome = ItemOutcome(response: Response, files: map<string, seq<byte>>, rows: seq<ArchiveItem>)

  const ItemCreated := Response(Ok200, "item created")
  const IdInUse := BadRequest("id already in use")
  const InsertFailed := Response(InternalError500, "internal database error on item save")

  /** The handler after authentication: the loop, the gates, then the rest
      in `ItemAfterGates`. */
  function ItemAfterAuth(userId: Int32, fields: seq<Field>, files: map<string, seq<byte>>, rows: seq<ArchiveItem>,
                         env: Env, faults: Faults): ItemOutcome
  {
    match DecodeFields(EmptyDraft, fields, env)
    case Err(r) => ItemOutcome(r, files, rows)
    case Ok(d) =>
      match CheckDraft(d)
      case Err(r) => ItemOutcome(r, files, rows)
      case Ok(c) => ItemAfterGates(userId, c, files, rows, env, faults)
  }

  /** The parse, the nil check, the existence check as the source writes it
      (the request is refused when the file does NOT exist), the write and
      the insert. */
  function ItemAfterGates(userId: Int32, c: Checked, files: map<string, seq<byte>>, rows: seq<ArchiveItem>,
                          env: Env, faults: Faults): ItemOutcome
  {
    match ParseFileResult(c.text, c.itemType == Stage)
    case Err(e) => ItemOutcome(BadRequest("error parsing file: " + ErrorText(e)), files, rows)
    case Ok(info) =>
      if IsNil(c.id) then ItemOutcome(BadRequest("invalid id"), files, rows)
      else
        var path := ItemPath(env, c.itemType, c.id);
        if FileExists in faults then
          ItemOutcome(Response(InternalError500, "internal filesystem error on id lookup: " + env.ioError), files, rows)
        else if path !in files then ItemOutcome(IdInUse, files, rows)
        else if FileWrite in faults then
          ItemOutcome(Response(InternalError500, "internal filesystem error on item save: " + env.ioError), files, rows)
        else
          var written := files[path := c.bytes];
          var item := ArchiveItem(c.id, path, env.typeName(c.itemType), info.name, info.author, userId);
          if ItemInsert in faults || !ItemIdFree(rows, c.id) then ItemOutcome(InsertFailed, written, rows)
          else ItemOutcome(ItemCreated, written, rows + [item])
  }

  function CreateItemOutcome(caller: Caller, fields: seq<Field>, files: map<string, seq<byte>>, rows: seq<ArchiveItem>,
                             env: Env, faults: Faults): ItemOutcome
  {
    match caller
    case Refused(r) => ItemOutcome(r, files, rows)
    case Caller(userId) => ItemAfterAuth(userId, fields, files, rows, env, faults)
  }

  /** A refused caller changes nothing and gets the refusal. */
  lemma RefusedCallerChangesNothing(auth: Header, lookup: Option<UserToken>, fields: seq<Field>,
                                    files: map<string, seq<byte>>, rows: seq<ArchiveItem>, env: Env, faults: Faults)
    requires !Authenticate(auth, lookup, faults).Caller?
    ensures var o := CreateItemOutcome(Authenticate(auth, lookup, faults), fields, files, rows, env, faults);
      && o.files == files && o.rows == rows
      && o.response.status in {Unauthorized401, InternalError500}
      && (auth.Absent? ==> o.response.message == "no authorization token provided")
  {
  }

  /** The store and the table change only past every check: the table only
      with a 200, the file store only with a 200 or a failed insert after
      the write. */
  lemma OnlySuccessWrites(caller: Caller, fields: seq<Field>, files: map<string, seq<byte>>, rows: seq<ArchiveItem>,
                          env: Env, faults: Faults)
    ensures var o := CreateItemOutcome(caller, fields, files, rows, env, faults);
      && (o.response != ItemCreated ==> o.rows == rows)
      && (o.response != ItemCreated && o.response != InsertFailed ==> o.files == files)
  {
    if caller.Caller? && DecodeFields(EmptyDraft, fields, env).Ok? {
      var d := DecodeFields(EmptyDraft, fields, env).value;
      if CheckDraft(d).Ok? {
        GatesOnlySuccessWrites(caller.userId, CheckDraft(d).value, files, rows, env, faults);
      }
    }
  }

  lemma GatesOnlySuccessWrites(userId: Int32, c: Checked, files: map<string, seq<byte>>, rows: seq<ArchiveItem>,
                               env: Env, faults: Faults)
    ensures var o := ItemAfterGates(userId, c, files, rows, env, faults);
      && (o.response != ItemCreated ==> o.rows == rows)
      && (o.response != ItemCreated && o.response != InsertFailed ==> o.files == files)
  {
    assert ItemCreated != InsertFailed;
  }

  /** A 200 means: a known caller, a successful loop and gates, a parse of
      the text, an id that is not nil and whose file ALREADY existed (the
      existence test as written), the file overwritten with the received
      bytes, and one new row owned by the caller holding the parsed name and
      author. */
  lemma CreatedItem(auth: Header, lookup: Option<UserToken>, fields: seq<Field>, files: map<string, seq<byte>>,
                    rows: seq<ArchiveItem>, env: Env, faults: Faults)
    requires CreateItemOutcome(Authenticate(auth, lookup, faults), fields, files, rows, env, faults).response == ItemCreated
    ensures Authenticate(auth, lookup, faults).Caller? && DecodeFields(EmptyDraft, fields, env).Ok?
    ensures CheckDraft(DecodeFields(EmptyDraft, fields, env).value).Ok?
    ensures var c := CheckDraft(DecodeFields(EmptyDraft, fields, env).value).value;
      var o := CreateItemOutcome(Authenticate(auth, lookup, faults), fields, files, rows, env, faults);
      var path := ItemPath(env, c.itemType, c.id);
      && ParseFileResult(c.text, c.itemType == Stage).Ok?
      && !IsNil(c.id)
      && path in files
      && o.files == files[path := c.bytes]
      && o.rows == rows + [ArchiveItem(c.id, path, env.typeName(c.itemType),
                                       ParseFileResult(c.text, c.itemType == Stage).value.name,
                                       ParseFileResult(c.text, c.itemType == Stage).value.author,
                                       lookup.value.userId)]
      && ItemIdFree(rows, c.id)
  {
    DecodeNeverSucceedsEarly(EmptyDraft, fields, env);
    var d := DecodeFields(EmptyDraft, fields, env).value;
    GatesCreated(lookup.value.userId, CheckDraft(d).value, files, rows, env, faults);
  }

  /** After the gates, a 200 means a parse, an id that is not nil and whose
      file already existed, the file overwritten and one new row. */
  lemma GatesCreated(userId: Int32, c: Checked, files: map<string, seq<byte>>, rows: seq<ArchiveItem>,
                     env: Env, faults: Faults)
    requires ItemAfterGates(userId, c, files, rows, env, faults).response == ItemCreated
    ensures var o := ItemAfterGates(userId, c, files, rows, env, faults);
      var path := ItemPath(env, c.itemType, c.id);
      && ParseFileResult(c.text, c.itemType == Stage).Ok?
      && !IsNil(c.id)
      && path in files
      && o.files == files[path := c.bytes]
      && o.rows == rows + [ArchiveItem(c.id, path, env.typeName(c.itemType),
                                       ParseFileResult(c.text, c.itemType == Stage).value.name,
                                       ParseFileResult(c.text, c.itemType == Stage).value.author,
                                       userId)]
      && ItemIdFree(rows, c.id)
  {
  }

  /** As written, an id whose file does not exist yet is refused as "in
      use" and nothing is written. */
  lemma FreshIdRefused(userId: Int32, fields: seq<Field>, files: map<string, seq<byte>>, rows: seq<ArchiveItem>,
                       env: Env, faults: Faults)
    requires DecodeFields(EmptyDraft, fields, env).Ok?
    requires var d := DecodeFields(EmptyDraft, fields, env).value;
      && CheckDraft(d).Ok?
      && ParseFileResult(CheckDraft(d).value.text, CheckDraft(d).value.itemType == Stage).Ok?
      && ItemPath(env, CheckDraft(d).value.itemType, CheckDraft(d).value.id) !in files
    requires FileExists !in faults
    ensures ItemAfterAuth(userId, fields, files, rows, env, faults) == ItemOutcome(IdInUse, files, rows)
  {
    var d := DecodeFields(EmptyDraft, fields, env).value;
    LoopKeepsAcceptedIds(EmptyDraft, fields, env);
    assert !IsNil(CheckDraft(d).value.id);
  }

  /** The nil-id check after the parse is never what refuses a request:
      the loop has already refused every nil id. */
  lemma NilCheckUnreachable(userId: Int32, fields: seq<Field>, files: map<string, seq<byte>>, rows: seq<ArchiveItem>,
                            env: Env, faults: Faults)
    ensures ItemAfterAuth(userId, fields, files, rows, env, faults).response != BadRequest("invalid id")
      || DecodeFields(EmptyDraft, fields, env).Err?
  {
    if DecodeFields(EmptyDraft, fields, env).Ok? {
      var d := DecodeFields(EmptyDraft, fields, env).value;
      LoopKeepsAcceptedIds(EmptyDraft, fields, env);
      if CheckDraft(d).Ok? {
        NilGateOnlyForNil(userId, CheckDraft(d).value, files, rows, env, faults);
      }
    }
  }

  /** After the gates, "invalid id" is the reply to a nil id only. */
  lemma NilGateOnlyForNil(userId: Int32, c: Checked, files: map<string, seq<byte>>, rows: seq<ArchiveItem>,
                          env: Env, faults: Faults)
    ensures ItemAfterGates(userId, c, files, rows, env, faults).response == BadRequest("invalid id") ==> IsNil(c.id)
  {
    if ParseFileResult(c.text, c.itemType == Stage).Err? {
      var e := ParseFileResult(c.text, c.itemType == Stage).error;
      assert ("error parsing file: " + ErrorText(e))[0] == 'e';
    }
  }

  /** The handler against the token store, the file store and the table.
      `lookup` is the token lookup's answer. */
  method CreateArchiveItem(tokens: TokenStore, fs: FileStore, table: ItemTable, auth: Header, fields: seq<Field>,
                           env: Env, faults: Faults)
    returns (response: Response, ghost lookup: Option<UserToken>)
    requires table.Valid()
    modifies fs, table
    ensures table.Valid()
    ensures auth.Text? && TokenLookup !in faults ==> AnswersLookup(tokens.pairs, auth.value, lookup)
    ensures ItemOutcome(response, fs.files, table.rows)
      == CreateItemOutcome(Authenticate(auth, lookup, faults), fields, old(fs.files), old(table.rows), env, faults)
  {
    lookup := None;
    if auth.Absent? {
      return Response(Unauthorized401, "no authorization token provided"), lookup;
    }
    if auth.Unreadable? {
      return Response(Unauthorized401, "invalid authorization token"), lookup;
    }
    if TokenLookup in faults {
      return Response(InternalError500, "internal database error"), lookup;
    }
    var owner := tokens.GetUserByToken(auth.value);
    lookup := owner;
    if owner.None? {
      return Response(Unauthorized401, "invalid authorization token"), lookup;
    }
    var userId := owner.value.userId;

    var decoded := ReadFields(fields, env);
    if decoded.Err? {
      return decoded.error, lookup;
    }
    var checked := CheckDraft(decoded.value);
    if checked.Err? {
      return checked.error, lookup;
    }
    var c := checked.value;
    var parsed := ParseFile(c.text, c.itemType == Stage);
    if parsed.Err? {
      return BadRequest("error parsing file: " + ErrorText(parsed.error)), lookup;
    }
    if IsNil(c.id) {
      return BadRequest("invalid id"), lookup;
    }
    var path := ItemPath(env, c.itemType, c.id);
    if FileExists in faults {
      return Response(InternalError500, "internal filesystem error on id lookup: " + env.ioError), lookup;
    }
    if !fs.Exists(path) {
      return IdInUse, lookup;
    }
    if FileWrite in faults {
      return Response(InternalError500, "internal filesystem error on item save: " + env.ioError), lookup;
    }
    fs.Write(path, c.bytes);
    var item := ArchiveItem(c.id, path, env.typeName(c.itemType), parsed.value.name, parsed.value.author, userId);
    var inserted := table.Insert(item, ItemInsert in faults);
    if !inserted {
      return InsertFailed, lookup;
    }
    return ItemCreated, lookup;
  }
}
