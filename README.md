# nfmw-archive core, modelled in Dafny

The model covers the parts of the archive server that decide something:

- **Time-trial ledger.** An uploaded replay is re-simulated and must agree with itself. The server keeps one record per (user, car, stage). A replay at least as fast as the record replaces the record's ticks, version and file. A slower one is acknowledged with 200 and leaves both alone.
- **Single active session.** Every successful login deletes the user's tokens and then inserts one fresh token.
- **Local accounts.** These cover the password rule, the salted credential check, the upsert by username and `create_account`.
- **Archive description parser.** `parse_line` and `parse_file`.
- **Request-validation gates.** The gates of `create_archive_item`, `search_tt` and `upload_tt`, in the order the handlers apply them, with their status codes and messages.

### How the model is built

**Pure code** becomes functions and lemmas. Examples: `validate_password`, `parse_line`, `validate_search_tt_request` and the metadata and file checks.

**Stored state is made of classes:**
- the `users` table is `Users.UserTable`;
- `user_tokens` is `Token.TokenStore`;
- `time_trials` is `TtEntry.TimeTrialTable`;
- `archive_items` is `CreateItem.ItemTable`;
- the replay and item files are `FileSystem.FileStore`;
- the in-memory `User` record is `Users.User`.

Each table holds its rows in a field. Its methods reassign that field and state the new rows as a function of the old ones. The table invariants (unique ids, unique names, unique (user, car, stage) triples) are kept by every method.

**Handlers** are methods. Each one is proved equal to a pure outcome function of the old state: `CreateAccountOutcome`, `LocalLoginOutcome`, `LegacyLoginOutcome`, `CreateItemOutcome`, `SearchTtOutcome` and `UploadTtOutcome`. The lemmas about the handlers' behaviour are stated over those functions.

**Loops.** `parse_file`, the multipart field loop of `create_archive_item` and the owner loop of `search_tt` are `while` loops. Each is proved against a fold or a sequence function.

**Failures of the database or the file system.** Every handler and method that makes such calls takes a set `faults` naming the calls that fail. A failed call changes nothing.

**Foreign code becomes function parameters.** This covers:
- the replay simulator and the replay info reader (`src/ffi.rs`);
- the SHA-512 password hasher (`src/crypto.rs`);
- the UUID text parser;
- the UTF-8 decoder;
- the JSON metadata decoder;
- the `Display` of the item type;
- the timestamp renderer.

**Generated values become parameters.** Random and database-generated values (tokens, salts, new row ids, `NOW()`) are supplied as parameters. A generated id is required to be unused, as the database's primary key guarantees.

## Model

| member | source | states |
|---|---|---|
| Common.GetVersion | src/route/archive/create_item.rs:56-63 | The version of a UUID, as uuid 1.x computes it. The nil UUID has version `Nil`. `Random` comes exactly when the version nibble is 4. `Nil` comes only for the nil UUID. |
| Common.UnhexHyphenated | src/route/tt/search_tt.rs:30-34 | The hyphenated text form of a UUID decodes back to the UUID, so rendering loses nothing. |
| Common.HyphenatedInjective | src/tt/mod.rs:5-7 | Two UUIDs have the same hyphenated text exactly when they are equal. |
| Common.LowerAscii | src/archive/parse.rs:64 | `to_ascii_lowercase` keeps the length. It maps each ASCII capital to its lower case and leaves every other character alone. |
| Common.UnwrapOr | src/db/user.rs:65 | The stored value when there is one, otherwise the default. |
| FileSystem.FileStore.Exists | src/route/archive/create_item.rs:102-107 | True exactly when the path is a stored file. |
| FileSystem.FileStore.Write | src/tt/mod.rs:9-12 | Only the written path changes, and it now holds the data. |
| TimeTrial.TtFilePathInjective | src/tt/mod.rs:5-7 | Distinct replay ids give distinct replay paths. |
| TimeTrial.ValidateUploadTtFile | src/tt/mod.rs:14-37 | A file over 10 MB is refused with "File size exceeds 10 MB limit". Otherwise the file is accepted exactly when the simulation reports no error and a positive elapsed tick count equal to the expected count. Each refusal carries its own message. |
| TimeTrial.GetTtVersion | src/tt/mod.rs:39-45 | Succeeds exactly when the info reader reports no error. The result is the replay version. A failure message is prefixed "TT info fetch failed: ". |
| TimeTrial.WriteTtFile | src/tt/mod.rs:9-12 | Stores the data at the replay's path and changes nothing else. |
| TimeTrial.WriteKeepsOtherReplays | src/tt/mod.rs:5-12 | Writing one replay leaves every other replay's file as it was. |
| TtEntry.SelectMatching | src/db/tt/tt_entry.rs:60-99 | The filter returns exactly the stored rows that match every given key, and no more rows than the table holds. |
| TtEntry.SelectTwice | src/db/tt/tt_entry.rs:73-91 | Filtering by one key and then another equals filtering once by both. |
| TtEntry.TripleIndex | src/db/tt/tt_entry.rs:19-41 | Finds a row with the given (user, car, stage) triple, or reports that no row has it. |
| TtEntry.RowFor | src/db/tt/tt_entry.rs:19-41 | The row for a triple is a stored row with that triple. None means no row has it. |
| TtEntry.RowForExact | src/db/tt/tt_entry.rs:19-41 | Under unique triples, a row is the row for a triple exactly when it is stored and has that triple. |
| TtEntry.SameRowFor | src/db/tt/tt_entry.rs:19-41 | Two tables with unique triples that hold the same rows for a triple give the same row for it. |
| TtEntry.SelectFullTriple | src/db/tt/tt_entry.rs:60-99 | Filtering by user, car and stage together yields the single row for that triple, or nothing. |
| TtEntry.InsertRows | src/db/tt/tt_entry.rs:19-41 | A new triple is appended with the new id and all values. A triple already stored keeps its id, version and ticks, and only its `created_at` is refreshed (ON CONFLICT). Rows of other triples are unchanged. |
| TtEntry.UpdateRows | src/db/tt/tt_entry.rs:43-58 | The row with the id gets the new version and ticks and a fresh `created_at`. Every other row is unchanged, and the count stays the same. |
| TtEntry.DeleteRows | src/db/tt/tt_entry.rs:158-173 | Exactly the rows with other ids remain. |
| TtEntry.InsertKeepsInvariant | src/db/tt/tt_entry.rs:19-41 | An insert with a fresh id keeps ids and triples unique. |
| TtEntry.UpdateKeepsInvariant | src/db/tt/tt_entry.rs:43-58 | An update keeps ids and triples unique. |
| TtEntry.DeleteKeepsInvariant | src/db/tt/tt_entry.rs:158-173 | A delete keeps ids and triples unique. |
| TtEntry.DeleteCount | src/db/tt/tt_entry.rs:158-173 | Under unique ids, the row count drops by one exactly when the id was stored. |
| TtEntry.UniqueIdsTail | src/db/tt/tt_entry.rs:19-41 | Removing the first row keeps ids unique, and no later row shares the first row's id. |
| TtEntry.UniqueTriplesTail | src/db/tt/tt_entry.rs:19-41 | Removing the first row keeps triples unique, and no later row shares the first row's triple. |
| TtEntry.ConsKeepsInvariant | src/db/tt/tt_entry.rs:19-41 | Putting a row in front of a valid table keeps it valid when neither its id nor its triple is already used. |
| TtEntry.TimeTrialTable.constructor | src/db/tt/tt_entry.rs:1-17 | A table over rows with unique ids and triples. |
| TtEntry.TimeTrialTable.Insert | src/db/tt/tt_entry.rs:19-41 | The table becomes the insert-or-refresh of the old rows and stays valid. |
| TtEntry.TimeTrialTable.Update | src/db/tt/tt_entry.rs:43-58 | The table becomes the update of the old rows and stays valid. |
| TtEntry.TimeTrialTable.Delete | src/db/tt/tt_entry.rs:158-173 | The table becomes the old rows without that id and stays valid. |
| TtEntry.TimeTrialTable.FilterByUser | src/db/tt/tt_entry.rs:101-118 | Exactly the stored rows of that user. |
| TtEntry.TimeTrialTable.FilterByCar | src/db/tt/tt_entry.rs:120-137 | Exactly the stored rows for that car. |
| TtEntry.TimeTrialTable.FilterByStage | src/db/tt/tt_entry.rs:139-156 | Exactly the stored rows for that stage. |
| TtEntry.TimeTrialTable.Filter | src/db/tt/tt_entry.rs:60-99 | No key gives no rows. Otherwise the result is exactly the stored rows matching every given key. |
| Token.WithoutUser | src/db/token.rs:30-41 | `remove_all` keeps exactly the pairs of other users. |
| Token.InsertKeepsEarlierTokens | src/db/token.rs:16-28 | An insert adds the token to the user's tokens and keeps the earlier ones. A plain insert alone does not end older sessions. |
| Token.RemoveAllOnlyThatUser | src/db/token.rs:30-41 | After `remove_all`, the user has no token, and every other user's tokens are as before. |
| Token.RotateLeavesOnlyNewToken | src/db/token.rs:1-2 | Removing all of a user's tokens and inserting one leaves the new token as the user's only one. Other users keep theirs. |
| Token.RotateKeepsSingleSession | src/db/token.rs:1-2 | If every user had at most one token before a rotation, every user has at most one after it. |
| Token.TokenStore.constructor | src/db/token.rs:3-7 | A store holding the given pairs. |
| Token.TokenStore.Insert | src/db/token.rs:16-28 | The pair is added and nothing else changes. |
| Token.TokenStore.RemoveAll | src/db/token.rs:30-41 | Exactly the user's pairs are removed. |
| Token.TokenStore.GetUserByToken | src/route/archive/create_item.rs:13-19 | Returns a stored pair carrying the token. It returns nothing exactly when no stored pair carries it. |
| Users.ValidatePasswordInCharacters | src/db/user.rs:33-42 | A password is accepted exactly when it has at least 8 characters, an upper-case letter, a lower-case letter and a digit, no white space, and only ASCII characters. |
| Users.UsernameIndex | src/db/user.rs:94-106 | The position of a row with that name, or the fact that no row has it. |
| Users.ByUsername | src/db/user.rs:94-106 | A stored row with that name, or nothing when no row has it. |
| Users.ByUsernameUnique | src/db/user.rs:94-106 | With unique names, the lookup returns the one row with that name. |
| Users.ByUsernameAndPassword | src/db/user.rs:108-121 | A result is a stored row with that name whose stored hash is the hash of the password with its stored salt. |
| Users.ByUsernameAndPasswordExact | src/db/user.rs:108-121 | With unique names, a result comes exactly when some stored row has the name and the credentials match. OAuth rows, which have no hash or salt, never match. |
| Users.ById | src/route/tt/search_tt.rs:80-83 | A stored row with that id, or nothing when no row has it. |
| Users.UpsertRows | src/db/user.rs:68-87 | A new name appends a row with a fresh id, the credentials, `NOW()` and `must_change_password = false`. A taken name keeps the row count. Rows with other names are unchanged. |
| Users.UpsertStoresCredentials | src/db/user.rs:68-87 | After an upsert, names and ids are still unique, and the name's row carries the given hash and salt with the flag cleared. |
| Users.UpsertKeepsOtherNames | src/db/user.rs:68-87 | An upsert changes no other name's lookup. |
| Users.UserTable.constructor | src/db/user.rs:5-16 | A table over rows with unique names and ids. |
| Users.UserTable.GetByUsernameAndLocalPassword | src/db/user.rs:108-121 | A user is returned exactly when a stored row has the name and the password matches its salted hash. The user returned is that row. |
| Users.UserTable.GetIdFromUsername | src/route/tt/search_tt.rs:60-69 | An id comes exactly when the name is stored, and it is that row's id. |
| Users.UserTable.GetByUserId | src/route/tt/search_tt.rs:80-83 | A row comes exactly when the id is stored, and it is that row. |
| Users.User.NewLocalFromPassword | src/db/user.rs:18-31 | `new_local_from_password` makes a local account. The password authenticates against the new hash and salt. The id is 0, there is no creation time, and the given flag is kept. |
| Users.User.UpdateLocalPassword | src/db/user.rs:44-55 | A local account gets a new salt, the hash of the new password and the flag, and the call returns `Some`. A non-local account is left unchanged and the call returns `None`. |
| Users.User.CheckUsernameExists | src/db/user.rs:57-66 | True exactly when some stored row has this user's name. |
| Users.User.InsertOrUpdate | src/db/user.rs:68-87 | The table becomes the upsert of the old rows and stays valid. |
| Login.Decide | src/route/local_login.rs:22-45 | The lookup fails exactly on a database error. An accepted login names a stored row whose credentials match. A must-change verdict names such a row with the flag set. |
| Login.DecideExact | src/route/local_login.rs:22-45 | With unique names: an unknown name or a wrong password is rejected as bad credentials, and a matching row is accepted or flagged according to its `must_change_password`. |
| Login.LocalLoginOutcome | src/route/local_login.rs:16-69 | A token is issued exactly when the reply is 200, and the handler never panics. On 200 the token set is the rotation for the matching account. Any other reply leaves the token set as it was, or with one user's tokens removed. |
| Login.LegacyLoginOutcome | src/route/login.rs:11-39 | A token is issued exactly when the reply is 200. The handler panics exactly when a token statement fails after the credentials were accepted. |
| Login.RejectedLoginTouchesNoToken | src/route/local_login.rs:25-45 | A login whose credentials are refused leaves the token set exactly as it was, in both handlers. |
| Login.UnknownOrWrongPasswordIs401 | src/route/local_login.rs:31-36 | An unknown name or a wrong password gets 401 "invalid credentials" from both handlers, and no token is issued. |
| Login.MustChangeGate | src/route/local_login.rs:40-45 | An account flagged for a password change gets 403 and no token, however right the password. An unflagged account whose statements succeed gets 200. |
| Login.SuccessfulLoginRotates | src/route/local_login.rs:49-68 | After a successful login the user's only token is the issued one. |
| Login.LoginLeavesOtherUsers | src/route/local_login.rs:49-63 | A login changes no other user's tokens. |
| Login.LocalLogin | src/route/local_login.rs:16-69 | The handler's reply, the new token set and the issued token equal `LocalLoginOutcome` of the old state. |
| Login.LegacyLogin | src/route/login.rs:11-39 | The handler's reply, the new token set and the issued token equal `LegacyLoginOutcome` of the old state. |
| CreateAccount.NewAccountRow | src/route/create_account.rs:11-38 | The new account's row has the requested name, is not flagged for a password change, and authenticates with the requested password. |
| CreateAccount.CreateAccountOutcome | src/route/create_account.rs:11-38 | 200 comes exactly when no statement fails, the name is free and the password meets the rule. Any other reply leaves the table as it was. A 200 appends the new account's row. |
| CreateAccount.NameCheckedBeforePassword | src/route/create_account.rs:17-29 | A taken name gets 409 whatever the password. A free name with a weak password gets 400. |
| CreateAccount.StorageFailureIs500 | src/route/create_account.rs:17-35 | A failed existence check, or a failed upsert of a valid request, gets 500 and leaves the table as it was. |
| CreateAccount.CreateKeepsInvariant | src/route/create_account.rs:31-35 | Account creation keeps names and ids unique. |
| CreateAccount.CreatedAccountCanLogIn | src/route/create_account.rs:11-38 | A newly created account can log in with the same name and password, and the issued token becomes its only one. |
| CreateAccount.CreateAccount | src/route/create_account.rs:11-38 | The reply and the new table equal `CreateAccountOutcome` of the old table, and the table stays valid. |
| ArchiveParse.ErrorText | src/archive/parse.rs:17-24 | Only `Other` shows its reason after "Generic parse error: ". Every other error shows "Generic parse error". |
| ArchiveParse.ParseLine | src/archive/parse.rs:29-61 | A parsed line has a `(` before its `)`. The attribute is the trimmed text before the `(`. The parts, rejoined with commas, are exactly the text between the brackets. |
| ArchiveParse.ParseLineAccepts | src/archive/parse.rs:37-50 | A line is an attribute line exactly when it starts with a lower-case ASCII letter and holds exactly one `(` and exactly one `)`, with the `(` first. |
| ArchiveParse.SplitJoin | src/archive/parse.rs:55-58 | Splitting on a separator undoes joining parts that do not contain it. |
| ArchiveParse.SplitPartsFromText | src/archive/parse.rs:55-58 | Every character of a part comes from the split text. |
| ArchiveParse.AsciiLineParsesAsWritten | src/archive/parse.rs:43-54 | On an ASCII line, the code as written (character positions used as byte offsets) gives the same result as `ParseLine`. |
| ArchiveParse.NonAsciiLinePanics | src/archive/parse.rs:43-54 | On `name(né)` the code as written panics on a byte slice inside `é`, where `ParseLine` reads attribute `name` with the single part `né`. |
| ArchiveParse.NonAsciiLineMisSlices | src/archive/parse.rs:43-54 | On `aéb(c)` every byte offset falls on a character boundary, so the code as written does not panic but returns attribute `aé` with the part `(`, where `ParseLine` reads attribute `aéb` with the part `c`. |
| ArchiveParse.Lines | src/archive/parse.rs:64 | The content is split on newlines and every line is ASCII-lowercased. |
| ArchiveParse.ParseFile | src/archive/parse.rs:63-102 | The loop over the lines returns exactly the fold of its steps over the parsed lines, followed by the missing-name check. |
| ArchiveParse.FoldFails | src/archive/parse.rs:82-87 | The loop fails exactly when soundtracks are expected and some `soundtrack` line does not have two parts. The error is then `InvalidMusicPath`. |
| ArchiveParse.FoldGathers | src/archive/parse.rs:74-81 | Name, author and description are each the last matching line's joined parts. The soundtrack is the last accepted one. The tags are every `tag` line in order. |
| ArchiveParse.MissingNameIffNoNameLine | src/archive/parse.rs:91-93 | `MissingField("Name")` comes exactly when the loop succeeds and no line is a `name(...)` line. |
| ArchiveParse.ParsedFields | src/archive/parse.rs:95-101 | A successful parse returns the gathered fields, with the name being the last `name` line's text. |
| ArchiveParse.BadSoundtrackFails | src/archive/parse.rs:82-85 | A soundtrack line without two parts fails the parse exactly when soundtracks are expected. |
| ArchiveParse.ParsedTextIsLower | src/archive/parse.rs:64 | Nothing a successful parse returns holds an ASCII capital. |
| CreateItem.ItemTypeOf | src/route/archive/create_item.rs:35-46 | Bytes 0 to 3 name Car, Stage, StagePiece and Wheel. Every other byte names nothing. |
| CreateItem.ReadFields | src/route/archive/create_item.rs:30-69 | The multipart loop returns exactly the fold of the per-field decoding over the fields. |
| CreateItem.DecodeFieldsAppend | src/route/archive/create_item.rs:30-69 | Reading two runs of fields is reading the first, then the second from where the first left off. |
| CreateItem.FieldEndsRequest | src/route/archive/create_item.rs:35-67 | An unknown field name ends the request with 400 "invalid multipart entry: " followed by the name. An empty `type` field panics. |
| CreateItem.DecodeNeverSucceedsEarly | src/route/archive/create_item.rs:30-69 | The loop never ends the request with 200. |
| CreateItem.LastFieldWins | src/route/archive/create_item.rs:30-69 | After the loop, each of the five variables holds what its last field supplied. |
| CreateItem.LoopKeepsAcceptedIds | src/route/archive/create_item.rs:56-64 | An id kept by the loop has no version or version 4, and is never the nil UUID. |
| CreateItem.CheckDraft | src/route/archive/create_item.rs:71-88 | The gathered fields pass exactly when soundtrack fields come only with a Stage, and a type, data and an id are all present. The checked item carries those values. |
| CreateItem.MissingPartsInOrder | src/route/archive/create_item.rs:71-88 | A soundtrack on a non-stage is refused before a missing type, which is refused before missing data, which is refused before a missing id. Each refusal has its own message. |
| CreateItem.ItemPathInjective | src/route/archive/create_item.rs:100 | Distinct ids of the same type give distinct item paths. |
| CreateItem.ItemTable.constructor | src/db/archive/archive_item.rs:3-13 | A table over rows with unique ids. |
| CreateItem.ItemTable.Insert | src/db/archive/archive_item.rs:23-40 | The insert succeeds exactly when the statement does not fail and the id is unused, and then appends the item. Otherwise the table is unchanged. |
| CreateItem.Authenticate | src/route/archive/create_item.rs:10-19 | A caller is identified exactly when the authorization header is readable text, the token lookup succeeds and finds a pair. The caller is that pair's user. |
| CreateItem.RefusedCallerChangesNothing | src/route/archive/create_item.rs:10-19 | An unauthenticated request changes neither the files nor the table. |
| CreateItem.OnlySuccessWrites | src/route/archive/create_item.rs:100-127 | The table changes only on 200. The files change only on 200 or when the insert fails after the write. |
| CreateItem.CreatedItem | src/route/archive/create_item.rs:9-128 | A 200 means that the caller was identified, the fields passed and the item path already existed. The file at that path is replaced by the received data, and one row is appended carrying the caller as owner and the parsed name and author. |
| CreateItem.FreshIdRefused | src/route/archive/create_item.rs:102-107 | An otherwise valid request whose item path does not exist is refused with "id already in use" (the existence test as written). |
| CreateItem.NilCheckUnreachable | src/route/archive/create_item.rs:95-98 | The "invalid id" refusal for the nil UUID can never be given, because the field loop has already refused it. |
| CreateItem.CreateArchiveItem | src/route/archive/create_item.rs:9-128 | The handler's reply, files and table equal `CreateItemOutcome` of the old state for the caller the token lookup found, and the table stays valid. |
| SearchTt.ValidateSearchTtRequest | src/route/tt/search_tt.rs:40-45 | A request passes exactly when it names a user, a car or a stage. Otherwise it gets the "at least one parameter" message. |
| SearchTt.FromTimeTrialEntry | src/route/tt/search_tt.rs:28-37 | The response carries the entry's ticks and the given name. The ids are 36-character UUID texts. The time is empty when the entry has none. |
| SearchTt.ResponseIdsRoundTrip | src/route/tt/search_tt.rs:28-37 | The three id texts of a response decode back to the entry's id, car and stage. |
| SearchTt.ParseOptionalUuid | src/route/tt/search_tt.rs:53-58 | An absent id stays absent. A present id fails exactly when it does not parse, and otherwise is its parse. |
| SearchTt.OwnerName | src/route/tt/search_tt.rs:80-83 | The owner's name when the owner is stored, otherwise "Unknown". |
| SearchTt.Report | src/route/tt/search_tt.rs:78-85 | One response per found entry. |
| SearchTt.ReportLine | src/route/tt/search_tt.rs:78-85 | Response `i` is built from entry `i` and its owner's name, so the responses keep the database's order. |
| SearchTt.SearchKeys | src/route/tt/search_tt.rs:40-72 | Accepted keys carry a user exactly when a name was given, and that user has the given name. They carry a car or a stage exactly when one was given. At least one key is present. |
| SearchTt.SearchRefusals | src/route/tt/search_tt.rs:40-69 | No parameter gives 400. A bad car id gives 400 "invalid car_id uuid". A bad stage id gives 400 "invalid stage_id uuid". An unknown user gives 404 "user not found". These are checked in that order. |
| SearchTt.SearchFindsExactlyMatches | src/route/tt/search_tt.rs:74-85 | A successful search returns exactly one response per stored entry matching every given key, with its id and ticks. |
| SearchTt.MissingOwnerIsUnknown | src/route/tt/search_tt.rs:83 | An entry whose owner no longer exists is reported under "Unknown". |
| SearchTt.ReadKeys | src/route/tt/search_tt.rs:50-72 | The key-reading steps of the handler return exactly `SearchKeys`. |
| SearchTt.ReportOwners | src/route/tt/search_tt.rs:78-85 | The owner loop returns the report, or 500 when an owner lookup fails on a non-empty result. |
| SearchTt.SearchTimeTrials | src/route/tt/search_tt.rs:49-88 | The handler's reply equals `SearchTtOutcome` of the tables. |
| UploadTt.ValidateUploadTtMetadata | src/route/tt/upload_tt.rs:19-25 | The metadata passes exactly when both ids parse, and yields them. A bad car id is reported before a bad stage id. |
| UploadTt.Pop | src/route/tt/upload_tt.rs:86 | The last filtered row, or nothing for an empty result. |
| UploadTt.Admit | src/route/tt/upload_tt.rs:32-89 | An admitted upload had both fields, a known caller, a file passing validation, a positive simulated tick count and a readable version. It is attributed to the caller, with the car and stage ids the metadata parses to. Every refusal is 400, 401 or 500. |
| UploadTt.FieldsCheckedBeforeAuth | src/route/tt/upload_tt.rs:32-45 | A missing or undecodable metadata field, or a missing file field, gets 400 before the caller is looked up. |
| UploadTt.UnknownCallerIs401 | src/route/tt/upload_tt.rs:47-68 | With both fields present, a missing header or an unknown token gets 401. |
| UploadTt.InvalidSubmissionIs400 | src/route/tt/upload_tt.rs:70-73 | A known caller's bad ids or bad replay get 400 with the validation message. |
| UploadTt.RefusalChangesNothing | src/route/tt/upload_tt.rs:32-131 | A refusal by the gates is never 200. Every reply other than 200 and "failed to write TT file" leaves the ledger and the files as they were. A failed file write leaves the files as they were, but the ledger keeps the update or insert committed before it. |
| UploadTt.AppendKeepsOtherTriples | src/route/tt/upload_tt.rs:113-130 | Recording a first replay changes no other triple's record. |
| UploadTt.UpdateKeepsOtherTriples | src/route/tt/upload_tt.rs:91-111 | Improving one record changes no other triple's record. |
| UploadTt.ReconcileFirstReplay | src/route/tt/upload_tt.rs:113-130 | A first replay for a triple adds exactly one record with its ticks and version, and stores the file under the new id. |
| UploadTt.ReconcileExisting | src/route/tt/upload_tt.rs:91-111 | For a triple already on record, the record keeps its id and its ticks become the smaller of the old and new counts. A replay at least as fast (`>=`) replaces the version and the file. A slower one changes nothing. |
| UploadTt.SlowerReplayChangesNothing | src/route/tt/upload_tt.rs:91-93 | A replay slower than the record is answered with 200 "file validated successfully" and changes neither the ledger nor the files, whatever storage faults there are. |
| UploadTt.SlowerUploadIs200 | src/route/tt/upload_tt.rs:78-136 | For the whole handler: an admitted upload slower than the caller's record for that car and stage gets 200 and changes nothing. |
| UploadTt.UploadIsReconcile | src/route/tt/upload_tt.rs:78-89 | An admitted upload is reconciled against the caller's single record for that car and stage. |
| UploadTt.AdmitRequest | src/route/tt/upload_tt.rs:32-89 | The admission steps of the handler return exactly `Admit` for the caller the token lookup found. |
| UploadTt.UploadTimeTrial | src/route/tt/upload_tt.rs:27-137 | The handler's reply, ledger and files equal `UploadTtOutcome` of the old state, and the ledger keeps unique ids and triples. |

## Left out

- `src/crypto.rs` is not part of this model. SHA-512, salt generation and the constant-time comparison are a function parameter and parameters. The model compares hashes by equality.
- `src/ffi.rs` is not part of this model. The replay simulator and the info reader are uninterpreted function parameters.
- Parts of the source are not modelled because they are outside the core: `fetch_tt`, the Discord OAuth2 routes and their tables, the tag tables, `src/archive/index.rs`, configuration and start-up.
- Concurrency is not modelled. This includes the state mutex and interleaved requests, and with them the race between the existence check and the upsert in `create_account`.
- Multipart and JSON extraction errors raised by the web framework (`?` on the stream, the JSON body) are not modelled. The fields arrive already split.
- Database statements and the file system are the in-memory tables and store. A failing call changes nothing. Partial writes are not modelled.
- The bodies of `get_user_by_token`, `get_id_from_username` and `get_by_user_id` are not among the source files. They are modelled as lookups by token, by name and by id.
- `UuidParser`, the UTF-8 decoder, the JSON metadata decoder, the item type's `Display` and the timestamp renderer are parameters. Their texts are not modelled.
- `SearchTt.SearchTtOutcome`: one fault flag stands for every per-entry owner lookup. The model cannot fail only the third lookup of a search, only all of them.
- `UploadTt.UploadTimeTrial` and `TtEntry.TimeTrialTable.Insert` take the new row id as a parameter and require it to be unused. The database's UUID default guarantees this.
- `TtEntry.InsertRows` gives a new record `created_at = NOW()`. The INSERT does not set that column. The value comes from a column default in the schema, which is not among the source files.
- `CreateItem.ArchiveItem` has no `created_at`. The handler leaves it to the schema, which is not among the source files.
- `CreateAccount.CreateAccount` follows `create_account` with the constructor named `new_local_from_password`, as declared in `src/db/user.rs`. The route's call spells it differently.
- The login handlers and `upload_tt` call `UserToken::insert` and `get_user_by_token` with arguments that differ from the declared ones. The model uses the declared meaning: insert the pair, and look a pair up by its token.
- `CreateItem.CreateArchiveItem` uses the `ArchiveItem` of `src/db/archive/archive_item.rs`, the one with an owner. `src/db/archive_item.rs` declares a different record without one.
- `Users.ValidatePasswordInCharacters`: `len()` counts UTF-8 bytes. The predicate keeps that count, and the lemma restates it in characters, which is equivalent because the rule admits only ASCII.
- `CreateItem.ItemAfterGates` follows the existence test as written: it refuses an id whose file does not exist and overwrites one that does (`FreshIdRefused`, `CreatedItem`). The test is evidently inverted, but no corrected handler is modelled, because the rest of the item model would have to be duplicated around it.
- `ArchiveParse.ParseLine` is the corrected `parse_line`, which the rest of the model uses. The code as written is `ArchiveParse.ParseLineAsWritten`. The two agree on ASCII lines (see Findings).

## Findings

| source | as written | input that shows it | evidently intended | confidence | as-written member | corrected member |
|---|---|---|---|---|---|---|
| src/archive/parse.rs:43-54 | The bracket positions are counted in characters (`chars().position`) but used as byte offsets in `line[0..open]` and `line[open + 1..close]`. With a non-ASCII character before a bracket, the slices either panic on a byte inside a character or silently cut in the wrong place. | `name(né)` panics; `aéb(c)` gives attribute `aé` and part `(` | Slice by the character positions found, so the line reads as attribute `name` with the single part `né`. | not executed | ArchiveParse.NonAsciiLinePanics, ArchiveParse.NonAsciiLineMisSlices | ArchiveParse.ParseLine |
