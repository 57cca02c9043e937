# Helpdesk ticket lifecycle — a Dafny model

This project models the core of an IT helpdesk. The helpdesk has two entry points that write
to one database:

- a web service: registration, login, users, and tickets with comments, history and assignment;
- a chat bot that collects a ticket through a short conversation.

The database is one immutable `Store` value. It holds users, tickets, comments, history entries
and attachments, plus the next identifier of each table. Each handler is a pure function from
the store, the caller and the request to a `Result`: the new store with the response, or the
error the handler raises. A handler that fails writes nothing.

The bot is a per-chat-identity step function, as in a private chat. Each update takes the session (form state and
stored data) and the store to a new session, a new store and a reply.

Modules, following the program's structure:

- `Base`: `Option`, `Patch` (a field left out of a partial update, or sent), the error kinds, and `Result`.
- `PyText`: the Python text operations the code relies on:
  - `str(int)` and `f"{n:04d}"`;
  - `int(...)`, including sign, whitespace and underscores;
  - `str.strip`, `str.split` for one separator, and `str.lower`;
  - truthiness of an optional string.
- `TicketSchemas` and `UserSchemas`: request validation — enumerations, length bounds, defaults and optional fields.
- `Models`: the record shapes and their defaults.
  - Lookups follow `scalar_one_or_none`.
  - The unique columns reject a clashing write at commit.
  - Deleting a ticket cascades to its dependants.
  - The store invariants live here.
- `Numbering`: year-scoped ticket numbers `IT-<year>-<count:04d>`, reading them back, and the numbering invariant.
- `TicketsApi` and `TicketsProperties`: create, list, view, update, comment and assign, and what holds across calls.
- `UsersApi` and `AuthApi`: resolving the caller from a token's claims, user listing, viewing and updating, registration and login.
- `BotConfig`: the administrator id list read from `TELEGRAM_ADMIN_IDS`.
- `BotIntake` and `BotProperties`: the chat conversation, the bot's own copy of the numbering rule, and how the bot relates to the service.

Behaviour modelled as the code has it, even where it may surprise:

- Internal comments are not hidden from anyone who may open the ticket.
- A ticket's owner may change its status and assignee through the update endpoint.
- Any authenticated caller may add a non-internal comment to any ticket, even one it may not open.
- Users may change their own role, including to `admin`.
- The bot accepts category and priority buttons in any state.
- The bot does not check the title length.
- The bot writes no history entry.
- The bot's create button keeps data left over from an earlier conversation whose submit raised.

## Model

| member | source | states |
|---|---|---|
| TicketSchemas.ParseCategory | backend/app/schemas/ticket.py:9 | the category pattern accepts exactly `hardware` and `software`, and the accepted value's name is the text sent |
| TicketSchemas.ParsePriority | backend/app/schemas/ticket.py:10 | the priority pattern accepts exactly `low`, `medium`, `high` and `critical` |
| TicketSchemas.ParseStatus | backend/app/schemas/ticket.py:24 | the status pattern accepts exactly `new`, `in_progress`, `resolved` and `closed` |
| TicketSchemas.NamesRoundTrip | backend/app/schemas/ticket.py:9-24 | every category, priority and status name passes its pattern and reads back as the same value |
| TicketSchemas.ValidateTicketCreate | backend/app/schemas/ticket.py:6-16 | a create request is accepted iff the title has 3 to 200 characters, the category matches, and the priority is left out or a matching text; an explicit null priority is refused, a left-out one becomes `medium`; every refusal is a validation error; the accepted fields are the ones sent |
| TicketSchemas.CreateRequestRoundTrip | backend/app/schemas/ticket.py:6-16 | a request that spells out a valid create in the enumerations' names validates back to that same create |
| TicketSchemas.ValidateTicketUpdate | backend/app/schemas/ticket.py:19-27 | an update request is accepted iff every present field passes its create-time check; every field is optional and carried over as sent |
| TicketSchemas.ValidateComment | backend/app/schemas/ticket.py:44-46 | the comment schema accepts a body iff its text is non-empty, and `is_internal` defaults to false; no handler applies this schema, so `TicketsApi.AddComment` stores an empty text too |
| UserSchemas.ValidateUserCreate | backend/app/schemas/user.py:6-15 | registration is accepted iff `full_name` is present and the role is not an explicit null; username, e-mail, password and chat id stay optional; a left-out role becomes `user`, a sent one is kept |
| UserSchemas.UserRequestRoundTrip | backend/app/schemas/user.py:6-15 | a request spelling out a registration validates back to it, and the same request without a role gets the role `user` |
| Models.TicketIndex | backend/app/api/tickets.py:175-176 | the lookup by id finds the first ticket with that id, and finds none iff no ticket has it |
| Models.InsertUser | backend/app/models/user.py:10-14 | a new user row is refused, with nothing written, iff it shares a present username, e-mail or chat id with a stored user; otherwise it is appended under the next id |
| Models.ReplaceUser | backend/app/models/user.py:11-14 | overwriting a user is refused iff the new row clashes on a unique column with another user |
| Models.InsertTicket | backend/app/models/ticket.py:10-11 | a new ticket row is refused iff its number is already in use; otherwise it is appended under the next id |
| Models.RecordHistory | backend/app/api/tickets.py:33-49 | a history write appends exactly one entry with the next id and changes nothing else |
| Models.RemoveTicket | backend/app/models/ticket.py:28-30 | deleting a ticket removes exactly that ticket and its comments, history entries and attachments; users stay |
| Models.InsertUserKeepsValid | backend/app/models/user.py:10-14 | a user insert that passes the unique columns keeps user ids in range and distinct, and no two users clashing |
| Models.ReplaceUserKeepsValid | backend/app/models/user.py:11-14 | an accepted overwrite that keeps the id keeps the user invariant |
| Models.InsertTicketKeepsValid | backend/app/models/ticket.py:10-23 | inserting an open ticket without a close time keeps ids and numbers distinct, the close stamp in step with the history, and every dependant attached to a ticket |
| Models.RecordHistoryKeepsValid | backend/app/models/ticket.py:54-62 | an entry about an existing ticket that records no closing keeps the invariants |
| PyText.DecimalRoundTrip | backend/app/api/tickets.py:30 | reading the decimal digits of `n` gives `n` back |
| PyText.ZeroPad4 | backend/app/api/tickets.py:30 | `:04d` gives the decimal digits, left-filled with zeros to width 4, never cut |
| PyText.ZeroPad4RoundTrip | backend/app/api/tickets.py:30 | reading the padded digits gives the number back |
| PyText.ZeroPad4Injective | backend/app/api/tickets.py:30 | different counts pad to different texts |
| PyText.ParseInt | backend/app/api/users.py:35 | `int()` succeeds iff the stripped text is an optional sign and a digit group; otherwise it raises |
| PyText.ParseIntRoundTrip | backend/app/api/users.py:35 | `int(str(i)) == i` for every integer |
| PyText.Strip | bot/config.py:20 | the stripped text neither starts nor ends with whitespace and is no longer than the input |
| PyText.StripSurrounding | bot/config.py:20 | stripping removes exactly the surrounding whitespace of a trimmed text |
| PyText.JoinSplit | bot/config.py:20 | joining the pieces of a split with the separator gives the text back |
| PyText.SplitJoin | bot/config.py:20 | splitting a join of separator-free pieces gives the pieces back |
| PyText.Split | bot/config.py:20 | a split gives at least one piece and no piece holds the separator; with `PyText.JoinSplit` the pieces join back to the text |
| PyText.Lower | bot/main.py:197 | lower-casing keeps the length, leaves no capital, and keeps every character that is not a capital |
| PyText.LowerIdempotent | bot/main.py:197 | lower-casing twice is lower-casing once |
| PyText.LowerOfSmall | bot/main.py:197 | a text without capitals is its own lower-case form |
| Numbering.ParseGenerated | backend/app/api/tickets.py:28-30 | a generated number reads back as the year and count it was made from |
| Numbering.GenerateTicketNumber | backend/app/api/tickets.py:28-30 | the number's year and count are recovered by `Numbering.ParseGenerated`; distinct pairs give distinct numbers by `Numbering.GenerateInjective` |
| Numbering.CountYear | backend/app/api/tickets.py:58-65 | the year's count never exceeds the number of tickets; `Numbering.CountYearAppend` says how one more ticket changes it |
| Numbering.CountYearAppend | backend/app/api/tickets.py:58-65 | appending a ticket raises a year's count by one iff its number starts with that year's prefix |
| Numbering.NextNumberParses | backend/app/api/tickets.py:58-65 | the next number reads back as the year and that year's count plus one |
| Numbering.GenerateInjective | backend/app/api/tickets.py:28-30 | two different (year, count) pairs never give the same number |
| Numbering.NumberLength | backend/app/models/ticket.py:11 | with a four-digit year and at most 9999 tickets, the number has 12 characters, within the column's 20 |
| Numbering.NextNumberCounts | backend/app/api/tickets.py:60-65 | the allocated number reads back as the year and that year's count plus one, and appending it raises the count by one |
| Numbering.NextNumberFresh | backend/app/api/tickets.py:60-65 | under the numbering invariant, the next number of any year is not yet in use |
| Numbering.AppendNextKeepsConsistent | backend/app/api/tickets.py:60-80 | appending a ticket that carries the allocated number keeps every number within its year's count |
| Numbering.ReplaceKeepsConsistent | backend/app/api/tickets.py:192-199 | overwriting a ticket without touching its number keeps the numbering invariant |
| TicketsApi.CreateTicket | backend/app/api/tickets.py:53-91 | create fails, with an integrity error, iff the year's next number is taken; otherwise the new row is exactly the request's fields under the next id and the year's next number, with status `new`, no assignee, no close time and the caller as creator; the number reads back as the year and count plus one; the year's count rises by one; the store changes only by the appended row, one `created` entry with the title after the fixed prefix, and the ticket and history counters each rising by one |
| TicketsApi.CreatedRow | backend/app/api/tickets.py:60-91 | a row carrying the year's next number reads back as the year and count plus one, raises the count by one, and the create's store differs from the old one only by that row, its `created` entry and the two counters |
| TicketsApi.Where | backend/app/api/tickets.py:107-119 | the query filters keep exactly the tickets matching every filter supplied; an empty text filter is ignored |
| TicketsApi.GetTickets | backend/app/api/tickets.py:95-130 | the list holds exactly the stored tickets that match the filters; for the `user` role, only those it created |
| TicketsApi.PlainUserListsOwn | backend/app/api/tickets.py:122-123 | a `user` is never listed a ticket it did not create, whatever the filters |
| TicketsApi.GetTicket | backend/app/api/tickets.py:134-164 | absent id gives NotFound; a `user` on a ticket it did not create gets Forbidden; otherwise the ticket with exactly its comments (internal ones included), history and attachments |
| TicketsApi.SetField | backend/app/api/tickets.py:194-196 | `setattr` makes the field read as the requested value and leaves every other field, the id, number, creator and close time alone |
| TicketsApi.MergeStep | backend/app/api/tickets.py:192-196 | visiting one field and then the rest leaves the same ticket as merging them all |
| TicketsApi.Merge | backend/app/api/tickets.py:192-196 | after merging, no field the request carries differs from the request, every field it leaves out keeps its value, and id, number, creator and close time are untouched |
| TicketsApi.StampClose | backend/app/api/tickets.py:201-203 | only the close time can change; a close time already set is never overwritten; an unset one becomes the current time iff the request's status is `closed` |
| TicketsApi.ApplyDiff | backend/app/api/tickets.py:192-199 | the update loop leaves the merge of the request and writes at most one entry per field, with consecutive ids, about this ticket and caller |
| TicketsApi.DiffEntries | backend/app/api/tickets.py:192-199 | every entry judged against the original ticket names a changed field, with the old and new value as text |
| TicketsApi.ApplyDiffEntries | backend/app/api/tickets.py:192-199 | comparing with the running ticket, as the loop does, writes exactly the entries a comparison with the original ticket calls for |
| TicketsApi.UpdateTicket | backend/app/api/tickets.py:168-208 | update gives NotFound and Forbidden as get does; otherwise it replaces only that ticket, keeps its id, number and creator, never overwrites a close time, and stamps `now` only when `closed` is requested on a ticket without one; history only grows, its counter rises by the number of entries written, and nothing else in the store changes |
| TicketsApi.DecodeFlag | backend/app/api/tickets.py:240 | the stored internal flag reads back only from the text it was encoded as |
| TicketsApi.Snapshot | backend/app/api/tickets.py:248 | the history snapshot is the first 100 characters of the comment, or all of a shorter one |
| TicketsApi.AddComment | backend/app/api/tickets.py:212-254 | absent ticket gives NotFound; an internal comment from a role other than engineer or admin gives Forbidden; otherwise one comment with the flag as `"true"`/`"false"` and one `commented` entry holding the snapshot |
| TicketsApi.AssignTicket | backend/app/api/tickets.py:258-298 | a role other than engineer or admin gets Forbidden before lookup; otherwise the assignee defaults to the caller, `new` becomes `in_progress`, other statuses stay, and one `assigned` entry records old and new as text; the store changes only by that ticket, that entry and the history counter rising by one |
| TicketsProperties.FieldNameRoundTrip | backend/app/api/tickets.py:192-198 | each update field's key reads back as that field |
| TicketsProperties.FieldActionInjective | backend/app/api/tickets.py:198 | distinct fields are logged under distinct `<field>_changed` tags |
| TicketsProperties.DiffLogsExactlyChanges | backend/app/api/tickets.py:192-199 | a field gets a `<field>_changed` entry iff the request carries a different non-null value for it, and that entry holds `str(old)` and `str(new)` |
| TicketsProperties.DiffClosingOnlyOnRequest | backend/app/api/tickets.py:192-199 | the only closing entry an update writes comes from a request for `closed` on a ticket not yet closed |
| TicketsProperties.DiffClosingEntry | backend/app/api/tickets.py:192-203 | after an update the history records a closing iff it did before or the request closed an open ticket |
| TicketsProperties.UpdateUnfold | backend/app/api/tickets.py:192-203 | a successful update appends the entries judged against the original ticket and replaces it by the merge with the close stamp |
| TicketsProperties.UpdateSetsRequestedFields | backend/app/api/tickets.py:192-196 | after an update the ticket holds every non-null requested value and keeps every other field; only the close time may differ from that merge |
| TicketsProperties.UpdateLogsChangedFields | backend/app/api/tickets.py:192-199 | the update writes, per field, one entry iff the value changed, about this ticket and caller; nothing for a field left out, sent as null, or sent unchanged |
| TicketsProperties.NoChangesNoEntries | backend/app/api/tickets.py:193-195 | a request whose every value is already held logs nothing |
| TicketsProperties.UpdateIdempotent | backend/app/api/tickets.py:192-203 | sending the same update again writes nothing and leaves ticket and store as the first update left them, whatever the clock says |
| TicketsProperties.OwnerMayCloseAndReassign | backend/app/api/tickets.py:185-199 | a `user` who created a ticket may close it and set its assignee through update |
| TicketsProperties.ListedTicketIsViewable | backend/app/api/tickets.py:95-164 | every ticket the list shows a caller opens in the detail view for that caller |
| TicketsProperties.OwnerSeesInternalComments | backend/app/api/tickets.py:140-164 | an internal comment is in the detail view of the ticket's owner |
| TicketsProperties.ReplaceTicketKeepsValid | backend/app/models/ticket.py:10-23 | overwriting a ticket that keeps its id, number and close time, and is closed only with a close time, keeps the invariants |
| TicketsProperties.CreateKeepsValid | backend/app/api/tickets.py:53-91 | create keeps the store invariants |
| TicketsProperties.CommentKeepsValid | backend/app/api/tickets.py:212-254 | comment keeps the store invariants |
| TicketsProperties.AssignKeepsValid | backend/app/api/tickets.py:258-298 | assign keeps the store invariants |
| TicketsProperties.UpdateKeepsValid | backend/app/api/tickets.py:168-208 | update keeps the store invariants; in particular a ticket has a close time iff its history records it being set to `closed` |
| TicketsProperties.UpdateStepKeepsValid | backend/app/api/tickets.py:192-206 | writing entries about one ticket and replacing it keeps the invariants when the new row fits the extended history |
| TicketsProperties.UpdatedFits | backend/app/api/tickets.py:192-203 | the updated ticket keeps id and number, is closed only with a close time, and has one iff the extended history records its closing |
| TicketsProperties.RemoveKeepsValid | backend/app/models/ticket.py:28-30 | deleting a ticket with its cascade keeps the invariants: nothing is left pointing at it |
| TicketsProperties.FilterKeepsDistinct | backend/app/models/ticket.py:10-11 | keeping some of the tickets keeps their ids and numbers distinct |
| TicketsProperties.CreateKeepsNumbering | backend/app/api/tickets.py:60-80 | under the numbering invariant create always succeeds and keeps the invariant |
| TicketsProperties.UpdateKeepsNumbering | backend/app/api/tickets.py:192-199 | update keeps the numbering invariant |
| TicketsProperties.AssignKeepsNumbering | backend/app/api/tickets.py:284-289 | assign keeps the numbering invariant |
| TicketsProperties.ConsecutiveCreates | backend/app/api/tickets.py:60-65 | two creates in the same year get sequence numbers count+1 and count+2, so different numbers |
| TicketsProperties.CreateCounts | backend/app/api/tickets.py:58-80 | under the numbering invariant a create succeeds, its number reads back as the year and the count plus one, the count rises by one and the invariant still holds |
| TicketsProperties.CreateOnTakenNumber | backend/app/api/tickets.py:58-80 | a create whose next number a stored ticket already holds is refused with an integrity error |
| TicketsProperties.DeletionReusesNumber | backend/app/api/tickets.py:61-65 | in a store holding a year's tickets 1 and 2, which satisfies the numbering invariant, deleting ticket 1 makes the next create compute ticket 2's number, and the unique column refuses it |
| UsersApi.CurrentUser | backend/app/api/users.py:15-44 | no payload, or a missing or empty `sub`, gives Unauthenticated; a non-integer `sub` raises; an id naming no user gives NotFound; otherwise the stored user with that id |
| UsersApi.LoginThenCurrentUser | backend/app/api/users.py:28-44 | the claims issued at login resolve back to the user who logged in |
| UsersApi.ListUsers | backend/app/api/users.py:54-69 | listing users succeeds iff the caller is engineer or admin, and then lists every user |
| UsersApi.GetUser | backend/app/api/users.py:73-88 | any caller may read a user; NotFound iff no user has the id |
| UsersApi.ListedUserIsViewable | backend/app/api/users.py:61-88 | every listed user opens on its own |
| UsersApi.ApplyUserPatch | backend/app/api/users.py:115-116 | a field sent, even as null, takes the sent value; a field left out keeps its own; id, username, password hash and chat id are out of reach |
| UsersApi.PatchIdempotent | backend/app/api/users.py:115-116 | applying the same patch twice is applying it once |
| UsersApi.EmptyPatchIdentity | backend/app/api/users.py:115-116 | an empty patch leaves the user unchanged |
| UsersApi.UpdateUser | backend/app/api/users.py:92-121 | a caller that is neither the target nor an admin gets Forbidden before lookup; an absent target gives NotFound; otherwise the commit is refused with an integrity error iff the patched row clashes with another user on a unique column, and else exactly that user is replaced by the patched row |
| UsersApi.UpdateNeedsSelfOrAdmin | backend/app/api/users.py:99-103 | a successful update was made by the target itself or by an admin |
| UsersApi.UpdateUserKeepsValid | backend/app/api/users.py:114-119 | a profile update keeps the store invariants |
| UsersApi.SelfPromotion | backend/app/api/users.py:99-116 | a `user` can make itself admin, after which the user list opens to it |
| AuthApi.Register | backend/app/api/auth.py:18-52 | a taken username (checked only when non-empty) gives DuplicateUsername first, then a taken e-mail gives DuplicateEmail; the insert is refused by the unique columns, with an integrity error, iff neither check fires and the applicant's row clashes with a stored user, e.g. on the chat id; otherwise the store changes only by one user with the given fields, the password hash present iff a password was given, and the user counter rising by one |
| AuthApi.Login | backend/app/api/auth.py:56-87 | login succeeds iff the username exists, has a password hash and the password verifies; every failure is the same error; the claims are `str(id)` and the role |
| AuthApi.UsernameUnique | backend/app/api/auth.py:62-63 | under the user invariant the row login reads is the one holding that username |
| AuthApi.RegisterThenLogin | backend/app/api/auth.py:38-85 | a user registered with a username and password can log in with that password |
| BotConfig.ParseEach | bot/config.py:20 | on success one id per piece, in order, each the parse of its piece; on failure, some piece raised that error |
| BotConfig.ParseEachAccepts | bot/config.py:20 | the list parses iff every piece does |
| BotConfig.AdminIds | bot/config.py:17-20 | an empty variable gives no ids; otherwise the read succeeds iff every comma-separated piece parses, and then gives one id per piece, in order, each the piece's value; a failure is always an integer error |
| BotConfig.PiecesParse | bot/config.py:20 | parsing the pieces one by one succeeds iff each piece parses, and then yields each piece's value at its position |
| BotConfig.AdminIdsRoundTrip | bot/config.py:20 | a non-empty id list written with commas reads back as the same list |
| BotConfig.PaddingIgnored | bot/config.py:20 | whitespace around the pieces changes nothing |
| BotConfig.EmptyPieceRejected | bot/config.py:20 | a blank piece, as in `",,"` or after a trailing comma, makes the property raise |
| BotIntake.CommandWithArguments | bot/main.py:76-95 | a command is recognised alone, after leading whitespace, and with arguments after any whitespace character |
| BotIntake.LongerWordIsNoCommand | bot/main.py:76-95 | a word that only starts with the command's name is not that command |
| BotIntake.GetOrCreateUser | bot/main.py:54-73 | a known chat id returns its user and changes nothing; otherwise exactly one `user` with the chat's id, username and name and no e-mail or password is added, unless the unique username column refuses it |
| BotIntake.GetOrCreateIdempotent | bot/main.py:54-73 | resolving the same identity again returns the same user and changes nothing |
| BotIntake.LikeYear | bot/main.py:232-235 | the bot's query returns exactly the tickets whose number starts `IT-<year>-` |
| BotIntake.SubmitForm | bot/main.py:218-253 | an unknown chat id raises; a missing title, category or priority raises; a taken number is refused; otherwise one ticket with the form's fields, status `new` and the bot's number is appended, and nothing else is written |
| BotIntake.Submit | bot/main.py:218-274 | a successful submit clears the session; a raising one keeps session and store |
| BotIntake.LocationOf | bot/main.py:197 | the location is null iff the lower-cased text is `нет`, `no` or `-`; otherwise it is the text as sent |
| BotIntake.ShowMyTickets | bot/main.py:279-299 | an unknown chat id is answered without tickets; otherwise exactly the tickets the user created |
| BotIntake.Dispatch | bot/main.py:76-330 | the bot never writes history, comments or attachments; a created ticket is appended under the bot's number; otherwise the tickets stay, and the only store change is registering the sender |
| BotIntake.Handle | bot/main.py:34-35 | an update changes only the sender's own conversation |
| BotIntake.Run | bot/main.py:239-253 | no sequence of updates writes history |
| BotProperties.LikeYearCount | bot/main.py:232-236 | the bot's query returns as many tickets as the service counts |
| BotProperties.BotNumberAgrees | bot/main.py:236 | the bot's inline number equals the service's `generate_ticket_number` for the same store and year |
| BotIntake.BotNumber | bot/main.py:229-236 | by `BotProperties.BotNumberAgrees`, the bot's own number equals the service's next number, so it reads back as the year and the year's count plus one |
| BotProperties.EntryPointsAgree | bot/main.py:239-252 | a form sent through the service instead gives the same ticket row and ticket table; only the service writes a history entry |
| BotProperties.BotSkipsTitleCheck | bot/main.py:241 | a title the service's schema refuses is stored by the bot |
| BotProperties.ApiThenBotDistinct | bot/main.py:229-236 | a service create followed by a bot create in the same year gives different numbers |
| BotProperties.CapitalNoWord | bot/main.py:197 | `нет` or `no` in any mix of capitals means no location |
| BotProperties.LocationKeptAsTyped | bot/main.py:197 | every text other than `-` and the capitalisations of `нет` and `no` is stored exactly as typed; with `BotProperties.CapitalNoWord` this decides the location both ways |
| BotProperties.SubmitSucceeds | bot/main.py:218-252 | under the numbering invariant a complete form from a known chat id is stored under the service's next number |
| BotProperties.SubmitOutcome | bot/main.py:218-274 | submitting a complete form creates the ticket it describes and clears the conversation |
| BotProperties.SubmitAtLocation | bot/main.py:194-207 | for a software ticket the location step submits at once |
| BotProperties.OpenForm | bot/main.py:121-152 | the create button, the title and the description move the form to the category step without touching the store |
| BotProperties.CreateButtonStep | bot/main.py:121-130 | the create button moves to the title step and keeps the stored data |
| BotProperties.TextStep | bot/main.py:133-152 | a form text at the title or the description step is stored in that field and the form moves on |
| BotProperties.LocationToEquipment | bot/main.py:194-205 | for hardware the location is stored and the form asks for the equipment type |
| BotProperties.HelpOnTwoLines | bot/main.py:93 | `/help` followed by a line break and more text is still the help command, even in the middle of a form |
| BotProperties.PickButtons | bot/main.py:155-190 | the category and priority buttons move the form to the location step |
| BotProperties.HardwareTail | bot/main.py:194-215 | for hardware the location leads to the equipment step and the equipment type submits |
| BotProperties.SoftwareIntake | bot/main.py:121-207 | a whole software conversation creates the ticket it collected, numbered as the service would, and ends cleared; its equipment type is whatever an earlier conversation left behind |
| BotProperties.HardwareIntake | bot/main.py:121-215 | a whole hardware conversation goes through the equipment step and the ticket carries that equipment type |
| BotProperties.CancelAnyState | bot/main.py:327-330 | `cancel` clears the conversation from any state and writes nothing |
| BotProperties.ButtonsAnyState | bot/main.py:155-190 | the category and priority buttons store their value and move on whatever the state |
| BotProperties.SubmitWithoutTitle | bot/main.py:155-241 | pressing the buttons before any title and then sending a location makes the submit raise: the store is unchanged and the conversation stays at the location step holding what was picked |
| BotProperties.DispatchKeepsValid | bot/main.py:54-253 | every bot update keeps the store invariants |
| BotProperties.GetOrCreateKeepsValid | bot/main.py:54-73 | registering a chat identity keeps the store invariants |
| BotProperties.DispatchKeepsNumbering | bot/main.py:229-252 | every bot update keeps the numbering invariant, so bot and service creates can be mixed without a clash |

## Left out

- Pagination (`skip`/`limit`) and ordering by `created_at` in the ticket and user lists, and the bot's limit of ten most recent tickets: only which tickets may appear is modelled.
- `created_at` and `updated_at`: the database sets them; only the close time is modelled, as a number.
- The clock: the current year and time are parameters of the handlers.
- Password hashing, password verification and token signing, decoding and expiry: the hash and the verifier are parameters, and a token is represented by its claims. `app.core.security` is not part of this model.
- `get_me`: it returns the caller, which `UsersApi.CurrentUser` already models.
- Response-model validation of the returned rows, and `EmailStr` syntax checking of e-mails.
- Foreign keys and column length limits: whether they are enforced depends on the database engine. The numbering length is stated as `Numbering.NumberLength` instead.
- Concurrency: each handler and each bot update is one atomic step. The count-then-insert race between concurrent creates is not modelled, so numbering uniqueness holds for sequential execution only.
- Deletion: no handler deletes tickets. `Models.RemoveTicket` models the cascade only, and `TicketsProperties.DeletionReusesNumber` shows that numbering uniqueness does not survive deletion.
- Attachment upload and file storage: attachments appear only as rows.
- Bot reply texts, emoji, HTML formatting, keyboards, the greeting and the help text: replies are modelled only by kind.
- Messages without text, and commands addressed as `/cmd@botname`.
- Conversations are keyed by the sender's chat id alone, as in a private chat. The bot's memory storage keys a conversation by chat and user, so in a group chat one user has a separate form per chat; group chats are not modelled.
- The comment schema's minimum length in `add_comment`: `TicketSchemas.ValidateComment` models the schema, but `add_comment` takes the text as a plain query parameter and never applies it, so the handler model stores an empty text.
- The unused comment form state group.
- `scalar_one_or_none` when several rows match: under the store invariant a unique column never matches twice, and the model takes the first match.
- SQL `LIKE` case-insensitivity: every stored number comes from the generator, so its prefix is already upper-case.
- PyText.Lower: lower-cases only the ASCII and basic Cyrillic capitals (U+0400–U+042F), not the full Unicode case mapping. This is enough for the three "no location" words.
- PyText.ParseInt: accepts only ASCII digits, while Python's `int()` also accepts other Unicode decimal digits.
- UsersApi.CurrentUser: the token's `sub` claim is modelled as text; a non-text `sub` is not modelled.
- Numbering.NumberLength: proved only for four-digit years and at most 9999 tickets a year.
- TicketsApi.UpdateTicket: its own contract names only the title, the status and the close time of the updated row. `TicketsProperties.UpdateSetsRequestedFields` and `TicketsProperties.UpdateLogsChangedFields` state the other fields and the history.
