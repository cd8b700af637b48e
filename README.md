# Todo management core, modelled in Dafny

This project models the behavioural core of a todo-management application. There are
two Python backends (a standalone Hugging Face deployment and a service-layer backend),
an assistant that turns a language model's reply into todo actions, a command-line
prototype with an in-memory task list, and the list handlers of the React front end.
Everything is modelled on unbounded values.

- The **users table** and the **todo table** are classes whose rows are sequences in
  insertion order. A query's `.first()` is the first matching row, and a fresh
  identifier comes from a counter.
- **Identifiers** are natural numbers. Their text form is the decimal notation, so
  parsing a malformed one fails.
- **Instants** are natural numbers too. The clock is passed in, and the tables never let
  it run backwards.
- **Password hashing** is a pair of uninterpreted functions. The one fact assumed about
  them, `verify(p, hash(p))`, is the hypothesis `Credentials.Sound`.
- **Bearer tokens** reach the model as the claims they decode to.
- **The JSON parser** is a parameter from text to an optional JSON value.

The modules follow the source:

- `Text`: the Python string builtins the core uses.
- `Json`: decoded JSON values.
- `Credentials`, `Users` and `AuthRoutes`: `hash_password`, identity resolution,
  `register` and `login` in hf-backend/app.py.
- `AuthService`: backend/src/services/auth_service.py.
- `TodoModel`: the todo record, its payloads and the table.
- `TodoRoutes`: the todo routes of hf-backend/app.py.
- `TodoService`: hf-backend/src/services/todo_service.py.
- `Actions`: the shared action extraction and payload reading.
- `AppChatbot`: `execute_todo_action` and `chat_with_bot`.
- `ChatbotService`: hf-backend/src/services/ai_chatbot_service.py.
- `CliTasks`: src/services.py.
- `TodoListView`: frontend/src/components/TodoList.tsx.

Points where the model follows the code rather than the design documents:

- `register` in hf-backend/app.py does not catch the `ValueError` that `hash_password`
  raises for an over-long password. That request ends in an unhandled error (500), not a
  400, and `AuthRoutes.Register` models it that way.
- The action handler in hf-backend/app.py reads new field values only from a nested
  `"updates"` object. Its own system prompt tells the model to send them at the top
  level, so a reply shaped as the prompt asks changes nothing but `updated_at`
  (`AppChatbot.PromptShapedUpdateOnlyStamps`).
- `AIChatbotService.execute_action` passes all three fields to `TodoUpdate` explicitly.
  Under pydantic's `exclude_unset` semantics, an argument passed explicitly counts as
  set even when it is `None`. So a missing title or completion flag becomes a null,
  which the NOT NULL constraint refuses at commit, and a missing description clears the
  stored one (`ChatbotService.PartialServiceUpdate`). This rests on an assumption:
  hf-backend/src/models/todo.py is not part of this model, and its `TodoUpdate` is
  assumed to match the one in hf-backend/app.py.

## Model

| member | source | states |
|---|---|---|
| Text.Strip | hf-backend/app.py:527 | `str.strip()`: the result is a contiguous slice of the input, does not start or end with whitespace, and only whitespace was dropped |
| Text.StripIdempotent | hf-backend/app.py:527 | stripping twice is stripping once |
| Text.StripOfPrefixIsPrefix | hf-backend/app.py:540 | stripping a prefix of a stripped string gives a prefix of that string |
| Text.Find | hf-backend/app.py:531 | `find('{')` is -1 exactly when the character is absent, and otherwise the index of its first occurrence |
| Text.RFind | hf-backend/app.py:532 | `rfind('}')` is -1 exactly when the character is absent, and otherwise the index of its last occurrence |
| Text.FindAfterPrefix | hf-backend/app.py:531 | when a prefix has no `c` and the rest starts with one, the first `c` is right after the prefix |
| Text.RFindAtEnd | hf-backend/app.py:532 | a string ending in `c` has its last `c` at its end |
| Text.Utf8Length | hf-backend/app.py:125-126 | the UTF-8 byte length lies between the character count and four times it |
| Text.Utf8LengthAppend | hf-backend/app.py:125-126 | the byte length of a concatenation is the sum of the byte lengths |
| Text.Utf8LengthRepeat | hf-backend/app.py:125-126 | n copies of one character take n times its UTF-8 width |
| Text.Utf8LengthAscii | hf-backend/app.py:125-126 | an ASCII string has as many bytes as characters |
| Text.ToDecimal | hf-backend/app.py:209 | the text of a number is non-empty, all digits and free of leading zeros |
| Text.ParseDecimal | hf-backend/app.py:142 | a decimal parse succeeds exactly on non-empty all-digit text |
| Text.DecimalRoundTrip | hf-backend/app.py:142 | parsing the decimal text of n gives n |
| Text.ParseInt | src/services.py:15 | `int(s)` succeeds exactly on stripped text made of an optional sign and decimal digits |
| Text.IntRoundTrip | src/services.py:15 | `int(str(i)) == i` for every integer |
| Json.Get | hf-backend/app.py:381 | `dict.get` answers a value exactly when the key is present, and that value is the entry |
| Json.GetOr | hf-backend/app.py:385 | `dict.get(key, default)` is the entry when present and the default otherwise |
| Credentials.HashPassword | hf-backend/app.py:124-128 | refuses with "Password must be 72 bytes or less" exactly when the UTF-8 encoding is longer than 72 bytes; otherwise returns the hash |
| Credentials.HashedPasswordVerifies | hf-backend/app.py:121-128 | an accepted password verifies against the hash it produced |
| Credentials.RepeatedCharacterLimit | hf-backend/app.py:125-127 | n copies of a character are refused exactly when n times its UTF-8 width exceeds 72 |
| Credentials.SeventyTwoAsciiAccepted | hf-backend/app.py:126 | 72 ASCII characters are accepted |
| Credentials.SeventyThreeAsciiRejected | hf-backend/app.py:126-127 | 73 ASCII characters are refused with the limit message |
| Credentials.ShortMultiByteRejected | hf-backend/app.py:125-127 | 19 four-byte characters (76 bytes) are refused |
| Credentials.TenFourByteAccepted | hf-backend/app.py:125-126 | 10 four-byte characters (40 bytes) are accepted |
| Ids.ParseUuid | hf-backend/app.py:142 | `uuid.UUID(s)` succeeds exactly on non-empty text of decimal digits |
| Ids.UuidRoundTrip | hf-backend/app.py:142 | `uuid.UUID(str(u)) == u` |
| Users.FindByEmail | hf-backend/app.py:181 | the row found carries the e-mail and is in the table; nothing is found exactly when no row carries it |
| Users.FindById | hf-backend/app.py:154 | `session.get(User, id)` finds a row of the table with that id; nothing is found exactly when no row has it |
| Users.FindByEmailUnique | hf-backend/app.py:68 | under the unique e-mail constraint, a row is the one found by its e-mail |
| Users.FindByIdUnique | hf-backend/app.py:74 | under the primary key, a row is the one found by its id |
| Users.FindByEmailAfterAppend | hf-backend/app.py:181-197 | after adding a row with a new e-mail, that e-mail finds the new row and every other lookup is unchanged |
| Users.UserTable.constructor | hf-backend/app.py:72-77 | the table starts empty and valid |
| Users.UserTable.Insert | hf-backend/app.py:189-197 | appends one user with a fresh id and both timestamps `now`; the table stays valid |
| Users.IssueClaims | hf-backend/app.py:130-134 | the token names the user by the text of its id and expires the configured minutes after issue; a zero setting, being falsy, falls back to 15 minutes; the token is live at issue exactly when the setting is not negative, and never expires at the instant of issue |
| Users.CurrentUser | hf-backend/app.py:136-157 | 401 when the token does not decode or has no "sub"; an unhandled error when "sub" is not a UUID; 401 "User not found" for an absent user; otherwise that user |
| Users.CurrentUserRejectsWith401 | hf-backend/app.py:139-144 | every rejection the resolver raises itself has status 401 |
| Users.IssuedClaimsResolve | hf-backend/app.py:142-157 | a token issued for a user in the table resolves to exactly that user |
| AuthRoutes.Register | hf-backend/app.py:177-198 | 422, before anything else, for a body over `UserCreate`'s limits (255 characters of e-mail, 50 of each name given); then 409 for a taken e-mail; then 400 for a mismatched confirmation; then an unhandled error for an over-long password. Success happens exactly when the body is within those limits, the e-mail is free, the confirmation matches and the password fits 72 UTF-8 bytes. Every failure leaves the table unchanged, and success appends exactly the new user with the hashed password |
| AuthRoutes.Login | hf-backend/app.py:200-222 | every failure is the one 400 "Incorrect email or password"; success happens exactly when the e-mail is found and the password verifies, and then returns a bearer token for that user |
| AuthRoutes.LoginDoesNotRevealEmails | hf-backend/app.py:203-205 | an unknown e-mail and a wrong password get identical answers |
| AuthRoutes.RegisteredUserCanLogIn | hf-backend/app.py:177-222 | the user `register` appends can log in with the registered password, given `verify(p, hash(p))`, and the token resolves back to that user |
| AuthService.RegisterUser | backend/src/services/auth_service.py:10-35 | 409 for a taken e-mail before the confirmation is compared, then 400 for a mismatch, both leaving the table unchanged; success happens exactly when both checks pass and appends one user carrying `hash(password)`, for any body, including the length-validated ones it receives |
| AuthService.AuthenticateUser | backend/src/services/auth_service.py:38-47 | a user is returned exactly when the e-mail is found and the password verifies, and it is the one with that e-mail |
| AuthService.AuthenticateAfterRegister | backend/src/services/auth_service.py:21-47 | after a registration, authenticating with its e-mail and password returns the new user |
| AuthService.RegisterTwice | backend/src/services/auth_service.py:12-33 | a second registration of an e-mail gets 409, and the first user and its hash stay |
| TodoModel.Dump | hf-backend/app.py:280 | the dump of a partial update holds exactly one item per field that was given, in declaration order (title, description, completion), each carrying the value given, and nothing for the fields left unset |
| TodoModel.ApplyAssignments | hf-backend/app.py:281-282 | the `setattr` loop yields the draft that applying the items in order defines |
| TodoModel.PatchedLeavesUnnamedFields | hf-backend/app.py:281-282 | a field that no item names keeps its value |
| TodoModel.PatchedLastItemWins | hf-backend/app.py:281-282 | a field takes the value of the last item that names it |
| TodoModel.UpdateSetsOnlyGivenFields | hf-backend/app.py:280-282 | applying an update's dump sets exactly the given fields to their values and leaves the others alone |
| TodoModel.Commit | hf-backend/app.py:285-287 | the NOT NULL constraints refuse a null title or completion flag; otherwise the row takes the draft and the timestamp, keeping its id, owner and creation time |
| TodoModel.CommitUnchangedDraft | hf-backend/src/services/todo_service.py:40-42 | committing an unedited row writes it back unchanged |
| TodoModel.Lookup | hf-backend/app.py:260-262 | a row is found only when both its id and its owner match; nothing is found exactly when no row matches both |
| TodoModel.OwnedBy | hf-backend/app.py:237 | the owner's rows: a row is listed exactly when it is in the table and belongs to the owner |
| TodoModel.Window | hf-backend/app.py:237 | `offset(skip).limit(limit)`: the elements from position `skip`, at most `limit` of them |
| TodoModel.Replace | hf-backend/app.py:285-287 | writing back a row replaces exactly the rows with its id and keeps the length |
| TodoModel.Remove | hf-backend/app.py:302-303 | deleting by id keeps exactly the rows with another id |
| TodoModel.OwnedByAppend | hf-backend/app.py:248-250 | adding a row adds it to its owner's list only |
| TodoModel.OwnedByReplaceOther | hf-backend/src/services/todo_service.py:25 | rewriting one user's row leaves every other user's rows as they were |
| TodoModel.OwnedByReplaceSame | hf-backend/src/services/todo_service.py:25 | for the owner, rewriting a row is the same rewrite of the owner's list |
| TodoModel.OwnedByRemoveOther | hf-backend/src/services/todo_service.py:47-53 | deleting one user's row leaves every other user's rows as they were |
| TodoModel.LookupAt | hf-backend/app.py:260-262 | under the primary key, the pair (id, owner) of a row finds that row |
| TodoModel.RemoveExactlyOne | hf-backend/app.py:302-303 | under the primary key, deleting a row's id removes just that row, keeping the order |
| TodoModel.RemoveAbsent | hf-backend/app.py:302-303 | deleting an id that no row carries changes nothing |
| TodoModel.ReplaceKeepsIds | hf-backend/app.py:285-287 | rewriting keeps the id of every row that does not carry the rewritten id |
| TodoModel.ReplaceWithOwnRow | hf-backend/src/services/todo_service.py:40-42 | writing back the row the table already holds changes nothing |
| TodoModel.ReplaceTwice | hf-backend/src/services/todo_service.py:61-63 | a second rewrite of the same id overrides the first |
| TodoModel.LookupOwnsId | hf-backend/app.py:260-262 | under the primary key, the owner of the row found owns every row with that id |
| TodoModel.LookupIsOnlyRowWithId | hf-backend/src/services/todo_service.py:26-27 | under the primary key, the row found by id and owner is the only row with that id |
| TodoModel.TodoTable.constructor | hf-backend/app.py:96-101 | the table starts empty and valid |
| TodoModel.TodoTable.Tick | hf-backend/app.py:284 | reading a later clock changes no row |
| TodoModel.TodoTable.Add | hf-backend/app.py:248-251 | appends one row with a fresh id, the caller as owner, the payload's fields and both timestamps `now` |
| TodoModel.TodoTable.Save | hf-backend/app.py:285-287 | a commit of an edited row replaces the rows with its id and keeps the table valid |
| TodoModel.TodoTable.Delete | hf-backend/app.py:302-303 | deleting the row at an index removes exactly that row, the others keeping their order |
| TodoRoutes.GetTodos | hf-backend/app.py:229-239 | at most `limit` rows, all the caller's, being the caller's rows from position `skip` on; when fewer than `skip + limit` are owned, exactly the owned count past `skip` (none when `skip` reaches it) |
| TodoRoutes.PagesConcatenate | hf-backend/app.py:237 | two consecutive pages together are the page that spans both |
| TodoRoutes.FullPageIsEveryOwnedRow | hf-backend/app.py:237 | a page with offset 0 and a large enough limit lists every row of the caller's |
| TodoRoutes.GetTodo | hf-backend/app.py:254-265 | 422 for a path that is not a UUID, 404 "Todo not found" unless the caller owns a row with that id, and that row otherwise |
| TodoRoutes.GetTodoOwnerScoped | hf-backend/app.py:260-264 | a row is served by its id to its owner, and every other user gets the 404 |
| TodoRoutes.CreateTodo | hf-backend/app.py:241-252 | 422 exactly when the body breaks the create constraints, with nothing stored; otherwise one row owned by the caller is appended; no other user's rows change |
| TodoRoutes.CreatedTodoIsFound | hf-backend/app.py:248-265 | a created row is then served to its owner by the text of its id |
| TodoRoutes.UpdateTodo | hf-backend/app.py:267-288 | 422 for a malformed id, 404 unless owned; otherwise the given fields are set and `updated_at` becomes now; a nulled required field fails at commit with nothing stored; no other user's rows change |
| TodoRoutes.DeleteTodo | hf-backend/app.py:290-304 | 422 for a malformed id, 404 unless owned, each leaving the table unchanged; otherwise exactly that row is removed and "Todo deleted successfully" is returned |
| TodoRoutes.ToggleTodoComplete | hf-backend/app.py:306-323 | 422 for a malformed id, 404 unless owned; otherwise `is_completed` is negated, `updated_at` becomes now, and nothing else changes |
| TodoRoutes.DeleteIsOwnerScoped | hf-backend/app.py:241-304 | after one user creates a todo, another user's delete gets 404; the owner's delete succeeds; the owner's lookup then gets 404, and the table is back where it started |
| TodoService.GetUserTodos | hf-backend/src/services/todo_service.py:10-13 | exactly the todos of that user |
| TodoService.CreateTodo | hf-backend/src/services/todo_service.py:16-21 | appends one todo with the caller as owner and the payload's fields; existing todos and other users' lists are untouched |
| TodoService.GetTodoById | hf-backend/src/services/todo_service.py:24-27 | a todo only when both its id and its owner match, and `None` exactly when none does |
| TodoService.UpdateTodo | hf-backend/src/services/todo_service.py:30-43 | `None` with nothing changed when there is no owner match; otherwise exactly the dumped fields are set and `updated_at` is kept; a nulled required field fails with nothing stored |
| TodoService.DeleteTodo | hf-backend/src/services/todo_service.py:46-53 | true exactly when there is an owner match, and then exactly that todo is removed; otherwise nothing changes; other users' lists are untouched |
| TodoService.ToggleTodoCompletion | hf-backend/src/services/todo_service.py:56-65 | `None` with nothing changed when there is no owner match; otherwise only `is_completed` flips |
| TodoService.ToggleTwice | hf-backend/src/services/todo_service.py:56-65 | toggling the same todo twice restores the table exactly |
| Actions.KindOf | hf-backend/app.py:537 | the action kind is recognised exactly when `action` is one of the four strings |
| Actions.Extract | hf-backend/app.py:527-542 | with no action the reply is the stripped text; an action always has a known kind; the reply is always a prefix of the stripped text and, when an action is taken, holds no '{'; conversely, whenever the outermost braces of the stripped text parse to an object of known kind, that object is the action |
| Actions.Split | hf-backend/app.py:530-542 | an action is taken exactly when there is a '{' with a later '}' and the slice between the first and the last parses to an object of known kind, and it is that object; the reply is then the stripped text before the '{' |
| Actions.ExtractedActionSpansOuterBraces | hf-backend/app.py:531-540 | an extracted action is what the outermost braces of the stripped reply spell |
| Actions.NoBraceNoAction | hf-backend/app.py:531-534 | a reply without '{' carries no action and is shown stripped |
| Actions.ProseThenAction | hf-backend/app.py:374 | prose followed by an action object, as the prompt asks for, splits into the stripped prose and the object |
| Actions.ToggleReplyExample | hf-backend/app.py:531-540 | "Done! " followed by a toggle object yields the reply "Done!" and that object |
| Actions.OptionalText | hf-backend/app.py:112-115 | an optional text field accepts exactly null and strings |
| Actions.OptionalFlag | hf-backend/app.py:112-115 | an optional flag accepts exactly null and booleans |
| Actions.CreatePayload | hf-backend/app.py:384-388 | the payload is accepted exactly when the title is absent or a string, the description absent, null or a string, the completion absent or a boolean, and the resulting body satisfies the create constraints; its title then defaults to "Untitled" and its completion to false |
| Actions.BareAddIsUntitled | hf-backend/app.py:384-388 | an add action with no fields creates an open todo titled "Untitled" |
| Actions.ReadId | hf-backend/app.py:405-410 | the id is missing exactly when absent or falsy; it is malformed exactly when it is truthy but not a UUID string; otherwise it is the UUID parsed |
| Actions.ReadIdOfIdText | hf-backend/app.py:397-410 | an action carrying the text of an id names exactly that id |
| AppChatbot.UpdatesOf | hf-backend/app.py:415-421 | the nested "updates" object, empty when absent; a list or string, which the `in` tests search by membership, assigns nothing and succeeds exactly when no field name occurs in it; null, a boolean or a number fails |
| AppChatbot.UnmentioningUpdatesOnlyStamp | hf-backend/app.py:415-426 | a list or string "updates" that names no field leaves every field as it was and only stamps `updated_at` |
| AppChatbot.TitleTextUpdatesFail | hf-backend/app.py:416-417 | the string "new title" as "updates" contains "title", so the branch indexes a string by a string and fails |
| AppChatbot.ApplyUpdates | hf-backend/app.py:416-421 | each field named in "updates" takes the value given there, including null; the others keep theirs; a value of the wrong type fails |
| AppChatbot.UpdateOutcome | hf-backend/app.py:415-426 | the committed row keeps id, owner and creation time, carries `updated_at = now`, and exists exactly when the patched title and completion are not null |
| AppChatbot.PromptShapedUpdateOnlyStamps | hf-backend/app.py:369 | an update shaped as the prompt asks (no "updates") changes only `updated_at` |
| AppChatbot.ExecuteTodoAction | hf-backend/app.py:378-482 | "Unknown action type" for other kinds; an add validates and appends; for update, delete and toggle a missing id gives "Todo ID required for …", a malformed id an execution error, and an id the caller does not own "Todo not found"; then the action is applied. Every failure leaves the table unchanged, other users' rows never change, and the table stays valid |
| AppChatbot.ChatWithBot | hf-backend/app.py:485-560 | the fixed reply without a key; the apology with the error text when the model call raised; otherwise the extracted reply and action, and an action result exactly when an action was extracted, that result and the new table being what `ExecuteTodoAction` promises for that action |
| ChatbotService.ApiKey | hf-backend/src/services/ai_chatbot_service.py:18 | the argument key unless it is missing or empty, else the environment's |
| ChatbotService.Chat | hf-backend/src/services/ai_chatbot_service.py:52-117 | the fixed reply and no action without a model; the apology with no action when the call raised; otherwise the extracted reply and action, whose kind is always known |
| ChatbotService.PlainReplyHasNoAction | hf-backend/src/services/ai_chatbot_service.py:94-111 | a reply without '{' is passed on stripped, with no action |
| ChatbotService.ServicePayload | hf-backend/src/services/ai_chatbot_service.py:157-161 | all three update fields are set, a missing one as null; the payload fails exactly when a present value has the wrong type |
| ChatbotService.ServiceUpdateReplacesEveryField | hf-backend/src/services/ai_chatbot_service.py:157-162 | the commit replaces all three fields, and it is refused unless both the title and the completion flag are given |
| ChatbotService.PartialServiceUpdate | hf-backend/src/services/ai_chatbot_service.py:157-162 | an update that omits the title or the completion flag never commits, and one that omits the description clears it |
| ChatbotService.ExecuteAction | hf-backend/src/services/ai_chatbot_service.py:119-208 | as `execute_todo_action`, but through the service: no `updated_at` refresh; the update payload is validated before the id is parsed; a delete's success is the service's boolean. Every failure leaves the table unchanged |
| CliTasks.ValidateTitle | src/services.py:8-10 | true exactly when the title has a non-whitespace character |
| CliTasks.ValidateId | src/services.py:12-17 | the integer for a numeric string, otherwise "Task ID must be a numeric value." |
| CliTasks.ValidateIdOfText | src/services.py:12-15 | the text of any integer is accepted and denotes that integer |
| CliTasks.IndexOf | src/services.py:40-41 | -1 exactly when no task has the id, otherwise the first index with it |
| CliTasks.MarkDone | src/services.py:38-44 | marks exactly the first task with the id complete; unchanged when there is none |
| CliTasks.RemoveFirst | src/services.py:46-53 | removes exactly the first task with the id, keeping the order; unchanged when there is none |
| CliTasks.MarkDoneIdempotent | src/services.py:38-44 | completing twice equals completing once |
| CliTasks.MarkDoneKeepsIds | src/services.py:42 | completing keeps the length and every id |
| CliTasks.RemoveFirstRemovesId | src/services.py:46-53 | on an increasing list, deleting keeps it increasing, leaves no task with the id and keeps every other task |
| CliTasks.DropAt | src/services.py:51 | popping one task keeps the list increasing and removes only that id |
| CliTasks.TaskList.constructor | src/services.py:5-6 | an empty list with `next_id` 1 |
| CliTasks.TaskList.AddTask | src/services.py:19-32 | a blank title fails with "Task title cannot be empty." and nothing changes; otherwise the stripped title is appended, open, with id `next_id`, and `next_id` grows by 1; ids stay increasing and below `next_id` |
| CliTasks.TaskList.GetTasks | src/services.py:34-36 | the list itself, in increasing id order |
| CliTasks.TaskList.CompleteTask | src/services.py:38-44 | true exactly when a task has the id, and the list becomes the one with that task marked complete |
| CliTasks.TaskList.DeleteTask | src/services.py:46-53 | true exactly when a task has the id; the list becomes the one without that task, no task with the id remains, and `next_id` is kept |
| CliTasks.CompleteTwice | src/services.py:38-44 | a second completion answers as the first and changes nothing more |
| TodoListView.AddTodo | frontend/src/components/TodoList.tsx:31-33 | the new todo first, then the old list; the length grows by one |
| TodoListView.UpdateTodo | frontend/src/components/TodoList.tsx:35-39 | same length; exactly the todos with the updated id are replaced |
| TodoListView.DeleteTodo | frontend/src/components/TodoList.tsx:41-43 | keeps exactly the todos with another id |
| TodoListView.UpdateAbsentId | frontend/src/components/TodoList.tsx:35-39 | an id the list does not hold leaves it unchanged |
| TodoListView.UpdateIdempotent | frontend/src/components/TodoList.tsx:35-39 | the same update twice is one update |
| TodoListView.DeleteLeavesNoSuchId | frontend/src/components/TodoList.tsx:41-43 | afterwards no todo has the id |
| TodoListView.DeleteConcat | frontend/src/components/TodoList.tsx:41-43 | deletion works piecewise over a concatenation, so the survivors keep their order |
| TodoListView.DeleteAbsentId | frontend/src/components/TodoList.tsx:41-43 | an id the list does not hold leaves it unchanged |
| TodoListView.DeleteIdempotent | frontend/src/components/TodoList.tsx:41-43 | deleting twice is deleting once |
| TodoListView.AddThenDelete | frontend/src/components/TodoList.tsx:31-43 | deleting a just-added todo's id is deleting that id from the old list |
| TodoListView.UpdateThenDelete | frontend/src/components/TodoList.tsx:35-43 | deleting after an update of the same id is deleting straight away |

## Left out

- Token signing, encoding and expiry checking (`jwt.encode`, `jwt.decode`) are library calls. A token is represented by the claims it decodes to, or by a failed decode.
- The bcrypt hash is a library call. hash and verify are arbitrary functions, and only `verify(p, hash(p))` is assumed.
- `json.loads` is the parameter `parse`. JSON numbers are integers only, because floating point is not modelled.
- The system prompt, `json.dumps` of the todo list, and the Gemini model and its configuration are left out. Whether a key is set and what the model answered, text or exception text, are inputs.
- Database engines, sessions, connection pools and the `DATABASE_URL` clean-up are plumbing. Tables are in-memory sequences, and a failed commit stores nothing.
- Pydantic's lax coercion (a number given for a string, `"true"` for a boolean) is left out: a request body for a create or an update with a value of the wrong JSON type is treated as a validation failure. The same holds for the chatbot's add payload, which builds a `TodoCreate`.
- `AppChatbot.ApplyUpdates`: the update branch assigns the values of "updates" straight onto the row with no validation. Whether a value of the wrong type (a number for the title) is then stored, coerced or refused at commit depends on the database engine; the model treats it as a failure that stores nothing.
- `Users.CurrentUser`: the resolver catches `jwt.JWTError` after `import jwt`. The model takes that name to be the decode-failure exception of the installed JWT library, as in python-jose. Under PyJWT, which has no `JWTError`, reaching that clause raises an AttributeError, so an undecodable token or one without "sub" would end in a 500, not a 401. The library in use is not part of this model.
- When an update's values are of the wrong type, the model reports that fault even if the same commit would also violate NOT NULL. The original would report whichever the database raises first.
- The text of caught exceptions ("Error executing action: …") is reduced to the cause.
- Negative `skip` and `limit` query values are left out; both are natural numbers here.
- The update routes do not re-check the 200- and 1000-character column limits. Whether the database enforces them depends on the engine.
- UUIDs are natural numbers whose text form is decimal, so the 36-character hyphenated form and its alternative spellings are not modelled.
- `CliTasks.ValidateId`: Python's `int()` also accepts underscores between digits and non-ASCII decimal digits. Neither is modelled.
- The CLI's task dictionaries are shared mutable objects. A caller holding one sees it change. The model treats tasks as values, so it does not capture that aliasing.
- `AuthService.RegisterUser` uses a hash with no 72-byte limit, because backend/src/api/deps.py's `hash_password` has none. That file is otherwise not part of this model.
- The FastAPI routing and dependency plumbing, hf-backend/src/api/routes/chatbot.py, the other frontend files and the interactive menu of src/main.py are left out. They are HTTP glue, UI or input/output.
- Clock readings are arbitrary instants that never run backwards. No time arithmetic is modelled beyond the token lifetime in seconds.
