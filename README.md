# Twiga chatbot backend: a Dafny model of its core

Twiga is a WhatsApp chatbot backend for teachers. This project models three of its parts as
sequential code with the I/O removed, and proves properties of each:

- **The user-state dispatcher** (`StateHandler.process_state`, module `StateService`). Before a
  message reaches the language model, the sender's stored state decides the path. `active`
  passes through. `new` and `onboarding` are handed to onboarding. `blocked`, `rate_limited`
  and `has_pending_message` get a fixed reply from the handler table. Any other state gets the
  default "contact support" reply. The outcome is a datatype with three variants. The source
  returns a 2-tuple `(None, None)` on the pass-through branch but 3-tuples elsewhere; the
  model keeps that difference by giving the pass-through variant no continue flag. The call
  to onboarding is recorded as a log of the users handed over.
- **WhatsApp formatting and validation** (modules `WhatsAppMessages`, `WhatsAppFormat`,
  `WhatsAppValidation`). The outbound envelopes are modelled as structures before JSON
  serialisation. `format_text_for_whatsapp` is a composition of eight passes. Each pass is
  modelled as the scan Python's `re.sub` performs for that one pattern: a leftmost, lazy,
  non-overlapping delimiter-pair rewrite, or the line-anchored bullet rewrite.
  `is_valid_whatsapp_message` is modelled over a small JSON datatype with Python truthiness.
- **Data access** (modules `Lookups`, `Database`). This part works over an in-memory store: a
  class holding the users, classes, teacher-class links and messages tables. The writing
  operations are methods that change those sequences. The read-only queries are functions
  over the table contents. A failed call returns `Err` and leaves the store as it was, which
  is what the rollback guarantees. The parameter `fault` stands for a failure of the
  database itself at any point of the call up to and including the commit: a lost
  connection, a failed query or a failed commit. Reads and writes alike then return the
  call's error and change no table. A `refresh` that fails after a successful commit is not
  covered by `fault`; see "Left out".

The code and its comments disagree in several places; each time the model follows the code.

- The comment at `app/utils/whatsapp_utils.py:78` says `**text**` becomes `*text*`. But the
  italic pass at line 84 rewrites the output of line 79 again, so `**bold**` ends as `_bold_`
  (`WhatsAppFormat.FormatDoubleStar`, `WhatsAppFormat.FormatBoldExample`).
- The comment at `app/database/db.py:114` says a missing class is created, but lines 115-116
  raise, so the call fails with UserUpdateError and adds nothing
  (`Database.Store.AddTeacherClass`).
- The docstring of `add_teacher_class` says it returns the updated user
  (`app/database/db.py:99-100`), but line 135 returns the class. `Database.Store.AddTeacherClass`
  returns the `Class`.
- The same docstring (`app/database/db.py:92`) says the user's `class_info` is updated, but
  nothing updates it (the TODO at line 132). `Database.Store.AddTeacherClass` leaves the
  users table unchanged.
- The comment at `app/database/db.py:192` says an empty list is returned when the user has no
  messages, but line 195 returns `None`. `Database.MessageHistory` gives `Ok(None)`.

A further consequence of the code worth knowing: the
bullet pattern at line 96 uses `\s`, which also matches newlines, so blank lines just before
a bullet are absorbed into the match (`WhatsAppFormat.BulletAbsorbsBlankLines`).

## Model

| member | source | states |
|---|---|---|
| `StateService.StateHandlers` | app/services/state_service.py:13-19 | the handler table has exactly the keys blocked, rate_limited and has_pending_message, none mapped to the default handler |
| `StateService.HandlerFor` | app/services/state_service.py:67 | the default handler is chosen exactly for states outside the table; each table state gets its own handler |
| `StateService.Handle` | app/services/state_service.py:24-47 | every handler returns a non-empty fixed text and no options; each handler's text is its own constant |
| `StateService.ProcessState` | app/services/state_service.py:49-70 | active, and only active, passes through with no onboarding call; new and onboarding are delegated with the flag true and exactly one onboarding call for this user; every other state gets a canned reply with flag false, no options and the text of its handler (default text for unlisted states) |
| `StateService.CannedDependsOnlyOnState` | app/services/state_service.py:24-47 | two users in the same intercepted state get the same outcome, whatever their other fields |
| `WhatsAppMessages.TextInput` | app/utils/whatsapp_utils.py:23-27 | the recipient and the body are carried through unchanged |
| `WhatsAppMessages.Decimal` | app/utils/whatsapp_utils.py:33 | the `{i}` of the f-string: a non-empty string of decimal digits |
| `WhatsAppMessages.DecimalRoundTrip` | app/utils/whatsapp_utils.py:33 | reading the digits back gives the number, so distinct numbers render differently |
| `WhatsAppMessages.OptionId` | app/utils/whatsapp_utils.py:33 | the identifier `option-i` of the i-th option (line 55 builds the same); no contract of its own, `OptionIdInjective` states its property |
| `WhatsAppMessages.OptionIdInjective` | app/utils/whatsapp_utils.py:33 | distinct positions give distinct `option-i` identifiers (decimal rendering is read back exactly) |
| `WhatsAppMessages.ButtonInput` | app/utils/whatsapp_utils.py:30-48 | one `reply` button per option, in order, with id `option-i` and the i-th option as title; ids pairwise distinct; body is the text, footer the fixed "automatic message" footer |
| `WhatsAppMessages.ListInput` | app/utils/whatsapp_utils.py:51-73 | exactly one section titled `title` (default "Options") holding one row per option in order with id `option-i`; ids pairwise distinct; button label "Options"; footer the fixed "automated message" footer |
| `WhatsAppFormat.CloseAt` | app/utils/whatsapp_utils.py:79-103 | where the lazy group `(.*?)` closes: if it closes, it is at or after the start and a closing delimiter starts there |
| `WhatsAppFormat.CloseAtLeftmost` | app/utils/whatsapp_utils.py:79-103 | the lazy group `(.*?)` closes at the leftmost later delimiter, crossing no newline unless DOTALL, and fails only when a newline precedes every later delimiter |
| `WhatsAppFormat.Sub` | app/utils/whatsapp_utils.py:79-103 | `re.sub` of one delimiter-pair pattern as a left-to-right scan; no contract of its own, the `Sub...` lemmas below state its properties |
| `WhatsAppFormat.SubIdentity` | app/utils/whatsapp_utils.py:86-103 | a pass that writes each match back with its own delimiters (lines 86, 92, 103) returns its input unchanged |
| `WhatsAppFormat.SubNoDelimiter` | app/utils/whatsapp_utils.py:79-103 | a pass whose delimiter occurs nowhere makes no replacement and returns its input |
| `WhatsAppFormat.SubWithoutFirstChar` | app/utils/whatsapp_utils.py:79-103 | a text without the delimiter's first character is returned unchanged |
| `WhatsAppFormat.SubLength` | app/utils/whatsapp_utils.py:79-103 | each replacement changes the length by the replacement delimiters' length minus twice the pattern delimiter's |
| `WhatsAppFormat.SubSpan` | app/utils/whatsapp_utils.py:79-89 | a text that is one span `D x D`, with `x` free of newlines and of the delimiter's first character, becomes `L x R` with exactly one replacement |
| `WhatsAppFormat.BulletMatch` | app/utils/whatsapp_utils.py:96 | a match of `^\s*[*-]\s+` is found at a position exactly when it is a line start followed by whitespace, a marker and whitespace, and it ends where the greedy trailing run ends |
| `WhatsAppFormat.BulletSub` | app/utils/whatsapp_utils.py:96 | the MULTILINE bullet rewrite as a scan: every match is at least two characters and becomes `* `, so the result is never longer than the text scanned |
| `WhatsAppFormat.BulletSubNoMatch` | app/utils/whatsapp_utils.py:96 | where no bullet match starts, the bullet pass copies the text |
| `WhatsAppFormat.BulletsWithoutMarkers` | app/utils/whatsapp_utils.py:96 | a text without `*` and `-` is returned unchanged by the bullet pass |
| `WhatsAppFormat.BulletSubCopies` | app/utils/whatsapp_utils.py:96 | `^` matches only at a line start, so past a line's first character one character is copied |
| `WhatsAppFormat.BulletSubInsideLine` | app/utils/whatsapp_utils.py:96 | a stretch inside one line (no newline before its end) is copied unchanged |
| `WhatsAppFormat.BulletSubReplaces` | app/utils/whatsapp_utils.py:96 | at a match the pass writes `* ` and resumes after the match, for any text that follows |
| `WhatsAppFormat.BulletAtLine` | app/utils/whatsapp_utils.py:96 | at a line start, whitespace (newlines included), `-` or `*`, and whitespace up to a non-whitespace character form a match with maximal trailing run |
| `WhatsAppFormat.BulletLine` | app/utils/whatsapp_utils.py:96 | such a run is replaced by `* ` as a whole and the scan goes on after it, whatever the rest of the text holds |
| `WhatsAppFormat.BulletItem` | app/utils/whatsapp_utils.py:96 | a list item `- x` at a line start, `x` starting with a non-whitespace character, becomes `* x` up to the end of its line |
| `WhatsAppFormat.BulletsTwoItems` | app/utils/whatsapp_utils.py:96 | each line of a two-item list gets its own bullet: `- x\n- y` becomes `* x\n* y` for items that start with a non-whitespace character and stay on their line |
| `WhatsAppFormat.BulletsOneLine` | app/utils/whatsapp_utils.py:96 | a single line that starts with neither whitespace nor a marker is returned unchanged |
| `WhatsAppFormat.BulletAbsorbsBlankLines` | app/utils/whatsapp_utils.py:96 | blank lines just before a bullet are swallowed: `\n\n- x` becomes `* x` for an item that starts with a non-whitespace character and stays on its line |
| `WhatsAppFormat.BoldStars` | app/utils/whatsapp_utils.py:79 | `**x**` to `*x*`: each match shortens the text by exactly 2 |
| `WhatsAppFormat.BoldUnderscores` | app/utils/whatsapp_utils.py:80 | `__x__` to `*x*`: each match shortens the text by exactly 2 |
| `WhatsAppFormat.ItalicStars` | app/utils/whatsapp_utils.py:83-85 | `*x*` to `_x_`: the length is kept |
| `WhatsAppFormat.ItalicUnderscores` | app/utils/whatsapp_utils.py:86 | `_x_` written back as `_x_`: the pass returns its input |
| `WhatsAppFormat.Strikethrough` | app/utils/whatsapp_utils.py:89 | `~~x~~` to `~x~`: each match shortens the text by exactly 2 |
| `WhatsAppFormat.CodeBlocks` | app/utils/whatsapp_utils.py:92 | code blocks written back as they were (DOTALL): the pass returns its input |
| `WhatsAppFormat.Bullets` | app/utils/whatsapp_utils.py:96 | the bullet pass over the whole text never lengthens it |
| `WhatsAppFormat.InlineCode` | app/utils/whatsapp_utils.py:103 | inline code written back as it was: the pass returns its input |
| `WhatsAppFormat.FormatText` | app/utils/whatsapp_utils.py:76-105 | the formatted text is never longer than the input |
| `WhatsAppFormat.FormatPlainText` | app/utils/whatsapp_utils.py:76-105 | text with none of `*`, `_`, `~`, `-` is returned unchanged by the whole chain |
| `WhatsAppFormat.FormatInlineCode` | app/utils/whatsapp_utils.py:103 | "`code`" is returned unchanged |
| `WhatsAppFormat.FormatDoubleStar` | app/utils/whatsapp_utils.py:78-86 | the first pass turns `**x**` into `*x*`, and the whole chain turns it into `_x_` (for `x` without `*`, `_`, `~`, newline) |
| `WhatsAppFormat.FormatBoldExample` | app/utils/whatsapp_utils.py:79-86 | "**bold**" formats to "_bold_" |
| `WhatsAppFormat.StrikethroughSpan` | app/utils/whatsapp_utils.py:89 | `~~x~~` becomes `~x~` when `x` has no `~` and no newline |
| `Json.Truthy` | app/utils/whatsapp_utils.py:112-119 | Python's `bool(v)` on a parsed JSON value: null, false, 0 and empty strings, lists and dicts are falsy; no contract of its own, it is the reference the validation rows use |
| `WhatsAppValidation.Get` | app/utils/whatsapp_utils.py:113-117 | `d.get(key)`: defined exactly on dicts, the stored value when the key is present and null otherwise |
| `WhatsAppValidation.First` | app/utils/whatsapp_utils.py:115-118 | `v[0]` on a truthy value: the first item of a list, the first character of a string, a raise on anything else |
| `WhatsAppValidation.IsValidMessage` | app/utils/whatsapp_utils.py:108-119 | truthy exactly when `object` is truthy, `entry[0].changes[0].value.messages[0]` exists along lists and dicts and is truthy; falsy for a dict without `entry` or with a falsy `object`; raises on a non-dict body |
| `Lookups.Find` | app/database/db.py:52-54 | `scalar_one_or_none`: absent exactly when no row matches, the unique row when exactly one does, an error report when two distinct rows do |
| `Lookups.Filter` | app/database/db.py:184 | `.where(...)`: keeps exactly the rows that satisfy the condition and never adds rows |
| `Lookups.FilterAppend` | app/database/db.py:184 | filtering two stretches of a table one after the other gives the filter of the whole: the selected rows keep table order and multiplicity |
| `Lookups.Reverse` | app/database/db.py:198 | `reversed`: the result has the input's length (item order is stated by `ReverseAt`) |
| `Lookups.Take` | app/database/db.py:186 | `.limit(n)` keeps the first `min(n, len)` rows, in their order |
| `Lookups.ReverseAt` | app/database/db.py:198 | `reversed`: item `i` of the result is item `len - 1 - i` of the input |
| `Lookups.NewestReversed` | app/database/db.py:182-198 | newest-first order, cut to `n`, then reversed, is the last `min(n, len)` rows in table order |
| `Database.UserByWaId` | app/database/db.py:79-87 | returns the stored user with that wa_id, None exactly when the query succeeds and there is none; UserQueryError exactly when the database fails or two users share the wa_id (never for unique wa_ids on a working database); reads the store only |
| `Database.OwnMessages` | app/database/db.py:182-184 | the messages selected for a user are exactly the stored messages with that user id |
| `Database.MessageHistory` | app/database/db.py:176-204 | limit defaults to 10; a failing database or a negative limit fails with the one error; otherwise None exactly when the limit is 0 or the user has no messages, else that user's newest `min(limit, n)` messages in oldest-first order, all with the user's id |
| `Database.DecodeWhere` | app/database/db.py:257-265 | one filter per entry in order: a list longer than 1 gives membership, a list of one gives equality with its element, anything else equality with the value; fails on the first key that is not a column |
| `Database.ListValueMeansMembership` | app/database/db.py:260-263 | for a non-empty list value, the decoded filter accepts exactly the chunks whose column holds one of the list's items |
| `Database.EmptyListMeansEquality` | app/database/db.py:264-265 | an empty list decodes to equality with the empty list, not to "nothing matches" |
| `Database.Store.GetOrCreateUser` | app/database/db.py:43-76 | name defaults to None; a failing database gives UserDatabaseError and no change, whether it fails on the lookup or the insert; otherwise an existing user is returned and nothing is inserted, or exactly one user is appended with the wa_id, the name, state new and role teacher; duplicate wa_ids give UserDatabaseError and no change; wa_id uniqueness is preserved |
| `Database.FoundAfterInsert` | app/database/db.py:52-66 | after inserting a user whose wa_id was absent, a lookup by that wa_id finds exactly the new user |
| `Database.GetOrCreateTwice` | app/database/db.py:43-71 | once a call has succeeded, a second call with the same wa_id returns the same user unless the database fails then (UserDatabaseError); the table grows at most by that one user |
| `Database.Store.AddTeacherClass` | app/database/db.py:90-140 | a failing database or no unique class for (subject, grade) gives UserUpdateError and no link; otherwise the class is returned and a link is added only if none exists; on success the link is stored; the link table stays duplicate-free |
| `Database.IndexOfId` | app/database/db.py:163 | the row `session.add` writes to: a position holding that id, none exactly when no row has it |
| `Database.Store.UpdateUser` | app/database/db.py:143-173 | None is refused with UserUpdateError before the store is touched; a failing database gives UserUpdateError and no change; otherwise the row with the same id is replaced and the user returned |
| `Database.Store.CreateNewMessages` | app/database/db.py:207-233 | an empty batch returns [] without touching the store; a non-empty batch is appended entirely and returned in input order, or on failure not at all |
| `Database.Store.CreateNewMessage` | app/database/db.py:236-247 | a single message is stored and returned as the one element of a batch of one, or nothing is stored on failure |
| `Database.StoredMessageIsNewest` | app/database/db.py:182-184 | after a message is stored, its user's selected messages are the previous ones followed by it; every other user's selection is unchanged |
| `Database.HistoryEndsWithStored` | app/database/db.py:176-198 | after a message is stored, a working history query with a positive limit returns a non-empty history whose last (newest) item is that message |

## Left out

- Async sessions, `commit`/`refresh`/`rollback` and SQLAlchemy query construction are not modelled. Only their effect on the tables is: a failure of the database itself up to and including the commit is the `fault` parameter, and a rollback is "no table changes".
- Exception message strings and all logging calls are left out.
- The embedding call, the cosine-distance ordering and `.limit(n_results)` in `vector_search` are left out: they need an external model and floating point. Only the decoding of `where` into filters is modelled.
- Only sequential calls are modelled. The race between the lookup and the insert in `get_or_create_user` under concurrent requests is not.
- The onboarding collaborator (`onboarding_client.process_state`) is not part of this model. Its call is recorded, not executed.
- Pydantic serialisation (`model_dump_json`) is not modelled: the builders return the message structure. The message model classes are not part of this model, so fields they fill in by default (such as the message type) are absent.
- `app/utils/logging_utils.py`, `app/__init__.py` and the Alembic migration hold no logic of the core and are left out.
- No general regular-expression engine is modelled, only the eight patterns used in `format_text_for_whatsapp`.
- The table definitions (`app/database/models.py`) are not part of this model. Subjects and grade levels are plain strings. A state value outside the six named states is `UserState.Unlisted`.
- Database.MessageHistory: the order by `created_at` is taken to be the order in which rows were inserted. Clock skew and equal timestamps are not modelled.
- Message primary keys and timestamps, and the columns the database fills in on refresh, are not modelled, except the user id that `get_or_create_user` hands out.
- Database.Store.AddTeacherClass: the foreign key from a link to the users table is not modelled. A link can be made for a user id that is not stored.
- Database.Store.GetOrCreateUser: a `refresh` that fails after the commit has succeeded (`app/database/db.py:67-68`) is not modelled. The source then raises UserDatabaseError although the new user stays stored.
- Database.Store.UpdateUser: a `refresh` that fails after the commit has succeeded (`app/database/db.py:164-165`) is not modelled. The source then raises UserUpdateError although the update stays stored.
- Database.Store.CreateNewMessages: a `refresh` that fails after the commit has succeeded (`app/database/db.py:220-224`) is not modelled. The source then raises although the whole batch stays stored, so a retried call stores it twice.
- Database.Store.CreateNewMessage: it inherits the gap of `CreateNewMessages`. A failing `refresh` after the commit raises although the message stays stored.
- Database.Store.UpdateUser: a user whose id is not stored is refused with UserUpdateError and no change. The source's `session.add` (`app/database/db.py:163`) would insert such a user as a new row. The user is also written back as a whole row; partial updates are not modelled.
- WhatsAppValidation.IsValidMessage: the source returns the last operand of its `and` chain; the model returns that value's truthiness. JSON numbers are integers, so floating-point values are not modelled.
