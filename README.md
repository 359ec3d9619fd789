# LINE activity-roster bot, modelled in Dafny

`line_app.py` is a LINE chat bot that organises group activities ("副本").
Users create an activity in two steps: they type `副本 <name>`, then pick a date
and time from a picker card. `副本` lists the activities as cards, each with four
buttons: join, cancel, roster and delete. `+ <activity> <person>` and
`➜ - <activity> <person>` add or remove a person by name. `刪除所有副本` asks for
confirmation and then empties both tables. The state has three parts: the
`activity` table, the `participant` table, and the in-memory map `user_states`
that remembers an unfinished creation per user.

The model treats one inbound event as one transition of that state:

- **State** (`Records`): the `World` value holds both tables, in insertion order,
  and `user_states`. It also holds the next primary key of each table, so
  "auto-assigned id" is explicit.
  - Queries (`ActivityById`, `FirstNamed`, `ParticipantsOf`, `JoinCount`) model
    `query.get`, `filter_by(...).first()` and `activity.participants`.
  - `Valid` is the invariant every handler keeps:
    - ids are positive, increasing along each table and below the next key;
    - no participant row refers to a missing activity;
    - rows fit their column widths;
    - every pending creation is at the `datetime` step with a non-empty name.
- **Text helpers** (`Text`): Python's `str.strip()`, `split(" ")`, `split()`,
  `p in s`, `s.split(sep)[1]` and `int(s)`, over Dafny strings.
- **Commands** (`Commands`): the text dispatcher's classification, in the
  source's order, and the postback dispatcher's substring classification with
  its `&id=` parse. Every button the bot sends is proved to be classified as the
  action it was built for.
- **Replies** (`Replies`): every reply as an abstract value. Two are computed:
  the activity list, which splits each date/time into two tokens, and the
  roster's checklist text.
- **Dispatch** (`Dispatch`): `OnText` and `OnPostback` are pure transition
  functions `World -> (World, Reply)`. They delegate to one function per
  command or action (`OnAdd`, `OnRemove`, `OnSelectDate`, `OnJoin`,
  `OnCancelJoin`, `OnDelete`, `OnView`).
- **Properties** (`Properties`): the invariant is preserved by every event, so
  every state reachable from fresh tables satisfies it. Further lemmas cover
  the creation flow, joining and leaving, the creator-only delete, the by-name
  commands and the two-step delete-all.
- **Bot** (`Bot`): class `LineBot` holds the tables and `user_states` as fields
  that its handler methods update in place. Each state-changing method
  requires and keeps the invariant, and is proved to perform exactly the
  transition of the corresponding pure function.

Outside inputs become parameters:

- `picked` stands for the postback's `params['datetime']`. `None` means the
  postback carries none; the lookup then raises and the exception is swallowed.
- `profile` stands for the outcome of `messaging_api.get_profile`. `None` means
  the lookup failed and the display name falls back to the user id.

Every exception the handlers swallow becomes the `Silent` reply. Such
exceptions come from a malformed `&id=`, a missing date/time, a value too long
for its column, or a date/time the list cannot split. In the first three
cases the state is unchanged. The last case is different. `select_date`
commits the new activity and deletes the sender's `user_states` entry
(line_app.py:676-684) before it builds the list reply. So when the list cannot
split a stored date/time, the activity is created and the entry dropped, but
the reply is `Silent`. The value LINE's picker sends in `datetime` mode has the
form `YYYY-MM-DDTHH:mm`, with no whitespace. With that value, every completed
creation ends this way, and so does every later `副本` listing
(`Replies.ListFailsOnUnsplitDatetime`).

## Model

| member | source | states |
|---|---|---|
| Records.ActivityById | line_app.py:710 | `Activity.query.get(id)`: finds a row with that id, and finds none exactly when no row has it |
| Records.FirstNamed | line_app.py:451 | `filter_by(name=...).first()`: finds the earliest row with that name (no row before it has the name), and finds none exactly when no activity is so named |
| Records.ParticipantsOf | line_app.py:824-826 | `activity.participants` holds exactly the rows whose activity id is that activity's |
| Records.FilterEmpty | line_app.py:455-458 | a `filter_by(...).first()` finds nothing exactly when the filtered rows are empty |
| Records.FilterAppend | line_app.py:469-470 | inserting a row extends every filtered view by that row exactly when it matches the filter |
| Records.FilterRemoveAt | line_app.py:598-599 | deleting one row shortens a filtered view by one exactly when the row matches the filter |
| Records.EmptyValid | line_app.py:869-876 | freshly created tables with an empty `user_states` satisfy the invariant |
| Records.ActivityIdUnique | line_app.py:56 | the primary key is unique: two different activity rows have different ids |
| Records.StartCreationValid | line_app.py:626-629 | recording a named pending creation keeps the invariant |
| Records.AddParticipantValid | line_app.py:729-735 | inserting a fitting participant row for a live activity under the next id keeps the invariant |
| Records.RemoveParticipantValid | line_app.py:777-778 | deleting one participant row keeps the invariant |
| Records.AddActivityValid | line_app.py:676-684 | inserting a fitting activity under the next id and dropping a pending creation keeps the invariant |
| Records.DeleteActivityValid | line_app.py:799-801 | deleting an activity together with all its participant rows keeps the invariant, with no orphan rows left |
| Records.NoRowsLeft | line_app.py:799 | after the bulk delete of an activity's rows, the activity has no participant rows |
| Text.Strip | line_app.py:624 | `str.strip()`: the result is the input with whitespace runs cut off both ends; it neither starts nor ends with whitespace; it is empty exactly when the input is all whitespace |
| Text.StripNoSpace | line_app.py:624 | a string without whitespace is its own strip |
| Text.Split | line_app.py:445 | `split(" ")` yields at least one part and no part contains the separator |
| Text.JoinSplit | line_app.py:445 | joining the parts of a split with the separator gives the string back |
| Text.SplitJoin | line_app.py:581 | splitting the join of separator-free parts gives those parts back |
| Text.Tokens | line_app.py:206 | `split()` yields non-empty whitespace-free tokens, and none exactly when the text is all whitespace |
| Text.TokensStep | line_app.py:206 | `split()` takes the maximal whitespace-free runs in order: after leading whitespace, the first token is the run up to the next whitespace or the end |
| Text.TokensOfWord | line_app.py:211 | a whitespace-free string has at most one token, so `split()[1]` raises |
| Text.TokensOfPair | line_app.py:206-211 | a date and a time joined by one space are exactly the two tokens |
| Text.Find | line_app.py:666 | `p in s` finds the leftmost occurrence, and no occurrence lies before it |
| Text.SecondField | line_app.py:709 | `s.split(sep)[1]` fails exactly when `sep` does not occur; otherwise the field is free of `sep`, starts right after the first occurrence, and runs to the next occurrence or to the end |
| Text.Decimal | line_app.py:237 | the f-string rendering of an id is a non-empty run of digits |
| Text.DecimalValue | line_app.py:237 | the digits of that rendering read back as the id |
| Text.ParseDigits | line_app.py:709 | `int(t)` on a run of digits is its decimal value |
| Text.ParseDecimal | line_app.py:709 | `int(str(n))` gives back `n` for every non-negative `n` |
| Text.ParseNeedsDigit | line_app.py:709 | `int(s)` fails on text that holds no digit |
| Text.ParseInt | line_app.py:709 | `int(s)` fails on all-whitespace text and on any text holding U+001C..U+001F, and gives a negative value only for a stripped text that starts with `-` |
| Commands.IdArgument | line_app.py:709 | `int(data.split('&id=')[1])` fails on data without `&id=` |
| Commands.ClassifyText | line_app.py:444-647 | the text dispatcher's priority: `+ ` prefix, `說明`, `刪除所有副本`, `➜ - ` prefix, `副本 ` prefix, exact `副本`; any other text is ignored (each class stated as an if-and-only-if on the text) |
| Commands.AddCommandShape | line_app.py:444-449 | `+ A P` is recognised as adding P to A exactly when the text is `+`, A and P joined by single spaces with no space inside A or P |
| Commands.RemoveCommandShape | line_app.py:580-585 | `➜ - A P` is recognised as removing P from A exactly when the text is `➜`, `-`, A and P joined by single spaces with no space inside A or P |
| Commands.CreateCommandRecognised | line_app.py:623-624 | `副本 <rest>` always starts a creation named by the stripped rest |
| Commands.ClassifyPostback | line_app.py:666-855 | each action is chosen exactly when its tag occurs in the data and no tag tested earlier does, in the source's order `select_date`, `join_activity`, `cancel_join`, `delete_activity`, `view_participants`, `confirm_delete_all`, `cancel_delete_all`; data with no tag is an unknown action; each id-carrying action takes the id from `int(data.split('&id=')[1])` |
| Commands.ButtonId | line_app.py:709 | the id parsed from a button's data (`ButtonData`, the `f"action=<tag>&id={activity.id}"` of line_app.py:237-274) is the activity id the button was built from |
| Commands.JoinButtonRoundTrip | line_app.py:237 | the join button of activity `id` is dispatched as joining `id` |
| Commands.CancelButtonRoundTrip | line_app.py:249 | the cancel button of activity `id` is dispatched as leaving `id` |
| Commands.ViewButtonRoundTrip | line_app.py:261 | the roster button of activity `id` is dispatched as viewing `id` |
| Commands.DeleteButtonRoundTrip | line_app.py:274 | the delete button of activity `id` is dispatched as deleting `id` |
| Commands.PickerRoundTrip | line_app.py:167 | the date/time picker's data is dispatched as completing a creation |
| Commands.ConfirmButtonRoundTrip | line_app.py:554 | the "yes" button of the delete-all card is dispatched as confirming |
| Commands.CancelAllButtonRoundTrip | line_app.py:564 | the "no" button of the delete-all card is dispatched as declining |
| Replies.DateAndTime | line_app.py:206-211 | the date/time split succeeds exactly when there are at least two tokens, and yields the first two tokens of `split()` |
| Replies.ListRows | line_app.py:187-216 | the list has one entry per activity in table order, with its id, name, date, time and headcount, and fails exactly when some date/time cannot be split |
| Replies.ListFailsOnUnsplitDatetime | line_app.py:211 | one stored date/time without whitespace makes the whole list reply fail |
| Replies.ListShowsEveryActivity | line_app.py:186-216 | where every date/time is a date and a time joined by a space, the list shows every activity with exactly those parts and its headcount |
| Replies.ListReply | line_app.py:180-216 | the list reply is the "no activities" text exactly when there are no activities, is silent exactly when some stored date/time cannot be split, and otherwise carries the rows `ListRows` describes |
| Replies.Checklist | line_app.py:824-826 | one `✓ <name>` line per participant, in order |
| Replies.RosterLines | line_app.py:824-826 | when no name holds a line break, splitting the roster text at line breaks gives back exactly the checklist lines |
| Replies.RosterText | line_app.py:824-826 | the roster text is empty exactly when the activity has no participants |
| Dispatch.Lookup | line_app.py:709-710 | the parsed id finds an activity with that id, and finds none exactly when the id did not parse or no activity has it |
| Dispatch.Insert | line_app.py:729-735 | inserting a row appends it and advances the participant key, and changes nothing else |
| Dispatch.OnText | line_app.py:437-650 | text never adds or deletes an activity; it changes `user_states` only by setting the sender's entry on `副本 <name>`; it leaves the participant table as it was, appends one row to it, or removes one row at one position and keeps the others in order; `說明`, `刪除所有副本`, `副本` and malformed `+` / `➜ -` change nothing and get the help text, the confirmation card, the list and the usage hints; ignored text changes nothing and gets no reply |
| Dispatch.OnAdd | line_app.py:444-494 | `+` leaves activities and `user_states` alone; it either changes nothing or appends one row, keeping the earlier rows, and advances the key |
| Dispatch.OnRemove | line_app.py:580-621 | `➜ -` leaves activities, `user_states` and both keys alone; it either changes nothing or removes the row at one position and keeps the others in order |
| Dispatch.OnSelectDate | line_app.py:666-704 | the picker's answer never touches participants; it either changes nothing or adds one activity, advances the key and drops the sender's pending entry |
| Dispatch.OnJoin | line_app.py:707-749 | joining never touches activities or `user_states`; it either changes nothing or appends one row, keeping the earlier rows, and advances the key |
| Dispatch.OnCancelJoin | line_app.py:752-788 | leaving never touches activities, `user_states` or the keys; it either changes nothing or removes the row at one position and keeps the others in order |
| Dispatch.OnDelete | line_app.py:791-815 | deleting never adds an activity and never touches `user_states` or the keys |
| Dispatch.OnView | line_app.py:818-841 | the roster changes nothing |
| Dispatch.OnPostback | line_app.py:653-864 | only the picker's answer touches `user_states`, only by dropping the sender's entry, and only it adds an activity, at most one; keys never decrease; data with no known tag changes nothing and gets no reply |
| Properties.OnAddKeepsValid | line_app.py:444-494 | `+` keeps the invariant |
| Properties.OnRemoveKeepsValid | line_app.py:580-621 | `➜ -` keeps the invariant |
| Properties.OnTextKeepsValid | line_app.py:437-650 | every text message keeps the invariant |
| Properties.OnSelectDateKeepsValid | line_app.py:666-704 | completing a creation keeps the invariant |
| Properties.OnJoinKeepsValid | line_app.py:707-749 | joining keeps the invariant |
| Properties.OnCancelJoinKeepsValid | line_app.py:752-788 | leaving keeps the invariant |
| Properties.OnDeleteKeepsValid | line_app.py:791-815 | deleting an activity keeps the invariant and leaves no orphan participant rows |
| Properties.OnPostbackKeepsValid | line_app.py:653-864 | every postback keeps the invariant |
| Properties.RunKeepsValid | line_app.py:437-864 | any sequence of text and postback events, applied one after another, keeps the invariant |
| Properties.ReachableValid | line_app.py:869-876 | every state reachable from fresh tables satisfies the invariant |
| Properties.StartCreationSetsEntry | line_app.py:623-640 | `副本 <rest>` with a non-empty stripped name sets the sender's entry to the datetime step and that name, overwriting any earlier entry, adds no activity and shows the picker; with an empty name it only hints and changes nothing |
| Properties.SelectDateCreates | line_app.py:666-704 | an activity is added exactly when a date/time arrived, the sender has a pending named creation and the row fits; it is appended with the next id, the pending name, the date/time and the sender as creator, the entry is removed, and the reply is the list of the new state; otherwise nothing changes; without a date/time, or when the pending name does not fit its column (the failed commit is swallowed), there is no reply |
| Properties.SelectDateWithoutPending | line_app.py:670-704 | a date/time arriving with no pending creation of the sender's asks them to start again and changes nothing |
| Properties.PickAfterStart | line_app.py:674-684 | the picker's answer to a pending creation appends exactly that activity and forgets the pending creation |
| Properties.CreationFlow | line_app.py:623-704 | `副本 <name>` followed by the picker's answer creates exactly that activity owned by the sender; participants are untouched and the sender's entry is gone |
| Properties.UnknownIdIsSilent | line_app.py:709-821 | for join, cancel, delete and roster, an id that does not parse or that no activity has gets no reply and changes nothing |
| Properties.JoinAddsOneRow | line_app.py:714-743 | joining when not yet joined appends one row for the sender under their profile's display name, or their user id when the profile lookup failed; the sender then has exactly one row; the reported headcount is the count after the insert |
| Properties.JoinWhenJoined | line_app.py:722-727 | joining when already joined replies "already joined" and changes nothing |
| Properties.JoinTooLong | line_app.py:729-737 | joining with a display name too long for its column is silent and changes nothing, since the failed commit is swallowed |
| Properties.JoinIdempotent | line_app.py:707-749 | pressing join twice has the effect of pressing it once, and a second press after a successful one reports "already joined" |
| Properties.JoinNeverDuplicates | line_app.py:722-736 | a join never gives any user a second row in any activity |
| Properties.CancelRemovesOneRow | line_app.py:769-781 | leaving when joined removes exactly the first row recording the sender in that activity and keeps every other row in order, the sender's other rows included; the sender's count drops by one and the reply is "left" |
| Properties.CancelWhenNotJoined | line_app.py:769-784 | leaving when not joined replies "not joined" and changes nothing |
| Properties.JoinThenCancelStep | line_app.py:707-788 | a leave right after a successful join restores the participant table (only the key has advanced) |
| Properties.JoinThenCancel | line_app.py:237-249 | the same for the join and cancel buttons of one card |
| Properties.CreatorDeletes | line_app.py:796-802 | the creator's delete removes the activity and all its participant rows, keeps every other activity and row, and leaves `user_states` alone |
| Properties.OnlyCreatorDeletes | line_app.py:796-810 | anyone but the creator is refused by name and nothing changes |
| Properties.DeleteThenView | line_app.py:791-841 | after a successful delete, the roster of that id gets no reply |
| Properties.ViewAfterDelete | line_app.py:261-274 | the same for the delete and roster buttons of one card |
| Properties.RosterCountsItsLines | line_app.py:818-834 | the roster changes nothing and shows the activity's name, its time, the headcount and the checklist text of the activity's rows (`RosterText`, one `✓ <name>` line per row, in order); its headcount is the number of the activity's rows and is zero exactly when there are none; where no stored name holds a line break, it is also the number of checklist lines (a name added by `+` may hold one, since `+` splits on spaces only) |
| Properties.AddStep | line_app.py:451-494 | `+` uses the earliest activity of that name; a row with that person name already there gets "already listed"; otherwise one row is appended under the sender's user id and the headcount reported counts it, unless the person name does not fit its column, when the failed commit is swallowed: nothing changes and there is no reply |
| Properties.UnknownActivityName | line_app.py:478-482 | both by-name commands reply "not found" and change nothing when no activity has that name |
| Properties.AddByNameCountsAsSender | line_app.py:462-467 | every person added by `+` is one more row under the sender's user id in that activity |
| Properties.RemoveStep | line_app.py:587-606 | `➜ -` removes exactly the first row listed under that person name, keeping every other row in order, when there is one; otherwise it replies "not on the list" and changes nothing; activities and `user_states` never change |
| Properties.RemoveByNameIgnoresSender | line_app.py:580-621 | removal by name has no permission check: the sender makes no difference |
| Properties.HelpOnlyReplies | line_app.py:497-519 | `說明` only shows the help text and changes nothing |
| Properties.ListOnlyReplies | line_app.py:642-647 | `副本` only shows the list of the current activities and changes nothing |
| Properties.DeleteAllAsksFirst | line_app.py:521-578 | `刪除所有副本` only asks for confirmation and changes nothing |
| Properties.DeclineDeleteAll | line_app.py:855-861 | declining the confirmation changes nothing |
| Properties.ConfirmDeleteAllEmpties | line_app.py:843-853 | confirming empties both tables for any sender, leaves `user_states` alone, and the list then says there are no activities |
| Bot.LineBot.constructor | line_app.py:869-876 | fresh tables and an empty `user_states`, satisfying the invariant |
| Bot.LineBot.AddRow | line_app.py:469-470 | appends one participant row under the next key and changes no other field |
| Bot.LineBot.HandleTextMessage | line_app.py:437-650 | updates the fields exactly as `OnText` says and keeps the invariant |
| Bot.LineBot.HandleAdd | line_app.py:444-494 | updates the fields exactly as `OnAdd` says and keeps the invariant |
| Bot.LineBot.HandleRemove | line_app.py:580-621 | updates the fields exactly as `OnRemove` says and keeps the invariant |
| Bot.LineBot.HandlePostback | line_app.py:653-864 | updates the fields exactly as `OnPostback` says and keeps the invariant |
| Bot.LineBot.HandleSelectDate | line_app.py:666-704 | updates the fields exactly as `OnSelectDate` says and keeps the invariant |
| Bot.LineBot.HandleJoin | line_app.py:707-749 | updates the fields exactly as `OnJoin` says and keeps the invariant |
| Bot.LineBot.HandleCancelJoin | line_app.py:752-788 | updates the fields exactly as `OnCancelJoin` says and keeps the invariant |
| Bot.LineBot.HandleDelete | line_app.py:791-815 | updates the fields exactly as `OnDelete` says and keeps the invariant |
| Bot.LineBot.HandleView | line_app.py:818-841 | changes nothing and returns the reply `OnView` gives |

## Left out

- The webhook transport is not modelled: the Flask route, `X-Line-Signature` verification and the `WebhookHandler` registry (line_app.py:315-327). It is I/O and a foreign library.
- The first `handle_text_message` (line_app.py:330-434) is not modelled. The later handler registered for the same event key replaces it.
- Outbound messages are abstract `Reply` values: Flex card layout, alt texts, `ReplyMessageRequest` and `reply_message` are not modelled. The reply's wording is kept only as comments on the reply constructors.
- SQLAlchemy sessions, `commit`, `db.create_all` and transactions are left out.
  - The tables are in-memory sequences with an explicit next-key counter.
  - A failed insert does not consume a key here; a database sequence might, so the model does not capture such id gaps.
  - Rows come back in insertion order, which stands in for the store's unordered `query.all()` and `.first()`.
- Column widths (`String(100)`, `String(30)`, `String(50)`) become an insert that fails into the swallowed-exception path. This is how a store that enforces `VARCHAR` lengths behaves; SQLite would store the longer value.
- `get_user_profile` and `run_async` (line_app.py:75-102) are unused wrappers around a network call and are not modelled. The handlers' own `get_profile` calls become the `profile` parameter.
- The picker's `params['datetime']` is the `picked` parameter. The format of the value LINE sends is outside the model. The list reply fails whenever a stored date/time has no whitespace (`Replies.ListFailsOnUnsplitDatetime`).
- The `DATABASE_URL` rewrite (line_app.py:25-27), logging and `init_db`'s print are configuration and I/O.
- Concurrent requests are not modelled. Events are applied strictly one after another, as `Properties.Run` does.
- Text.ParseInt: Python's `int()` also accepts `_` between digits and non-ASCII decimal digits; the model accepts only ASCII digits, an optional sign and surrounding whitespace. It follows `int()` in rejecting U+001C..U+001F, which `str.strip()` would remove.
- Bot.LineBot.HandleView: returns only the reply; that the state is unchanged follows from it not modifying anything.
