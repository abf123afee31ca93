# Matrix chat client: timeline reconciliation and view-state handlers

This project models the logic of a small browser client for the Matrix
client-server API. Its core is the timeline reconciliation inside
`fetchMessages`: one decoded `/sync` response is folded, event by event, into
the ordered in-memory message list, and the sync token advances. Each timeline
event is classified by a fixed first-match-wins order:

1. an `m.room.message` with an `m.relates_to` of `rel_type` `m.replace` and a
   truthy target `event_id` is an edit, and nothing else is tried;
2. an event with `unsigned.redacted_because.redacts` removes that id;
3. an `m.room.redaction` event with a truthy `redacts` removes that id;
4. an `m.room.message` whose content body is a string is appended, unless its
   id is already in the list, and may ask for a desktop notification.

Around it the model covers the local effects of the user actions once their
request has been answered (`sendMessage`, `saveEdit`, `startEdit`,
`cancelEdit`, `deleteMessage`, `joinRoom`, `inviteUserToRoom`,
`fetchRoomMembers`), the notification title and body, and the member list
with its display-name fallback. Every handler is a pure function from the
component state (`State.ChatState`) and the server's answer to the new state.
The answer is an input: a missing value stands for a refused request or one
that threw.

Modules: `Wrappers` (Option), `JsText` (JavaScript truthiness, `trim`, the
`split(':')[0].substring(1)` localpart idiom), `Messages` (the list and its
find/edit/filter operations), `Events` (the event record and its
classification), `Reconcile` (the per-event handler and the batch fold),
`ReconcileProperties` (multi-event consequences and worked scenarios),
`Notify`, `Members`, `State`, `Chat` (handlers of chat.js) and `User`
(handlers of user/user.js).

Consequences of that order and of the list operations the code uses:

- The edit check comes first and returns, so a replace event that also
  carries `redacted_because` removes nothing
  (`ReconcileProperties.EditShadowsRedactionMarker`).
- Applying a whole batch twice is not the same as applying it once: an edit
  placed before its target in the batch is dropped the first time and applied
  the second time (`ReconcileProperties.BatchNotIdempotent`). Repeating one
  event immediately is harmless (`Reconcile.ApplyEventTwice`), and a creation
  whose id is already listed changes nothing (`Reconcile.ApplyEvent`).
- A redaction filters the list, so every message with that id goes. Such
  duplicates can exist, because `sendMessage` appends without checking ids
  (`Chat.SendCanDuplicateIds`).
- A replace relation without a truthy target id is not an edit. If its body is
  a string, it is appended as a new message
  (`ReconcileProperties.ReplaceWithoutTargetIsCreation`).

## Model

| member | source | states |
|---|---|---|
| JsText.Trim | chat.js:2-7 | the result is the slice of the input left once leading and trailing JavaScript whitespace is cut; it is empty exactly when the input is all whitespace |
| JsText.TrimIdempotent | chat.js:7 | trimming an already trimmed text changes nothing |
| JsText.Localpart | chat.js:266 | the text between the first character and the first `:` (or the end); it has no colon; empty when the id is empty or starts with `:` |
| JsText.LocalpartOfUserId | user/user.js:85 | the localpart of `@name:server` is `name` when `name` has no colon |
| Messages.Find | chat.js:80 | the position of the first message carrying the id, or none exactly when no message carries it |
| Messages.UpdateBody | chat.js:80-86 | the first message with the id gets the new body and `edited`; ids, senders and every other message stay as they were; no change when the id is absent |
| Messages.RemoveId | chat.js:98 | every surviving message was in the list and has a different id; every message with another id keeps its multiplicity; the list is unchanged when the id is absent |
| Messages.RemoveIdRemoves | chat.js:98 | after filtering, no message carries the id |
| Messages.RemoveIdKeepsUnique | chat.js:98 | filtering a list with unique ids leaves unique ids |
| Messages.RemoveIdAppend | chat.js:103 | filtering distributes over concatenation, so the surviving messages keep their relative order |
| Messages.UpdateBodyIdempotent | chat.js:84-85 | repeating the same in-place edit changes nothing further |
| Events.Classify | chat.js:72-110 | first match wins in the order edit, `redacted_because`, `m.room.redaction`, creation; each kind carries the target or the created fields of the event |
| Reconcile.ApplyEvent | chat.js:72-136 | ids stay unique; an edit keeps ids and order and rewrites the target when the replacement body is truthy; a missing target or a falsy replacement body changes nothing; both redaction forms filter the id out; the list grows only by one appended creation whose id was absent, and a creation whose id is already listed changes nothing; a notice comes exactly with such an append from another user, while hidden, with a non-empty body |
| Reconcile.ApplyBatch | chat.js:71-137 | unique ids before the batch stay unique after it; at most one notice per event; every notice is from another user, while hidden, with a non-empty body; that these are exactly the per-event notices in delivery order is `ApplyBatchOne` with `ApplyBatchAppendNotices` |
| Reconcile.ApplyBatchOne | chat.js:71-136 | a one-event batch gives that event's list and its notice, if any, as the only notice |
| Reconcile.ApplyBatchAppendNotices | chat.js:71 | the notices of a split batch are the first part's notices followed by the second part's, so a batch's notices are exactly the per-event notices in delivery order |
| Reconcile.ApplyBatchAppend | chat.js:71 | events are applied strictly in delivery order: a split batch is its first part followed by its second |
| Reconcile.ApplyEventTwice | chat.js:80-121 | delivering the same event twice in a row has the effect of delivering it once, and the repeat never notifies |
| Reconcile.AbsentStaysAbsent | chat.js:80-114 | an absent id stays absent through any events that do not create it |
| ReconcileProperties.EditSetsBody | chat.js:74-87 | a replace event on a present target sets its body and `edited`; ids, order and all other messages are unchanged |
| ReconcileProperties.NewContentWithoutBodyDropsEdit | chat.js:82-88 | a present `m.new_content` without a body drops the edit, with no fall-back to the outer body and no append |
| ReconcileProperties.EditShadowsRedactionMarker | chat.js:74-100 | a replace event that also carries `redacted_because` removes nothing |
| ReconcileProperties.ReplaceWithoutTargetIsCreation | chat.js:74-121 | a replace relation whose target id is missing or empty falls through to creation |
| ReconcileProperties.EditBeforeCreation | chat.js:80-121 | an edit that precedes its target's creation is lost; the message appears with its original body |
| ReconcileProperties.RedactionIsTerminal | chat.js:102-114 | after an explicit redaction, no later event but a creation of that id brings it back |
| ReconcileProperties.BatchNotIdempotent | chat.js:71-121 | a batch applied twice can differ from the batch applied once |
| ReconcileProperties.CreationNotifiesOnce | chat.js:112-135 | a duplicate delivery of a creation is appended once and notifies once |
| ReconcileProperties.RedactionScenario | chat.js:102-105 | an explicit redaction of the only message empties the list |
| Notify.Preview | chat.js:269 | the notification body is at most 100 characters: a longer body becomes its first 97 characters and `...`, a shorter one is kept |
| Notify.PreviewIdempotent | chat.js:269 | a preview is its own preview |
| Notify.Title | chat.js:263-266 | the title is `Ти` for the current user's own messages and otherwise the sender's localpart (empty for an empty or `:`-leading id) |
| Notify.TitleOfOtherUser | chat.js:266 | another user `@name:server` is titled `name` |
| Notify.Show | chat.js:260-273 | a notification exists exactly when permission is granted; its body is at most 100 characters, kept when short and cut to 97 characters and `...` when long; its title is `Ти` for the current user and the sender's localpart otherwise |
| Members.DisplayName | user/user.js:85 | a truthy `display_name` is used, otherwise the user id's localpart (empty for an empty or `:`-leading id) |
| Members.DisplayNameFallback | user/user.js:85 | a member `@name:server` without a display name is shown as `name` |
| Members.EntriesToMembers | user/user.js:83-87 | one member per entry, in entry order, with the entry's key as user id and `avatar_url` copied unchanged |
| Members.MembersOf | user/user.js:83-87 | a response without `joined` gives no members; otherwise one member per entry, in order |
| Chat.SendMessage | chat.js:1-38 | a blank input or no room changes nothing; otherwise the input is cleared whatever the answer, and a truthy `event_id` appends the trimmed text as an unedited message of the current user, with no id check |
| Chat.SendThenEcho | chat.js:107-114 | the server's echo of a sent message is a duplicate on the next sync: no change, no notice |
| Chat.SendCanDuplicateIds | chat.js:28-34 | sending can leave two messages with one id |
| Chat.FetchMessages | chat.js:46-137 | without a token, a room, an answer or a truthy `next_batch` nothing changes; otherwise the token becomes `next_batch`, the current room's events are folded in (none when the room is absent from `rooms.join`), unique ids stay unique, and no other field changes |
| Chat.StartEdit | chat.js:156-158 | edit mode is the message id and the edit text its current body; nothing else changes |
| Chat.CancelEdit | chat.js:168-171 | edit mode and edit text are cleared; nothing else changes |
| Chat.CancelUndoesStart | chat.js:156-171 | cancelling discards whatever starting an edit set |
| Chat.SaveEdit | chat.js:173-211 | a blank edit text or an answer without `event_id` changes nothing; otherwise the first message with the id gets the trimmed text and `edited`, and editing is cancelled; ids never change |
| Chat.SaveEditThenEcho | chat.js:185-207 | the server's echo of a saved edit changes nothing further on the next sync |
| Chat.EchoOfEditMatchesSave | chat.js:185-207 | the echoed edit applied to the list before the save gives the same list as the save |
| Chat.DeleteMessage | chat.js:218-247 | without confirmation or a successful answer nothing changes; otherwise every message with the id is filtered out and the others keep their multiplicity and their relative order |
| Chat.DeleteThenEcho | chat.js:236-237 | the echoed redaction of a deleted message is a no-op on the next sync |
| User.InviteUserToRoom | user/user.js:1-28 | a blank input, no room, a thrown request or an `errcode` changes nothing; otherwise the input is cleared; no other field changes |
| User.InviteClearsInput | user/user.js:2-24 | an invite right after a successful one does nothing |
| User.JoinRoom | user/user.js:35-63 | a blank input or an answer without `room_id` changes nothing; otherwise the room becomes the trimmed input (not the returned id), and the input, the message list and the sync token are cleared |
| User.JoinThenJoinAgain | user/user.js:36-55 | after a successful join the room is set and a second join does nothing |
| User.FetchRoomMembers | user/user.js:70-87 | without a token, a room or an answer nothing changes; otherwise the member list is rebuilt from `joined` and nothing else changes |

## Left out

- Transport: every `fetch`, URL building with `encodeURIComponent`, JSON decoding and `res.ok` are outside the model. Their outcome is a parameter of each handler.
- Browser effects: `alert`, `confirm`, `console`, `Audio`, the `Notification` constructor, `setTimeout` and `window.focus`. `Notify.Show` models only the permission gate and the content. The confirmation answer of `deleteMessage` is a parameter. `playNotificationSound` is folded into the notice that `Reconcile.ApplyEvent` emits.
- `startEdit`'s `$nextTick` / `querySelector` focus logic (chat.js:160-165) is DOM work and is not modelled.
- The auto-join loop over `rooms.invite` (chat.js:140-148) and `fetchRoomsWithNames` are asynchronous requests. The loop passes the invited room to `joinRoom`, but `joinRoom` takes no parameter and joins whatever the `joinRoomId` input holds (user/user.js:35-36); `User.JoinRoom` models that call as it is written. `fetchRoomsWithNames` is not part of this model. The requests that `joinRoom` and `inviteUserToRoom` start after success are separate transitions (`Chat.FetchMessages`, `User.FetchRoomMembers`).
- Interleaving of polling and user actions is concurrency and is not modelled. Uniqueness of ids is claimed only for the sync path.
- Event fields are modelled as strings or missing. Non-string JSON values in those fields are not modelled. `event_id` and `sender` are assumed present, as in any timeline event.
- Reconcile.ApplyEvent: an exception raised by a malformed event (for example a `null` event) inside the loop is not modelled.
- Notify.Preview: lengths count Unicode scalar values, not UTF-16 code units as JavaScript's `length` does. The two agree for text within the Basic Multilingual Plane.
- Members.EntriesToMembers: `Object.entries` lists integer-like keys first. Matrix user ids begin with `@`, so the model takes the response's entries in their given order.
- Chat.FetchMessages: the `typeof document !== 'undefined' && document.hidden` test is the `hidden` input. The two `typeof ... === 'function'` checks before notifying are assumed to hold.
