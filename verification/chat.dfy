/** The state changes the chat handlers make once their request has been answered.
    The answer (or its absence when the request throws) is an input. */
module Chat {
  import opened Wrappers
  import opened JsText
  import opened Messages
  import opened Events
  import opened Reconcile
  import opened State

  /** The part of a `/sync` response the client reads: `next_batch`, and
      `rooms.join` mapping each joined room to its timeline events (a room
      without `timeline.events` maps to no events). */
  datatype SyncResponse = SyncResponse(nextBatch: Option<string>, joined: map<string, seq<Event>>)

  datatype SyncResult = SyncResult(state: ChatState, notices: seq<Notice>)

  /** `sendMessage`: `reply` is the `event_id` of the response, missing when the
      server refused or the request threw. */
  function SendMessage(s: ChatState, reply: Option<string>): (r: ChatState)
    ensures Trim(s.newMessage) == "" || s.roomId == "" ==> r == s
    ensures Trim(s.newMessage) != "" && s.roomId != "" ==>
              && r.newMessage == ""
              && r.messages == (if Truthy(reply)
                                then s.messages + [Message(reply.value, Trim(s.newMessage), s.userId, false)]
                                else s.messages)
    ensures r.(messages := s.messages, newMessage := s.newMessage) == s
  {
    var text := Trim(s.newMessage);
    if text == "" || s.roomId == "" then s
    else
      var cleared := s.(newMessage := "");
      if Truthy(reply) then
        cleared.(messages := s.messages + [Message(reply.value, text, s.userId, false)])
      else cleared
  }

  /** The server's echo of a sent message is recognised as a duplicate by the next
      sync: the list is unchanged and nobody is notified. */
  lemma SendThenEcho(s: ChatState, id: string, hidden: bool)
    requires Trim(s.newMessage) != "" && s.roomId != "" && id != ""
    ensures var sent := SendMessage(s, Some(id));
            ApplyEvent(sent.messages, TextEvent(id, s.userId, Trim(s.newMessage)), Context(s.userId, hidden))
            == Step(sent.messages, None)
  {
    var sent := SendMessage(s, Some(id));
    assert sent.messages[|s.messages|].id == id;
  }

  /** Unlike the sync path, sending does not check ids: a send whose returned id is
      already in the list leaves two messages with that id. */
  lemma SendCanDuplicateIds()
    ensures var s := ChatState("token", "@me:hs", "!room:hs", [Message("$e", "hi", "@me:hs", false)],
                               "", "again", None, "", "", "", []);
            UniqueIds(s.messages) && !UniqueIds(SendMessage(s, Some("$e")).messages)
  {
    var s := ChatState("token", "@me:hs", "!room:hs", [Message("$e", "hi", "@me:hs", false)],
                       "", "again", None, "", "", "", []);
    assert Trim(s.newMessage) != "" by { assert !IsSpace(s.newMessage[0]); }
    var r := SendMessage(s, Some("$e"));
    assert r.messages[0].id == r.messages[1].id;
  }

  /** `fetchMessages` after its response is decoded; `reply` is missing when the
      request threw. Sync gating: without a truthy `next_batch` nothing changes;
      with one, the token advances even when the current room is not in `rooms.join`. */
  function FetchMessages(s: ChatState, reply: Option<SyncResponse>, hidden: bool): (r: SyncResult)
    ensures s.accessToken == "" || s.roomId == "" || reply.None? || !Truthy(reply.value.nextBatch) ==>
              r == SyncResult(s, [])
    ensures s.accessToken != "" && s.roomId != "" && reply.Some? && Truthy(reply.value.nextBatch) ==>
              r.state.lastSyncToken == reply.value.nextBatch.value
    ensures s.accessToken != "" && s.roomId != "" && reply.Some? && Truthy(reply.value.nextBatch)
            && s.roomId in reply.value.joined ==>
              var b := ApplyBatch(s.messages, reply.value.joined[s.roomId], Context(s.userId, hidden));
              r.state.messages == b.messages && r.notices == b.notices
    ensures reply.Some? && s.roomId !in reply.value.joined ==>
              r.state.messages == s.messages && r.notices == []
    ensures r.state.(messages := s.messages, lastSyncToken := s.lastSyncToken) == s
    ensures UniqueIds(s.messages) ==> UniqueIds(r.state.messages)
    ensures forall n :: n in r.notices ==> n.sender != s.userId && n.body != "" && hidden
  {
    if s.accessToken == "" || s.roomId == "" then SyncResult(s, [])
    else if reply.None? || !Truthy(reply.value.nextBatch) then SyncResult(s, [])
    else
      var advanced := s.(lastSyncToken := reply.value.nextBatch.value);
      if s.roomId in reply.value.joined then
        var b := ApplyBatch(s.messages, reply.value.joined[s.roomId], Context(s.userId, hidden));
        SyncResult(advanced.(messages := b.messages), b.notices)
      else SyncResult(advanced, [])
  }

  /** `startEdit`, without the focus logic. */
  function StartEdit(s: ChatState, messageId: string, currentBody: string): (r: ChatState)
    ensures r.editMode == Some(messageId) && r.editText == currentBody
    ensures r.(editMode := s.editMode, editText := s.editText) == s
  {
    s.(editMode := Some(messageId), editText := currentBody)
  }

  /** `cancelEdit`. */
  function CancelEdit(s: ChatState): (r: ChatState)
    ensures r.editMode.None? && r.editText == ""
    ensures r.(editMode := s.editMode, editText := s.editText) == s
  {
    s.(editMode := None, editText := "")
  }

  /** Cancelling discards whatever editing started. */
  lemma CancelUndoesStart(s: ChatState, messageId: string, currentBody: string)
    ensures CancelEdit(StartEdit(s, messageId, currentBody)) == CancelEdit(s)
  {
  }

  /** `saveEdit(messageId)`: `reply` is the `event_id` of the response. */
  function SaveEdit(s: ChatState, messageId: string, reply: Option<string>): (r: ChatState)
    ensures Trim(s.editText) == "" || !Truthy(reply) ==> r == s
    ensures Trim(s.editText) != "" && Truthy(reply) ==>
              && r.editMode.None? && r.editText == ""
              && r.messages == UpdateBody(s.messages, messageId, Trim(s.editText))
    ensures Ids(r.messages) == Ids(s.messages)
    ensures r.(messages := s.messages, editMode := s.editMode, editText := s.editText) == s
  {
    var text := Trim(s.editText);
    if text == "" then s
    else if Truthy(reply) then CancelEdit(s.(messages := UpdateBody(s.messages, messageId, text)))
    else s
  }

  /** The server's echo of a saved edit, once synced, agrees with the local update
      and changes nothing further. */
  lemma SaveEditThenEcho(s: ChatState, messageId: string, id: string, hidden: bool)
    requires Trim(s.editText) != "" && messageId != "" && id != ""
    ensures var saved := SaveEdit(s, messageId, Some(id));
            ApplyEvent(saved.messages, EditEvent(id, s.userId, messageId, Trim(s.editText)), Context(s.userId, hidden))
            == Step(saved.messages, None)
  {
  }

  /** A saved edit and its echo applied to the list before the save give the same list. */
  lemma EchoOfEditMatchesSave(s: ChatState, messageId: string, id: string, hidden: bool)
    requires Trim(s.editText) != "" && messageId != "" && id != ""
    ensures ApplyEvent(s.messages, EditEvent(id, s.userId, messageId, Trim(s.editText)), Context(s.userId, hidden)).messages
            == SaveEdit(s, messageId, Some(id)).messages
  {
  }

  /** `deleteMessage(messageId)`: `confirmed` is the answer to the confirmation
      prompt, `ok` whether the redaction request succeeded. */
  function DeleteMessage(s: ChatState, messageId: string, confirmed: bool, ok: bool): (r: ChatState)
    ensures !confirmed || !ok ==> r == s
    ensures confirmed && ok ==> !HasId(r.messages, messageId)
    // the survivors keep their order: `RemoveId` with `RemoveIdAppend`
    ensures confirmed && ok ==> r.messages == RemoveId(s.messages, messageId)
    ensures forall m :: m in r.messages ==> m in s.messages
    ensures forall m: Message :: m.id != messageId ==> multiset(r.messages)[m] == multiset(s.messages)[m]
    ensures r.(messages := s.messages) == s
  {
    if confirmed && ok then
      RemoveIdRemoves(s.messages, messageId);
      s.(messages := RemoveId(s.messages, messageId))
    else s
  }

  /** The server's echo of a redaction the user asked for is a no-op once synced. */
  lemma DeleteThenEcho(s: ChatState, messageId: string, id: string, hidden: bool)
    requires messageId != ""
    ensures var deleted := DeleteMessage(s, messageId, true, true);
            ApplyEvent(deleted.messages, RedactionEventFor(id, s.userId, messageId), Context(s.userId, hidden))
            == Step(deleted.messages, None)
  {
  }
}
