/** The state changes of the room handlers in the user component, once their
    request has been answered. */
module User {
  import opened Wrappers
  import opened JsText
  import opened Members
  import opened State

  /** The answer to an invite: either the request threw, or the server replied,
      possibly with an `errcode`. */
  datatype InviteReply = InviteThrew | InviteReplied(errcode: Option<string>)

  /** `inviteUserToRoom` (the member and room refreshes it triggers are separate requests). */
  function InviteUserToRoom(s: ChatState, reply: InviteReply): (r: ChatState)
    ensures Trim(s.inviteUser) == "" || s.roomId == "" ==> r == s
    ensures reply.InviteThrew? || Truthy(reply.errcode) ==> r == s
    ensures Trim(s.inviteUser) != "" && s.roomId != "" && reply.InviteReplied? && !Truthy(reply.errcode) ==>
              r.inviteUser == ""
    ensures r.(inviteUser := s.inviteUser) == s
  {
    if Trim(s.inviteUser) == "" || s.roomId == "" then s
    else match reply
      case InviteThrew => s
      case InviteReplied(errcode) => if Truthy(errcode) then s else s.(inviteUser := "")
  }

  /** A second invite right after a successful one does nothing: the field is blank. */
  lemma InviteClearsInput(s: ChatState, reply: InviteReply, again: InviteReply)
    requires Trim(s.inviteUser) != "" && s.roomId != ""
    requires reply.InviteReplied? && !Truthy(reply.errcode)
    ensures var r := InviteUserToRoom(s, reply); InviteUserToRoom(r, again) == r
  {
  }

  /** `joinRoom`: `reply` is the `room_id` of the response, missing when the join
      failed or threw. On success the room becomes the trimmed input (not the
      returned id) and the view starts over. */
  function JoinRoom(s: ChatState, reply: Option<string>): (r: ChatState)
    ensures Trim(s.joinRoomId) == "" || !Truthy(reply) ==> r == s
    ensures Trim(s.joinRoomId) != "" && Truthy(reply) ==>
              && r.roomId == Trim(s.joinRoomId)
              && r.joinRoomId == ""
              && r.messages == []
              && r.lastSyncToken == ""
    ensures r.(roomId := s.roomId, joinRoomId := s.joinRoomId, messages := s.messages,
               lastSyncToken := s.lastSyncToken) == s
  {
    var target := Trim(s.joinRoomId);
    if target == "" then s
    else if Truthy(reply) then
      s.(roomId := target, joinRoomId := "", messages := [], lastSyncToken := "")
    else s
  }

  /** After a successful join the room id is set, and a second join is a no-op
      because the input was cleared. */
  lemma JoinThenJoinAgain(s: ChatState, reply: Option<string>, again: Option<string>)
    requires Trim(s.joinRoomId) != "" && Truthy(reply)
    ensures var r := JoinRoom(s, reply); r.roomId != "" && JoinRoom(r, again) == r
  {
  }

  /** The part of a `/joined_members` response the client reads. */
  datatype MembersResponse = MembersResponse(joined: Option<seq<(string, MemberInfo)>>)

  /** `fetchRoomMembers`: `reply` is missing when the request threw. */
  function FetchRoomMembers(s: ChatState, reply: Option<MembersResponse>): (r: ChatState)
    ensures s.accessToken == "" || s.roomId == "" || reply.None? ==> r == s
    ensures s.accessToken != "" && s.roomId != "" && reply.Some? ==>
              r.roomMembers == MembersOf(reply.value.joined)
    ensures r.(roomMembers := s.roomMembers) == s
  {
    if s.accessToken == "" || s.roomId == "" then s
    else match reply
      case None => s
      case Some(resp) => s.(roomMembers := MembersOf(resp.joined))
  }
}
