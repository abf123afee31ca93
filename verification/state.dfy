/** The fields of the chat component that the handlers read and write. An empty
    string stands for an unset (falsy) field. */
module State {
  import opened Wrappers
  import opened Messages
  import opened Members

  datatype ChatState = ChatState(
    accessToken: string,
    userId: string,
    roomId: string,
    messages: seq<Message>,
    lastSyncToken: string,
    newMessage: string,
    editMode: Option<string>,
    editText: string,
    joinRoomId: string,
    inviteUser: string,
    roomMembers: seq<Member>)
}
