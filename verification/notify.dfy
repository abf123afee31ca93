/** The title and body `showDesktopNotification` builds for a notice. */
module Notify {
  import opened Wrappers
  import opened JsText

  /** Bodies longer than this are cut. */
  const PreviewLimit: nat := 100
  const Ellipsis: string := "..."

  /** The title shown for the current user's own messages ("You" in Ukrainian). */
  const SelfTitle: string := "Ти"

  datatype DesktopNotification = DesktopNotification(title: string, body: string)

  /** `body.length > 100 ? body.substring(0, 97) + '...' : body`. */
  function Preview(body: string): (p: string)
    ensures |p| <= PreviewLimit
    ensures |body| <= PreviewLimit ==> p == body
    ensures |body| > PreviewLimit ==>
              |p| == PreviewLimit && p[..PreviewLimit - |Ellipsis|] == body[..PreviewLimit - |Ellipsis|]
              && p[PreviewLimit - |Ellipsis|..] == Ellipsis
  {
    if |body| > PreviewLimit then body[..PreviewLimit - |Ellipsis|] + Ellipsis else body
  }

  /** A preview is already short enough to be its own preview. */
  lemma PreviewIdempotent(body: string)
    ensures Preview(Preview(body)) == Preview(body)
  {
  }

  /** The sender's localpart, or the self title when the sender is the current user. */
  function Title(sender: string, userId: string): (t: string)
    ensures sender == userId ==> t == SelfTitle
    ensures sender != userId ==> t == Localpart(sender)
    ensures sender != userId ==> ':' !in t
    ensures sender != userId && |sender| > 0 && sender[0] != ':' ==>
              1 + |t| <= |sender| && t == sender[1..1 + |t|] && (1 + |t| == |sender| || sender[1 + |t|] == ':')
  {
    if sender == userId then SelfTitle else Localpart(sender)
  }

  /** Another user's message `@name:server` is titled `name`. */
  lemma TitleOfOtherUser(name: string, server: string, userId: string)
    requires ':' !in name
    requires "@" + name + ":" + server != userId
    ensures Title("@" + name + ":" + server, userId) == name
  {
    LocalpartOfUserId(name, server);
  }

  /** `showDesktopNotification(sender, body)`: nothing unless permission is granted. */
  function Show(granted: bool, userId: string, sender: string, body: string): (n: Option<DesktopNotification>)
    ensures n.Some? <==> granted
    ensures n.Some? ==> |n.value.body| <= PreviewLimit
    ensures n.Some? && |body| <= PreviewLimit ==> n.value.body == body
    ensures n.Some? && |body| > PreviewLimit ==>
              n.value.body == body[..PreviewLimit - |Ellipsis|] + Ellipsis
    ensures n.Some? && sender == userId ==> n.value.title == SelfTitle
    ensures n.Some? && sender != userId ==> n.value.title == Localpart(sender)
  {
    if granted then Some(DesktopNotification(Title(sender, userId), Preview(body))) else None
  }
}
