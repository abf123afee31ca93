/** Timeline events of a Matrix `/sync` response, as the client reads them, and
    the client's first-match-wins classification of each event. Every field the
    handler probes is kept optional so that the probing order stays visible. */
module Events {
  import opened Wrappers
  import opened JsText

  const MessageType: string := "m.room.message"
  const RedactionType: string := "m.room.redaction"
  const ReplaceRelation: string := "m.replace"

  /** `content["m.relates_to"]`. */
  datatype Relation = Relation(relType: Option<string>, eventId: Option<string>)

  /** `content["m.new_content"]`: only its body is read. */
  datatype NewContent = NewContent(body: Option<string>)

  datatype Content = Content(
    body: Option<string>,
    newContent: Option<NewContent>,
    relatesTo: Option<Relation>)

  /** One timeline event. `unsignedRedacts` is `unsigned.redacted_because.redacts`
      (missing when any link of that path is missing). */
  datatype Event = Event(
    eventType: Option<string>,
    eventId: string,
    sender: string,
    content: Option<Content>,
    unsignedRedacts: Option<string>,
    redacts: Option<string>)

  /** What the handler does with one event. */
  datatype Kind =
    | Edit(target: string, replacement: Option<string>)
    | RedactedMarker(target: string)
    | Redaction(target: string)
    | Creation(id: string, body: string, sender: string)
    | Unhandled

  predicate IsMessage(e: Event) {
    e.eventType == Some(MessageType)
  }

  /** A message carrying a replace relation with a truthy target id. */
  predicate IsReplace(e: Event) {
    && IsMessage(e)
    && e.content.Some?
    && e.content.value.relatesTo.Some?
    && e.content.value.relatesTo.value.relType == Some(ReplaceRelation)
    && Truthy(e.content.value.relatesTo.value.eventId)
  }

  function EditTarget(e: Event): string
    requires IsReplace(e)
  {
    e.content.value.relatesTo.value.eventId.value
  }

  /** `(content["m.new_content"] || content).body`: a present `m.new_content`
      wins even when it has no body. */
  function Replacement(c: Content): Option<string> {
    match c.newContent
    case Some(n) => n.body
    case None => c.body
  }

  predicate IsRedactionEvent(e: Event) {
    e.eventType == Some(RedactionType) && Truthy(e.redacts)
  }

  /** A message whose content body is a string (possibly empty). */
  predicate IsCreation(e: Event) {
    IsMessage(e) && e.content.Some? && e.content.value.body.Some?
  }

  function CreatedBody(e: Event): string
    requires IsCreation(e)
  {
    e.content.value.body.value
  }

  /** The handler's check order: edit, then the `redacted_because` marker, then an
      explicit redaction, then creation; the first test that matches decides. */
  function Classify(e: Event): (k: Kind)
    ensures k.Edit? <==> IsReplace(e)
    ensures k.Edit? ==> k.target == EditTarget(e) && k.replacement == Replacement(e.content.value)
    ensures k.RedactedMarker? <==> !IsReplace(e) && Truthy(e.unsignedRedacts)
    ensures k.RedactedMarker? ==> k.target == e.unsignedRedacts.value
    ensures k.Redaction? <==> !IsReplace(e) && !Truthy(e.unsignedRedacts) && IsRedactionEvent(e)
    ensures k.Redaction? ==> k.target == e.redacts.value
    ensures k.Creation? <==>
              !IsReplace(e) && !Truthy(e.unsignedRedacts) && !IsRedactionEvent(e) && IsCreation(e)
    ensures k.Creation? ==> k == Creation(e.eventId, CreatedBody(e), e.sender)
  {
    if IsReplace(e) then Edit(EditTarget(e), Replacement(e.content.value))
    else if Truthy(e.unsignedRedacts) then RedactedMarker(e.unsignedRedacts.value)
    else if IsRedactionEvent(e) then Redaction(e.redacts.value)
    else if IsCreation(e) then Creation(e.eventId, CreatedBody(e), e.sender)
    else Unhandled
  }

  /** The event `sendMessage` posts, as the server later echoes it. */
  function TextEvent(eventId: string, sender: string, text: string): Event {
    Event(Some(MessageType), eventId, sender, Some(Content(Some(text), None, None)), None, None)
  }

  /** The replace event `saveEdit` posts for `target`, as the server later echoes it. */
  function EditEvent(eventId: string, sender: string, target: string, text: string): Event {
    Event(Some(MessageType), eventId, sender,
          Some(Content(Some(text), Some(NewContent(Some(text))),
                       Some(Relation(Some(ReplaceRelation), Some(target))))),
          None, None)
  }

  /** The redaction `deleteMessage` requests for `target`, as the server later echoes it. */
  function RedactionEventFor(eventId: string, sender: string, target: string): Event {
    Event(Some(RedactionType), eventId, sender, None, None, Some(target))
  }
}
