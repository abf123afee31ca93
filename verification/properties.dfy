/** Consequences of the per-event handler over several events, and the worked
    scenarios of the reconciliation. */
module ReconcileProperties {
  import opened Wrappers
  import opened JsText
  import opened Messages
  import opened Events
  import opened Reconcile

  /** A replace event on a present target rewrites that message's body and marks it
      edited; every other message, and the order of ids, is untouched. */
  lemma EditSetsBody(msgs: seq<Message>, e: Event, ctx: Context)
    requires IsReplace(e) && HasId(msgs, EditTarget(e)) && Truthy(Replacement(e.content.value))
    ensures var r := ApplyEvent(msgs, e, ctx).messages;
            var k := Find(msgs, EditTarget(e)).value;
            && Ids(r) == Ids(msgs)
            && r[k] == Message(msgs[k].id, Replacement(e.content.value).value, msgs[k].sender, true)
            && forall i :: 0 <= i < |r| && i != k ==> r[i] == msgs[i]
  {
  }

  /** A present `m.new_content` without a body drops the edit: there is no fall-back
      to the outer content body. */
  lemma NewContentWithoutBodyDropsEdit(msgs: seq<Message>, e: Event, ctx: Context)
    requires IsReplace(e) && e.content.value.newContent == Some(NewContent(None))
    ensures ApplyEvent(msgs, e, ctx) == Step(msgs, None)
  {
  }

  /** A replace event that also carries `redacted_because` is only an edit: it
      removes nothing. */
  lemma EditShadowsRedactionMarker(msgs: seq<Message>, e: Event, ctx: Context)
    requires IsReplace(e) && Truthy(e.unsignedRedacts)
    ensures |ApplyEvent(msgs, e, ctx).messages| == |msgs|
    ensures HasId(msgs, e.unsignedRedacts.value) ==> HasId(ApplyEvent(msgs, e, ctx).messages, e.unsignedRedacts.value)
  {
  }

  /** A replace relation without a target id is not an edit: a string body makes it
      an ordinary new message. */
  lemma ReplaceWithoutTargetIsCreation(msgs: seq<Message>, e: Event, ctx: Context)
    requires IsMessage(e) && e.content.Some? && e.content.value.body.Some?
    requires e.content.value.relatesTo.Some?
    requires e.content.value.relatesTo.value.relType == Some(ReplaceRelation)
    requires !Truthy(e.content.value.relatesTo.value.eventId)
    requires !Truthy(e.unsignedRedacts) && !HasId(msgs, e.eventId)
    ensures ApplyEvent(msgs, e, ctx).messages
            == msgs + [Message(e.eventId, e.content.value.body.value, e.sender, false)]
  {
  }

  /** An edit that arrives before the message it edits is lost: the message later
      appears with its original body. */
  lemma EditBeforeCreation(msgs: seq<Message>, id: string, sender: string, body: string, edit: Event, ctx: Context)
    requires !HasId(msgs, id)
    requires IsReplace(edit) && EditTarget(edit) == id
    ensures ApplyBatch(msgs, [edit, TextEvent(id, sender, body)], ctx).messages
            == msgs + [Message(id, body, sender, false)]
  {
    var e := TextEvent(id, sender, body);
    assert [edit, e][1..] == [e];
    assert ApplyEvent(msgs, edit, ctx).messages == msgs;
    assert ApplyBatch(msgs, [edit, e], ctx).messages == ApplyBatch(msgs, [e], ctx).messages;
    assert [e][1..] == [];
  }

  /** A redaction is terminal: after it, a batch without a creation of the same id
      never brings the message back. */
  lemma RedactionIsTerminal(msgs: seq<Message>, redaction: Event, later: seq<Event>, ctx: Context)
    requires !Truthy(redaction.unsignedRedacts) && IsRedactionEvent(redaction)
    requires forall i :: 0 <= i < |later| ==> !CreatesId(later[i], redaction.redacts.value)
    ensures !HasId(ApplyBatch(msgs, [redaction] + later, ctx).messages, redaction.redacts.value)
  {
    assert ([redaction] + later)[0] == redaction;
    assert ([redaction] + later)[1..] == later;
    RemoveIdRemoves(msgs, redaction.redacts.value);
    AbsentStaysAbsent(RemoveId(msgs, redaction.redacts.value), later, ctx, redaction.redacts.value);
  }

  /** Applying a whole batch twice is not applying it once: an edit that precedes
      its target in the batch is dropped the first time and applied the second. */
  lemma BatchNotIdempotent()
    ensures var events := [EditEvent("$x", "@a:hs", "$e1", "b"), TextEvent("$e1", "@a:hs", "a")];
            var ctx := Context("@me:hs", false);
            var once := ApplyBatch([], events, ctx).messages;
            && once == [Message("$e1", "a", "@a:hs", false)]
            && ApplyBatch(once, events, ctx).messages == [Message("$e1", "b", "@a:hs", true)]
  {
  }

  /** A message from someone else arriving while the page is hidden asks for one
      notification; the same message delivered again asks for none. */
  lemma CreationNotifiesOnce(id: string, ctx: Context)
    requires ctx.hidden && ctx.userId != "@a:hs"
    ensures var e := TextEvent(id, "@a:hs", "hi");
            var r := ApplyBatch([], [e, e], ctx);
            r.messages == [Message(id, "hi", "@a:hs", false)] && r.notices == [Notice("@a:hs", "hi")]
  {
    var e := TextEvent(id, "@a:hs", "hi");
    assert [e, e][1..] == [e];
    assert [e][1..] == [];
    assert IsCreation(e) && Classify(e).Creation?;
    var first := ApplyEvent([], e, ctx);
    assert first == Step([Message(id, "hi", "@a:hs", false)], Some(Notice("@a:hs", "hi")));
    ApplyEventTwice([], e, ctx);
    assert ApplyBatch(first.messages, [e], ctx) == BatchResult(first.messages, []);
  }

  /** An explicit redaction of the only message empties the list. */
  lemma RedactionScenario(ctx: Context)
    ensures ApplyBatch([Message("e1", "hi", "@a:x", false)], [RedactionEventFor("r1", "@a:x", "e1")], ctx).messages == []
  {
  }
}
