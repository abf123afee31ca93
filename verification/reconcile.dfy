/** The timeline reconciliation of `fetchMessages`: each event of the current
    room's timeline is applied to the message list in delivery order, and a
    newly created message from someone else may ask for a notification. */
module Reconcile {
  import opened Wrappers
  import opened JsText
  import opened Messages
  import opened Events

  /** A request to `showDesktopNotification(sender, body)` and `playNotificationSound()`. */
  datatype Notice = Notice(sender: string, body: string)

  /** What the handler reads besides the list: the current user, and whether the
      document is hidden (`typeof document !== 'undefined' && document.hidden`). */
  datatype Context = Context(userId: string, hidden: bool)

  datatype Step = Step(messages: seq<Message>, notice: Option<Notice>)

  datatype BatchResult = BatchResult(messages: seq<Message>, notices: seq<Notice>)

  /** Whether a message just appended asks for a notification. */
  predicate Notifies(sender: string, body: string, ctx: Context) {
    sender != ctx.userId && ctx.hidden && body != ""
  }

  /** The handler for one event. */
  function ApplyEvent(msgs: seq<Message>, e: Event, ctx: Context): (r: Step)
    ensures UniqueIds(msgs) ==> UniqueIds(r.messages)
    // an edit keeps every id in place, never appends and never notifies
    ensures IsReplace(e) ==> Ids(r.messages) == Ids(msgs) && r.notice.None?
    ensures IsReplace(e) && Truthy(Replacement(e.content.value)) ==>
              r.messages == UpdateBody(msgs, EditTarget(e), Replacement(e.content.value).value)
    ensures IsReplace(e) && (!HasId(msgs, EditTarget(e)) || !Truthy(Replacement(e.content.value))) ==>
              r.messages == msgs
    // both redaction forms filter the target out and never notify
    ensures !IsReplace(e) && Truthy(e.unsignedRedacts) ==>
              r == Step(RemoveId(msgs, e.unsignedRedacts.value), None)
    ensures !IsReplace(e) && !Truthy(e.unsignedRedacts) && IsRedactionEvent(e) ==>
              r == Step(RemoveId(msgs, e.redacts.value), None)
    // the list only grows by appending a creation whose id was absent
    ensures |r.messages| <= |msgs| + 1
    ensures |r.messages| == |msgs| + 1 <==>
              && Classify(e).Creation?
              && !HasId(msgs, e.eventId)
    ensures |r.messages| == |msgs| + 1 ==>
              r.messages == msgs + [Message(e.eventId, CreatedBody(e), e.sender, false)]
    // a creation whose id is already listed is a duplicate delivery and changes nothing
    ensures Classify(e).Creation? && HasId(msgs, e.eventId) ==> r == Step(msgs, None)
    // a notice only accompanies such an append, and only under the three conditions
    ensures r.notice.Some? <==>
              |r.messages| == |msgs| + 1 && Notifies(e.sender, CreatedBody(e), ctx)
    ensures r.notice.Some? ==> r.notice.value == Notice(e.sender, CreatedBody(e))
    // anything else leaves the list alone
    ensures Classify(e).Unhandled? ==> r == Step(msgs, None)
  {
    match Classify(e)
    case Edit(target, replacement) =>
      if Truthy(replacement) then
        Step(UpdateBody(msgs, target, replacement.value), None)
      else Step(msgs, None)
    case RedactedMarker(target) =>
      RemoveIdKeepsUniqueIf(msgs, target);
      Step(RemoveId(msgs, target), None)
    case Redaction(target) =>
      RemoveIdKeepsUniqueIf(msgs, target);
      Step(RemoveId(msgs, target), None)
    case Creation(id, body, sender) =>
      if HasId(msgs, id) then Step(msgs, None)
      else
        var m := Message(id, body, sender, false);
        Step(msgs + [m], if Notifies(sender, body, ctx) then Some(Notice(sender, body)) else None)
    case Unhandled => Step(msgs, None)
  }

  lemma RemoveIdKeepsUniqueIf(msgs: seq<Message>, id: string)
    ensures UniqueIds(msgs) ==> UniqueIds(RemoveId(msgs, id))
  {
    if UniqueIds(msgs) {
      RemoveIdKeepsUnique(msgs, id);
    }
  }

  /** `roomData.timeline.events.forEach(handler)`: events strictly in delivery order. */
  function ApplyBatch(msgs: seq<Message>, events: seq<Event>, ctx: Context): (r: BatchResult)
    ensures UniqueIds(msgs) ==> UniqueIds(r.messages)
    ensures |r.notices| <= |events|
    ensures |r.messages| <= |msgs| + |events|
    ensures forall n :: n in r.notices ==> Notifies(n.sender, n.body, ctx)
    decreases |events|
  {
    if |events| == 0 then BatchResult(msgs, [])
    else
      var step := ApplyEvent(msgs, events[0], ctx);
      var rest := ApplyBatch(step.messages, events[1..], ctx);
      var here := if step.notice.Some? then [step.notice.value] else [];
      BatchResult(rest.messages, here + rest.notices)
  }

  /** A batch split in two is the first part followed by the second. */
  lemma {:induction false} ApplyBatchAppend(msgs: seq<Message>, a: seq<Event>, b: seq<Event>, ctx: Context)
    ensures ApplyBatch(msgs, a + b, ctx).messages
            == ApplyBatch(ApplyBatch(msgs, a, ctx).messages, b, ctx).messages
    decreases |a|
  {
    if |a| == 0 {
      assert a + b == b;
    } else {
      assert (a + b)[0] == a[0];
      assert (a + b)[1..] == a[1..] + b;
      ApplyBatchAppend(ApplyEvent(msgs, a[0], ctx).messages, a[1..], b, ctx);
    }
  }

  /** A one-event batch is that event's step: its notice, if any, is the batch's only notice. */
  lemma ApplyBatchOne(msgs: seq<Message>, e: Event, ctx: Context)
    ensures var step := ApplyEvent(msgs, e, ctx);
            ApplyBatch(msgs, [e], ctx)
            == BatchResult(step.messages, if step.notice.Some? then [step.notice.value] else [])
  {
  }

  /** The notices of a split batch are the first part's notices followed by those
      of the second part applied to the first part's result: together with
      `ApplyBatchOne`, a batch's notices are exactly its events' notices in
      delivery order. */
  lemma {:induction false} ApplyBatchAppendNotices(msgs: seq<Message>, a: seq<Event>, b: seq<Event>, ctx: Context)
    ensures ApplyBatch(msgs, a + b, ctx).notices
            == ApplyBatch(msgs, a, ctx).notices + ApplyBatch(ApplyBatch(msgs, a, ctx).messages, b, ctx).notices
    decreases |a|
  {
    if |a| == 0 {
      assert a + b == b;
    } else {
      assert (a + b)[0] == a[0];
      assert (a + b)[1..] == a[1..] + b;
      ApplyBatchAppendNotices(ApplyEvent(msgs, a[0], ctx).messages, a[1..], b, ctx);
    }
  }

  /** Delivering the same event twice in a row has the effect of delivering it once,
      and the repeat never notifies. */
  lemma ApplyEventTwice(msgs: seq<Message>, e: Event, ctx: Context)
    ensures var once := ApplyEvent(msgs, e, ctx).messages;
            ApplyEvent(once, e, ctx) == Step(once, None)
  {
    match Classify(e)
    case Edit(target, replacement) =>
      if Truthy(replacement) {
        UpdateBodyIdempotent(msgs, target, replacement.value);
      }
    case RedactedMarker(target) => RemoveIdIdempotent(msgs, target);
    case Redaction(target) => RemoveIdIdempotent(msgs, target);
    case Creation(id, body, sender) =>
      var once := ApplyEvent(msgs, e, ctx).messages;
      if !HasId(msgs, id) {
        assert once[|msgs|].id == id;
      }
    case Unhandled =>
  }

  /** An event that would create message `id`. */
  predicate CreatesId(e: Event, id: string) {
    Classify(e).Creation? && e.eventId == id
  }

  /** Once `id` is gone (or was never there), no later event but a creation of
      `id` brings it back: edits to it are dropped, redactions of it are no-ops. */
  lemma {:induction false} AbsentStaysAbsent(msgs: seq<Message>, events: seq<Event>, ctx: Context, id: string)
    requires !HasId(msgs, id)
    requires forall i :: 0 <= i < |events| ==> !CreatesId(events[i], id)
    ensures !HasId(ApplyBatch(msgs, events, ctx).messages, id)
    decreases |events|
  {
    if |events| > 0 {
      var step := ApplyEvent(msgs, events[0], ctx);
      var e := events[0];
      assert !HasId(step.messages, id) by {
        if IsReplace(e) {
          assert Ids(step.messages) == Ids(msgs);
        } else if |step.messages| == |msgs| + 1 {
          assert !CreatesId(events[0], id);
        }
      }
      AbsentStaysAbsent(step.messages, events[1..], ctx, id);
    }
  }
}
