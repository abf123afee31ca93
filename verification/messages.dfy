/** The in-memory message list the chat view renders, and the three list
    operations the client performs on it: locating a message by id
    (`Array.prototype.find`), editing it in place, and filtering it out. */
module Messages {
  import opened Wrappers

  datatype Message = Message(id: string, body: string, sender: string, edited: bool)

  /** The ids of the list, in list order. */
  function Ids(msgs: seq<Message>): seq<string> {
    seq(|msgs|, i requires 0 <= i < |msgs| => msgs[i].id)
  }

  predicate HasId(msgs: seq<Message>, id: string) {
    exists i :: 0 <= i < |msgs| && msgs[i].id == id
  }

  /** No two messages share an id. */
  predicate UniqueIds(msgs: seq<Message>) {
    forall i, j :: 0 <= i < j < |msgs| ==> msgs[i].id != msgs[j].id
  }

  /** `msgs.find(m => m.id === id)`, as a position: the first message carrying `id`. */
  function Find(msgs: seq<Message>, id: string): (r: Option<nat>)
    ensures r.Some? ==> r.value < |msgs| && msgs[r.value].id == id
    ensures r.Some? ==> forall j :: 0 <= j < r.value ==> msgs[j].id != id
    ensures r.None? <==> !HasId(msgs, id)
  {
    if |msgs| == 0 then None
    else if msgs[0].id == id then Some(0)
    else
      match Find(msgs[1..], id)
      case None =>
        assert forall j :: 1 <= j < |msgs| ==> msgs[j] == msgs[1..][j - 1];
        None
      case Some(k) => Some(k + 1)
  }

  /** The in-place edit `target.body = body; target.edited = true` on the first
      message carrying `id`; no change when there is none. */
  function UpdateBody(msgs: seq<Message>, id: string, body: string): (r: seq<Message>)
    ensures Ids(r) == Ids(msgs)
    ensures forall i :: 0 <= i < |r| ==> r[i].sender == msgs[i].sender
    ensures !HasId(msgs, id) ==> r == msgs
    ensures HasId(msgs, id) ==>
              var k := Find(msgs, id).value;
              && r[k].body == body && r[k].edited
              && forall i :: 0 <= i < |r| && i != k ==> r[i] == msgs[i]
  {
    match Find(msgs, id)
    case None => msgs
    case Some(k) => msgs[k := msgs[k].(body := body, edited := true)]
  }

  /** `msgs.filter(m => m.id !== id)`. */
  function RemoveId(msgs: seq<Message>, id: string): (r: seq<Message>)
    ensures |r| <= |msgs|
    ensures forall m :: m in r ==> m in msgs && m.id != id
    ensures forall m: Message :: m.id != id ==> multiset(r)[m] == multiset(msgs)[m]
    ensures !HasId(msgs, id) ==> r == msgs
  {
    if |msgs| == 0 then []
    else
      assert msgs == [msgs[0]] + msgs[1..];
      var rest := RemoveId(msgs[1..], id);
      if msgs[0].id == id then rest
      else
        assert multiset([msgs[0]] + rest) == multiset([msgs[0]]) + multiset(rest);
        [msgs[0]] + rest
  }

  /** After filtering, the id is gone. */
  lemma RemoveIdRemoves(msgs: seq<Message>, id: string)
    ensures !HasId(RemoveId(msgs, id), id)
  {
  }

  /** Filtering keeps ids unique. */
  lemma {:induction false} RemoveIdKeepsUnique(msgs: seq<Message>, id: string)
    requires UniqueIds(msgs)
    ensures UniqueIds(RemoveId(msgs, id))
  {
    if |msgs| > 0 {
      var rest := RemoveId(msgs[1..], id);
      RemoveIdKeepsUnique(msgs[1..], id);
      if msgs[0].id != id {
        var r := [msgs[0]] + rest;
        forall j | 1 <= j < |r| ensures r[0].id != r[j].id {
          assert r[j] in rest;
          var k :| 0 <= k < |msgs[1..]| && msgs[1..][k] == r[j];
          assert msgs[k + 1] == r[j];
        }
      }
    }
  }

  /** Filtering distributes over concatenation: the messages that survive keep
      their relative order. */
  lemma {:induction false} RemoveIdAppend(a: seq<Message>, b: seq<Message>, id: string)
    ensures RemoveId(a + b, id) == RemoveId(a, id) + RemoveId(b, id)
  {
    if |a| == 0 {
      assert a + b == b;
    } else {
      assert (a + b)[1..] == a[1..] + b;
      RemoveIdAppend(a[1..], b, id);
    }
  }

  /** Filtering the same id twice is filtering it once. */
  lemma RemoveIdIdempotent(msgs: seq<Message>, id: string)
    ensures RemoveId(RemoveId(msgs, id), id) == RemoveId(msgs, id)
  {
  }

  /** Repeating the same edit changes nothing further. */
  lemma UpdateBodyIdempotent(msgs: seq<Message>, id: string, body: string)
    ensures UpdateBody(UpdateBody(msgs, id, body), id, body) == UpdateBody(msgs, id, body)
  {
  }
}
