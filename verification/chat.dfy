/** List chat: who may post in a list's chat, message validation, editing
    and soft deletion by the author, read receipts, unread counts, and the
    notifications a new message sends to members who are not online. */
module Chat {
  import opened Wrappers
  import opened Js
  import opened Text
  import opened Store
  import opened Collections

  /** A chat message: its list, author, text, and the editado and
      eliminado flags. */
  datatype Message = Message(list: ListId, author: UserId, content: string, edited: bool, deleted: bool)

  type Messages = map<int, Message>

  /** Read receipts (mensaje_lectura): one per (message, reader). */
  type Reads = set<(int, UserId)>

  /** verificarAccesoLista: an active, accepted row on the list, or
      ownership of it. */
  predicate HasAccess(st: State, u: UserId, l: ListId) {
    Member(st.listGrants, l, u) || OwnsList(st, l, u)
  }

  const MaxLength := 5000

  /** validarMensaje: a missing or non-string content, one that is blank
      once trimmed, or one whose trimmed `length` exceeds 5000 UTF-16 code
      units, is refused; otherwise the trimmed text is the message. */
  function Validate(content: JsValue): (r: Result<string, Error>)
    ensures r.Success? <==> content.JStr? && |Trim(content.s)| >= 1 && Utf16Length(Trim(content.s)) <= MaxLength
    ensures r.Success? ==> r.value == Trim(content.s)
    ensures r.Success? ==> 1 <= |r.value| <= MaxLength
    ensures r.Failure? ==> r.error == Error(BadRequest, MessageRejected)
  {
    if !Truthy(content) || !content.JStr? then Failure(Error(BadRequest, MessageRejected))
    else
      var clean := Trim(content.s);
      if |clean| == 0 then Failure(Error(BadRequest, MessageRejected))
      else if Utf16Length(clean) > MaxLength then Failure(Error(BadRequest, MessageRejected))
      else Success(clean)
  }

  /** An accepted message passes validation again unchanged. */
  lemma ValidateIdempotent(content: JsValue)
    requires Validate(content).Success?
    ensures Validate(JStr(Validate(content).value)) == Validate(content)
  {
    TrimIdempotent(content.s);
  }

  /** crearMensaje: the content is validated first, then access is
      checked, then the message is stored under a fresh id. */
  function Create(st: State, msgs: Messages, l: ListId, u: UserId, content: JsValue): (r: Result<(int, Messages), Error>)
    ensures Validate(content).Failure? ==> r == Failure(Error(BadRequest, MessageRejected))
    ensures Validate(content).Success? && !HasAccess(st, u, l) ==> r == Failure(Error(Forbidden, NoListAccess))
    ensures r.Success? <==> Validate(content).Success? && HasAccess(st, u, l)
    ensures r.Success? ==>
      (&& r.value.0 !in msgs
       && r.value.1 == msgs[r.value.0 := Message(l, u, Validate(content).value, false, false)])
  {
    var clean :- Validate(content);
    if !HasAccess(st, u, l) then Failure(Error(Forbidden, NoListAccess))
    else
      var id := FreshId(msgs.Keys);
      Success((id, msgs[id := Message(l, u, clean, false, false)]))
  }

  /** editar: only the author, only while the message is not deleted; the
      text is replaced and the message is marked as edited. */
  function Edit(msgs: Messages, id: int, u: UserId, content: string): (r: Result<Messages, Error>)
    ensures r.Success? <==> id in msgs && msgs[id].author == u && !msgs[id].deleted
    ensures r.Success? ==> r.value == msgs[id := msgs[id].(content := content, edited := true)]
    ensures r.Failure? ==> r.error == Error(NotFound, MessageNotFound)
  {
    if id in msgs && msgs[id].author == u && !msgs[id].deleted
    then Success(msgs[id := msgs[id].(content := content, edited := true)])
    else Failure(Error(NotFound, MessageNotFound))
  }

  /** eliminar: a soft delete by the author; deleted messages match the
      statement too, so deleting again succeeds. */
  function Delete(msgs: Messages, id: int, u: UserId): (r: Result<Messages, Error>)
    ensures r.Success? <==> id in msgs && msgs[id].author == u
    ensures r.Success? ==> r.value == msgs[id := msgs[id].(deleted := true)]
    ensures r.Failure? ==> r.error == Error(NotFound, MessageNotFound)
  {
    if id in msgs && msgs[id].author == u
    then Success(msgs[id := msgs[id].(deleted := true)])
    else Failure(Error(NotFound, MessageNotFound))
  }

  /** Deleting twice is deleting once, and a deleted message can no longer
      be edited, even by its author. */
  lemma DeleteIdempotentAndFinal(msgs: Messages, id: int, u: UserId, content: string)
    requires Delete(msgs, id, u).Success?
    ensures Delete(Delete(msgs, id, u).value, id, u) == Delete(msgs, id, u)
    ensures Edit(Delete(msgs, id, u).value, id, u, content).Failure?
  {
    var once := Delete(msgs, id, u).value;
    assert once[id := once[id].(deleted := true)] == once;
  }

  /** Only the author may edit or delete: anyone else gets the same error
      and nothing changes. */
  lemma OthersCannotTouch(msgs: Messages, id: int, u: UserId, content: string)
    requires id in msgs && msgs[id].author != u
    ensures Edit(msgs, id, u, content) == Failure(Error(NotFound, MessageNotFound))
    ensures Delete(msgs, id, u) == Failure(Error(NotFound, MessageNotFound))
  {
  }

  /** marcarComoLeido: an upsert of the (message, reader) receipt. */
  function MarkRead(receipts: Reads, id: int, u: UserId): (r: Reads)
    ensures (id, u) in r
    ensures forall p :: p != (id, u) ==> (p in r <==> p in receipts)
  {
    receipts + {(id, u)}
  }

  lemma MarkReadIdempotent(receipts: Reads, id: int, u: UserId)
    ensures MarkRead(MarkRead(receipts, id, u), id, u) == MarkRead(receipts, id, u)
  {
  }

  /** The messages of list `l` that count as unread for `u`: not deleted,
      written by someone else, and without a receipt from `u`. */
  function Unread(msgs: Messages, receipts: Reads, u: UserId, l: ListId): (s: set<int>)
    ensures forall m :: m in s <==>
      m in msgs && msgs[m].list == l && !msgs[m].deleted && msgs[m].author != u && (m, u) !in receipts
  {
    set m | m in msgs && msgs[m].list == l && !msgs[m].deleted && msgs[m].author != u && (m, u) !in receipts
  }

  /** obtenerNoLeidos: per list in which `u` holds an active, accepted row
      (owning the list is not enough), the number of unread messages; lists
      with none do not appear. */
  function UnreadCounts(st: State, msgs: Messages, receipts: Reads, u: UserId): (c: map<ListId, nat>)
    ensures forall l :: l in c <==> l in st.lists && Member(st.listGrants, l, u) && Unread(msgs, receipts, u, l) != {}
    ensures forall l :: l in c ==> c[l] == |Unread(msgs, receipts, u, l)|
  {
    map l | l in st.lists && Member(st.listGrants, l, u) && Unread(msgs, receipts, u, l) != {}
      :: |Unread(msgs, receipts, u, l)|
  }

  /** Reading a message takes it out of the reader's unread set and leaves
      every other reader's count alone; one's own messages are never
      unread. */
  lemma ReadingClearsUnread(msgs: Messages, receipts: Reads, id: int, u: UserId, v: UserId, l: ListId)
    ensures id !in Unread(msgs, MarkRead(receipts, id, u), u, l)
    ensures v != u ==> Unread(msgs, MarkRead(receipts, id, u), v, l) == Unread(msgs, receipts, v, l)
    ensures forall m :: m in msgs && msgs[m].author == u ==> m !in Unread(msgs, receipts, u, l)
  {
  }

  /** A member's unread count grows by one when someone else posts, and a
      poster's own count does not move. */
  lemma PostingCounts(st: State, msgs: Messages, receipts: Reads, l: ListId, author: UserId, reader: UserId, content: JsValue)
    requires Create(st, msgs, l, author, content).Success?
    requires forall p :: p in receipts ==> p.0 in msgs
    ensures var msgs' := Create(st, msgs, l, author, content).value.1;
      && (reader != author ==> |Unread(msgs', receipts, reader, l)| == |Unread(msgs, receipts, reader, l)| + 1)
      && Unread(msgs', receipts, author, l) == Unread(msgs, receipts, author, l)
  {
    var r := Create(st, msgs, l, author, content).value;
    var mm := Message(l, author, Validate(content).value, false, false);
    assert r.0 !in msgs && r.1 == msgs[r.0 := mm];
    UnreadAfterInsert(msgs, receipts, r.0, mm, reader, l);
    UnreadAfterInsert(msgs, receipts, r.0, mm, author, l);
  }

  /** Storing a new message adds it to a reader's unread set exactly when
      it counts as unread for that reader. */
  lemma UnreadAfterInsert(msgs: Messages, receipts: Reads, id: int, mm: Message, u: UserId, l: ListId)
    requires id !in msgs && (id, u) !in receipts
    ensures mm.list == l && !mm.deleted && mm.author != u ==>
      Unread(msgs[id := mm], receipts, u, l) == Unread(msgs, receipts, u, l) + {id}
      && |Unread(msgs[id := mm], receipts, u, l)| == |Unread(msgs, receipts, u, l)| + 1
    ensures !(mm.list == l && !mm.deleted && mm.author != u) ==>
      Unread(msgs[id := mm], receipts, u, l) == Unread(msgs, receipts, u, l)
  {
    var a, b := Unread(msgs[id := mm], receipts, u, l), Unread(msgs, receipts, u, l);
    assert id !in b;
    if mm.list == l && !mm.deleted && mm.author != u {
      assert a == b + {id};
    } else {
      assert a == b;
    }
  }

  /** The notification text: the content itself when its `length` is at
      most 100 code units, otherwise its first 100 code units and "...". */
  function Preview(content: string): (p: string)
    ensures Utf16Length(content) <= 100 ==> p == content
    ensures Utf16Length(content) > 100 ==>
      && |p| >= 3 && p[|p| - 3..] == "..."
      && var cut := p[..|p| - 3];
      && |cut| < |content| && cut == content[..|cut|]
      && Utf16Length(cut) <= 100 && Utf16Length(content[..|cut| + 1]) > 100
  {
    if Utf16Length(content) > 100 then
      var cut := Utf16Prefix(content, 100);
      var p := cut + "...";
      assert p[..|p| - 3] == cut && p[|p| - 3..] == "...";
      p
    else content
  }

  /** For text inside the Basic Multilingual Plane the preview is the
      first 100 characters and "...". */
  lemma PreviewOfBmpText(content: string)
    requires Bmp(content) && |content| > 100
    ensures Preview(content) == content[..100] + "..."
  {
    Utf16PrefixBmp(content, 100);
  }

  /** The members to notify: active, accepted grantees of the list with a
      user record, other than the sender and the users online in the
      chat. The owner is reached through the creator row the list holds
      for them like any other member; an owner with no such row is not. */
  function OfflineRecipients(st: State, l: ListId, sender: UserId, online: set<UserId>): (s: set<UserId>)
    ensures forall u :: u in s <==> Member(st.listGrants, l, u) && u in st.users && u != sender && u !in online
  {
    (set u | u in Members(st.listGrants, l) && u in st.users) - {sender} - online
  }

  /** The recipients whose notification did not fail, in order. */
  function Delivered(recipients: seq<UserId>, failing: set<UserId>): (d: seq<UserId>)
    ensures |d| <= |recipients|
  {
    if recipients == [] then []
    else
      var last := recipients[|recipients| - 1];
      var init := recipients[..|recipients| - 1];
      assert recipients == init + [last];
      Delivered(init, failing) + (if last in failing then [] else [last])
  }

  /** Exactly the recipients that are not failing are delivered. */
  lemma {:induction false} DeliveredMembers(recipients: seq<UserId>, failing: set<UserId>)
    ensures forall u :: u in Delivered(recipients, failing) <==> u in recipients && u !in failing
    decreases |recipients|
  {
    if recipients != [] {
      var init := recipients[..|recipients| - 1];
      DeliveredMembers(init, failing);
      assert recipients == init + [recipients[|recipients| - 1]];
    }
  }

  /** One more recipient adds its delivery at the end. */
  lemma DeliveredStep(rs: seq<UserId>, i: nat, failing: set<UserId>)
    requires i < |rs|
    ensures Delivered(rs[..i + 1], failing) == Delivered(rs[..i], failing) + (if rs[i] in failing then [] else [rs[i]])
  {
    assert rs[..i + 1][..i] == rs[..i];
  }

  /** The session identity of the sender (from the socket's token). */
  datatype Sender = Sender(id: UserId, email: string, name: string)

  /** One 'mensaje_chat' notification. */
  function ChatNotice(u: UserId, title: string, preview: string, data: JsValue): (n: Notification)
    ensures n.user == u && n.kind == "mensaje_chat" && n.title == title && n.message == preview && !n.read
  {
    Notification(u, "mensaje_chat", title, preview, data, false)
  }

  /** The loop over the offline recipients: each notification is written
      on its own, and one that fails is skipped without stopping the
      others. */
  method NotifyOffline(recipients: seq<UserId>, failing: set<UserId>, title: string, preview: string, data: JsValue)
    returns (notes: seq<Notification>)
    ensures |notes| == |Delivered(recipients, failing)|
    ensures forall i :: 0 <= i < |notes| ==> notes[i] == ChatNotice(Delivered(recipients, failing)[i], title, preview, data)
  {
    notes := [];
    ghost var sent: seq<UserId> := [];
    var i := 0;
    while i < |recipients|
      invariant 0 <= i <= |recipients|
      invariant sent == Delivered(recipients[..i], failing)
      invariant |notes| == |sent|
      invariant forall k :: 0 <= k < |notes| ==> notes[k] == ChatNotice(sent[k], title, preview, data)
    {
      DeliveredStep(recipients, i, failing);
      if recipients[i] !in failing {
        notes := notes + [ChatNotice(recipients[i], title, preview, data)];
        sent := sent + [recipients[i]];
      }
      i := i + 1;
    }
    assert recipients[..i] == recipients;
  }

  /** What handleSendMessage leaves behind: the messages and the
      notifications written. */
  datatype Sent = Sent(id: int, msgs: Messages, notices: seq<Notification>)

  /** handleSendMessage: crearMensaje (validation, then access), then the
      offline recipients in id order; none means nothing more is written.
      The title names the list ('Lista' when it has no name) and the text
      is the preview of the content as sent. A failing notification is
      skipped; the message stays. */
  method Send(st: State, msgs: Messages, l: ListId, sender: Sender, content: JsValue,
              online: set<UserId>, failing: set<UserId>) returns (r: Result<Sent, Error>)
    ensures r.Success? <==> Create(st, msgs, l, sender.id, content).Success?
    ensures r.Success? ==>
      (&& (r.value.id, r.value.msgs) == Create(st, msgs, l, sender.id, content).value
       && |r.value.notices| <= |OfflineRecipients(st, l, sender.id, online)|
       && (forall n :: n in r.value.notices ==>
             n.user in OfflineRecipients(st, l, sender.id, online) && n.user !in failing && n.kind == "mensaje_chat")
       && (forall u :: u in OfflineRecipients(st, l, sender.id, online) && u !in failing ==>
             exists n :: n in r.value.notices && n.user == u))
  {
    var created := Create(st, msgs, l, sender.id, content);
    if created.Failure? {
      return Failure(created.error);
    }
    var (id, msgs') := created.value;
    var offline := OfflineRecipients(st, l, sender.id, online);
    if offline == {} {
      return Success(Sent(id, msgs', []));
    }
    var listName := if l in st.lists && st.lists[l].name != "" then st.lists[l].name else "Lista";
    var data := JObject(map["idLista" := JNum(l), "listaId" := JNum(l), "idMensaje" := JNum(id),
                            "listaNombre" := JStr(listName), "nombreRemitente" := JStr(sender.name),
                            "emailRemitente" := JStr(sender.email)]);
    var order := SortedKeys(offline);
    var notes := NotifyOffline(order, failing, "Nuevo mensaje en " + listName, Preview(content.s), data);
    var delivered := Delivered(order, failing);
    DeliveredMembers(order, failing);
    forall n | n in notes
      ensures n.user in offline && n.user !in failing && n.kind == "mensaje_chat"
    {
      var k :| 0 <= k < |notes| && notes[k] == n;
      assert delivered[k] in delivered;
    }
    forall u | u in offline && u !in failing
      ensures exists n :: n in notes && n.user == u
    {
      assert u in delivered;
      var k :| 0 <= k < |delivered| && delivered[k] == u;
      assert notes[k] in notes;
    }
    assert |notes| <= |offline| by {
      assert |order| == |offline|;
    }
    return Success(Sent(id, msgs', notes));
  }
}
