/** The notification rows of the sharing flow (notificaciones) and the
    handlers that read and write them: creating a notification, marking
    one or all as read, and accepting or rejecting a list invitation. The
    real-time push that follows a creation is described by its payload
    only; delivery is the SSE registry's business and its failure never
    fails the creation. */
module Notifications {
  import opened Wrappers
  import opened Js
  import opened Store
  import opened Collections
  import Roles
  import Audit

  const InvitationKind := "invitacion_lista"

  /** Every field of a stored notification other than its read flag. */
  predicate SameContent(a: Notification, b: Notification) {
    a.user == b.user && a.kind == b.kind && a.title == b.title && a.message == b.message && a.data == b.data
  }

  /** The INSERT of crearNotificacion, once its arguments have passed the
      check: a new unread row under a fresh id, with `datos || {}` as its
      data. Nothing but the notification table changes. */
  function Insert(st: State, user: int, kind: string, title: string, message: string, data: JsValue)
    : (res: (int, State))
    ensures res.0 !in st.notifications
    ensures Notified(st.notifications, res.1.notifications,
                     Notification(user, kind, title, message, Audit.DetailsOrEmpty(data), false))
    ensures res.1.notifications.Keys == st.notifications.Keys + {res.0}
    ensures res.1 == st.(notifications := res.1.notifications)
  {
    var id := FreshId(st.notifications.Keys);
    (id, st.(notifications := st.notifications[id := Notification(user, kind, title, message, Audit.DetailsOrEmpty(data), false)]))
  }

  /** crearNotificacion: a falsy user id, kind, title or message throws
      before anything is written; otherwise the row is inserted. */
  function Create(st: State, user: int, kind: string, title: string, message: string, data: JsValue)
    : (res: Result<(int, State), Error>)
    ensures res.Failure? <==> user == 0 || kind == "" || title == "" || message == ""
    ensures res.Success? ==> var (id, st') := res.value;
      id !in st.notifications
      && st'.notifications.Keys == st.notifications.Keys + {id}
      && (forall k :: k in st.notifications ==> st'.notifications[k] == st.notifications[k])
      && st'.notifications[id] == Notification(user, kind, title, message, Audit.DetailsOrEmpty(data), false)
      && st' == st.(notifications := st'.notifications)
    ensures res.Success? ==>
      Notified(st.notifications, res.value.1.notifications,
               Notification(user, kind, title, message, Audit.DetailsOrEmpty(data), false))
  {
    if user == 0 || kind == "" || title == "" || message == "" then Failure(Error(ServerError, MissingParameters))
    else Success(Insert(st, user, kind, title, message, data))
  }

  /** The object pushed to the user's open streams after an insert. Its
      creation time is not modelled. */
  function PushPayload(id: int, n: Notification): (p: JsValue)
    ensures p.JObject?
    ensures Get(p, "id") == JNum(id) && Get(p, "idNotificacion") == JNum(id)
    ensures Get(p, "idUsuario") == JNum(n.user)
    ensures Get(p, "event") == JStr("nueva_notificacion")
    ensures Get(p, "leida") == JBool(false)
    ensures Get(p, "datos") == Audit.DetailsOrEmpty(n.data)
  {
    JObject(map[
      "event" := JStr("nueva_notificacion"),
      "id" := JNum(id),
      "idNotificacion" := JNum(id),
      "idUsuario" := JNum(n.user),
      "tipo" := JStr(n.kind),
      "titulo" := JStr(n.title),
      "mensaje" := JStr(n.message),
      "datos" := Audit.DetailsOrEmpty(n.data),
      "leida" := JBool(false)])
  }

  /** A notification just created is stored unread for its user, and the
      payload pushed for it names the same id twice. */
  lemma CreateThenPush(st: State, user: int, kind: string, title: string, message: string, data: JsValue)
    requires Create(st, user, kind, title, message, data).Success?
    ensures var (id, st') := Create(st, user, kind, title, message, data).value;
      id in st'.notifications && st'.notifications[id].user == user && !st'.notifications[id].read
      && Get(PushPayload(id, st'.notifications[id]), "idNotificacion") == Get(PushPayload(id, st'.notifications[id]), "id")
  {
  }

  /** The id route parameter of marcarComoLeida is rejected when it is
      missing, empty or the text "undefined". */
  predicate BadIdParam(id: JsValue) {
    !Truthy(id) || id == JStr("undefined")
  }

  /** marcarComoLeida: 401 without a caller id, 400 for a bad id, then the
      update of the caller's own notification with the parsed id; 404 when
      no row matched (a NaN id matches none). */
  function MarkRead(st: State, id: JsValue, caller: int): (res: Result<State, Error>)
    ensures caller == 0 ==> res == Failure(Error(Unauthorized, NotAuthenticated))
    ensures caller != 0 && BadIdParam(id) ==> res == Failure(Error(BadRequest, InvalidId))
    ensures caller != 0 && !BadIdParam(id) ==>
      (res.Success? <==> (ParseInt(Show(id)).Some? && ParseInt(Show(id)).value in st.notifications
                          && st.notifications[ParseInt(Show(id)).value].user == caller))
    ensures res.Failure? && caller != 0 && !BadIdParam(id) ==> res.error == Error(NotFound, NotificationNotFound)
    ensures res.Success? ==> var n := ParseInt(Show(id)).value;
      res.value == st.(notifications := st.notifications[n := st.notifications[n].(read := true)])
  {
    if caller == 0 then Failure(Error(Unauthorized, NotAuthenticated))
    else if BadIdParam(id) then Failure(Error(BadRequest, InvalidId))
    else
      var n := ParseInt(Show(id));
      if n.Some? && n.value in st.notifications && st.notifications[n.value].user == caller then
        Success(st.(notifications := st.notifications[n.value := st.notifications[n.value].(read := true)]))
      else Failure(Error(NotFound, NotificationNotFound))
  }

  /** marcarTodasLeidas: every unread notification of the caller becomes
      read; nobody else's notification changes. */
  function MarkAllRead(st: State, caller: int): (res: Result<State, Error>)
    ensures caller == 0 <==> res.Failure?
    ensures res.Success? ==> res.value == st.(notifications := res.value.notifications)
    ensures res.Success? ==> res.value.notifications.Keys == st.notifications.Keys
    ensures res.Success? ==> forall k :: k in st.notifications ==>
      SameContent(res.value.notifications[k], st.notifications[k])
      && (res.value.notifications[k].read <==> st.notifications[k].read || st.notifications[k].user == caller)
  {
    if caller == 0 then Failure(Error(Unauthorized, NotAuthenticated))
    else
      Success(st.(notifications := map k | k in st.notifications ::
        if st.notifications[k].user == caller then st.notifications[k].(read := true) else st.notifications[k]))
  }

  /** The caller's unread notifications. */
  function Unread(st: State, u: UserId): (s: set<int>)
    ensures forall k :: k in s <==> k in st.notifications && st.notifications[k].user == u && !st.notifications[k].read
  {
    set k | k in st.notifications && st.notifications[k].user == u && !st.notifications[k].read
  }

  /** After marking all as read the caller has nothing unread, and every
      other user's unread set is what it was. */
  lemma MarkAllReadClears(st: State, caller: int, other: UserId)
    requires caller != 0 && other != caller
    ensures Unread(MarkAllRead(st, caller).value, caller) == {}
    ensures Unread(MarkAllRead(st, caller).value, other) == Unread(st, other)
  {
  }

  /** The list-grant row an accepted invitation leads to: an existing row
      is only re-activated and marked accepted (role, creator flag, sharer
      and date stay); otherwise a new active, accepted, non-creator row. */
  function Upsert(t: Table, l: ListId, u: UserId, role: string, sharedBy: Option<UserId>, now: int): (t': Table)
    ensures t'.Keys == t.Keys + {(l, u)}
    ensures forall k :: k in t && k != (l, u) ==> t'[k] == t[k]
    ensures Member(t', l, u)
    ensures (l, u) in t ==> t'[(l, u)] == t[(l, u)].(accepted := true, active := true)
    ensures (l, u) !in t ==> t'[(l, u)] == Grant(role, false, true, true, sharedBy, now)
  {
    if (l, u) in t then t[(l, u) := t[(l, u)].(accepted := true, active := true)]
    else t[(l, u) := Grant(role, false, true, true, sharedBy, now)]
  }

  /** `datos.invitadoPorId || null`. */
  function Sharer(data: JsValue): (r: Option<UserId>)
    ensures r.Some? <==> Get(data, "invitadoPorId").JNum? && Get(data, "invitadoPorId").n != 0
  {
    var v := Get(data, "invitadoPorId");
    if v.JNum? && v.n != 0 then Some(v.n) else None
  }

  /** Whether notification `id` is the caller's list invitation. */
  predicate OwnInvitation(st: State, id: int, caller: int) {
    id in st.notifications && st.notifications[id].user == caller
    && st.notifications[id].kind == InvitationKind
  }

  /** aceptarInvitacion, with the translation applied to the invited role
      before it is stored as a parameter. In order: 401 without a caller;
      404 unless the notification is the caller's own list invitation; 500
      when the invitation names no list (an undefined bind value); 404
      when the list does not exist; 500 when the invited role is not a
      string; then the grant upsert and the notification marked read.
      Every failure rolls back. */
  function AcceptWith(st: State, id: int, caller: int, now: int, store: string -> string)
    : (rep: Reply<ListId>)
    ensures rep.result.Failure? ==> rep.st == st
    ensures caller == 0 ==> rep.result == Failure(Error(Unauthorized, NotAuthenticated))
    ensures caller != 0 && !OwnInvitation(st, id, caller) ==>
      rep.result == Failure(Error(NotFound, NotificationNotFound))
    ensures rep.result.Success? ==> (OwnInvitation(st, id, caller)
      && Get(st.notifications[id].data, "listaId") == JNum(rep.result.value)
      && rep.result.value in st.lists
      && Get(st.notifications[id].data, "rol").JStr?)
    ensures rep.result.Success? ==> var l := rep.result.value; var n := st.notifications[id];
      rep.st == st.(listGrants := Upsert(st.listGrants, l, caller, store(Get(n.data, "rol").s), Sharer(n.data), now),
                    notifications := st.notifications[id := n.(read := true)])
  {
    if caller == 0 then Reply(Failure(Error(Unauthorized, NotAuthenticated)), st)
    else if !OwnInvitation(st, id, caller) then Reply(Failure(Error(NotFound, NotificationNotFound)), st)
    else
      var n := st.notifications[id];
      var list := Get(n.data, "listaId");
      var role := Get(n.data, "rol");
      if list.JUndefined? then Reply(Failure(Error(ServerError, Unhandled)), st)
      else if !(list.JNum? && list.n in st.lists) then Reply(Failure(Error(NotFound, ListNotFound)), st)
      else if !role.JStr? then Reply(Failure(Error(ServerError, Unhandled)), st)
      else
        Reply(Success(list.n),
              st.(listGrants := Upsert(st.listGrants, list.n, caller, store(role.s), Sharer(n.data), now),
                  notifications := st.notifications[id := n.(read := true)]))
  }

  /** The identity: aceptarInvitacion as written passes `datos.rol`
      straight to the INSERT. */
  function AsGiven(name: string): string { name }

  /** aceptarInvitacion as written: the invited role is stored as the
      invitation carries it, in the frontend vocabulary. */
  function AcceptAsWritten(st: State, id: int, caller: int, now: int): (rep: Reply<ListId>)
    ensures rep.result.Failure? ==> rep.st == st
  {
    AcceptWith(st, id, caller, now, AsGiven)
  }

  /** aceptarInvitacion as intended: the invited role is translated to the
      stored vocabulary first, like every other path that writes a role. */
  function Accept(st: State, id: int, caller: int, now: int): (rep: Reply<ListId>)
    ensures rep.result.Failure? ==> rep.st == st
    ensures rep.result.Success? ==> Member(rep.st.listGrants, rep.result.value, caller)
    ensures rep.result.Success? ==> id in rep.st.notifications && rep.st.notifications[id].read
  {
    AcceptWith(st, id, caller, now, Roles.ToStored)
  }

  /** A row created by an acceptance holds a role of the stored
      vocabulary whenever the invitation carried a frontend role name, and
      an existing row keeps its role. */
  lemma AcceptStoresRole(st: State, id: int, caller: int, now: int)
    requires Accept(st, id, caller, now).result.Success?
    ensures var l := Accept(st, id, caller, now).result.value;
      var g := Accept(st, id, caller, now).st.listGrants[(l, caller)];
      ((l, caller) in st.listGrants ==> g.role == st.listGrants[(l, caller)].role)
      && ((l, caller) !in st.listGrants && Roles.IsFrontendRole(Get(st.notifications[id].data, "rol").s)
          ==> Roles.IsStoredRole(g.role))
  {
  }

  /** Accepting the same invitation twice changes nothing the second
      time. */
  lemma AcceptIdempotent(st: State, id: int, caller: int, now: int, later: int)
    requires Accept(st, id, caller, now).result.Success?
    ensures Accept(Accept(st, id, caller, now).st, id, caller, later) == Accept(st, id, caller, now)
  {
    var l := Accept(st, id, caller, now).result.value;
    var st1 := Accept(st, id, caller, now).st;
    assert st1.notifications[id].data == st.notifications[id].data;
    assert st1.listGrants[(l, caller)].(accepted := true, active := true) == st1.listGrants[(l, caller)];
    assert Upsert(st1.listGrants, l, caller, Roles.ToStored(Get(st.notifications[id].data, "rol").s), Sharer(st.notifications[id].data), later) == st1.listGrants;
  }

  /** An invitation whose role is 'lector' (the frontend name for a
      read-only member) yields a row whose role 'lector' the grant tables
      do not know, where the intended row holds 'visor'. */
  lemma AcceptAsWrittenStoresFrontendName()
    ensures var n := Notification(2, InvitationKind, "t", "m",
                                  JObject(map["listaId" := JNum(1), "rol" := JStr("lector")]), false);
      var st := State(map[], map[], map[1 := List(1, "l", None, None, true)], map[], map[],
                      map[7 := n], []);
      AcceptAsWritten(st, 7, 2, 0).result == Success(1)
      && AcceptAsWritten(st, 7, 2, 0).st.listGrants[(1, 2)].role == "lector"
      && !Roles.IsStoredRole(AcceptAsWritten(st, 7, 2, 0).st.listGrants[(1, 2)].role)
      && Accept(st, 7, 2, 0).st.listGrants[(1, 2)].role == Roles.Viewer
  {
  }

  /** rechazarInvitacion: marks the caller's notification read if there
      is one; it never fails for an authenticated caller and never touches
      a grant. */
  function Reject(st: State, id: int, caller: int): (res: Result<State, Error>)
    ensures caller == 0 <==> res.Failure?
    ensures res.Success? ==> res.value.listGrants == st.listGrants && res.value.categoryGrants == st.categoryGrants
    ensures res.Success? ==> res.value == st.(notifications := res.value.notifications)
    ensures res.Success? ==> res.value.notifications.Keys == st.notifications.Keys
    ensures res.Success? ==> forall k :: k in st.notifications ==>
      SameContent(res.value.notifications[k], st.notifications[k])
      && (res.value.notifications[k].read <==>
          st.notifications[k].read || (k == id && st.notifications[k].user == caller))
  {
    if caller == 0 then Failure(Error(Unauthorized, NotAuthenticated))
    else if id in st.notifications && st.notifications[id].user == caller then
      Success(st.(notifications := st.notifications[id := st.notifications[id].(read := true)]))
    else Success(st)
  }

  /** A row of the notificaciones table as the driver returns it. */
  datatype Row = Row(id: JsValue, kind: JsValue, title: JsValue, message: JsValue,
                     read: JsValue, date: JsValue, data: JsValue)

  /** The Notificacion model object. */
  datatype View = View(id: JsValue, kind: JsValue, title: JsValue, message: JsValue,
                       read: JsValue, date: JsValue, data: JsValue)

  /** The constructor's `datos` rule: null when falsy, parsed when a
      string (`parse` stands for JSON.parse), kept otherwise. */
  function NormalizeData(d: JsValue, parse: string -> JsValue): (r: JsValue)
    ensures !Truthy(d) ==> r == JNull
    ensures Truthy(d) && d.JStr? ==> r == parse(d.s)
    ensures Truthy(d) && !d.JStr? ==> r == d
  {
    if !Truthy(d) then JNull else if d.JStr? then parse(d.s) else d
  }

  /** fromDatabase: `leida` is true exactly for 1 or true, the JSON column
      becomes `datos`, the other fields are copied. */
  function FromDatabase(row: Row, parse: string -> JsValue): (v: View)
    ensures v.read == JBool(row.read == JNum(1) || row.read == JBool(true))
    ensures v.data == NormalizeData(row.data, parse)
    ensures v.id == row.id && v.kind == row.kind && v.title == row.title
    ensures v.message == row.message && v.date == row.date
  {
    View(row.id, row.kind, row.title, row.message, JBool(row.read == JNum(1) || row.read == JBool(true)),
         row.date, NormalizeData(row.data, parse))
  }

  const JsonFields: set<string> := {"id", "tipo", "titulo", "mensaje", "leida", "fecha", "datos"}

  /** toJSON: exactly the seven fields of the model object. */
  function ToJson(v: View): (r: JsValue)
    ensures r.JObject? && r.fields.Keys == JsonFields
    ensures Get(r, "id") == v.id && Get(r, "leida") == v.read && Get(r, "datos") == v.data
    ensures Get(r, "tipo") == v.kind && Get(r, "titulo") == v.title
    ensures Get(r, "mensaje") == v.message && Get(r, "fecha") == v.date
  {
    JObject(map["id" := v.id, "tipo" := v.kind, "titulo" := v.title, "mensaje" := v.message,
                "leida" := v.read, "fecha" := v.date, "datos" := v.data])
  }

  /** The serialised form of a row always carries a boolean `leida`, and
      normalising its data a second time changes nothing unless the data
      was parsed from a string. */
  lemma RowToJson(row: Row, parse: string -> JsValue)
    ensures Get(ToJson(FromDatabase(row, parse)), "leida").JBool?
    ensures !row.data.JStr? ==> NormalizeData(FromDatabase(row, parse).data, parse) == FromDatabase(row, parse).data
  {
  }
}
