/** The write side of the list-sharing controller: generating a share
    key, joining by key, inviting by e-mail (a direct grant), changing a
    member's role, revoking a member, leaving, and unsharing. Each handler
    is one step from a state to a reply and a state. The transactional
    handlers (key generation, invitation, role change, revocation) leave
    the state untouched on every error raised before their commit; join,
    leave and unshare are not transactional, but each performs at most one
    grant write before its best-effort audit entry, so their errors too
    leave the state as it was. */
module ListSharing {
  import opened Wrappers
  import opened Js
  import opened Store
  import opened Collections
  import Text
  import Roles
  import SharingUtils
  import GrantStore
  import Audit
  import Notifications

  /** The role guard of invitation and role change: the requested name,
      translated to the stored vocabulary, must be one of the four stored
      roles; a missing name fails it. */
  predicate AcceptedRole(rol: Option<string>) {
    rol.Some? && Roles.IsStoredRole(Roles.ToStored(rol.value))
  }

  /** Who may invite, change roles and revoke: the owner, or a user whose
      row for the list is active and has the stored role 'admin'. */
  predicate CanManage(st: State, l: ListId, u: UserId) {
    OwnsList(st, l, u) || ActiveListAdmin(st, l, u)
  }

  /** The guard accepts exactly the front-end names and 'visor'. */
  lemma AcceptedRoleNames(rol: Option<string>)
    ensures AcceptedRole(rol) <==> rol.Some? && (Roles.IsFrontendRole(rol.value) || rol.value == Roles.Viewer)
  {
    if rol.Some? {
      Roles.AcceptedNames(rol.value);
    }
  }

  // ---------------------------------------------------------------------
  // Share key

  /** The key the generator settles on: candidate i is looked up for
      i < 10 and taken when no list holds it; after ten collisions the
      eleventh candidate is used without a lookup. */
  function KeyRetry(taken: set<string>, cands: seq<string>, i: nat): (k: string)
    requires |cands| == 11 && i <= 10
    ensures k in cands[i..]
    ensures k !in taken || forall j :: i <= j < 10 ==> cands[j] in taken
    ensures k in taken ==> k == cands[10]
    decreases 10 - i
  {
    if i == 10 then cands[10]
    else if cands[i] !in taken then cands[i]
    else KeyRetry(taken, cands, i + 1)
  }

  /** The owner's own row after key generation: role admin, creator,
      accepted and active; an existing row keeps its sharer and date. */
  function OwnerRow(t: Table, l: ListId, u: UserId, now: int): (t': Table)
    ensures t'.Keys == t.Keys + {(l, u)}
    ensures forall k :: k in t && k != (l, u) ==> t'[k] == t[k]
    ensures var g := t'[(l, u)]; g.role == Roles.Admin && g.isCreator && g.accepted && g.active
  {
    if (l, u) in t then t[(l, u) := t[(l, u)].(role := Roles.Admin, isCreator := true, accepted := true, active := true)]
    else t[(l, u) := Grant(Roles.Admin, true, true, true, Some(u), now)]
  }

  datatype KeyReply = KeyReply(key: string, reused: bool)

  /** The key a list already holds, if it is truthy. */
  function HeldKey(st: State, l: ListId): (k: Option<string>)
    requires l in st.lists
    ensures k.Some? <==> st.lists[l].key.Some? && st.lists[l].key.value != ""
    ensures k.Some? ==> st.lists[l].key == Some(k.value)
  {
    if st.lists[l].key.Some? && st.lists[l].key.value != "" then st.lists[l].key else None
  }

  /** generarClaveLista. `cands` are the eleven keys the generator would
      draw, in order; the generator only ever yields key-shaped strings.
      400 without a caller id, 404 unless the caller owns the list; a key
      the list already holds is reused, otherwise the retry loop picks
      one. The list becomes shareable with that key, the owner's row is
      made the creator's admin row, and the audit entry is written inside
      the transaction, so its failure is a 500 that undoes everything. */
  function GenerateKey(st: State, l: ListId, caller: int, cands: seq<string>, io: Io): (rep: Reply<KeyReply>)
    requires |cands| == 11 && forall i :: 0 <= i < 11 ==> SharingUtils.IsKeyShaped(cands[i])
    ensures rep.result.Failure? ==> rep.st == st
    ensures caller == 0 ==> rep.result == Failure(Error(BadRequest, MissingParameters))
    ensures caller != 0 && !OwnsList(st, l, caller) ==> rep.result == Failure(Error(NotFound, ListNotFoundOrNotOwner))
    ensures caller != 0 && OwnsList(st, l, caller) ==> (rep.result.Success? <==> !io.auditFails)
    ensures rep.result.Success? ==> OwnsList(st, l, caller)
    ensures rep.result.Success? ==> var r := rep.result.value;
      (r.reused <==> HeldKey(st, l).Some?)
      && (r.reused ==> Some(r.key) == HeldKey(st, l))
      && (!r.reused ==> r.key in cands)
    ensures rep.result.Success? ==> var r := rep.result.value;
      rep.st.lists == st.lists[l := st.lists[l].(key := Some(r.key), shareable := true)]
      && rep.st.listGrants == OwnerRow(st.listGrants, l, caller, io.now)
      && rep.st.categoryGrants == st.categoryGrants && rep.st.notifications == st.notifications
      && rep.st.users == st.users && rep.st.categories == st.categories
      && rep.st.audit == st.audit + [AuditEntry("lista", l, caller,
                                                if r.reused then "reactivar_clave" else "generar_clave",
                                                JObject(map["clave" := JStr(r.key), "reutilizada" := JBool(r.reused)]))]
  {
    if caller == 0 then Reply(Failure(Error(BadRequest, MissingParameters)), st)
    else if !OwnsList(st, l, caller) then Reply(Failure(Error(NotFound, ListNotFoundOrNotOwner)), st)
    else if io.auditFails then Reply(Failure(Error(ServerError, Unhandled)), st)
    else
      var held := HeldKey(st, l);
      var reused := held.Some?;
      var key := if reused then held.value else KeyRetry(ListKeys(st), cands, 0);
      var entry := AuditEntry("lista", l, caller, if reused then "reactivar_clave" else "generar_clave",
                              JObject(map["clave" := JStr(key), "reutilizada" := JBool(reused)]));
      Reply(Success(KeyReply(key, reused)),
            st.(lists := st.lists[l := st.lists[l].(key := Some(key), shareable := true)],
                listGrants := OwnerRow(st.listGrants, l, caller, io.now),
                audit := st.audit + [entry]))
  }

  /** Generating a key for a list that has one hands back the same key:
      a second call reuses what the first one stored. */
  lemma GenerateKeyIdempotent(st: State, l: ListId, caller: int, cands: seq<string>, cands2: seq<string>,
                              io: Io, io2: Io)
    requires |cands| == 11 && forall i :: 0 <= i < 11 ==> SharingUtils.IsKeyShaped(cands[i])
    requires |cands2| == 11 && forall i :: 0 <= i < 11 ==> SharingUtils.IsKeyShaped(cands2[i])
    requires GenerateKey(st, l, caller, cands, io).result.Success? && !io2.auditFails
    ensures var first := GenerateKey(st, l, caller, cands, io);
      var second := GenerateKey(first.st, l, caller, cands2, io2);
      second.result == Success(KeyReply(first.result.value.key, true))
  {
    var first := GenerateKey(st, l, caller, cands, io);
    var k := first.result.value.key;
    assert k != "" by {
      if !first.result.value.reused {
        var i :| 0 <= i < 11 && cands[i] == k;
        assert SharingUtils.IsKeyShaped(cands[i]);
      }
    }
    assert first.st.lists[l].key == Some(k);
    assert HeldKey(first.st, l) == Some(k);
  }

  /** A newly generated key is held by no other list unless all ten
      looked-up candidates were taken. */
  lemma GeneratedKeyFresh(st: State, l: ListId, caller: int, cands: seq<string>, io: Io, other: ListId)
    requires |cands| == 11 && forall i :: 0 <= i < 11 ==> SharingUtils.IsKeyShaped(cands[i])
    requires GenerateKey(st, l, caller, cands, io).result.Success?
    requires !GenerateKey(st, l, caller, cands, io).result.value.reused
    requires exists j :: 0 <= j < 10 && cands[j] !in ListKeys(st)
    requires other in st.lists && other != l
    ensures st.lists[other].key != Some(GenerateKey(st, l, caller, cands, io).result.value.key)
  {
  }

  // ---------------------------------------------------------------------
  // Join by key

  datatype JoinReply = JoinReply(list: ListId, role: string)

  /** The lists holding key `k` whose owner exists (the lookup joins the
      owner's user row). */
  function KeyHolders(st: State, k: string): (s: set<ListId>)
    ensures forall l :: l in s <==> l in st.lists && st.lists[l].key == Some(k) && st.lists[l].owner in st.users
  {
    set l | l in st.lists && st.lists[l].key == Some(k) && st.lists[l].owner in st.users
  }

  /** The grant row a join writes, given what obtener found. */
  function JoinRow(t: Table, l: ListId, u: UserId, found: Option<Grant>, owner: UserId, now: int): (res: Result<Table, Error>)
    requires found.Some? ==> (l, u) in t && found.value == t[(l, u)]
    ensures res.Success? ==> Member(res.value, l, u)
    ensures res.Success? ==> res.value.Keys == t.Keys + {(l, u)}
    ensures res.Success? ==> forall k :: k in t && k != (l, u) ==> res.value[k] == t[k]
    ensures found.Some? ==> res.Success? && res.value[(l, u)] == found.value.(active := true, accepted := true, since := now)
    ensures found.None? ==> (res.Success? <==> (l, u) !in t)
    ensures found.None? && res.Success? ==>
      res.value[(l, u)] == Grant(Roles.Collaborator, false, true, true, Some(owner), now)
  {
    if found.Some? then Success(t[(l, u) := found.value.(active := true, accepted := true, since := now)])
    else GrantStore.Create(t, l, u, GrantStore.GrantRequest(Some(Roles.Collaborator), None, Some(owner), Some(true), Some(true)), now)
  }

  /** unirseListaPorClave. In order: 400 for a malformed key, 404 when no
      list holds it, 400 when the caller owns the list, 400 when the
      caller's row is active. An inactive row is re-activated with its
      role kept; with no row a collaborator row shared by the owner is
      created. The reply always names the role 'colaborador'. */
  function JoinByKey(st: State, clave: JsValue, caller: UserId, io: Io): (rep: Reply<JoinReply>)
    ensures rep.result.Failure? ==> rep.st == st
    ensures !SharingUtils.IsValidKey(clave) ==> rep.result == Failure(Error(BadRequest, InvalidKeyFormat))
    ensures SharingUtils.IsValidKey(clave) && KeyHolders(st, clave.s) == {} ==>
      rep.result == Failure(Error(NotFound, KeyNotFound))
    ensures SharingUtils.IsValidKey(clave) && KeyHolders(st, clave.s) != {} ==>
      var l := MinOf(KeyHolders(st, clave.s));
      && (st.lists[l].owner == caller ==> rep.result == Failure(Error(BadRequest, AlreadyOwner)))
      && (st.lists[l].owner != caller && caller in st.users && Active(st.listGrants, l, caller)
          ==> rep.result == Failure(Error(BadRequest, AlreadyMember)))
      && (rep.result.Success? <==> (st.lists[l].owner != caller && !Active(st.listGrants, l, caller)
                                    && (caller in st.users || (l, caller) !in st.listGrants)))
    ensures rep.result.Success? ==> var l := rep.result.value.list;
      SharingUtils.IsValidKey(clave) && l == MinOf(KeyHolders(st, clave.s))
      && st.lists[l].owner != caller
      && !Active(st.listGrants, l, caller)
      && Member(rep.st.listGrants, l, caller)
      && rep.result.value.role == Roles.Collaborator
      && rep.st == st.(listGrants := rep.st.listGrants, audit := rep.st.audit)
      && rep.st.listGrants.Keys == st.listGrants.Keys + {(l, caller)}
      && (forall k :: k in st.listGrants && k != (l, caller) ==> rep.st.listGrants[k] == st.listGrants[k])
      && rep.st.listGrants[(l, caller)]
         == (if (l, caller) in st.listGrants
             then st.listGrants[(l, caller)].(active := true, accepted := true, since := io.now)
             else Grant(Roles.Collaborator, false, true, true, Some(st.lists[l].owner), io.now))
      && rep.st.audit == st.audit + (if io.auditFails then [] else
           [AuditEntry("lista", l, caller, "unirse_por_clave", JObject(map["clave" := clave]))])
  {
    if !SharingUtils.IsValidKey(clave) then Reply(Failure(Error(BadRequest, InvalidKeyFormat)), st)
    else
      var found := FirstId(KeyHolders(st, clave.s));
      if found.None? then Reply(Failure(Error(NotFound, KeyNotFound)), st)
      else
        var l := found.value;
        var owner := st.lists[l].owner;
        if owner == caller then Reply(Failure(Error(BadRequest, AlreadyOwner)), st)
        else
          var row := GrantStore.Find(st.users, st.listGrants, l, caller);
          if row.Some? && row.value.active then Reply(Failure(Error(BadRequest, AlreadyMember)), st)
          else
            var t' := JoinRow(st.listGrants, l, caller, row, owner, io.now);
            if t'.Failure? then Reply(Failure(t'.error), st)
            else
              var log := Audit.RegisterShared(st.audit, "lista", l, caller, "unirse_por_clave",
                                              JObject(map["clave" := clave]), io.auditFails).1;
              Reply(Success(JoinReply(l, Roles.Collaborator)), st.(listGrants := t'.value, audit := log))
  }

  /** Rejoining by key after having left gives back the role the caller
      had before. */
  lemma JoinKeepsRole(st: State, clave: JsValue, caller: UserId, io: Io)
    requires JoinByKey(st, clave, caller, io).result.Success?
    requires var l := JoinByKey(st, clave, caller, io).result.value.list;
      (l, caller) in st.listGrants && caller in st.users
    ensures var rep := JoinByKey(st, clave, caller, io); var l := rep.result.value.list;
      rep.st.listGrants[(l, caller)].role == st.listGrants[(l, caller)].role
      && rep.st.listGrants[(l, caller)].isCreator == st.listGrants[(l, caller)].isCreator
  {
  }

  /** Joining twice with the same key: the second attempt finds the
      caller already an active member and is refused. */
  lemma JoinTwiceRefused(st: State, clave: JsValue, caller: UserId, io: Io, io2: Io)
    requires JoinByKey(st, clave, caller, io).result.Success?
    requires caller in st.users
    ensures JoinByKey(JoinByKey(st, clave, caller, io).st, clave, caller, io2).result
            == Failure(Error(BadRequest, AlreadyMember))
  {
    var rep := JoinByKey(st, clave, caller, io);
    assert KeyHolders(rep.st, clave.s) == KeyHolders(st, clave.s);
  }

  /** A first join creates a collaborator row shared by the owner. */
  lemma JoinCreatesCollaborator(st: State, clave: JsValue, caller: UserId, io: Io)
    requires JoinByKey(st, clave, caller, io).result.Success?
    requires (JoinByKey(st, clave, caller, io).result.value.list, caller) !in st.listGrants
    ensures var rep := JoinByKey(st, clave, caller, io); var l := rep.result.value.list;
      rep.st.listGrants[(l, caller)] == Grant(Roles.Collaborator, false, true, true, Some(st.lists[l].owner), io.now)
  {
  }

  // ---------------------------------------------------------------------
  // Invitation (direct grant)

  /** The first user registered under `email` (the lookup has no order). */
  function UserByEmail(st: State, email: Option<string>): (u: Option<UserId>)
    ensures u.Some? ==> email.Some? && u.value in st.users && st.users[u.value].email == email.value
    ensures email.Some? && UsersWithEmail(st, email.value) != {} ==> u.Some?
  {
    if email.None? then None else FirstId(UsersWithEmail(st, email.value))
  }

  /** The data of an invitation notification. */
  function InviteData(l: ListId, listName: string, rol: string, inviter: string, caller: UserId): JsValue {
    JObject(map["idLista" := JNum(l), "listaId" := JNum(l), "listaNombre" := JStr(listName),
                "rol" := JStr(rol), "invitadoPor" := JStr(inviter), "invitadoPorId" := JNum(caller)])
  }

  /** The notification an invitation sends to the invitee. */
  function InviteNotice(st: State, l: ListId, u: UserId, rol: string, caller: UserId): (n: Notification)
    requires l in st.lists && caller in st.users
    ensures n.user == u && n.kind == Notifications.InvitationKind && !n.read
    ensures n.data == InviteData(l, st.lists[l].name, rol, st.users[caller].name, caller)
  {
    var inviter := st.users[caller].name;
    var name := st.lists[l].name;
    Notification(u, Notifications.InvitationKind, "Nueva invitaci\U{F3}n a lista",
                 inviter + " te invit\U{F3} a \"" + name + "\" como " + rol,
                 InviteData(l, name, rol, inviter, caller), false)
  }

  /** The audit details of an invitation. */
  function InviteDetails(email: string, u: UserId, rol: string): JsValue {
    JObject(map["emailInvitado" := JStr(email), "idUsuarioInvitado" := JNum(u), "rol" := JStr(rol)])
  }

  /** The row an invitation inserts: active, accepted, not the creator's. */
  function InvitedRow(rol: string, caller: UserId, now: int): (g: Grant)
    ensures g.active && g.accepted && !g.isCreator && g.sharedBy == Some(caller)
    ensures g.role == Roles.ToStored(rol)
  {
    Grant(Roles.ToStored(rol), false, true, true, Some(caller), now)
  }

  /** invitarUsuarioLista. In order: 400 for a role outside the accepted
      names; 403 unless the caller owns the list or is an active admin;
      404 when no user has the e-mail; 400 when that user owns the list;
      400 when that user has any row for the list, even an inactive one;
      404 when the list does not exist. Then the row is inserted, the list
      becomes shareable, and the invitee is notified; a missing inviter
      or a failing notification is a 500 that undoes the step. The audit
      entry is best-effort. The reply names the invitee. */
  function Invite(st: State, l: ListId, email: Option<string>, rol: Option<string>, caller: UserId, io: Io)
    : (rep: Reply<UserId>)
    ensures rep.result.Failure? ==> rep.st == st
    ensures !AcceptedRole(rol) ==> rep.result == Failure(Error(BadRequest, InvalidRole))
    ensures AcceptedRole(rol) && !CanManage(st, l, caller) ==> rep.result == Failure(Error(Forbidden, NoPermission))
    ensures AcceptedRole(rol) && CanManage(st, l, caller) && UserByEmail(st, email).None? ==>
      rep.result == Failure(Error(NotFound, UserNotFound))
    ensures AcceptedRole(rol) && CanManage(st, l, caller) && UserByEmail(st, email).Some? ==>
      var u := UserByEmail(st, email).value;
      && (OwnsList(st, l, u) ==> rep.result == Failure(Error(BadRequest, TargetIsOwner)))
      && (!OwnsList(st, l, u) && (l, u) in st.listGrants ==> rep.result == Failure(Error(BadRequest, AlreadyHasAccess)))
      && (rep.result.Success? <==> (!OwnsList(st, l, u) && (l, u) !in st.listGrants && l in st.lists
                                    && caller in st.users && u != 0))
    ensures rep.result.Success? ==> var u := rep.result.value;
      AcceptedRole(rol) && CanManage(st, l, caller) && l in st.lists
      && Some(u) == UserByEmail(st, email) && !OwnsList(st, l, u) && (l, u) !in st.listGrants
      && caller in st.users && email.Some?
      && rep.st == st.(listGrants := st.listGrants[(l, u) := InvitedRow(rol.value, caller, io.now)],
                       lists := st.lists[l := st.lists[l].(shareable := true)],
                       notifications := rep.st.notifications, audit := rep.st.audit)
      && Notified(st.notifications, rep.st.notifications, InviteNotice(st, l, u, rol.value, caller))
      && rep.st.audit == st.audit + (if io.auditFails then [] else
           [AuditEntry("lista", l, caller, "invitar_usuario", InviteDetails(email.value, u, rol.value))])
  {
    if !AcceptedRole(rol) then Reply(Failure(Error(BadRequest, InvalidRole)), st)
    else if !CanManage(st, l, caller) then Reply(Failure(Error(Forbidden, NoPermission)), st)
    else
      var target := UserByEmail(st, email);
      if target.None? then Reply(Failure(Error(NotFound, UserNotFound)), st)
      else
        var u := target.value;
        if OwnsList(st, l, u) then Reply(Failure(Error(BadRequest, TargetIsOwner)), st)
        else if (l, u) in st.listGrants then Reply(Failure(Error(BadRequest, AlreadyHasAccess)), st)
        else if l !in st.lists then Reply(Failure(Error(NotFound, ListNotFound)), st)
        else if caller !in st.users then Reply(Failure(Error(ServerError, Unhandled)), st)
        else
          var st1 := st.(listGrants := st.listGrants[(l, u) := InvitedRow(rol.value, caller, io.now)],
                         lists := st.lists[l := st.lists[l].(shareable := true)]);
          var n := InviteNotice(st, l, u, rol.value, caller);
          var note := Notifications.Create(st1, n.user, n.kind, n.title, n.message, n.data);
          if note.Failure? then Reply(Failure(Error(ServerError, Unhandled)), st)
          else
            var st2 := note.value.1;
            var entry := AuditEntry("lista", l, caller, "invitar_usuario", InviteDetails(email.value, u, rol.value));
            var log := Audit.Append(st2.audit, entry, io.auditFails).1;
            Reply(Success(u), st2.(audit := log))
  }

  /** Sending the same invitation twice: the invitee now holds a row, so
      the second one is refused as already having access. */
  lemma InviteTwiceRefused(st: State, l: ListId, email: Option<string>, rol: Option<string>, caller: UserId,
                           io: Io, io2: Io)
    requires Invite(st, l, email, rol, caller, io).result.Success?
    ensures Invite(Invite(st, l, email, rol, caller, io).st, l, email, rol, caller, io2).result
            == Failure(Error(BadRequest, AlreadyHasAccess))
  {
    var rep := Invite(st, l, email, rol, caller, io);
    var u := rep.result.value;
    assert u != caller;
    assert CanManage(rep.st, l, caller);
    assert UserByEmail(rep.st, email) == UserByEmail(st, email);
  }

  /** An invitation never creates a creator row and never touches the
      caller's own row or anyone else's. */
  lemma InviteFrame(st: State, l: ListId, email: Option<string>, rol: Option<string>, caller: UserId, io: Io,
                    l2: ListId, v: UserId)
    requires Invite(st, l, email, rol, caller, io).result.Success?
    requires (l2, v) != (l, Invite(st, l, email, rol, caller, io).result.value)
    ensures var t' := Invite(st, l, email, rol, caller, io).st.listGrants;
      ((l2, v) in t' <==> (l2, v) in st.listGrants) && ((l2, v) in t' ==> t'[(l2, v)] == st.listGrants[(l2, v)])
  {
  }

  // ---------------------------------------------------------------------
  // Role change

  /** What a role change does to the target's row, before notification:
      no row but an active grant on the list's category inserts an
      accepted, active row at the new role shared by the owner; no row and
      no such grant is 404; the creator's row is 403; otherwise the role
      changes. */
  function RoleWrite(st: State, l: ListId, target: UserId, stored: string, now: int): (res: Result<Table, Error>)
    requires l in st.lists
    ensures res.Failure? ==> res.error.status == NotFound || res.error == Error(Forbidden, CreatorProtected)
    ensures (l, target) in st.listGrants ==>
      (st.listGrants[(l, target)].isCreator <==> res == Failure(Error(Forbidden, CreatorProtected)))
    ensures (l, target) in st.listGrants && !st.listGrants[(l, target)].isCreator ==>
      res == Success(st.listGrants[(l, target) := st.listGrants[(l, target)].(role := stored)])
    ensures (l, target) !in st.listGrants ==>
      (res.Success? <==> st.lists[l].category.Some? && Active(st.categoryGrants, st.lists[l].category.value, target))
    ensures (l, target) !in st.listGrants && res.Success? ==>
      res.value == st.listGrants[(l, target) := Grant(stored, false, true, true, Some(st.lists[l].owner), now)]
  {
    var t := st.listGrants;
    if (l, target) !in t then
      var c := st.lists[l].category;
      if c.Some? && Active(st.categoryGrants, c.value, target) then
        Success(t[(l, target) := Grant(stored, false, true, true, Some(st.lists[l].owner), now)])
      else Failure(Error(NotFound, TargetNotFound))
    else if t[(l, target)].isCreator then Failure(Error(Forbidden, CreatorProtected))
    else
      var (_, t') := GrantStore.UpdateRole(t, l, target, stored);
      Success(t')
  }

  /** The target's role before a role change, in front-end names, or null
      when the target had no row. */
  function PreviousRole(st: State, l: ListId, target: UserId): (r: JsValue)
    ensures (l, target) in st.listGrants ==> r == JStr(Roles.ToFrontend(st.listGrants[(l, target)].role))
    ensures (l, target) !in st.listGrants ==> r == JNull
  {
    if (l, target) in st.listGrants then JStr(Roles.ToFrontend(st.listGrants[(l, target)].role)) else JNull
  }

  /** The notification a role change sends to the target. */
  function RoleNotice(st: State, l: ListId, target: UserId, rol: string, caller: UserId): (n: Notification)
    requires l in st.lists && caller in st.users
    ensures n.user == target && n.kind == "cambio_rol_lista" && !n.read
    ensures Get(n.data, "nuevoRol") == JStr(rol) && Get(n.data, "rolAnterior") == PreviousRole(st, l, target)
  {
    var list := st.lists[l];
    var modifier := st.users[caller].name;
    var data := JObject(map["idLista" := JNum(l), "listaId" := JNum(l), "listaNombre" := JStr(list.name),
                            "nuevoRol" := JStr(rol), "rolAnterior" := PreviousRole(st, l, target),
                            "modificadoPor" := JStr(modifier), "modificadoPorId" := JNum(caller)]);
    Notification(target, "cambio_rol_lista", "\U{1F504} Cambio de rol",
                 modifier + " cambi\U{F3} tu rol en \"" + list.name + "\" a " + rol, data, false)
  }

  /** The audit details of a role change. The target's id is logged as the
      route parameter, that is, as text. */
  function RoleDetails(st: State, l: ListId, target: UserId, rol: string): (d: JsValue)
    requires target in st.users
    ensures Get(d, "idUsuarioModificado") == JStr(Text.IntToString(target))
  {
    JObject(map["idUsuarioModificado" := JStr(Text.IntToString(target)),
                "nombreUsuarioModificado" := JStr(st.users[target].name),
                "nuevoRol" := JStr(rol), "rolAnterior" := PreviousRole(st, l, target)])
  }

  /** modificarRolLista. In order: 400 for a role outside the accepted
      names, 404 for a missing list, 403 unless owner or active admin, then
      RoleWrite. A missing caller or a failing notification is a 500 that
      undoes the step; the audit entry is best-effort and skipped when the
      target has no user row. A target without a user row is answered with
      a 500 after the commit, so that error comes with the changed state. */
  function ModifyRole(st: State, l: ListId, target: UserId, rol: Option<string>, caller: UserId, io: Io)
    : (rep: Reply<UserId>)
    ensures rep.result.Failure? && rep.st != st ==>
      rep.result.error == Error(ServerError, Unhandled) && target !in st.users
    ensures !AcceptedRole(rol) ==> rep.result == Failure(Error(BadRequest, InvalidRole))
    ensures AcceptedRole(rol) && l !in st.lists ==> rep.result == Failure(Error(NotFound, ListNotFound))
    ensures AcceptedRole(rol) && l in st.lists && !CanManage(st, l, caller) ==>
      rep.result == Failure(Error(Forbidden, NoPermission))
    ensures rep.st != st || rep.result.Success? ==> (AcceptedRole(rol) && l in st.lists && CanManage(st, l, caller)
      && RoleWrite(st, l, target, Roles.ToStored(rol.value), io.now).Success?
      && caller in st.users && target != 0
      && rep.st == st.(listGrants := RoleWrite(st, l, target, Roles.ToStored(rol.value), io.now).value,
                       notifications := rep.st.notifications, audit := rep.st.audit)
      && Notified(st.notifications, rep.st.notifications, RoleNotice(st, l, target, rol.value, caller))
      && rep.st.audit == st.audit + (if io.auditFails || target !in st.users then [] else
           [AuditEntry("lista", l, caller, "modificar_rol", RoleDetails(st, l, target, rol.value))]))
    ensures rep.result.Success? ==> rep.result.value == target && target in st.users
    ensures rep.result.Success? <==> (AcceptedRole(rol) && l in st.lists && CanManage(st, l, caller)
      && RoleWrite(st, l, target, Roles.ToStored(rol.value), io.now).Success?
      && caller in st.users && target != 0 && target in st.users)
  {
    if !AcceptedRole(rol) then Reply(Failure(Error(BadRequest, InvalidRole)), st)
    else if l !in st.lists then Reply(Failure(Error(NotFound, ListNotFound)), st)
    else if !CanManage(st, l, caller) then Reply(Failure(Error(Forbidden, NoPermission)), st)
    else
      var stored := Roles.ToStored(rol.value);
      var w := RoleWrite(st, l, target, stored, io.now);
      if w.Failure? then Reply(Failure(w.error), st)
      else if caller !in st.users then Reply(Failure(Error(ServerError, Unhandled)), st)
      else
        var n := RoleNotice(st, l, target, rol.value, caller);
        var note := Notifications.Create(st.(listGrants := w.value), n.user, n.kind, n.title, n.message, n.data);
        if note.Failure? then Reply(Failure(Error(ServerError, Unhandled)), st)
        else
          var st2 := note.value.1;
          if target !in st.users then Reply(Failure(Error(ServerError, Unhandled)), st2)
          else
            var entry := AuditEntry("lista", l, caller, "modificar_rol", RoleDetails(st, l, target, rol.value));
            var log := Audit.Append(st2.audit, entry, io.auditFails).1;
            Reply(Success(target), st2.(audit := log))
  }

  /** The creator's row never changes role. */
  lemma ModifyRoleSparesCreator(st: State, l: ListId, target: UserId, rol: Option<string>, caller: UserId, io: Io)
    requires (l, target) in st.listGrants && st.listGrants[(l, target)].isCreator
    ensures ModifyRole(st, l, target, rol, caller, io).st.listGrants == st.listGrants
    ensures ModifyRole(st, l, target, rol, caller, io).result.Failure?
  {
  }

  /** A role change for a user who only has access through the list's
      category materialises a list row holding the new role. */
  lemma ModifyRoleMaterialises(st: State, l: ListId, target: UserId, rol: Option<string>, caller: UserId, io: Io)
    requires ModifyRole(st, l, target, rol, caller, io).result.Success?
    requires (l, target) !in st.listGrants
    ensures var c := st.lists[l].category;
      c.Some? && Active(st.categoryGrants, c.value, target)
    ensures var t' := ModifyRole(st, l, target, rol, caller, io).st.listGrants;
      Member(t', l, target) && t'[(l, target)].role == Roles.ToStored(rol.value) && !t'[(l, target)].isCreator
  {
    var rep := ModifyRole(st, l, target, rol, caller, io);
    assert rep.st != st by {
      assert (l, target) in rep.st.listGrants;
    }
  }

  // ---------------------------------------------------------------------
  // Revocation, leaving, unsharing

  /** The notification a revocation sends to the target. */
  function RevokeNotice(st: State, l: ListId, target: UserId, caller: UserId): (n: Notification)
    requires l in st.lists
    ensures n.user == target && n.kind == "otro" && !n.read
    ensures Get(n.data, "idLista") == JNum(l)
  {
    var list := st.lists[l];
    var who := if caller in st.users && st.users[caller].name != "" then st.users[caller].name else "Un administrador";
    var data := JObject(map["idLista" := JNum(l), "listaId" := JNum(l), "listaNombre" := JStr(list.name),
                            "revocadoPor" := (if caller in st.users then JStr(st.users[caller].name) else JUndefined),
                            "revocadoPorId" := JNum(caller)]);
    Notification(target, "otro", " Acceso revocado", who + " te quit\U{F3} el acceso a \"" + list.name + "\"", data, false)
  }

  /** The audit details of a revocation. The target's id is logged as the
      route parameter, that is, as text. */
  function RevokeDetails(st: State, target: UserId): (d: JsValue)
    requires target in st.users
    ensures Get(d, "idUsuarioRevocado") == JStr(Text.IntToString(target))
  {
    JObject(map["idUsuarioRevocado" := JStr(Text.IntToString(target)),
                "nombreUsuarioRevocado" := JStr(st.users[target].name)])
  }

  /** revocarAccesoLista. In order: 404 for a missing list, 403 unless
      owner or active admin, 404 when the target has no row (or no user
      row), 403 for the creator's row. The row is deactivated and the
      target notified; the notification is addressed by the route text,
      which is never falsy, so its check always passes. A failing audit
      entry (inside the transaction) is a 500 that undoes the step. */
  function Revoke(st: State, l: ListId, target: UserId, caller: UserId, io: Io): (rep: Reply<UserId>)
    ensures rep.result.Failure? ==> rep.st == st
    ensures l !in st.lists ==> rep.result == Failure(Error(NotFound, ListNotFound))
    ensures l in st.lists && !CanManage(st, l, caller) ==> rep.result == Failure(Error(Forbidden, NoPermission))
    ensures (l in st.lists && CanManage(st, l, caller) && (l, target) in st.listGrants && target in st.users
             && st.listGrants[(l, target)].isCreator) ==> rep.result == Failure(Error(Forbidden, CreatorProtected))
    ensures l in st.lists && CanManage(st, l, caller) && !((l, target) in st.listGrants && target in st.users) ==>
      rep.result == Failure(Error(NotFound, TargetNotFound))
    ensures rep.result.Success? <==> (l in st.lists && CanManage(st, l, caller) && (l, target) in st.listGrants
      && target in st.users && !st.listGrants[(l, target)].isCreator && !io.auditFails)
    ensures rep.result.Success? ==> (rep.result.value == target
      && CanManage(st, l, caller) && (l, target) in st.listGrants && target in st.users
      && !st.listGrants[(l, target)].isCreator
      && rep.st == st.(listGrants := st.listGrants[(l, target) := st.listGrants[(l, target)].(active := false)],
                       notifications := rep.st.notifications, audit := rep.st.audit)
      && Notified(st.notifications, rep.st.notifications, RevokeNotice(st, l, target, caller))
      && rep.st.audit == st.audit + [AuditEntry("lista", l, caller, "revocar_acceso", RevokeDetails(st, target))])
  {
    if l !in st.lists then Reply(Failure(Error(NotFound, ListNotFound)), st)
    else if !CanManage(st, l, caller) then Reply(Failure(Error(Forbidden, NoPermission)), st)
    else if !((l, target) in st.listGrants && target in st.users) then Reply(Failure(Error(NotFound, TargetNotFound)), st)
    else if st.listGrants[(l, target)].isCreator then Reply(Failure(Error(Forbidden, CreatorProtected)), st)
    else
      var (_, t') := GrantStore.Revoke(st.listGrants, l, target);
      var n := RevokeNotice(st, l, target, caller);
      var st2 := Notifications.Insert(st.(listGrants := t'), n.user, n.kind, n.title, n.message, n.data).1;
      if io.auditFails then Reply(Failure(Error(ServerError, Unhandled)), st)
      else
        var entry := AuditEntry("lista", l, caller, "revocar_acceso", RevokeDetails(st, target));
        Reply(Success(target), st2.(audit := st2.audit + [entry]))
  }

  /** salirDeLista: 404 without a row (joined with the user), 403 for the
      creator's row; otherwise the caller's row is deactivated. */
  function Leave(st: State, l: ListId, caller: UserId, io: Io): (rep: Reply<ListId>)
    ensures rep.result.Failure? ==> rep.st == st
    ensures rep.result.Success? <==> (l, caller) in st.listGrants && caller in st.users && !st.listGrants[(l, caller)].isCreator
    ensures rep.result.Success? ==>
      rep.st == st.(listGrants := st.listGrants[(l, caller) := st.listGrants[(l, caller)].(active := false)],
                    audit := st.audit + (if io.auditFails then [] else
                              [AuditEntry("lista", l, caller, "salir", JObject(map[]))]))
  {
    var row := GrantStore.Find(st.users, st.listGrants, l, caller);
    if row.None? then Reply(Failure(Error(NotFound, NotShared)), st)
    else if row.value.isCreator then Reply(Failure(Error(Forbidden, CreatorProtected)), st)
    else
      var t' := GrantStore.Revoke(st.listGrants, l, caller).1;
      var log := Audit.RegisterShared(st.audit, "lista", l, caller, "salir", JObject(map[]), io.auditFails).1;
      Reply(Success(l), st.(listGrants := t', audit := log))
  }

  /** descompartirLista: 403 unless the caller owns the list; otherwise
      every row of the list is deleted, the creator's included, the key is
      cleared and the list is no longer shareable. */
  function Unshare(st: State, l: ListId, caller: UserId, io: Io): (rep: Reply<ListId>)
    ensures rep.result.Failure? ==> rep.st == st
    ensures rep.result.Success? <==> OwnsList(st, l, caller)
    ensures rep.result.Success? ==>
      rep.st == st.(listGrants := DropResource(st.listGrants, l),
                    lists := st.lists[l := st.lists[l].(key := None, shareable := false)],
                    audit := st.audit + (if io.auditFails then [] else
                              [AuditEntry("lista", l, caller, "descompartir", JObject(map[]))]))
  {
    if !OwnsList(st, l, caller) then Reply(Failure(Error(Forbidden, NoPermission)), st)
    else
      var log := Audit.RegisterShared(st.audit, "lista", l, caller, "descompartir", JObject(map[]), io.auditFails).1;
      Reply(Success(l), st.(listGrants := DropResource(st.listGrants, l),
                            lists := st.lists[l := st.lists[l].(key := None, shareable := false)],
                            audit := log))
  }

  /** After unsharing, nobody holds a row for the list and its key no
      longer lets anyone join. */
  lemma UnshareClosesList(st: State, l: ListId, caller: UserId, io: Io, u: UserId, clave: JsValue, joiner: UserId, io2: Io)
    requires Unshare(st, l, caller, io).result.Success?
    ensures (l, u) !in Unshare(st, l, caller, io).st.listGrants
    ensures JoinByKey(Unshare(st, l, caller, io).st, clave, joiner, io2).result.Success? ==>
      JoinByKey(Unshare(st, l, caller, io).st, clave, joiner, io2).result.value.list != l
  {
    var st' := Unshare(st, l, caller, io).st;
    if JoinByKey(st', clave, joiner, io2).result.Success? {
      var m := JoinByKey(st', clave, joiner, io2).result.value.list;
      assert m in KeyHolders(st', clave.s);
    }
  }

  /** The creator's row survives every handler but unshare: no role
      change, revocation or leave alters it. */
  lemma CreatorRowSurvives(st: State, l: ListId, u: UserId, rol: Option<string>, caller: UserId, io: Io)
    requires (l, u) in st.listGrants && st.listGrants[(l, u)].isCreator
    ensures ModifyRole(st, l, u, rol, caller, io).st.listGrants == st.listGrants
    ensures Revoke(st, l, u, caller, io).st.listGrants == st.listGrants
    ensures Leave(st, l, u, io).st.listGrants == st.listGrants
  {
  }
}
