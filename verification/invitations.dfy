/** Invitations: the notification-only invite of the invitation controller
    (it writes no grant row; the invitee's acceptance does), and the
    invitation table with its token lifecycle: lookup by token, the
    pending invitations of an address, and acceptance, which retires the
    token. */
module Invitations {
  import opened Wrappers
  import opened Js
  import opened Store
  import opened Collections
  import Roles
  import Notifications
  import ListSharing

  // ---------------------------------------------------------------------
  // invitarUsuarioLista (notification only)

  /** The first row of the permission UNION as written: the caller's grant
      row, in whatever state, comes first with its role; 'propietario'
      only when there is no row and the caller owns the list. */
  function UnionFirstRole(st: State, l: ListId, caller: UserId): (r: Option<string>)
    ensures (l, caller) in st.listGrants ==> r == Some(st.listGrants[(l, caller)].role)
    ensures (l, caller) !in st.listGrants ==> (r.Some? <==> OwnsList(st, l, caller))
    ensures (l, caller) !in st.listGrants && r.Some? ==> r.value == Roles.Owner
  {
    if (l, caller) in st.listGrants then Some(st.listGrants[(l, caller)].role)
    else if OwnsList(st, l, caller) then Some(Roles.Owner)
    else None
  }

  /** The permission check as written: the first UNION row must read
      'propietario' or 'admin'. */
  function MayInviteAsWritten(st: State, l: ListId, caller: UserId): (ok: bool)
    ensures (l, caller) in st.listGrants ==>
      (ok <==> st.listGrants[(l, caller)].role == Roles.Owner || st.listGrants[(l, caller)].role == Roles.Admin)
    ensures (l, caller) !in st.listGrants ==> (ok <==> OwnsList(st, l, caller))
  {
    var r := UnionFirstRole(st, l, caller);
    r.Some? && (r.value == Roles.Owner || r.value == Roles.Admin)
  }

  /** The permission check as intended, and as the list-sharing
      controller's own invite enforces it: the owner or an active
      admin. */
  function MayInvite(st: State, l: ListId, caller: UserId): (ok: bool)
    ensures OwnsList(st, l, caller) ==> ok
    ensures !OwnsList(st, l, caller) ==>
      (ok <==> Active(st.listGrants, l, caller) && st.listGrants[(l, caller)].role == Roles.Admin)
  {
    ListSharing.CanManage(st, l, caller)
  }

  /** The data an invitation notification carries; the role goes in as
      the request gave it. */
  function NoticeData(l: ListId, listName: string, inviter: string, caller: UserId, rol: JsValue): (d: JsValue)
    ensures Get(d, "listaId") == JNum(l) && Get(d, "rol") == rol && Get(d, "invitadoPorId") == JNum(caller)
    ensures Truthy(d)
  {
    JObject(map["listaId" := JNum(l), "listaNombre" := JStr(listName), "invitadoPor" := JStr(inviter),
                "invitadoPorId" := JNum(caller), "rol" := rol])
  }

  /** The notification-only invite, given the outcome of the permission
      check: 403 when it fails; 404 for an unknown address; 400 when the
      invitee holds any row for the list, even an inactive one; a missing
      list or inviter is a 500. Otherwise only a notification is written:
      no grant row, no change to the list. Failures roll back. */
  function InviteWith(st: State, l: ListId, email: Option<string>, rol: JsValue, caller: UserId,
                      permitted: bool): (rep: Reply<UserId>)
    ensures rep.result.Failure? ==> rep.st == st
    ensures !permitted ==> rep.result == Failure(Error(Forbidden, NoPermission))
    ensures permitted && ListSharing.UserByEmail(st, email).None? ==> rep.result == Failure(Error(NotFound, UserNotFound))
    ensures rep.result.Success? ==> var u := rep.result.value;
      && permitted && Some(u) == ListSharing.UserByEmail(st, email) && (l, u) !in st.listGrants
      && l in st.lists && caller in st.users
      && rep.st.listGrants == st.listGrants && rep.st.lists == st.lists
      && exists id :: id !in st.notifications
           && rep.st == st.(notifications := st.notifications[id := Notification(u, Notifications.InvitationKind,
                  st.users[caller].name + " te invit\U{F3} a una lista",
                  "Has sido invitado a colaborar en la lista \"" + st.lists[l].name + "\" como " + Show(rol),
                  NoticeData(l, st.lists[l].name, st.users[caller].name, caller, rol), false)])
  {
    if !permitted then Reply(Failure(Error(Forbidden, NoPermission)), st)
    else
      var target := ListSharing.UserByEmail(st, email);
      if target.None? then Reply(Failure(Error(NotFound, UserNotFound)), st)
      else
        var u := target.value;
        if (l, u) in st.listGrants then Reply(Failure(Error(BadRequest, AlreadyHasAccess)), st)
        else if l !in st.lists || caller !in st.users then Reply(Failure(Error(ServerError, Unhandled)), st)
        else
          var inviter := st.users[caller].name;
          var name := st.lists[l].name;
          var note := Notifications.Create(st, u, Notifications.InvitationKind,
                                           inviter + " te invit\U{F3} a una lista",
                                           "Has sido invitado a colaborar en la lista \"" + name + "\" como " + Show(rol),
                                           NoticeData(l, name, inviter, caller, rol));
          if note.Failure? then Reply(Failure(Error(ServerError, Unhandled)), st)
          else Reply(Success(u), note.value.1)
  }

  /** invitarUsuarioLista as written. */
  function InviteAsWritten(st: State, l: ListId, email: Option<string>, rol: JsValue, caller: UserId)
    : (rep: Reply<UserId>)
    ensures rep.result.Success? ==> MayInviteAsWritten(st, l, caller)
  {
    InviteWith(st, l, email, rol, caller, MayInviteAsWritten(st, l, caller))
  }

  /** invitarUsuarioLista with the intended permission check. */
  function Invite(st: State, l: ListId, email: Option<string>, rol: JsValue, caller: UserId)
    : (rep: Reply<UserId>)
    ensures rep.result.Success? ==> OwnsList(st, l, caller) || ActiveListAdmin(st, l, caller)
    ensures !MayInvite(st, l, caller) ==> rep == Reply(Failure(Error(Forbidden, NoPermission)), st)
  {
    InviteWith(st, l, email, rol, caller, MayInvite(st, l, caller))
  }

  /** A revoked admin (an inactive row with role 'admin') passes the
      permission check as written, though the intended check refuses
      them. */
  lemma RevokedAdminMayInviteAsWritten()
    ensures var st := State(map[1 := User("o", "o@x"), 2 := User("a", "a@x"), 3 := User("t", "t@x")], map[],
                            map[10 := List(1, "l", None, None, true)],
                            map[(10, 2) := Grant(Roles.Admin, false, true, false, Some(1), 0)], map[],
                            map[], []);
      && MayInviteAsWritten(st, 10, 2) && !MayInvite(st, 10, 2)
      && InviteAsWritten(st, 10, Some("t@x"), JStr("colaborador"), 2).result == Success(3)
      && Invite(st, 10, Some("t@x"), JStr("colaborador"), 2).result == Failure(Error(Forbidden, NoPermission))
  {
    var st := State(map[1 := User("o", "o@x"), 2 := User("a", "a@x"), 3 := User("t", "t@x")], map[],
                    map[10 := List(1, "l", None, None, true)],
                    map[(10, 2) := Grant(Roles.Admin, false, true, false, Some(1), 0)], map[],
                    map[], []);
    assert UsersWithEmail(st, "t@x") == {3};
  }

  /** Where the two checks differ: the written one alone lets through a
      row that is inactive (or reads 'propietario'); the intended one alone
      lets through an owner whose own row is not admin. */
  lemma InvitePermissionDifference(st: State, l: ListId, caller: UserId)
    ensures MayInviteAsWritten(st, l, caller) && !MayInvite(st, l, caller) ==>
      (l, caller) in st.listGrants && (!st.listGrants[(l, caller)].active || st.listGrants[(l, caller)].role == Roles.Owner)
    ensures MayInvite(st, l, caller) && !MayInviteAsWritten(st, l, caller) ==>
      OwnsList(st, l, caller) && (l, caller) in st.listGrants && st.listGrants[(l, caller)].role != Roles.Admin
  {
  }

  /** An invitation the invitee then accepts gives them an active,
      accepted row on the list, with the invited role translated to the
      stored vocabulary. */
  lemma InviteThenAccept(st: State, l: ListId, email: Option<string>, rol: string, caller: UserId, now: int)
    requires Invite(st, l, email, JStr(rol), caller).result.Success?
    ensures var rep := Invite(st, l, email, JStr(rol), caller); var u := rep.result.value;
      exists id :: Notifications.OwnInvitation(rep.st, id, u)
        && Notifications.Accept(rep.st, id, u, now).result == Success(l)
        && Member(Notifications.Accept(rep.st, id, u, now).st.listGrants, l, u)
        && Notifications.Accept(rep.st, id, u, now).st.listGrants[(l, u)].role == Roles.ToStored(rol)
  {
    var rep := Invite(st, l, email, JStr(rol), caller);
    var u := rep.result.value;
    assert u in st.users;
    var id :| id !in st.notifications
      && rep.st == st.(notifications := st.notifications[id := Notification(u, Notifications.InvitationKind,
             st.users[caller].name + " te invit\U{F3} a una lista",
             "Has sido invitado a colaborar en la lista \"" + st.lists[l].name + "\" como " + Show(JStr(rol)),
             NoticeData(l, st.lists[l].name, st.users[caller].name, caller, JStr(rol)), false)]);
    var n := rep.st.notifications[id];
    assert Get(n.data, "listaId") == JNum(l);
    assert Get(n.data, "rol") == JStr(rol);
    assert u != 0 by {
      assert Notifications.Create(st, u, Notifications.InvitationKind,
                                  st.users[caller].name + " te invit\U{F3} a una lista",
                                  "Has sido invitado a colaborar en la lista \"" + st.lists[l].name + "\" como " + Show(JStr(rol)),
                                  NoticeData(l, st.lists[l].name, st.users[caller].name, caller, JStr(rol))).Success?;
    }
    assert Notifications.OwnInvitation(rep.st, id, u);
  }

  // ---------------------------------------------------------------------
  // The invitation table (invitacion.js, and its twin in the category
  // model file)

  datatype Invitation = Invitation(kind: string, entity: int, email: string, role: string, token: string,
                                   invitedBy: UserId, sentAt: int, expires: Option<int>,
                                   accepted: bool, active: bool)

  type Invitations = map<int, Invitation>

  /** crear: the row with the given fields, active and not accepted; the
      new id is fresh. */
  function Create(invs: Invitations, kind: string, entity: int, email: string, role: string, token: string,
                  invitedBy: UserId, now: int, expires: Option<int>): (res: (int, Invitations))
    ensures res.0 !in invs && res.1 == invs[res.0 := Invitation(kind, entity, email, role, token, invitedBy,
                                                                 now, expires, false, true)]
  {
    var id := FreshId(invs.Keys);
    (id, invs[id := Invitation(kind, entity, email, role, token, invitedBy, now, expires, false, true)])
  }

  /** The name of the invited-to entity: the category's for 'categoria',
      the list's for 'lista', otherwise (or when it is gone) null. */
  function EntityName(st: State, inv: Invitation): (name: Option<string>)
    ensures inv.kind == "categoria" && inv.entity in st.categories ==> name == Some(st.categories[inv.entity].name)
    ensures inv.kind == "lista" && inv.entity in st.lists ==> name == Some(st.lists[inv.entity].name)
    ensures inv.kind != "categoria" && inv.kind != "lista" ==> name.None?
  {
    if inv.kind == "categoria" then (if inv.entity in st.categories then Some(st.categories[inv.entity].name) else None)
    else if inv.kind == "lista" then (if inv.entity in st.lists then Some(st.lists[inv.entity].name) else None)
    else None
  }

  /** Invitations with the token that are active and whose inviter exists. */
  function WithToken(st: State, invs: Invitations, token: string): (s: set<int>)
    ensures forall i :: i in s <==> i in invs && invs[i].token == token && invs[i].active && invs[i].invitedBy in st.users
  {
    set i | i in invs && invs[i].token == token && invs[i].active && invs[i].invitedBy in st.users
  }

  datatype Found = Found(id: int, inv: Invitation, entityName: Option<string>, inviterName: string)

  /** obtenerPorToken: the active invitation with the token (the first if
      several), with the entity's and the inviter's names; null
      otherwise. */
  function ByToken(st: State, invs: Invitations, token: string): (r: Option<Found>)
    ensures r.None? <==> WithToken(st, invs, token) == {}
    ensures r.Some? ==> (r.value.id in invs && r.value.inv == invs[r.value.id]
      && r.value.inv.token == token && r.value.inv.active
      && r.value.entityName == EntityName(st, r.value.inv) && r.value.inv.invitedBy in st.users
      && r.value.inviterName == st.users[r.value.inv.invitedBy].name)
  {
    var first := FirstId(WithToken(st, invs, token));
    if first.None? then None
    else
      var inv := invs[first.value];
      Some(Found(first.value, inv, EntityName(st, inv), st.users[inv.invitedBy].name))
  }

  /** Pending: active, not accepted, and not expired at `now`. */
  predicate Pending(inv: Invitation, now: int) {
    inv.active && !inv.accepted && (inv.expires.None? || inv.expires.value > now)
  }

  function PendingIds(st: State, invs: Invitations, email: string, now: int): (s: set<int>)
    ensures forall i :: i in s <==> i in invs && invs[i].email == email && Pending(invs[i], now)
                                    && invs[i].invitedBy in st.users
  {
    set i | i in invs && invs[i].email == email && Pending(invs[i], now) && invs[i].invitedBy in st.users
  }

  function PairsOf(invs: Invitations, ids: seq<int>): (r: seq<(int, Invitation)>)
    requires forall i :: 0 <= i < |ids| ==> ids[i] in invs
    ensures |r| == |ids|
    ensures forall i :: 0 <= i < |ids| ==> r[i] == (ids[i], invs[ids[i]])
  {
    if ids == [] then [] else [(ids[0], invs[ids[0]])] + PairsOf(invs, ids[1..])
  }

  /** ORDER BY fechaInvitacion DESC. */
  function NewestKey(p: (int, Invitation)): seq<int> {
    [-p.1.sentAt]
  }

  lemma NewestKeyOrder(a: (int, Invitation), b: (int, Invitation))
    requires LexLe(NewestKey(a), NewestKey(b))
    ensures a.1.sentAt >= b.1.sentAt
  {
    assert NewestKey(a)[0] <= NewestKey(b)[0];
  }

  /** An (id, invitation) pair of the table, pending and sent to `email`. */
  predicate PendingPair(invs: Invitations, email: string, now: int, p: (int, Invitation)) {
    p.0 in invs && p.1 == invs[p.0] && p.1.email == email && Pending(p.1, now)
  }

  lemma SortKeepsPairs(invs: Invitations, email: string, now: int, base: seq<(int, Invitation)>,
                       r: seq<(int, Invitation)>)
    requires multiset(r) == multiset(base)
    requires forall k :: 0 <= k < |base| ==> PendingPair(invs, email, now, base[k])
    ensures forall i :: 0 <= i < |r| ==> PendingPair(invs, email, now, r[i])
  {
    forall i | 0 <= i < |r| ensures PendingPair(invs, email, now, r[i]) {
      MultisetMember(base, r, r[i]);
      var k :| 0 <= k < |base| && base[k] == r[i];
    }
  }

  /** The pending invitations sent to `email`, as pairs in id order. */
  function PendingPairs(st: State, invs: Invitations, email: string, now: int): (base: seq<(int, Invitation)>)
    ensures KeysUniform(base, NewestKey, 1)
    ensures forall k :: 0 <= k < |base| ==> PendingPair(invs, email, now, base[k])
    ensures forall i :: i in PendingIds(st, invs, email, now) ==> (i, invs[i]) in base
    ensures forall i, j :: 0 <= i < j < |base| ==> base[i].0 < base[j].0
  {
    var pending := PendingIds(st, invs, email, now);
    var ids := SortedKeys(pending);
    assert forall i :: 0 <= i < |ids| ==> ids[i] in pending;
    var base := PairsOf(invs, ids);
    PairsOfPending(st, invs, email, now, pending, ids, base);
    base
  }

  /** The pairs of the sorted pending ids are pending and cover them, in
      ascending id order. */
  lemma PairsOfPending(st: State, invs: Invitations, email: string, now: int, pending: set<int>, ids: seq<int>,
                       base: seq<(int, Invitation)>)
    requires pending == PendingIds(st, invs, email, now)
    requires forall i :: 0 <= i < |ids| ==> ids[i] in pending
    requires forall x :: x in pending ==> x in ids
    requires forall i, j :: 0 <= i < j < |ids| ==> ids[i] < ids[j]
    requires base == PairsOf(invs, ids)
    ensures KeysUniform(base, NewestKey, 1)
    ensures forall k :: 0 <= k < |base| ==> PendingPair(invs, email, now, base[k])
    ensures forall i :: i in pending ==> (i, invs[i]) in base
    ensures forall i, j :: 0 <= i < j < |base| ==> base[i].0 < base[j].0
  {
    PairsArePending(invs, email, now, ids);
    forall i | i in pending ensures (i, invs[i]) in base {
      PairsCover(invs, ids, i);
    }
  }

  lemma PairsArePending(invs: Invitations, email: string, now: int, ids: seq<int>)
    requires forall i :: 0 <= i < |ids| ==> ids[i] in invs && invs[ids[i]].email == email && Pending(invs[ids[i]], now)
    ensures KeysUniform(PairsOf(invs, ids), NewestKey, 1)
    ensures forall k :: 0 <= k < |ids| ==> PendingPair(invs, email, now, PairsOf(invs, ids)[k])
  {
  }

  lemma PairsCover(invs: Invitations, ids: seq<int>, i: int)
    requires forall k :: 0 <= k < |ids| ==> ids[k] in invs
    requires i in ids
    ensures (i, invs[i]) in PairsOf(invs, ids)
  {
    var k :| 0 <= k < |ids| && ids[k] == i;
    assert PairsOf(invs, ids)[k] == (i, invs[i]);
  }

  /** Sorted by NewestKey means newest first. */
  lemma NewestFirst(r: seq<(int, Invitation)>)
    requires SortedBy(r, NewestKey)
    ensures forall i, j :: 0 <= i < j < |r| ==> r[i].1.sentAt >= r[j].1.sentAt
  {
    forall i, j | 0 <= i < j < |r| ensures r[i].1.sentAt >= r[j].1.sentAt {
      NewestKeyOrder(r[i], r[j]);
    }
  }

  /** obtenerPendientesPorEmail: exactly the pending invitations sent to
      the address, each once, newest first. */
  function PendingFor(st: State, invs: Invitations, email: string, now: int): (r: seq<(int, Invitation)>)
    ensures forall i :: 0 <= i < |r| ==> PendingPair(invs, email, now, r[i])
    ensures forall i :: (i in PendingIds(st, invs, email, now) ==> (i, invs[i]) in r)
    ensures forall i, j :: 0 <= i < j < |r| ==> r[i].1.sentAt >= r[j].1.sentAt
    ensures forall i, j :: 0 <= i < j < |r| ==> r[i].0 != r[j].0
  {
    var base := PendingPairs(st, invs, email, now);
    var r := SortBy(base, NewestKey, 1);
    SortKeepsPairs(invs, email, now, base, r);
    PermutationKeepsDistinctKeys(base, r, (p: (int, Invitation)) => p.0);
    forall i | i in PendingIds(st, invs, email, now) ensures (i, invs[i]) in r {
      MultisetMember(base, r, (i, invs[i]));
    }
    NewestFirst(r);
    r
  }

  /** marcarComoAceptada: every invitation with the token becomes accepted
      and inactive; reports whether any matched. */
  function MarkAccepted(invs: Invitations, token: string): (res: (bool, Invitations))
    ensures res.0 <==> exists i :: i in invs && invs[i].token == token
    ensures res.1.Keys == invs.Keys
    ensures forall i :: i in invs && invs[i].token == token ==>
      res.1[i] == invs[i].(accepted := true, active := false)
    ensures forall i :: i in invs && invs[i].token != token ==> res.1[i] == invs[i]
  {
    var any := exists i :: i in invs && invs[i].token == token;
    (any, map i | i in invs :: if invs[i].token == token then invs[i].(accepted := true, active := false) else invs[i])
  }

  /** Once accepted, a token is no longer found, and the invitation is no
      longer pending for anyone; other tokens are unaffected. */
  lemma AcceptedTokenIsRetired(st: State, invs: Invitations, token: string, other: string, now: int, email: string)
    requires other != token
    ensures ByToken(st, MarkAccepted(invs, token).1, token).None?
    ensures ByToken(st, MarkAccepted(invs, token).1, other) == ByToken(st, invs, other)
    ensures forall i :: 0 <= i < |PendingFor(st, MarkAccepted(invs, token).1, email, now)| ==>
      PendingFor(st, MarkAccepted(invs, token).1, email, now)[i].1.token != token
  {
    var invs' := MarkAccepted(invs, token).1;
    AcceptedTokens(st, invs, token, other);
    AcceptedNotPending(invs', token, now, email, PendingFor(st, invs', email, now));
  }

  /** After acceptance no row carries the token, and rows with any other
      token are as before. */
  lemma AcceptedTokens(st: State, invs: Invitations, token: string, other: string)
    requires other != token
    ensures WithToken(st, MarkAccepted(invs, token).1, token) == {}
    ensures WithToken(st, MarkAccepted(invs, token).1, other) == WithToken(st, invs, other)
    ensures var m := MarkAccepted(invs, token).1;
      forall i :: i in m && m[i].token == token ==> !m[i].active
  {
  }

  /** A token whose rows are all inactive is on no pending row. */
  lemma AcceptedNotPending(invs: Invitations, token: string, now: int, email: string,
                           r: seq<(int, Invitation)>)
    requires forall i :: i in invs && invs[i].token == token ==> !invs[i].active
    requires forall i :: 0 <= i < |r| ==> PendingPair(invs, email, now, r[i])
    ensures forall i :: 0 <= i < |r| ==> r[i].1.token != token
  {
    forall i | 0 <= i < |r|
      ensures r[i].1.token != token
    {
      var (id, inv) := r[i];
      assert PendingPair(invs, email, now, (id, inv));
      assert id in invs && invs[id] == inv && inv.active;
    }
  }

  /** A freshly created invitation is found by its token while it is the
      only one with that token, and is pending until it expires. */
  lemma CreatedIsFound(st: State, invs: Invitations, kind: string, entity: int, email: string, role: string,
                       token: string, invitedBy: UserId, now: int, expires: Option<int>)
    requires invitedBy in st.users
    requires forall i :: i in invs ==> invs[i].token != token
    ensures var (id, invs') := Create(invs, kind, entity, email, role, token, invitedBy, now, expires);
      && ByToken(st, invs', token).Some? && ByToken(st, invs', token).value.id == id
      && (expires.None? || expires.value > now ==> (id, invs'[id]) in PendingFor(st, invs', email, now))
  {
    var (id, invs') := Create(invs, kind, entity, email, role, token, invitedBy, now, expires);
    assert WithToken(st, invs', token) == {id};
  }
}
