/** The grant-row operations of the category-sharing model file, which
    defines CategoriaCompartida and a ListaCompartida with the same shape:
    create a row with defaults, read one row, list the active rows of a
    resource (creator first, then oldest first), change a role, revoke,
    reactivate. Every operation is on one table; the UPDATEs protect the
    creator's row with `esCreador = FALSE`, and report success when a row
    matched (the driver counts matched rows, not changed ones). */
module GrantStore {
  import opened Wrappers
  import opened Store
  import opened Collections
  import Roles

  /** The fields a caller hands to crear; None stands for a field left
      undefined. */
  datatype GrantRequest = GrantRequest(role: Option<string>, isCreator: Option<bool>,
                                       sharedBy: Option<UserId>, accepted: Option<bool>,
                                       active: Option<bool>)

  /** The row crear writes: role `rol || 'colaborador'`, creator and
      accepted default to false, active defaults to true. */
  function NewRow(req: GrantRequest, now: int): (g: Grant)
    ensures g.role != ""
    ensures req.role.None? ==> g.role == Roles.Collaborator
    ensures req.role.Some? && req.role.value != "" ==> g.role == req.role.value
    ensures g.isCreator <==> req.isCreator == Some(true)
    ensures g.accepted <==> req.accepted == Some(true)
    ensures g.active <==> req.active != Some(false)
    ensures g.sharedBy == req.sharedBy && g.since == now
  {
    Grant(if req.role.Some? && req.role.value != "" then req.role.value else Roles.Collaborator,
          req.isCreator.GetOr(false),
          req.accepted.GetOr(false),
          req.active.GetOr(true),
          req.sharedBy,
          now)
  }

  /** crear: INSERT of a new row for (r, u); a second row for the same pair
      violates the table key, and an undefined `compartidoPor` is a bind
      value the driver rejects: either way the call throws. */
  function Create(t: Table, r: int, u: UserId, req: GrantRequest, now: int): (res: Result<Table, Error>)
    ensures res.Failure? <==> req.sharedBy.None? || (r, u) in t
    ensures res.Success? ==> res.value.Keys == t.Keys + {(r, u)}
    ensures res.Success? ==> res.value[(r, u)] == NewRow(req, now)
    ensures res.Success? ==> forall k :: k in t ==> res.value[k] == t[k]
  {
    if req.sharedBy.None? || (r, u) in t then Failure(Error(ServerError, Unhandled))
    else Success(t[(r, u) := NewRow(req, now)])
  }

  /** obtener: the row of (r, u) whatever its state, joined with its user,
      so a row whose user is missing is not found. */
  function Find(users: map<UserId, User>, t: Table, r: int, u: UserId): (g: Option<Grant>)
    ensures g.Some? <==> (r, u) in t && u in users
    ensures g.Some? ==> g.value == t[(r, u)]
  {
    if (r, u) in t && u in users then Some(t[(r, u)]) else None
  }

  /** Users with an active row for `r` whose user record exists. */
  function ListedUsers(users: map<UserId, User>, t: Table, r: int): (s: set<UserId>)
    ensures forall u :: u in s <==> Active(t, r, u) && u in users
  {
    set k | k in t && k.0 == r && t[k].active && k.1 in users :: k.1
  }

  /** Pairs each id with its row of resource `r`. */
  function RowsOf(t: Table, r: int, ids: seq<UserId>): (rows: seq<(UserId, Grant)>)
    requires forall i :: 0 <= i < |ids| ==> (r, ids[i]) in t
    ensures |rows| == |ids|
    ensures forall i :: 0 <= i < |ids| ==> rows[i] == (ids[i], t[(r, ids[i])])
  {
    if ids == [] then [] else [(ids[0], t[(r, ids[0])])] + RowsOf(t, r, ids[1..])
  }

  /** The active rows of resource `r` whose user exists, in user-id order:
      the rows listarPorCategoria / listarPorLista select, before sorting. */
  function ActiveRows(users: map<UserId, User>, t: Table, r: int): (rows: seq<(UserId, Grant)>)
    ensures forall i :: 0 <= i < |rows| ==>
      Active(t, r, rows[i].0) && rows[i].0 in users && rows[i].1 == t[(r, rows[i].0)]
    ensures forall u :: Active(t, r, u) && u in users ==> (u, t[(r, u)]) in rows
    ensures forall i, j :: 0 <= i < j < |rows| ==> rows[i].0 < rows[j].0
  {
    var ids := ActiveIds(users, t, r);
    RowsOfActive(users, t, r, ids);
    forall u | Active(t, r, u) && u in users
      ensures (u, t[(r, u)]) in RowsOf(t, r, ids)
    {
      RowsOfCover(t, r, ids, u);
    }
    RowsOf(t, r, ids)
  }

  /** The users of ListedUsers in ascending order. */
  function ActiveIds(users: map<UserId, User>, t: Table, r: int): (ids: seq<UserId>)
    ensures forall i :: 0 <= i < |ids| ==> (r, ids[i]) in t && t[(r, ids[i])].active && ids[i] in users
    ensures forall i, j :: 0 <= i < j < |ids| ==> ids[i] < ids[j]
    ensures forall u :: Active(t, r, u) && u in users ==> u in ids
  {
    var ids := SortedKeys(ListedUsers(users, t, r));
    assert forall i :: 0 <= i < |ids| ==> ids[i] in ListedUsers(users, t, r);
    ids
  }

  lemma RowsOfActive(users: map<UserId, User>, t: Table, r: int, ids: seq<UserId>)
    requires forall i :: 0 <= i < |ids| ==> (r, ids[i]) in t && t[(r, ids[i])].active && ids[i] in users
    requires forall i, j :: 0 <= i < j < |ids| ==> ids[i] < ids[j]
    ensures var rows := RowsOf(t, r, ids);
      && (forall i :: 0 <= i < |rows| ==>
            Active(t, r, rows[i].0) && rows[i].0 in users && rows[i].1 == t[(r, rows[i].0)])
      && (forall i, j :: 0 <= i < j < |rows| ==> rows[i].0 < rows[j].0)
  {
  }

  lemma RowsOfCover(t: Table, r: int, ids: seq<UserId>, u: UserId)
    requires forall i :: 0 <= i < |ids| ==> (r, ids[i]) in t
    requires u in ids
    ensures (u, t[(r, u)]) in RowsOf(t, r, ids)
  {
    var i :| 0 <= i < |ids| && ids[i] == u;
    assert RowsOf(t, r, ids)[i] == (u, t[(r, u)]);
  }

  /** ORDER BY esCreador DESC, fechaCompartido ASC. */
  function ListingKey(row: (UserId, Grant)): seq<int> {
    [if row.1.isCreator then 0 else 1, row.1.since]
  }

  /** `a` may precede `b` in a listing: creator rows first, then older
      rows before newer ones. */
  predicate CreatorThenOldest(a: Grant, b: Grant) {
    (a.isCreator && !b.isCreator) || (a.isCreator == b.isCreator && a.since <= b.since)
  }

  lemma ListingKeyOrder(a: (UserId, Grant), b: (UserId, Grant))
    requires LexLe(ListingKey(a), ListingKey(b))
    ensures CreatorThenOldest(a.1, b.1)
  {
    var ka, kb := ListingKey(a), ListingKey(b);
    if ka[0] == kb[0] {
      assert LexLe(ka[1..], kb[1..]);
    }
  }

  /** listarPorCategoria / listarPorLista: exactly the active rows of the
      resource, each user once, creator first, then oldest first. */
  function ListActive(users: map<UserId, User>, t: Table, r: int): (rows: seq<(UserId, Grant)>)
    ensures multiset(rows) == multiset(ActiveRows(users, t, r))
    ensures forall i :: 0 <= i < |rows| ==>
      Active(t, r, rows[i].0) && rows[i].0 in users && rows[i].1 == t[(r, rows[i].0)]
    ensures forall u :: Active(t, r, u) && u in users ==> (u, t[(r, u)]) in rows
    ensures forall i, j :: 0 <= i < j < |rows| ==> CreatorThenOldest(rows[i].1, rows[j].1)
    ensures forall i, j :: 0 <= i < j < |rows| ==> rows[i].0 != rows[j].0
  {
    var base := ActiveRows(users, t, r);
    var rows := SortBy(base, ListingKey, 2);
    SortedRowsKept(users, t, r, base, rows);
    PermutationKeepsDistinctKeys(base, rows, (p: (UserId, Grant)) => p.0);
    SortedCreatorThenOldest(rows);
    rows
  }

  /** Sorting keeps the rows, so the facts about them carry over. */
  lemma SortedRowsKept(users: map<UserId, User>, t: Table, r: int, base: seq<(UserId, Grant)>,
                       rows: seq<(UserId, Grant)>)
    requires multiset(rows) == multiset(base)
    requires forall i :: 0 <= i < |base| ==>
      Active(t, r, base[i].0) && base[i].0 in users && base[i].1 == t[(r, base[i].0)]
    requires forall u :: Active(t, r, u) && u in users ==> (u, t[(r, u)]) in base
    ensures forall i :: 0 <= i < |rows| ==>
      Active(t, r, rows[i].0) && rows[i].0 in users && rows[i].1 == t[(r, rows[i].0)]
    ensures forall u :: Active(t, r, u) && u in users ==> (u, t[(r, u)]) in rows
  {
    forall i | 0 <= i < |rows|
      ensures Active(t, r, rows[i].0) && rows[i].0 in users && rows[i].1 == t[(r, rows[i].0)]
    {
      MultisetMember(base, rows, rows[i]);
    }
    forall u | Active(t, r, u) && u in users
      ensures (u, t[(r, u)]) in rows
    {
      MultisetMember(base, rows, (u, t[(r, u)]));
    }
  }

  lemma SortedCreatorThenOldest(rows: seq<(UserId, Grant)>)
    requires SortedBy(rows, ListingKey)
    ensures forall i, j :: 0 <= i < j < |rows| ==> CreatorThenOldest(rows[i].1, rows[j].1)
  {
    forall i, j | 0 <= i < j < |rows|
      ensures CreatorThenOldest(rows[i].1, rows[j].1)
    {
      ListingKeyOrder(rows[i], rows[j]);
    }
  }

  /** actualizarRol: sets the role of a non-creator row; reports whether a
      row matched. The creator's row and missing rows are left alone. */
  function UpdateRole(t: Table, r: int, u: UserId, role: string): (res: (bool, Table))
    ensures res.0 <==> (r, u) in t && !t[(r, u)].isCreator
    ensures res.0 ==> res.1 == t[(r, u) := t[(r, u)].(role := role)]
    ensures !res.0 ==> res.1 == t
  {
    if (r, u) in t && !t[(r, u)].isCreator then (true, t[(r, u) := t[(r, u)].(role := role)])
    else (false, t)
  }

  /** revocar: deactivates a non-creator row (an already inactive one
      still matches); the creator's row cannot be revoked. */
  function Revoke(t: Table, r: int, u: UserId): (res: (bool, Table))
    ensures res.0 <==> (r, u) in t && !t[(r, u)].isCreator
    ensures res.0 ==> res.1 == t[(r, u) := t[(r, u)].(active := false)]
    ensures !res.0 ==> res.1 == t
  {
    if (r, u) in t && !t[(r, u)].isCreator then (true, t[(r, u) := t[(r, u)].(active := false)])
    else (false, t)
  }

  /** reactivar (categories only): active and accepted again, shared date
      refreshed; unlike the other updates it has no creator guard. */
  function Reactivate(t: Table, r: int, u: UserId, now: int): (res: (bool, Table))
    ensures res.0 <==> (r, u) in t
    ensures res.0 ==> res.1 == t[(r, u) := t[(r, u)].(active := true, accepted := true, since := now)]
    ensures !res.0 ==> res.1 == t
  {
    if (r, u) in t then (true, t[(r, u) := t[(r, u)].(active := true, accepted := true, since := now)])
    else (false, t)
  }

  /** After a revocation the user no longer appears in the listing, and
      every other listed user is unaffected. */
  lemma RevokeHidesFromListing(users: map<UserId, User>, t: Table, r: int, u: UserId, v: UserId)
    requires Revoke(t, r, u).0
    ensures forall i :: 0 <= i < |ListActive(users, Revoke(t, r, u).1, r)| ==>
      ListActive(users, Revoke(t, r, u).1, r)[i].0 != u
    ensures v != u ==> (Active(Revoke(t, r, u).1, r, v) <==> Active(t, r, v))
  {
  }

  /** A revoked row comes back by reactivation, with its role unchanged. */
  lemma RevokeThenReactivate(t: Table, r: int, u: UserId, now: int)
    requires Revoke(t, r, u).0
    ensures Reactivate(Revoke(t, r, u).1, r, u, now).0
    ensures Active(Reactivate(Revoke(t, r, u).1, r, u, now).1, r, u)
    ensures Reactivate(Revoke(t, r, u).1, r, u, now).1[(r, u)].role == t[(r, u)].role
  {
  }

  /** Neither role change nor revocation can touch the creator's row. */
  lemma CreatorRowIsProtected(t: Table, r: int, u: UserId, role: string)
    requires (r, u) in t && t[(r, u)].isCreator
    ensures UpdateRole(t, r, u, role).1 == t && Revoke(t, r, u).1 == t
    ensures !UpdateRole(t, r, u, role).0 && !Revoke(t, r, u).0
  {
  }
}
