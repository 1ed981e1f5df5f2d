/** The second lista_compartida model (its own file in the repository):
    rows it creates are never creator rows, its listing reports "creator"
    as "the user owns the list" rather than reading the stored flag, and
    its role change refuses the list owner before touching the table. */
module GrantStoreAlt {
  import opened Wrappers
  import opened Store
  import opened Collections
  import GrantStore

  /** crear: `aceptado` defaults to false and `activo` to true, `esCreador`
      is always written false, and the role and the sharer are written as
      given: a missing one is an undefined bind value, which the driver
      rejects. */
  function Create(t: Table, l: ListId, u: UserId, role: Option<string>, sharedBy: Option<UserId>,
                  accepted: Option<bool>, active: Option<bool>, now: int): (res: Result<Table, Error>)
    ensures res.Failure? <==> role.None? || sharedBy.None? || (l, u) in t
    ensures res.Success? ==> res.value.Keys == t.Keys + {(l, u)}
    ensures res.Success? ==> forall k :: k in t ==> res.value[k] == t[k]
    ensures res.Success? ==> var g := res.value[(l, u)];
      g.role == role.value && !g.isCreator && g.sharedBy == sharedBy
      && (g.accepted <==> accepted == Some(true)) && (g.active <==> active != Some(false))
  {
    if role.None? || sharedBy.None? || (l, u) in t then Failure(Error(ServerError, Unhandled))
    else Success(t[(l, u) := Grant(role.value, false, accepted.GetOr(false), active.GetOr(true), sharedBy, now)])
  }

  /** obtener: the raw row of (l, u), whatever its state. */
  function Find(t: Table, l: ListId, u: UserId): (g: Option<Grant>)
    ensures g.Some? <==> (l, u) in t
    ensures g.Some? ==> g.value == t[(l, u)]
  {
    if (l, u) in t then Some(t[(l, u)]) else None
  }

  /** One row of listarPorLista: the user, the stored row, and the
      computed `esCreador` column. */
  datatype ListedRow = ListedRow(user: UserId, grant: Grant, ownsList: bool)

  function Annotate(owner: UserId, rows: seq<(UserId, Grant)>): (r: seq<ListedRow>)
    ensures |r| == |rows|
    ensures forall i :: 0 <= i < |rows| ==> r[i] == ListedRow(rows[i].0, rows[i].1, rows[i].0 == owner)
  {
    if rows == [] then [] else
    [ListedRow(rows[0].0, rows[0].1, rows[0].0 == owner)] + Annotate(owner, rows[1..])
  }

  /** Some row of the listing is the user's. */
  predicate ListsUser(rows: seq<ListedRow>, u: UserId) {
    exists i :: 0 <= i < |rows| && rows[i].user == u
  }

  /** ORDER BY lc.esCreador DESC: the stored creator flag, rows carrying it
      first. */
  function CreatorKey(row: (UserId, Grant)): seq<int> {
    [if row.1.isCreator then 0 else 1]
  }

  lemma CreatorRowsFirst(rows: seq<(UserId, Grant)>)
    requires SortedBy(rows, CreatorKey)
    ensures forall i, j :: 0 <= i < j < |rows| ==> rows[i].1.isCreator || !rows[j].1.isCreator
  {
    forall i, j | 0 <= i < j < |rows|
      ensures rows[i].1.isCreator || !rows[j].1.isCreator
    {
      assert LexLe(CreatorKey(rows[i]), CreatorKey(rows[j]));
    }
  }

  /** The active rows of `l` whose user exists, creator rows first. */
  function CreatorsFirst(users: map<UserId, User>, t: Table, l: ListId): (rows: seq<(UserId, Grant)>)
    ensures forall i :: 0 <= i < |rows| ==>
      Active(t, l, rows[i].0) && rows[i].0 in users && rows[i].1 == t[(l, rows[i].0)]
    ensures forall u :: Active(t, l, u) && u in users ==> (u, t[(l, u)]) in rows
    ensures forall i, j :: 0 <= i < j < |rows| ==> rows[i].1.isCreator || !rows[j].1.isCreator
    ensures multiset(rows) == multiset(GrantStore.ActiveRows(users, t, l))
    ensures |rows| == |GrantStore.ActiveRows(users, t, l)|
    ensures forall i, j :: 0 <= i < j < |rows| ==> rows[i].0 != rows[j].0
  {
    var base := GrantStore.ActiveRows(users, t, l);
    var sorted := SortBy(base, CreatorKey, 1);
    GrantStore.SortedRowsKept(users, t, l, base, sorted);
    PermutationKeepsDistinctKeys(base, sorted, (p: (UserId, Grant)) => p.0);
    CreatorRowsFirst(sorted);
    sorted
  }

  /** listarPorLista: nothing for a list that does not exist (the query
      joins lista); otherwise the active rows of the list, those with the
      stored creator flag first, each flagged with whether its user owns
      the list. The computed flag replaces the stored one in what is
      reported, but the order follows the stored one. */
  function ListActive(st: State, l: ListId): (rows: seq<ListedRow>)
    ensures l !in st.lists ==> rows == []
    ensures forall i :: 0 <= i < |rows| ==>
      Active(st.listGrants, l, rows[i].user) && rows[i].user in st.users
      && rows[i].grant == st.listGrants[(l, rows[i].user)]
      && (rows[i].ownsList <==> OwnsList(st, l, rows[i].user))
    ensures l in st.lists ==> forall u :: Active(st.listGrants, l, u) && u in st.users ==> ListsUser(rows, u)
    ensures forall i, j :: 0 <= i < j < |rows| ==> rows[i].grant.isCreator || !rows[j].grant.isCreator
    ensures forall i, j :: 0 <= i < j < |rows| ==> rows[i].user != rows[j].user
    ensures l in st.lists ==> |rows| == |GrantStore.ActiveRows(st.users, st.listGrants, l)|
  {
    if l !in st.lists then []
    else
      var sorted := CreatorsFirst(st.users, st.listGrants, l);
      var rows := Annotate(st.lists[l].owner, sorted);
      Listing(st, l, sorted, rows);
      rows
  }

  /** The annotated rows keep the facts and the order of the rows they
      annotate. */
  lemma Listing(st: State, l: ListId, sorted: seq<(UserId, Grant)>, rows: seq<ListedRow>)
    requires l in st.lists
    requires forall i :: 0 <= i < |sorted| ==>
      Active(st.listGrants, l, sorted[i].0) && sorted[i].0 in st.users && sorted[i].1 == st.listGrants[(l, sorted[i].0)]
    requires forall u :: Active(st.listGrants, l, u) && u in st.users ==> (u, st.listGrants[(l, u)]) in sorted
    requires forall i, j :: 0 <= i < j < |sorted| ==> sorted[i].1.isCreator || !sorted[j].1.isCreator
    requires forall i, j :: 0 <= i < j < |sorted| ==> sorted[i].0 != sorted[j].0
    requires |rows| == |sorted|
    requires forall i :: 0 <= i < |sorted| ==>
      rows[i] == ListedRow(sorted[i].0, sorted[i].1, sorted[i].0 == st.lists[l].owner)
    ensures forall i :: 0 <= i < |rows| ==>
      Active(st.listGrants, l, rows[i].user) && rows[i].user in st.users
      && rows[i].grant == st.listGrants[(l, rows[i].user)]
      && (rows[i].ownsList <==> OwnsList(st, l, rows[i].user))
    ensures forall u :: Active(st.listGrants, l, u) && u in st.users ==> ListsUser(rows, u)
    ensures forall i, j :: 0 <= i < j < |rows| ==> rows[i].grant.isCreator || !rows[j].grant.isCreator
    ensures forall i, j :: 0 <= i < j < |rows| ==> rows[i].user != rows[j].user
  {
    forall u | Active(st.listGrants, l, u) && u in st.users
      ensures ListsUser(rows, u)
    {
      var i :| 0 <= i < |sorted| && sorted[i] == (u, st.listGrants[(l, u)]);
      assert rows[i].user == u;
    }
  }

  /** actualizarRol: false, without writing, when the target owns the
      list; otherwise the role of a non-creator row changes. */
  function UpdateRole(st: State, l: ListId, u: UserId, role: string): (res: (bool, Table))
    ensures OwnsList(st, l, u) ==> res == (false, st.listGrants)
    ensures !OwnsList(st, l, u) ==> res == GrantStore.UpdateRole(st.listGrants, l, u, role)
  {
    if OwnsList(st, l, u) then (false, st.listGrants)
    else GrantStore.UpdateRole(st.listGrants, l, u, role)
  }

  /** The list owner's row keeps its role under this model's role change,
      whether or not the row carries the creator flag. */
  lemma OwnerRoleUnchanged(st: State, l: ListId, u: UserId, role: string)
    requires OwnsList(st, l, u) && (l, u) in st.listGrants
    ensures UpdateRole(st, l, u, role).1[(l, u)].role == st.listGrants[(l, u)].role
  {
  }
}
