/** The read side of the list-sharing controller: the member listing of a
    list, the lists a user sees as shared with the role each is seen
    under, and the membership view of one list that merges the owner, the
    list's own grants and the grants of its category. */
module ListViews {
  import opened Wrappers
  import opened Store
  import opened Collections
  import Roles
  import GrantStore

  // ---------------------------------------------------------------------
  // listarUsuariosLista

  datatype UserEntry = UserEntry(user: UserId, role: string, isCreator: bool, accepted: bool)

  /** Some entry is the user's. */
  predicate Listed(r: seq<UserEntry>, u: UserId) {
    exists i :: 0 <= i < |r| && r[i].user == u
  }

  function ToUserEntries(rows: seq<(UserId, Grant)>): (r: seq<UserEntry>)
    ensures |r| == |rows|
    ensures forall i :: 0 <= i < |rows| ==>
      r[i] == UserEntry(rows[i].0, Roles.ToFrontend(rows[i].1.role), rows[i].1.isCreator, rows[i].1.accepted)
    ensures forall p :: p in rows ==> Listed(r, p.0)
  {
    if rows == [] then []
    else [UserEntry(rows[0].0, Roles.ToFrontend(rows[0].1.role), rows[0].1.isCreator, rows[0].1.accepted)]
         + ToUserEntries(rows[1..])
  }

  /** listarUsuariosLista: the active rows of the list, creator first then
      oldest first, with roles in the front-end vocabulary. It checks no
      permission of its own. */
  function ListUsers(st: State, l: ListId): (r: seq<UserEntry>)
    ensures forall i :: 0 <= i < |r| ==> (Active(st.listGrants, l, r[i].user) && r[i].user in st.users
      && r[i].role == Roles.ToFrontend(st.listGrants[(l, r[i].user)].role))
    ensures forall u :: Active(st.listGrants, l, u) && u in st.users ==> Listed(r, u)
    ensures forall i, j :: 0 <= i < j < |r| ==> r[i].isCreator || !r[j].isCreator
    ensures forall i, j :: 0 <= i < j < |r| ==> r[i].user != r[j].user
    ensures forall i, j :: 0 <= i < j < |r| ==>
      (l, r[i].user) in st.listGrants && (l, r[j].user) in st.listGrants &&
      GrantStore.CreatorThenOldest(st.listGrants[(l, r[i].user)], st.listGrants[(l, r[j].user)])
  {
    var rows := GrantStore.ListActive(st.users, st.listGrants, l);
    ToUserEntries(rows)
  }

  // ---------------------------------------------------------------------
  // obtenerListasCompartidas

  datatype Origin = OwnerOrigin | ListOrigin | CategoryOrigin

  /** The list has been shared in some way: it is shareable or holds a
      key. */
  predicate Shared(st: State, l: ListId)
    requires l in st.lists
  {
    st.lists[l].shareable || st.lists[l].key.Some?
  }

  /** The user's active grant on the list's category, if the list has a
      category and the grant exists. */
  function CategoryRow(st: State, l: ListId, u: UserId): (g: Option<Grant>)
    requires l in st.lists
    ensures g.Some? <==> st.lists[l].category.Some? && Active(st.categoryGrants, st.lists[l].category.value, u)
    ensures g.Some? ==> g.value == st.categoryGrants[(st.lists[l].category.value, u)]
  {
    var c := st.lists[l].category;
    if c.Some? && Active(st.categoryGrants, c.value, u) then Some(st.categoryGrants[(c.value, u)]) else None
  }

  /** The stored role a user holds on a list, by precedence: the owner is
      'propietario', then an active list row's role, then an active
      category row's role, else none. */
  function AccessRole(st: State, l: ListId, u: UserId): (r: Option<string>)
    requires l in st.lists
    ensures OwnsList(st, l, u) ==> r == Some(Roles.Owner)
    ensures !OwnsList(st, l, u) && Active(st.listGrants, l, u) ==> r == Some(st.listGrants[(l, u)].role)
    ensures !OwnsList(st, l, u) && !Active(st.listGrants, l, u) ==>
      r == (if CategoryRow(st, l, u).Some? then Some(CategoryRow(st, l, u).value.role) else None)
  {
    if OwnsList(st, l, u) then Some(Roles.Owner)
    else if Active(st.listGrants, l, u) then Some(st.listGrants[(l, u)].role)
    else if CategoryRow(st, l, u).Some? then Some(CategoryRow(st, l, u).value.role)
    else None
  }

  /** Where the user's access comes from, by the same precedence. */
  function AccessOrigin(st: State, l: ListId, u: UserId): Option<Origin>
    requires l in st.lists
  {
    if OwnsList(st, l, u) then Some(OwnerOrigin)
    else if Active(st.listGrants, l, u) then Some(ListOrigin)
    else if CategoryRow(st, l, u).Some? then Some(CategoryOrigin)
    else None
  }

  /** The row filter of obtenerListasCompartidas: a shared list, whose
      owner still exists (the query joins the owner's user row), that the
      user owns, or holds an active accepted row for, or reaches through
      an active accepted row on its category. */
  predicate SeesShared(st: State, l: ListId, u: UserId)
    requires l in st.lists
  {
    Shared(st, l) && st.lists[l].owner in st.users
    && (OwnsList(st, l, u) || Member(st.listGrants, l, u)
        || (CategoryRow(st, l, u).Some? && CategoryRow(st, l, u).value.accepted))
  }

  datatype SharedEntry = SharedEntry(list: ListId, role: Option<string>, origin: Option<Origin>,
                                     isOwner: bool, isCreator: bool, accepted: bool)

  /** One row of obtenerListasCompartidas; the role goes out in the
      front-end vocabulary (a null role stays null). */
  function Entry(st: State, l: ListId, u: UserId): (e: SharedEntry)
    requires l in st.lists
    ensures e.list == l && e.isOwner == OwnsList(st, l, u)
  {
    var role := AccessRole(st, l, u);
    SharedEntry(
      l,
      if role.Some? then Some(Roles.ToFrontend(role.value)) else None,
      AccessOrigin(st, l, u),
      OwnsList(st, l, u),
      OwnsList(st, l, u) || (Active(st.listGrants, l, u) && st.listGrants[(l, u)].isCreator),
      if OwnsList(st, l, u) then true
      else if Active(st.listGrants, l, u) then st.listGrants[(l, u)].accepted
      else if CategoryRow(st, l, u).Some? then CategoryRow(st, l, u).value.accepted
      else false)
  }

  function EntriesFor(st: State, ids: seq<ListId>, u: UserId): (r: seq<SharedEntry>)
    requires forall i :: 0 <= i < |ids| ==> ids[i] in st.lists
    ensures forall i :: 0 <= i < |r| ==> r[i].list in ids && SeesShared(st, r[i].list, u) && r[i] == Entry(st, r[i].list, u)
    ensures forall i :: 0 <= i < |ids| && SeesShared(st, ids[i], u) ==> Entry(st, ids[i], u) in r
  {
    if ids == [] then []
    else if SeesShared(st, ids[0], u) then [Entry(st, ids[0], u)] + EntriesFor(st, ids[1..], u)
    else EntriesFor(st, ids[1..], u)
  }

  /** obtenerListasCompartidas: one entry per list the user sees as
      shared, exactly those lists, each with its role by precedence. */
  function SharedLists(st: State, u: UserId): (r: seq<SharedEntry>)
    ensures forall i :: 0 <= i < |r| ==> (r[i].list in st.lists && SeesShared(st, r[i].list, u)
      && r[i] == Entry(st, r[i].list, u))
    ensures forall l :: l in st.lists && SeesShared(st, l, u) ==> Entry(st, l, u) in r
    ensures forall i, j :: 0 <= i < j < |r| ==> r[i].list != r[j].list
  {
    var ids := SortedKeys(st.lists.Keys);
    EntriesCover(st, u, ids);
    var r := EntriesFor(st, ids, u);
    EntriesAscending(st, ids, u, r);
    r
  }

  /** Entries taken from ascending ids come out in ascending list order. */
  lemma {:induction false} EntriesAscending(st: State, ids: seq<ListId>, u: UserId, r: seq<SharedEntry>)
    requires forall i :: 0 <= i < |ids| ==> ids[i] in st.lists
    requires forall i, j :: 0 <= i < j < |ids| ==> ids[i] < ids[j]
    requires r == EntriesFor(st, ids, u)
    ensures forall i, j :: 0 <= i < j < |r| ==> r[i].list < r[j].list
  {
    if ids != [] {
      var rest := EntriesFor(st, ids[1..], u);
      EntriesAscending(st, ids[1..], u, rest);
      EntriesAfterHead(st, ids, u, rest);
      if SeesShared(st, ids[0], u) {
        AscendingCons(Entry(st, ids[0], u), rest, r);
      }
    }
  }

  /** The entries of the ids after the first name lists above the first. */
  lemma EntriesAfterHead(st: State, ids: seq<ListId>, u: UserId, rest: seq<SharedEntry>)
    requires ids != [] && forall i :: 0 <= i < |ids| ==> ids[i] in st.lists
    requires forall i, j :: 0 <= i < j < |ids| ==> ids[i] < ids[j]
    requires rest == EntriesFor(st, ids[1..], u)
    ensures forall i :: 0 <= i < |rest| ==> ids[0] < rest[i].list
  {
    forall i | 0 <= i < |rest| ensures ids[0] < rest[i].list {
      var k :| 0 <= k < |ids[1..]| && ids[1..][k] == rest[i].list;
      assert ids[k + 1] == rest[i].list;
    }
  }

  /** An entry below every entry of an ascending sequence keeps it ascending
      when put in front. */
  lemma AscendingCons(e: SharedEntry, rest: seq<SharedEntry>, r: seq<SharedEntry>)
    requires r == [e] + rest
    requires forall i :: 0 <= i < |rest| ==> e.list < rest[i].list
    requires forall i, j :: 0 <= i < j < |rest| ==> rest[i].list < rest[j].list
    ensures forall i, j :: 0 <= i < j < |r| ==> r[i].list < r[j].list
  {
    forall i, j | 0 <= i < j < |r| ensures r[i].list < r[j].list {
      assert r[j] == rest[j - 1];
      if i > 0 {
        assert r[i] == rest[i - 1];
      }
    }
  }

  lemma EntriesCover(st: State, u: UserId, ids: seq<ListId>)
    requires forall l :: l in ids <==> l in st.lists
    requires forall i :: 0 <= i < |ids| ==> ids[i] in st.lists
    ensures forall l :: l in st.lists && SeesShared(st, l, u) ==> Entry(st, l, u) in EntriesFor(st, ids, u)
  {
    forall l | l in st.lists && SeesShared(st, l, u)
      ensures Entry(st, l, u) in EntriesFor(st, ids, u)
    {
      var i :| 0 <= i < |ids| && ids[i] == l;
    }
  }

  /** Role precedence: the owner is always 'propietario'; otherwise an
      active list row decides the role even when a category grant also
      exists; a category grant decides only without a list row. */
  lemma RolePrecedence(st: State, u: UserId, i: nat)
    requires i < |SharedLists(st, u)|
    ensures var e := SharedLists(st, u)[i]; var l := e.list;
      (e.role == Some(Roles.Owner) <==> (e.isOwner || (Active(st.listGrants, l, u) && st.listGrants[(l, u)].role == Roles.Owner)
                                         || (!Active(st.listGrants, l, u) && CategoryRow(st, l, u).Some?
                                             && CategoryRow(st, l, u).value.role == Roles.Owner)))
      && (!e.isOwner && Active(st.listGrants, l, u) ==>
            e.role == Some(Roles.ToFrontend(st.listGrants[(l, u)].role)) && e.origin == Some(ListOrigin))
      && (!e.isOwner && !Active(st.listGrants, l, u) ==>
            e.role == Some(Roles.ToFrontend(CategoryRow(st, l, u).value.role)) && e.origin == Some(CategoryOrigin))
  {
    var e := SharedLists(st, u)[i];
    assert e.list in st.lists && SeesShared(st, e.list, u) && e == Entry(st, e.list, u);
    EntryRole(st, e.list, u);
  }

  /** The role and origin of one entry, by precedence. */
  lemma EntryRole(st: State, l: ListId, u: UserId)
    requires l in st.lists && SeesShared(st, l, u)
    ensures var e := Entry(st, l, u);
      (e.role == Some(Roles.Owner) <==> (e.isOwner || (Active(st.listGrants, l, u) && st.listGrants[(l, u)].role == Roles.Owner)
                                         || (!Active(st.listGrants, l, u) && CategoryRow(st, l, u).Some?
                                             && CategoryRow(st, l, u).value.role == Roles.Owner)))
      && (!e.isOwner && Active(st.listGrants, l, u) ==>
            e.role == Some(Roles.ToFrontend(st.listGrants[(l, u)].role)) && e.origin == Some(ListOrigin))
      && (!e.isOwner && !Active(st.listGrants, l, u) ==>
            e.role == Some(Roles.ToFrontend(CategoryRow(st, l, u).value.role)) && e.origin == Some(CategoryOrigin))
  {
    var role := AccessRole(st, l, u);
    assert forall x :: Roles.ToFrontend(x) == Roles.Owner <==> x == Roles.Owner;
  }

  // ---------------------------------------------------------------------
  // infoCompartidosLista

  /** One member of the membership view. `row` is the grant the entry was
      built from; the owner's entry has none. */
  datatype MemberEntry = MemberEntry(user: UserId, role: string, origin: Origin, isCreator: bool,
                                     accepted: bool, canRemove: bool, row: Option<Grant>)

  /** The users of a sequence of entries. */
  function EntryUsers(r: seq<MemberEntry>): set<UserId> {
    if r == [] then {} else {r[0].user} + EntryUsers(r[1..])
  }

  /** The users of a sequence of rows. */
  function RowUsers(rows: seq<(UserId, Grant)>): set<UserId> {
    if rows == [] then {} else {rows[0].0} + RowUsers(rows[1..])
  }

  lemma {:induction false} EntryUsersMeaning(r: seq<MemberEntry>, u: UserId)
    ensures u in EntryUsers(r) <==> exists i :: 0 <= i < |r| && r[i].user == u
  {
    if r != [] {
      EntryUsersMeaning(r[1..], u);
      if u in EntryUsers(r[1..]) {
        var i :| 0 <= i < |r[1..]| && r[1..][i].user == u;
        assert r[i + 1].user == u;
      }
      if exists i :: 0 <= i < |r| && r[i].user == u {
        var i :| 0 <= i < |r| && r[i].user == u;
        if i > 0 { assert r[1..][i - 1].user == u; }
      }
    }
  }

  lemma {:induction false} RowUsersMeaning(rows: seq<(UserId, Grant)>, u: UserId)
    ensures u in RowUsers(rows) <==> exists i :: 0 <= i < |rows| && rows[i].0 == u
  {
    if rows != [] {
      RowUsersMeaning(rows[1..], u);
      if u in RowUsers(rows[1..]) {
        var i :| 0 <= i < |rows[1..]| && rows[1..][i].0 == u;
        assert rows[i + 1].0 == u;
      }
      if exists i :: 0 <= i < |rows| && rows[i].0 == u {
        var i :| 0 <= i < |rows| && rows[i].0 == u;
        if i > 0 { assert rows[1..][i - 1].0 == u; }
      }
    }
  }

  /** The entry a grant row becomes: the role in the front-end vocabulary;
      a category grant is never reported as the creator's. */
  function FromRow(u: UserId, g: Grant, origin: Origin, canManage: bool): MemberEntry {
    MemberEntry(u, Roles.ToFrontend(g.role), origin, origin == ListOrigin && g.isCreator, g.accepted, canManage, Some(g))
  }

  predicate DistinctUsers(r: seq<MemberEntry>) {
    forall i, j :: 0 <= i < j < |r| ==> r[i].user != r[j].user
  }

  /** The forEach over rows that skips users already added and adds each
      new user once, recording them as it goes. */
  function AddNew(seen: set<UserId>, rows: seq<(UserId, Grant)>, origin: Origin, canManage: bool)
    : (r: seq<MemberEntry>)
    ensures forall i :: 0 <= i < |r| ==> (r[i].user !in seen && r[i].origin == origin
      && r[i].row.Some? && (r[i].user, r[i].row.value) in rows
      && r[i] == FromRow(r[i].user, r[i].row.value, origin, canManage))
    ensures DistinctUsers(r)
    ensures EntryUsers(r) == RowUsers(rows) - seen
    decreases |rows|
  {
    if rows == [] then []
    else
      var (u, g) := rows[0];
      if u in seen then
        AddNew(seen, rows[1..], origin, canManage)
      else
        var rest := AddNew(seen + {u}, rows[1..], origin, canManage);
        var r := [FromRow(u, g, origin, canManage)] + rest;
        assert r[1..] == rest;
        r
  }

  /** The owner's entry, always first. */
  function OwnerEntry(owner: UserId): MemberEntry {
    MemberEntry(owner, Roles.Owner, OwnerOrigin, true, true, false, None)
  }

  lemma {:induction false} UsersOfConcat(a: seq<MemberEntry>, b: seq<MemberEntry>)
    ensures EntryUsers(a + b) == EntryUsers(a) + EntryUsers(b)
  {
    if a == [] {
      assert a + b == b;
    } else {
      assert (a + b)[1..] == a[1..] + b;
      UsersOfConcat(a[1..], b);
    }
  }

  lemma DistinctConcat(a: seq<MemberEntry>, b: seq<MemberEntry>)
    requires DistinctUsers(a) && DistinctUsers(b) && EntryUsers(a) !! EntryUsers(b)
    ensures DistinctUsers(a + b)
  {
    var r := a + b;
    forall i, j | 0 <= i < j < |r| ensures r[i].user != r[j].user {
      if i < |a| && j >= |a| {
        EntryUsersMeaning(a, r[i].user);
        assert r[j] == b[j - |a|];
        EntryUsersMeaning(b, r[j].user);
      }
    }
  }

  /** The merge of infoCompartidosLista: the owner first, then the users
      with a list row, then the users with a category row, each user
      once. */
  function Merge(owner: UserId, listRows: seq<(UserId, Grant)>, catRows: seq<(UserId, Grant)>, canManage: bool)
    : (r: seq<MemberEntry>)
    ensures |r| > 0 && r[0] == OwnerEntry(owner)
    ensures DistinctUsers(r)
    ensures EntryUsers(r) == {owner} + RowUsers(listRows) + RowUsers(catRows)
    ensures forall i :: 0 < i < |r| ==> (r[i].origin != OwnerOrigin && r[i].row.Some?
      && r[i] == FromRow(r[i].user, r[i].row.value, r[i].origin, canManage))
    ensures forall i, j :: 0 <= i < j < |r| ==> !(r[i].origin == CategoryOrigin && r[j].origin == ListOrigin)
    ensures forall i :: 0 <= i < |r| && r[i].origin == ListOrigin ==> (r[i].user, r[i].row.value) in listRows
    ensures forall i :: 0 <= i < |r| && r[i].origin == CategoryOrigin ==>
      ((r[i].user, r[i].row.value) in catRows && r[i].user !in RowUsers(listRows))
  {
    var L := AddNew({owner}, listRows, ListOrigin, canManage);
    var C := AddNew({owner} + EntryUsers(L), catRows, CategoryOrigin, canManage);
    MergeUsers(owner, L, C);
    assert EntryUsers(C) !! RowUsers(listRows);
    MergeRows(owner, listRows, catRows, canManage, L, C);
    [OwnerEntry(owner)] + L + C
  }

  lemma MergeUsers(owner: UserId, L: seq<MemberEntry>, C: seq<MemberEntry>)
    requires DistinctUsers(L) && DistinctUsers(C) && owner !in EntryUsers(L)
    requires EntryUsers(C) !! {owner} + EntryUsers(L)
    ensures DistinctUsers([OwnerEntry(owner)] + L + C)
    ensures EntryUsers([OwnerEntry(owner)] + L + C) == {owner} + EntryUsers(L) + EntryUsers(C)
  {
    var O := [OwnerEntry(owner)];
    assert EntryUsers(O) == {owner} by {
      assert O[1..] == [];
    }
    UsersOfConcat(O, L);
    DistinctConcat(O, L);
    UsersOfConcat(O + L, C);
    DistinctConcat(O + L, C);
  }

  /** Every entry of `r` was built, with `origin`, from a row of `rows`. */
  predicate BuiltFrom(r: seq<MemberEntry>, rows: seq<(UserId, Grant)>, origin: Origin, canManage: bool) {
    forall i :: 0 <= i < |r| ==> (r[i].origin == origin && r[i].row.Some? && (r[i].user, r[i].row.value) in rows
      && r[i] == FromRow(r[i].user, r[i].row.value, origin, canManage))
  }

  lemma MergeRows(owner: UserId, listRows: seq<(UserId, Grant)>, catRows: seq<(UserId, Grant)>, canManage: bool,
                  L: seq<MemberEntry>, C: seq<MemberEntry>)
    requires BuiltFrom(L, listRows, ListOrigin, canManage) && BuiltFrom(C, catRows, CategoryOrigin, canManage)
    requires EntryUsers(C) !! RowUsers(listRows)
    ensures var r := [OwnerEntry(owner)] + L + C;
      && (forall i :: 0 < i < |r| ==> (r[i].origin != OwnerOrigin && r[i].row.Some?
           && r[i] == FromRow(r[i].user, r[i].row.value, r[i].origin, canManage)))
      && (forall i, j :: 0 <= i < j < |r| ==> !(r[i].origin == CategoryOrigin && r[j].origin == ListOrigin))
      && (forall i :: 0 <= i < |r| && r[i].origin == ListOrigin ==> (r[i].user, r[i].row.value) in listRows)
      && (forall i :: 0 <= i < |r| && r[i].origin == CategoryOrigin ==>
           ((r[i].user, r[i].row.value) in catRows && r[i].user !in RowUsers(listRows)))
  {
    MergeEntriesBuilt(owner, listRows, catRows, canManage, L, C);
    MergeListsFirst(owner, L, C);
    MergeListEntries(owner, listRows, canManage, L, C);
    MergeCategoryEntries(owner, listRows, catRows, canManage, L, C);
  }

  /** Where the parts of the merge sit in it. */
  lemma ThreeParts(o: MemberEntry, L: seq<MemberEntry>, C: seq<MemberEntry>)
    ensures var r := [o] + L + C;
      && |r| == 1 + |L| + |C| && r[0] == o
      && (forall i :: 0 < i <= |L| ==> r[i] == L[i - 1])
      && (forall i :: |L| < i < |r| ==> r[i] == C[i - 1 - |L|])
  {
  }

  lemma MergeEntriesBuilt(owner: UserId, listRows: seq<(UserId, Grant)>, catRows: seq<(UserId, Grant)>, canManage: bool,
                          L: seq<MemberEntry>, C: seq<MemberEntry>)
    requires BuiltFrom(L, listRows, ListOrigin, canManage) && BuiltFrom(C, catRows, CategoryOrigin, canManage)
    ensures var r := [OwnerEntry(owner)] + L + C;
      forall i :: 0 < i < |r| ==> (r[i].origin != OwnerOrigin && r[i].row.Some?
        && r[i] == FromRow(r[i].user, r[i].row.value, r[i].origin, canManage))
  {
    var r := [OwnerEntry(owner)] + L + C;
    forall i | 0 < i < |r|
      ensures r[i].origin != OwnerOrigin && r[i].row.Some?
      ensures r[i] == FromRow(r[i].user, r[i].row.value, r[i].origin, canManage)
    {
      if i <= |L| { assert r[i] == L[i - 1]; } else { assert r[i] == C[i - 1 - |L|]; }
    }
  }

  lemma MergeListsFirst(owner: UserId, L: seq<MemberEntry>, C: seq<MemberEntry>)
    requires forall i :: 0 <= i < |L| ==> L[i].origin == ListOrigin
    requires forall i :: 0 <= i < |C| ==> C[i].origin == CategoryOrigin
    ensures var r := [OwnerEntry(owner)] + L + C;
      forall i, j :: 0 <= i < j < |r| ==> !(r[i].origin == CategoryOrigin && r[j].origin == ListOrigin)
  {
    var r := [OwnerEntry(owner)] + L + C;
    forall i, j | 0 <= i < j < |r| ensures !(r[i].origin == CategoryOrigin && r[j].origin == ListOrigin) {
      if i > |L| {
        assert r[j] == C[j - 1 - |L|];
      } else if i > 0 {
        assert r[i] == L[i - 1];
      }
    }
  }

  lemma MergeListEntries(owner: UserId, listRows: seq<(UserId, Grant)>, canManage: bool,
                         L: seq<MemberEntry>, C: seq<MemberEntry>)
    requires BuiltFrom(L, listRows, ListOrigin, canManage)
    requires forall i :: 0 <= i < |C| ==> C[i].origin == CategoryOrigin
    ensures var r := [OwnerEntry(owner)] + L + C;
      forall i :: 0 <= i < |r| && r[i].origin == ListOrigin ==> (r[i].user, r[i].row.value) in listRows
  {
    var r := [OwnerEntry(owner)] + L + C;
    forall i | 0 <= i < |r| && r[i].origin == ListOrigin ensures (r[i].user, r[i].row.value) in listRows {
      ThreeParts(OwnerEntry(owner), L, C);
    }
  }

  lemma MergeCategoryEntries(owner: UserId, listRows: seq<(UserId, Grant)>, catRows: seq<(UserId, Grant)>,
                             canManage: bool, L: seq<MemberEntry>, C: seq<MemberEntry>)
    requires forall i :: 0 <= i < |L| ==> L[i].origin == ListOrigin
    requires BuiltFrom(C, catRows, CategoryOrigin, canManage)
    requires EntryUsers(C) !! RowUsers(listRows)
    ensures var r := [OwnerEntry(owner)] + L + C;
      forall i :: 0 <= i < |r| && r[i].origin == CategoryOrigin ==>
        ((r[i].user, r[i].row.value) in catRows && r[i].user !in RowUsers(listRows))
  {
    var r := [OwnerEntry(owner)] + L + C;
    forall i | 0 <= i < |r| && r[i].origin == CategoryOrigin
      ensures (r[i].user, r[i].row.value) in catRows && r[i].user !in RowUsers(listRows)
    {
      ThreeParts(OwnerEntry(owner), L, C);
      EntryUsersMeaning(C, r[i].user);
    }
  }

  /** No two rows share a user. */
  predicate Keyed(rows: seq<(UserId, Grant)>) {
    forall i, j :: 0 <= i < j < |rows| ==> rows[i].0 != rows[j].0
  }

  /** A row of the list rows shows up in the merge as a list entry built
      from that row, provided no two list rows share a user. */
  lemma MergeHasListRow(owner: UserId, listRows: seq<(UserId, Grant)>, catRows: seq<(UserId, Grant)>,
                        canManage: bool, u: UserId, g: Grant)
    requires (u, g) in listRows && u != owner
    requires Keyed(listRows)
    ensures var r := Merge(owner, listRows, catRows, canManage);
      exists i :: 0 < i < |r| && r[i] == FromRow(u, g, ListOrigin, canManage)
  {
    var r := Merge(owner, listRows, catRows, canManage);
    var k :| 0 <= k < |listRows| && listRows[k] == (u, g);
    RowUsersMeaning(listRows, u);
    EntryUsersMeaning(r, u);
    var i :| 0 <= i < |r| && r[i].user == u;
    if r[i].origin == CategoryOrigin {
      assert false;
    }
    var x := (u, r[i].row.value);
    var j :| 0 <= j < |listRows| && listRows[j] == x;
    assert j == k;
    assert r[i] == FromRow(u, g, ListOrigin, canManage);
  }

  /** A row of the category rows of a user without a list row shows up as
      a category entry built from that row. */
  lemma MergeHasCategoryRow(owner: UserId, listRows: seq<(UserId, Grant)>, catRows: seq<(UserId, Grant)>,
                            canManage: bool, u: UserId, g: Grant)
    requires (u, g) in catRows && u != owner && u !in RowUsers(listRows)
    requires Keyed(catRows)
    ensures var r := Merge(owner, listRows, catRows, canManage);
      exists i :: 0 < i < |r| && r[i] == FromRow(u, g, CategoryOrigin, canManage)
  {
    var r := Merge(owner, listRows, catRows, canManage);
    CategoryEntryOf(owner, listRows, catRows, canManage, u, g, r);
  }

  /** MergeHasCategoryRow on any sequence with the merge's properties. */
  lemma CategoryEntryOf(owner: UserId, listRows: seq<(UserId, Grant)>, catRows: seq<(UserId, Grant)>,
                        canManage: bool, u: UserId, g: Grant, r: seq<MemberEntry>)
    requires (u, g) in catRows && u != owner && u !in RowUsers(listRows)
    requires Keyed(catRows)
    requires |r| > 0 && r[0] == OwnerEntry(owner)
    requires EntryUsers(r) == {owner} + RowUsers(listRows) + RowUsers(catRows)
    requires forall i :: 0 < i < |r| ==> (r[i].origin != OwnerOrigin && r[i].row.Some?
      && r[i] == FromRow(r[i].user, r[i].row.value, r[i].origin, canManage))
    requires forall i :: 0 <= i < |r| && r[i].origin == ListOrigin ==> (r[i].user, r[i].row.value) in listRows
    requires forall i :: 0 <= i < |r| && r[i].origin == CategoryOrigin ==> (r[i].user, r[i].row.value) in catRows
    ensures exists i :: 0 < i < |r| && r[i] == FromRow(u, g, CategoryOrigin, canManage)
  {
    var k :| 0 <= k < |catRows| && catRows[k] == (u, g);
    RowUsersMeaning(catRows, u);
    EntryUsersMeaning(r, u);
    var i :| 0 <= i < |r| && r[i].user == u;
    if r[i].origin == ListOrigin {
      var x := (u, r[i].row.value);
      var j :| 0 <= j < |listRows| && listRows[j] == x;
      RowUsersMeaning(listRows, u);
      assert false;
    }
    var y := (u, r[i].row.value);
    var j :| 0 <= j < |catRows| && catRows[j] == y;
    assert j == k;
    assert r[i] == FromRow(u, g, CategoryOrigin, canManage);
  }

  datatype MembersReply = MembersReply(members: seq<MemberEntry>, yourRole: Option<string>, canManage: bool)

  /** Whether the user may look at the list's members: owner, active list
      row, or active row on the list's category. */
  predicate HasAccess(st: State, l: ListId, u: UserId)
    requires l in st.lists
  {
    OwnsList(st, l, u) || Active(st.listGrants, l, u) || CategoryRow(st, l, u).Some?
  }

  /** The active category rows of the list's category, if it has one. */
  function CategoryRows(st: State, l: ListId): (rows: seq<(UserId, Grant)>)
    requires l in st.lists
    ensures forall i :: 0 <= i < |rows| ==> var c := st.lists[l].category;
      c.Some? && Active(st.categoryGrants, c.value, rows[i].0) && rows[i].0 in st.users
      && rows[i].1 == st.categoryGrants[(c.value, rows[i].0)]
    ensures forall u :: CategoryRow(st, l, u).Some? && u in st.users ==> (u, CategoryRow(st, l, u).value) in rows
  {
    var c := st.lists[l].category;
    if c.Some? then GrantStore.ActiveRows(st.users, st.categoryGrants, c.value) else []
  }

  /** infoCompartidosLista: 404 for a missing list, 403 without access,
      500 when the owner has no user row; otherwise the merged members,
      the caller's role (front-end vocabulary, 'propietario' for the
      owner) and whether the caller may manage members (owner, or stored
      role 'admin' by the precedence above). */
  function MembersView(st: State, l: ListId, caller: UserId): (res: Result<MembersReply, Error>)
    ensures l !in st.lists ==> res == Failure(Error(NotFound, ListNotFound))
    ensures l in st.lists && !HasAccess(st, l, caller) ==> res == Failure(Error(Forbidden, NoPermission))
    ensures l in st.lists && HasAccess(st, l, caller) && st.lists[l].owner !in st.users ==>
      res == Failure(Error(ServerError, Unhandled))
    ensures res.Success? <==> l in st.lists && HasAccess(st, l, caller) && st.lists[l].owner in st.users
    ensures res.Success? ==> (res.value.canManage <==> OwnsList(st, l, caller) || AccessRole(st, l, caller) == Some(Roles.Admin))
  {
    if l !in st.lists then Failure(Error(NotFound, ListNotFound))
    else if !HasAccess(st, l, caller) then Failure(Error(Forbidden, NoPermission))
    else
      var owner := st.lists[l].owner;
      if owner !in st.users then Failure(Error(ServerError, Unhandled))
      else
        var stored := AccessRole(st, l, caller);
        var canManage := OwnsList(st, l, caller) || stored == Some(Roles.Admin);
        var listRows := GrantStore.ActiveRows(st.users, st.listGrants, l);
        var members := Merge(owner, listRows, CategoryRows(st, l), canManage);
        var yours := if OwnsList(st, l, caller) then Some(Roles.Owner)
                     else if stored.Some? then Some(Roles.ToFrontend(stored.value)) else None;
        Success(MembersReply(members, yours, canManage))
  }

  /** The pieces the membership view is merged from. */
  lemma MembersViewIsMerge(st: State, l: ListId, caller: UserId)
    requires MembersView(st, l, caller).Success?
    ensures var listRows := GrantStore.ActiveRows(st.users, st.listGrants, l);
      && Keyed(listRows) && Keyed(CategoryRows(st, l))
      && MembersView(st, l, caller).value.members
         == Merge(st.lists[l].owner, listRows, CategoryRows(st, l), MembersView(st, l, caller).value.canManage)
  {
    var c := st.lists[l].category;
    if c.Some? {
      assert CategoryRows(st, l) == GrantStore.ActiveRows(st.users, st.categoryGrants, c.value);
    }
  }

  /** A member with an active list row appears in the view with that
      row's role, even when a category row exists too. */
  lemma MembersViewListPrecedence(st: State, l: ListId, caller: UserId, u: UserId)
    requires l in st.lists && HasAccess(st, l, caller) && st.lists[l].owner in st.users
    requires u in st.users && u != st.lists[l].owner && Active(st.listGrants, l, u)
    ensures var m := MembersView(st, l, caller).value.members;
      exists i :: 0 < i < |m| && m[i].user == u && m[i].origin == ListOrigin
        && m[i].role == Roles.ToFrontend(st.listGrants[(l, u)].role)
  {
    MembersViewIsMerge(st, l, caller);
    var listRows := GrantStore.ActiveRows(st.users, st.listGrants, l);
    MergeHasListRow(st.lists[l].owner, listRows, CategoryRows(st, l),
                    MembersView(st, l, caller).value.canManage, u, st.listGrants[(l, u)]);
  }

  /** A member with only an active category row appears in the view with
      the category role. */
  lemma MembersViewCategoryPrecedence(st: State, l: ListId, caller: UserId, u: UserId)
    requires l in st.lists && HasAccess(st, l, caller) && st.lists[l].owner in st.users
    requires u in st.users && u != st.lists[l].owner
    requires !Active(st.listGrants, l, u) && CategoryRow(st, l, u).Some?
    ensures var m := MembersView(st, l, caller).value.members;
      exists i :: 0 < i < |m| && m[i].user == u && m[i].origin == CategoryOrigin
        && m[i].role == Roles.ToFrontend(CategoryRow(st, l, u).value.role)
  {
    MembersViewIsMerge(st, l, caller);
    var listRows := GrantStore.ActiveRows(st.users, st.listGrants, l);
    RowUsersMeaning(listRows, u);
    MergeHasCategoryRow(st.lists[l].owner, listRows, CategoryRows(st, l),
                        MembersView(st, l, caller).value.canManage, u, CategoryRow(st, l, u).value);
  }
}
