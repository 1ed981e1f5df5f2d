/** Categories: the category model (create with the creator's grant row,
    permission check, role lookup, delete, update, the view with its
    lists) and the controller that projects a user's categories. The
    permission check consults a helper the sharing utilities do not
    export, so for anyone but the owner it ends in its own catch and
    denies: in this code only the owner may edit a category. */
module Categories {
  import opened Wrappers
  import opened Js
  import opened Text
  import opened Store
  import opened Collections
  import Roles

  // ---------------------------------------------------------------------
  // Model: categoria.js

  /** Category ids already taken, by categories or by grant rows. */
  function UsedCategoryIds(st: State): (s: set<int>)
    ensures forall c :: c in st.categories ==> c in s
    ensures forall k :: k in st.categoryGrants ==> k.0 in s
  {
    st.categories.Keys + set k | k in st.categoryGrants :: k.0
  }

  /** The row crear writes for the category's creator. */
  function CreatorGrant(owner: UserId): Grant {
    Grant(Roles.Admin, true, true, true, Some(owner), 0)
  }

  datatype Created = Created(id: CategoryId, name: string, shareable: bool, privacy: string)

  /** crear: the category under a fresh id, and always an admin, creator,
      accepted, active row for its owner. The answer claims the category
      shareable and private whatever the table's column defaults
      (`shareableDefault`, not part of this model) store. */
  function Create(st: State, name: string, owner: UserId, shareableDefault: bool): (res: (Created, State))
    ensures var (c, st') := res;
      && c.id !in st.categories && (forall k :: k in st.categoryGrants ==> k.0 != c.id)
      && st'.categories == st.categories[c.id := Category(owner, name, None, shareableDefault)]
      && st'.categoryGrants == st.categoryGrants[(c.id, owner) := CreatorGrant(owner)]
      && c.name == name && c.shareable && c.privacy == "privada"
      && st'.lists == st.lists && st'.listGrants == st.listGrants
  {
    var id := FreshId(UsedCategoryIds(st));
    (Created(id, name, true, "privada"),
     st.(categories := st.categories[id := Category(owner, name, None, shareableDefault)],
         categoryGrants := st.categoryGrants[(id, owner) := CreatorGrant(owner)]))
  }

  /** verificarPermiso as written: false for a missing category, true for
      the owner, false without an active row or with an empty role, and
      false for every other grantee too, because the permission helper it
      calls is missing and the failure is caught. The action plays no
      part. */
  function MayAct(st: State, c: CategoryId, u: UserId, action: string): (ok: bool)
    ensures ok <==> OwnsCategory(st, c, u)
  {
    if c !in st.categories then false
    else if st.categories[c].owner == u then true
    else if !Active(st.categoryGrants, c, u) || st.categoryGrants[(c, u)].role == "" then false
    else false
  }

  /** What obtenerRol answers: the owner gets no `esCreador` field, which
      `isCreator == None` stands for. */
  datatype RoleInfo = RoleInfo(role: Option<string>, isOwner: bool, isCreator: Option<bool>)

  /** obtenerRol: None for a missing category; 'admin' for the owner,
      whatever rows exist; otherwise the active row's role (an empty role
      reads as null) and its creator flag. */
  function RoleOf(st: State, c: CategoryId, u: UserId): (r: Option<RoleInfo>)
    ensures r.None? <==> c !in st.categories
    ensures OwnsCategory(st, c, u) ==> r == Some(RoleInfo(Some(Roles.Admin), true, None))
    ensures r.Some? && !OwnsCategory(st, c, u) ==> var info := r.value;
      && !info.isOwner && info.isCreator.Some?
      && (info.role.Some? <==> Active(st.categoryGrants, c, u) && st.categoryGrants[(c, u)].role != "")
      && (info.role.Some? ==> info.role.value == st.categoryGrants[(c, u)].role)
      && (info.isCreator.value <==> Active(st.categoryGrants, c, u) && st.categoryGrants[(c, u)].isCreator)
  {
    if c !in st.categories then None
    else if st.categories[c].owner == u then Some(RoleInfo(Some(Roles.Admin), true, None))
    else if Active(st.categoryGrants, c, u) then
      var g := st.categoryGrants[(c, u)];
      Some(RoleInfo(if g.role != "" then Some(g.role) else None, false, Some(g.isCreator)))
    else Some(RoleInfo(None, false, Some(false)))
  }

  /** The category is visible to the user: owner or active row. */
  predicate Visible(st: State, c: CategoryId, u: UserId) {
    c in st.categories && (st.categories[c].owner == u || Active(st.categoryGrants, c, u))
  }

  /** obtenerPorId: the category when the user may see it, else null. */
  function Find(st: State, c: CategoryId, u: UserId): (r: Option<Category>)
    ensures r.Some? <==> Visible(st, c, u)
    ensures r.Some? ==> r.value == st.categories[c]
  {
    if Visible(st, c, u) then Some(st.categories[c]) else None
  }

  /** eliminar: false for a missing category, an error for a non-owner,
      otherwise the category is deleted. */
  function Delete(st: State, c: CategoryId, u: UserId): (res: Result<(bool, State), Error>)
    ensures c !in st.categories ==> res == Success((false, st))
    ensures c in st.categories && st.categories[c].owner != u ==> res.Failure?
    ensures OwnsCategory(st, c, u) ==> (res.Success? && res.value.0
      && res.value.1 == st.(categories := st.categories - {c}))
  {
    if c !in st.categories then Success((false, st))
    else if st.categories[c].owner != u then Failure(Error(ServerError, NoPermission))
    else Success((true, st.(categories := st.categories - {c})))
  }

  /** One list of obtenerConListas. */
  datatype ListItem = ListItem(id: ListId, name: string, shareable: bool, key: Option<string>, owner: UserId)

  datatype WithLists = WithLists(id: CategoryId, name: string, shareable: bool, key: Option<string>,
                                 role: string, lists: seq<ListItem>)

  function Items(st: State, ids: seq<ListId>): (r: seq<ListItem>)
    requires forall i :: 0 <= i < |ids| ==> ids[i] in st.lists
    ensures |r| == |ids|
    ensures forall i :: 0 <= i < |ids| ==> var x := st.lists[ids[i]];
      r[i] == ListItem(ids[i], x.name, x.shareable, x.key, x.owner)
  {
    if ids == [] then []
    else
      var x := st.lists[ids[0]];
      [ListItem(ids[0], x.name, x.shareable, x.key, x.owner)] + Items(st, ids[1..])
  }

  /** The lists filed under category `c`. */
  function ListsIn(st: State, c: CategoryId): (s: set<ListId>)
    ensures forall l :: l in s <==> l in st.lists && st.lists[l].category == Some(c)
  {
    set l | l in st.lists && st.lists[l].category == Some(c)
  }

  /** obtenerConListas, with the category's own compartible and
      claveCompartir in the header: null unless the user may see the
      category; the role is the active row's, `|| 'admin'` when there is
      none (or it is empty); the lists are exactly those filed under the
      category. */
  function WithListsOf(st: State, c: CategoryId, u: UserId): (r: Option<WithLists>)
    ensures r.Some? <==> Visible(st, c, u)
    ensures r.Some? ==> r.value.id == c && r.value.name == st.categories[c].name
    ensures r.Some? ==> r.value.shareable == st.categories[c].shareable && r.value.key == st.categories[c].key
    ensures r.Some? && !(Active(st.categoryGrants, c, u) && st.categoryGrants[(c, u)].role != "") ==>
      r.value.role == Roles.Admin
    ensures r.Some? && Active(st.categoryGrants, c, u) && st.categoryGrants[(c, u)].role != "" ==>
      r.value.role == st.categoryGrants[(c, u)].role
    ensures r.Some? ==> (forall l :: l in ListsIn(st, c) <==> HasItem(r.value.lists, l))
  {
    if !Visible(st, c, u) then None
    else
      var cat := st.categories[c];
      var role := if Active(st.categoryGrants, c, u) && st.categoryGrants[(c, u)].role != ""
                  then st.categoryGrants[(c, u)].role else Roles.Admin;
      Some(WithLists(c, cat.name, cat.shareable, cat.key, role, ListItems(st, c)))
  }

  /** compartible and claveCompartir of the category header as
      obtenerConListas reads them. The query selects `c.*` and then the
      list columns compartible and claveCompartir under the same names, so
      the row object keeps the list's values: those of the list on the
      first row, or null when the category has no list. `first` is that
      list (the query orders by importante, which is not modelled). */
  datatype Header = Header(shareable: Option<bool>, key: Option<string>)

  function HeaderAsWritten(st: State, c: CategoryId, first: Option<ListId>): (h: Header)
    requires first.Some? ==> first.value in ListsIn(st, c)
    requires first.None? ==> ListsIn(st, c) == {}
    ensures first.None? ==> h.shareable.None? && h.key.None?
    ensures first.Some? ==> h.shareable == Some(st.lists[first.value].shareable) && h.key == st.lists[first.value].key
  {
    match first
    case None => Header(None, None)
    case Some(l) => Header(Some(st.lists[l].shareable), st.lists[l].key)
  }

  /** A shareable category with a key, holding one private list without
      a key: as written the header reports it unshareable and keyless, and
      a category with no list at all gets null for both; the corrected
      reading reports the category's own values. */
  lemma HeaderAsWrittenShowsTheList()
    ensures var st := State(map[1 := User("o", "o@x")], map[5 := Category(1, "c", Some("CATKEY01"), true)],
                            map[10 := List(1, "l", Some(5), None, false)], map[], map[], map[], []);
      && HeaderAsWritten(st, 5, Some(10)) == Header(Some(false), None)
      && WithListsOf(st, 5, 1).Some?
      && WithListsOf(st, 5, 1).value.shareable && WithListsOf(st, 5, 1).value.key == Some("CATKEY01")
    ensures var st := State(map[1 := User("o", "o@x")], map[5 := Category(1, "c", Some("CATKEY01"), true)],
                            map[], map[], map[], map[], []);
      && HeaderAsWritten(st, 5, None) == Header(None, None)
      && WithListsOf(st, 5, 1).Some? && WithListsOf(st, 5, 1).value.shareable
  {
    var st := State(map[1 := User("o", "o@x")], map[5 := Category(1, "c", Some("CATKEY01"), true)],
                    map[10 := List(1, "l", Some(5), None, false)], map[], map[], map[], []);
    assert 10 in ListsIn(st, 5);
    var st0 := State(map[1 := User("o", "o@x")], map[5 := Category(1, "c", Some("CATKEY01"), true)],
                     map[], map[], map[], map[], []);
    assert ListsIn(st0, 5) == {};
  }

  /** Some item is list `l`. */
  predicate HasItem(items: seq<ListItem>, l: ListId) {
    exists i :: 0 <= i < |items| && items[i].id == l
  }

  /** The lists filed under `c`, in id order, each once. */
  function ListItems(st: State, c: CategoryId): (r: seq<ListItem>)
    ensures forall l :: l in ListsIn(st, c) <==> HasItem(r, l)
  {
    var ids := SortedKeys(ListsIn(st, c));
    assert forall i :: 0 <= i < |ids| ==> ids[i] in ListsIn(st, c);
    ItemIds(st, ids);
    Items(st, ids)
  }

  lemma ItemIds(st: State, ids: seq<ListId>)
    requires forall i :: 0 <= i < |ids| ==> ids[i] in st.lists
    ensures forall l :: l in ids <==> HasItem(Items(st, ids), l)
  {
    var items := Items(st, ids);
    forall i | 0 <= i < |items|
      ensures items[i].id in ids
    {
      assert items[i].id == ids[i];
    }
    forall l
      ensures l in ids <==> HasItem(items, l)
    {
      if l in ids {
        var i :| 0 <= i < |ids| && ids[i] == l;
        assert items[i].id == l;
      }
    }
  }

  // ---------------------------------------------------------------------
  // Controller: categoria.controller.js

  /** One category as obtenerCategorias projects it for the caller. */
  datatype CategoryView = CategoryView(id: CategoryId, name: string, isOwner: bool, role: Option<string>,
                                       shared: bool, listCount: nat, key: Option<string>)

  /** The categories obtenerCategorias returns: owned ones, and those where
      the user holds an active, accepted row. */
  predicate Listed(st: State, c: CategoryId, u: UserId) {
    c in st.categories && (st.categories[c].owner == u || Member(st.categoryGrants, c, u))
  }

  /** The projection of one category: the owner's role is 'admin'
      whatever rows exist, otherwise the accepted row's role; `compartida`
      is the negation of ownership; the key is shown to the owner only. */
  function Project(st: State, c: CategoryId, u: UserId): (v: CategoryView)
    requires c in st.categories
    ensures v.id == c && v.name == st.categories[c].name
    ensures v.isOwner <==> st.categories[c].owner == u
    ensures v.shared == !v.isOwner
    ensures v.isOwner ==> v.role == Some(Roles.Admin) && v.key == st.categories[c].key
    ensures !v.isOwner ==> v.key.None?
    ensures !v.isOwner && Member(st.categoryGrants, c, u) ==> v.role == Some(st.categoryGrants[(c, u)].role)
    ensures v.listCount == |ListsIn(st, c)|
  {
    var cat := st.categories[c];
    var owner := cat.owner == u;
    var role := if owner then Some(Roles.Admin)
                else if Member(st.categoryGrants, c, u) then Some(st.categoryGrants[(c, u)].role)
                else None;
    CategoryView(c, cat.name, owner, role, !owner, |ListsIn(st, c)|, if owner then cat.key else None)
  }

  function Projections(st: State, ids: seq<CategoryId>, u: UserId): (r: seq<CategoryView>)
    requires forall i :: 0 <= i < |ids| ==> ids[i] in st.categories
    ensures |r| == |ids|
    ensures forall i :: 0 <= i < |ids| ==> r[i] == Project(st, ids[i], u)
    ensures forall i :: 0 <= i < |ids| ==> r[i].id == ids[i]
  {
    if ids == [] then [] else [Project(st, ids[0], u)] + Projections(st, ids[1..], u)
  }

  /** The ids obtenerCategorias groups: the join on categoria_compartida
      keeps only active, accepted rows, so a row still awaiting acceptance
      does not list its category. */
  function ListedIds(st: State, u: UserId): (s: set<CategoryId>)
    ensures forall c :: c in s <==> Listed(st, c, u)
  {
    set c | c in st.categories && (st.categories[c].owner == u || Member(st.categoryGrants, c, u))
  }

  /** The ids the model's obtenerTodas lists: its join keeps every active
      row, accepted or not. */
  function AllIds(st: State, u: UserId): (s: set<CategoryId>)
    ensures forall c :: c in s <==> c in st.categories && (st.categories[c].owner == u || Active(st.categoryGrants, c, u))
  {
    set c | c in st.categories && (st.categories[c].owner == u || Active(st.categoryGrants, c, u))
  }

  /** The controller lists a subset of what the model lists, and the two
      differ exactly on the categories the user does not own and holds
      only an active row not yet accepted. */
  lemma ListedWithinAll(st: State, u: UserId, c: CategoryId)
    ensures c in ListedIds(st, u) ==> c in AllIds(st, u)
    ensures c in AllIds(st, u) && c !in ListedIds(st, u) <==>
      c in st.categories && st.categories[c].owner != u && Active(st.categoryGrants, c, u)
      && !st.categoryGrants[(c, u)].accepted
  {
  }

  /** obtenerCategorias: one projected entry per listed category, each
      category once. */
  function UserCategories(st: State, u: UserId): (r: seq<CategoryView>)
    ensures forall i :: 0 <= i < |r| ==> Listed(st, r[i].id, u) && r[i] == Project(st, r[i].id, u)
    ensures forall c :: Listed(st, c, u) ==> exists i :: 0 <= i < |r| && r[i].id == c
    ensures forall i, j :: 0 <= i < j < |r| ==> r[i].id != r[j].id
  {
    var listed := ListedIds(st, u);
    var ids := SortedKeys(listed);
    assert forall i :: 0 <= i < |ids| ==> ids[i] in listed;
    var r := Projections(st, ids, u);
    ProjectedListing(st, u, listed, ids, r);
    r
  }

  /** The projections of the sorted listed ids are the listed categories,
      each once. */
  lemma ProjectedListing(st: State, u: UserId, listed: set<CategoryId>, ids: seq<CategoryId>, r: seq<CategoryView>)
    requires listed == ListedIds(st, u)
    requires forall i :: 0 <= i < |ids| ==> ids[i] in listed
    requires forall c :: c in listed ==> c in ids
    requires forall i, j :: 0 <= i < j < |ids| ==> ids[i] < ids[j]
    requires |r| == |ids| && forall i :: 0 <= i < |ids| ==> r[i] == Project(st, ids[i], u) && r[i].id == ids[i]
    ensures forall i :: 0 <= i < |r| ==> Listed(st, r[i].id, u) && r[i] == Project(st, r[i].id, u)
    ensures forall c :: Listed(st, c, u) ==> exists i :: 0 <= i < |r| && r[i].id == c
    ensures forall i, j :: 0 <= i < j < |r| ==> r[i].id != r[j].id
  {
    forall i | 0 <= i < |r| ensures Listed(st, r[i].id, u) && r[i] == Project(st, r[i].id, u) {
      assert ids[i] in listed;
    }
    forall c | Listed(st, c, u) ensures exists i :: 0 <= i < |r| && r[i].id == c {
      assert c in listed;
      var i :| 0 <= i < |ids| && ids[i] == c;
      assert r[i].id == c;
    }
  }

  /** crearCategoria: 400 for a falsy name; a name that is not a string
      fails (500); otherwise the trimmed name is stored (a blank name is
      stored empty: only falsiness is checked). */
  function CreateCategory(st: State, name: JsValue, caller: UserId, shareableDefault: bool): (rep: Reply<Created>)
    ensures !Truthy(name) ==> rep == Reply(Failure(Error(BadRequest, NameRequired)), st)
    ensures Truthy(name) && !name.JStr? ==> rep == Reply(Failure(Error(ServerError, Unhandled)), st)
    ensures rep.result.Success? <==> Truthy(name) && name.JStr?
    ensures rep.result.Success? ==> (name.JStr? && rep.result.value.name == Trim(name.s)
      && rep.result.value.id in rep.st.categories && rep.st.categories[rep.result.value.id].owner == caller
      && Member(rep.st.categoryGrants, rep.result.value.id, caller))
    ensures rep.result.Success? ==> var c := rep.result.value.id;
      name.JStr? && c !in st.categories
      && rep.st == st.(categories := st.categories[c := Category(caller, Trim(name.s), None, shareableDefault)],
                       categoryGrants := st.categoryGrants[(c, caller) := CreatorGrant(caller)])
  {
    if !Truthy(name) then Reply(Failure(Error(BadRequest, NameRequired)), st)
    else if !name.JStr? then Reply(Failure(Error(ServerError, Unhandled)), st)
    else
      var (c, st') := Create(st, Trim(name.s), caller, shareableDefault);
      Reply(Success(c), st')
  }

  /** actualizarCategoria: 400 for a falsy name; 403 unless the permission
      check passes (so for a missing category too); then the model's own
      checks: a name that is not a string, or blank once trimmed, fails
      (500); otherwise the name is replaced. */
  function UpdateCategory(st: State, c: CategoryId, name: JsValue, caller: UserId): (rep: Reply<Category>)
    ensures !Truthy(name) ==> rep == Reply(Failure(Error(BadRequest, NameRequired)), st)
    ensures Truthy(name) && !OwnsCategory(st, c, caller) ==> rep == Reply(Failure(Error(Forbidden, NoPermission)), st)
    ensures rep.result.Success? <==> Truthy(name) && OwnsCategory(st, c, caller) && name.JStr? && Trim(name.s) != ""
    ensures rep.result.Success? ==> (rep.st == st.(categories := st.categories[c := st.categories[c].(name := Trim(name.s))])
      && rep.result.value == rep.st.categories[c])
    ensures rep.result.Failure? ==> rep.st == st
  {
    if !Truthy(name) then Reply(Failure(Error(BadRequest, NameRequired)), st)
    else if !MayAct(st, c, caller, "editar") then Reply(Failure(Error(Forbidden, NoPermission)), st)
    else if !name.JStr? || Trim(name.s) == "" then Reply(Failure(Error(ServerError, Unhandled)), st)
    else
      var cat := st.categories[c].(name := Trim(name.s));
      Reply(Success(cat), st.(categories := st.categories[c := cat]))
  }

  /** eliminarCategoria: 404 for a missing category, 500 for a non-owner. */
  function DeleteCategory(st: State, c: CategoryId, caller: UserId): (rep: Reply<bool>)
    ensures c !in st.categories ==> rep == Reply(Failure(Error(NotFound, CategoryNotFound)), st)
    ensures c in st.categories && !OwnsCategory(st, c, caller) ==> rep.result == Failure(Error(ServerError, NoPermission))
    ensures rep.result.Success? <==> OwnsCategory(st, c, caller)
    ensures rep.result.Success? ==> c !in rep.st.categories && Find(rep.st, c, caller).None?
    ensures rep.result.Success? ==> rep.st == st.(categories := st.categories - {c})
    ensures rep.result.Failure? ==> rep.st == st
  {
    match Delete(st, c, caller)
    case Failure(e) => Reply(Failure(e), st)
    case Success((ok, st')) =>
      if !ok then Reply(Failure(Error(NotFound, CategoryNotFound)), st)
      else Reply(Success(true), st')
  }

  /** A category just created belongs to its creator in every view: the
      permission check passes, the role is 'admin' with ownership, and the
      projection shows the key, not shared. */
  lemma CreatedIsOwned(st: State, name: string, owner: UserId, shareableDefault: bool)
    ensures var (c, st') := Create(st, name, owner, shareableDefault);
      && MayAct(st', c.id, owner, "editar")
      && RoleOf(st', c.id, owner) == Some(RoleInfo(Some(Roles.Admin), true, None))
      && Listed(st', c.id, owner)
      && Project(st', c.id, owner).role == Some(Roles.Admin)
      && !Project(st', c.id, owner).shared
  {
  }

  /** The owner's role reads 'admin' in both the role lookup and the
      listing projection, even when the owner's own row says otherwise. */
  lemma OwnerIsAdminEverywhere(st: State, c: CategoryId, u: UserId)
    requires OwnsCategory(st, c, u)
    ensures RoleOf(st, c, u).value.role == Some(Roles.Admin)
    ensures Project(st, c, u).role == Some(Roles.Admin)
  {
  }

  /** A grantee with an active, accepted row reads the same role in the
      role lookup and in the listing, yet may not edit the category. */
  lemma GranteeRoleAgrees(st: State, c: CategoryId, u: UserId)
    requires c in st.categories && st.categories[c].owner != u
    requires Member(st.categoryGrants, c, u) && st.categoryGrants[(c, u)].role != ""
    ensures RoleOf(st, c, u).value.role == Project(st, c, u).role
    ensures !MayAct(st, c, u, "editar")
    ensures UpdateCategory(st, c, JStr("x"), u).result == Failure(Error(Forbidden, NoPermission))
  {
  }
}
