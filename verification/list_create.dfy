/** crearLista: a new list inherits the shared state of its category. Under
    a shareable category the list is shareable at once, gets its own key,
    its creator gets the admin creator row, and every user with an active
    row on the category gets a row on the list with the category role. */
module ListCreate {
  import opened Wrappers
  import opened Js
  import opened Text
  import opened Store
  import opened Collections
  import Roles
  import SharingUtils
  import ListSharing

  /** What the handler answers for a created list. */
  datatype NewList = NewList(id: ListId, name: string, category: Option<CategoryId>,
                             shareable: bool, key: Option<string>)

  /** List ids already taken: the lists, and any list id grant rows still
      mention (AUTO_INCREMENT never hands out an id twice). */
  function UsedListIds(st: State): (s: set<int>)
    ensures forall l :: l in st.lists ==> l in s
    ensures forall k :: k in st.listGrants ==> k.0 in s
  {
    st.lists.Keys + set k | k in st.listGrants :: k.0
  }

  /** The category exists and is shareable. */
  predicate SharedCategory(st: State, category: Option<CategoryId>) {
    category.Some? && category.value in st.categories && st.categories[category.value].shareable
  }

  /** The users who get a copied row: active on the category (acceptance is
      not looked at), other than the creator. */
  function Inheritors(cat: Table, c: CategoryId, creator: UserId): (s: set<UserId>)
    ensures forall u :: u in s <==> Active(cat, c, u) && u != creator
  {
    ActiveHolders(cat, c) - {creator}
  }

  /** The creator's row on the new list. */
  function CreatorRow(creator: UserId, now: int): Grant {
    Grant(Roles.Admin, true, true, true, Some(creator), now)
  }

  /** The row copied from an active category row. */
  function CopiedRow(g: Grant, creator: UserId, now: int): Grant {
    Grant(g.role, false, true, true, Some(creator), now)
  }

  /** The grant rows the new list `l` starts with, added to the table. */
  function Propagate(t: Table, cat: Table, c: CategoryId, l: ListId, creator: UserId, now: int): (t': Table)
    requires forall k :: k in t ==> k.0 != l
    ensures forall k :: k in t ==> k in t' && t'[k] == t[k]
    ensures forall k :: k in t' && k.0 != l ==> k in t
    ensures forall u :: (l, u) in t' <==> u == creator || u in Inheritors(cat, c, creator)
    ensures (l, creator) in t' && t'[(l, creator)] == CreatorRow(creator, now)
    ensures forall u :: u in Inheritors(cat, c, creator) ==>
      (l, u) in t' && t'[(l, u)] == CopiedRow(cat[(c, u)], creator, now)
  {
    var added := {(l, creator)} + set u | u in Inheritors(cat, c, creator) :: (l, u);
    map k | k in t.Keys + added ::
      if k in t then t[k]
      else if k.1 == creator then CreatorRow(creator, now)
      else CopiedRow(cat[(c, k.1)], creator, now)
  }

  /** crearLista: 400 for a missing or blank name before anything is
      written; a name that is not a string fails the call (500). Otherwise
      the list is inserted under a fresh id with the trimmed name; it is
      shareable, with a key from the retry loop, exactly when its category
      exists and is shareable, and only then are grant rows written. */
  function CreateList(st: State, name: JsValue, category: Option<CategoryId>, caller: UserId,
                      cands: seq<string>, now: int): (rep: Reply<NewList>)
    requires |cands| == 11
    ensures !Truthy(name) || (name.JStr? && Trim(name.s) == "") ==>
      rep == Reply(Failure(Error(BadRequest, NameRequired)), st)
    ensures Truthy(name) && !name.JStr? ==> rep == Reply(Failure(Error(ServerError, Unhandled)), st)
    ensures rep.result.Failure? ==> rep.st == st
    ensures rep.result.Success? <==> name.JStr? && Trim(name.s) != ""
    ensures rep.result.Success? ==> var n := rep.result.value;
      && name.JStr? && n.name == Trim(name.s) && n.name != ""
      && n.id !in st.lists && n.id in rep.st.lists
      && rep.st.lists == st.lists[n.id := List(caller, n.name, category, n.key, n.shareable)]
      && (n.shareable <==> SharedCategory(st, category))
      && (n.key.Some? <==> n.shareable)
    ensures rep.result.Success? && !rep.result.value.shareable ==> rep.st.listGrants == st.listGrants
    ensures rep.result.Success? ==> rep.st == st.(lists := rep.st.lists, listGrants := rep.st.listGrants)
  {
    if !Truthy(name) then Reply(Failure(Error(BadRequest, NameRequired)), st)
    else if !name.JStr? then Reply(Failure(Error(ServerError, Unhandled)), st)
    else if Trim(name.s) == "" then Reply(Failure(Error(BadRequest, NameRequired)), st)
    else
      var id := FreshId(UsedListIds(st));
      var shared := SharedCategory(st, category);
      var key := if shared then Some(ListSharing.KeyRetry(ListKeys(st), cands, 0)) else None;
      var n := NewList(id, Trim(name.s), category, shared, key);
      var lists := st.lists[id := List(caller, n.name, category, key, shared)];
      var grants := if shared
                    then Propagate(st.listGrants, st.categoryGrants, category.value, id, caller, now)
                    else st.listGrants;
      Reply(Success(n), st.(lists := lists, listGrants := grants))
  }

  /** Under a shareable category the new list holds the creator's admin
      row and one accepted, active, non-creator row per other active
      category member, with that member's category role; every other
      list's rows are untouched. */
  lemma CreateUnderSharedCategory(st: State, name: JsValue, c: CategoryId, caller: UserId,
                                  cands: seq<string>, now: int, u: UserId)
    requires |cands| == 11
    requires CreateList(st, name, Some(c), caller, cands, now).result.Success?
    requires SharedCategory(st, Some(c))
    ensures var rep := CreateList(st, name, Some(c), caller, cands, now); var l := rep.result.value.id;
      && rep.st.listGrants[(l, caller)] == CreatorRow(caller, now)
      && ((l, u) in rep.st.listGrants <==> u == caller || (Active(st.categoryGrants, c, u) && u != caller))
      && (Active(st.categoryGrants, c, u) && u != caller ==>
            rep.st.listGrants[(l, u)] == Grant(st.categoryGrants[(c, u)].role, false, true, true, Some(caller), now))
      && (forall k :: k in st.listGrants ==> k in rep.st.listGrants && rep.st.listGrants[k] == st.listGrants[k])
  {
  }

  /** A shareable list's key is one of the candidates and is key-shaped
      when they all are. */
  lemma CreatedKeyIsValid(st: State, name: JsValue, category: Option<CategoryId>, caller: UserId,
                          cands: seq<string>, now: int)
    requires |cands| == 11 && forall i :: 0 <= i < 11 ==> SharingUtils.IsKeyShaped(cands[i])
    requires CreateList(st, name, category, caller, cands, now).result.Success?
    ensures var n := CreateList(st, name, category, caller, cands, now).result.value;
      n.shareable ==> n.key.Some? && SharingUtils.IsKeyShaped(n.key.value)
  {
  }

  /** N active category members other than the creator give the new list
      N + 1 rows. */
  lemma {:induction false} PropagateCount(t: Table, cat: Table, c: CategoryId, l: ListId, creator: UserId, now: int)
    requires forall k :: k in t ==> k.0 != l
    ensures |Holders(Propagate(t, cat, c, l, creator, now), l)| == |Inheritors(cat, c, creator)| + 1
  {
    var t' := Propagate(t, cat, c, l, creator, now);
    var inh := Inheritors(cat, c, creator);
    assert Holders(t', l) == inh + {creator};
    assert creator !in inh;
  }

  /** The new list's row count: N + 1 under a shareable category with N
      other active members, none otherwise. */
  lemma CreateListRowCount(st: State, name: JsValue, category: Option<CategoryId>, caller: UserId,
                           cands: seq<string>, now: int)
    requires |cands| == 11
    requires CreateList(st, name, category, caller, cands, now).result.Success?
    ensures var rep := CreateList(st, name, category, caller, cands, now); var n := rep.result.value;
      |Holders(rep.st.listGrants, n.id)|
        == if n.shareable then |Inheritors(st.categoryGrants, category.value, caller)| + 1 else 0
  {
    var rep := CreateList(st, name, category, caller, cands, now);
    var n := rep.result.value;
    if n.shareable {
      PropagateCount(st.listGrants, st.categoryGrants, category.value, n.id, caller, now);
    } else {
      assert Holders(rep.st.listGrants, n.id) == {};
    }
  }
}
