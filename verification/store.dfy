/** The database state the sharing core reads and writes: users,
    categories, lists, the two grant tables (categoria_compartida and
    lista_compartida, one row per (resource, user) pair because the pair
    is the table key here), notifications and the audit log.

    A table of grants maps (resource id, user id) to the row. Timestamps
    are not modelled except `since` (fechaCompartido), which only orders
    listings; every write that stamps it takes the time from `Io.now`. */
module Store {
  import opened Wrappers
  import opened Js
  import opened Collections

  type UserId = int
  type ListId = int
  type CategoryId = int

  datatype User = User(name: string, email: string)

  datatype Category = Category(owner: UserId, name: string, key: Option<string>, shareable: bool)

  datatype List = List(owner: UserId, name: string, category: Option<CategoryId>,
                       key: Option<string>, shareable: bool)

  /** One grant row: the stored role, whether it is the creator's own row,
      whether the grantee accepted, whether it is active, who shared it and
      when (fechaCompartido). */
  datatype Grant = Grant(role: string, isCreator: bool, accepted: bool, active: bool,
                         sharedBy: Option<UserId>, since: int)

  type Table = map<(int, UserId), Grant>

  datatype Notification = Notification(user: UserId, kind: string, title: string,
                                       message: string, data: JsValue, read: bool)

  datatype AuditEntry = AuditEntry(entityType: string, entity: int, user: UserId,
                                   action: string, details: JsValue)

  datatype State = State(
    users: map<UserId, User>,
    categories: map<CategoryId, Category>,
    lists: map<ListId, List>,
    listGrants: Table,
    categoryGrants: Table,
    notifications: map<int, Notification>,
    audit: seq<AuditEntry>)

  /** `after` is `before` with the one notification `n` added under an id
      `before` does not use. */
  ghost predicate Notified(before: map<int, Notification>, after: map<int, Notification>, n: Notification) {
    exists id :: id !in before && after == before[id := n]
  }

  /** What a request brings from outside the database: the clock, and
      whether an audit INSERT fails. */
  datatype Io = Io(now: int, auditFails: bool)

  /** What a handler answers, with the state it leaves behind. A handler
      that runs in a transaction leaves the state it was given whenever it
      answers with an error before its commit. */
  datatype Reply<T> = Reply(result: Result<T, Error>, st: State)

  /** The grant row exists and is active. */
  predicate Active(t: Table, r: int, u: UserId) {
    (r, u) in t && t[(r, u)].active
  }

  /** The grant row exists, is active and was accepted: what chat,
      tasks and category listings call a member. */
  predicate Member(t: Table, r: int, u: UserId) {
    (r, u) in t && t[(r, u)].active && t[(r, u)].accepted
  }

  predicate OwnsList(st: State, l: ListId, u: UserId) {
    l in st.lists && st.lists[l].owner == u
  }

  predicate OwnsCategory(st: State, c: CategoryId, u: UserId) {
    c in st.categories && st.categories[c].owner == u
  }

  /** An active list grant with the stored role 'admin'. */
  predicate ActiveListAdmin(st: State, l: ListId, u: UserId) {
    Active(st.listGrants, l, u) && st.listGrants[(l, u)].role == "admin"
  }

  /** Users holding a row (any state) for resource `r`. */
  function Holders(t: Table, r: int): (s: set<UserId>)
    ensures forall u :: u in s <==> (r, u) in t
  {
    set k | k in t && k.0 == r :: k.1
  }

  /** Users holding an active row for resource `r`. */
  function ActiveHolders(t: Table, r: int): (s: set<UserId>)
    ensures forall u :: u in s <==> Active(t, r, u)
  {
    set k | k in t && k.0 == r && t[k].active :: k.1
  }

  /** Users holding an active, accepted row for resource `r`. */
  function Members(t: Table, r: int): (s: set<UserId>)
    ensures forall u :: u in s <==> Member(t, r, u)
  {
    set k | k in t && k.0 == r && t[k].active && t[k].accepted :: k.1
  }

  /** The share keys lists currently hold. */
  function ListKeys(st: State): (s: set<string>)
    ensures forall k :: k in s <==> exists l :: l in st.lists && st.lists[l].key == Some(k)
  {
    set l | l in st.lists && st.lists[l].key.Some? :: st.lists[l].key.value
  }

  /** Every row of resource `r` removed; other resources' rows untouched. */
  function DropResource(t: Table, r: int): (t': Table)
    ensures forall k :: k in t' <==> k in t && k.0 != r
    ensures forall k :: k in t' ==> t'[k] == t[k]
  {
    map k | k in t && k.0 != r :: t[k]
  }

  /** The first row an unordered query returns is taken to be the one
      with the lowest id. */
  function FirstId(ids: set<int>): (r: Option<int>)
    ensures ids == {} <==> r.None?
    ensures r.Some? ==> r.value in ids && forall y :: y in ids ==> r.value <= y
  {
    if ids == {} then None else Some(MinOf(ids))
  }

  /** Users whose stored e-mail equals `email`. */
  function UsersWithEmail(st: State, email: string): (s: set<UserId>)
    ensures forall u :: u in s <==> u in st.users && st.users[u].email == email
  {
    set u | u in st.users && st.users[u].email == email
  }
}
