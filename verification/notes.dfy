/** The notes model: creation defaults, the partial update, scoped delete,
    duplication, drag-and-drop reordering and the listing order. Every
    write is scoped to (idNota, idUsuario): a user never touches another
    user's note. */
module Notes {
  import opened Wrappers
  import opened Js
  import Collections

  type NoteId = int
  type UserId = int

  /** A row of `nota`. Titles, contents and colours are stored as given;
      `updated` is fechaActualizacion, which only the listing reads. */
  datatype Note = Note(owner: UserId, title: JsValue, content: JsValue, color: JsValue,
                       pinned: bool, position: int, updated: int)

  type Notes = map<NoteId, Note>

  /** What the table supplies for the columns an INSERT leaves out. */
  datatype Defaults = Defaults(pinned: bool, position: int)

  const UntitledTitle := "Sin título"
  const DefaultColor := "#BAC0CE"

  /** Whether `u` owns note `id` (the WHERE clause of every write). */
  predicate Owns(notes: Notes, id: NoteId, u: UserId) {
    id in notes && notes[id].owner == u
  }

  // ---------------------------------------------------------------------
  // crear

  /** crear: falsy title, content and colour fall back to 'Sin título', ''
      and '#BAC0CE'; the new id is the next auto-increment value. */
  function Create(notes: Notes, u: UserId, title: JsValue, content: JsValue, color: JsValue,
                  defaults: Defaults, now: int): (r: (NoteId, Notes))
    ensures r.0 in r.1 && r.0 !in notes && r.1 == notes[r.0 := r.1[r.0]]
    ensures r.1[r.0].owner == u
    ensures Truthy(r.1[r.0].title) && Truthy(r.1[r.0].color)
    ensures Truthy(title) ==> r.1[r.0].title == title
    ensures !Truthy(title) ==> r.1[r.0].title == JStr(UntitledTitle)
    ensures Truthy(content) ==> r.1[r.0].content == content
    ensures !Truthy(content) ==> r.1[r.0].content == JStr("")
    ensures Truthy(color) ==> r.1[r.0].color == color
    ensures !Truthy(color) ==> r.1[r.0].color == JStr(DefaultColor)
    ensures r.1[r.0].pinned == defaults.pinned && r.1[r.0].position == defaults.position
    ensures r.1[r.0].updated == now
  {
    var id := Collections.FreshId(notes.Keys);
    (id, notes[id := Note(u, Or(title, JStr(UntitledTitle)), Or(content, JStr("")),
                          Or(color, JStr(DefaultColor)), defaults.pinned, defaults.position, now)])
  }

  /** Creating from an empty form yields the documented defaults. */
  lemma CreateDefaults(notes: Notes, u: UserId, defaults: Defaults, now: int)
    ensures var (id, after) := Create(notes, u, JUndefined, JNull, JStr(""), defaults, now);
      after[id].title == JStr("Sin título") && after[id].content == JStr("")
      && after[id].color == JStr("#BAC0CE")
  {
  }

  // ---------------------------------------------------------------------
  // actualizar

  /** The body of an update: undefined (or None) means "not sent". */
  datatype Patch = Patch(title: JsValue, content: JsValue, color: JsValue,
                         pinned: Option<bool>, position: Option<int>)

  /** Whether the builder produces at least one `campo = ?`. */
  predicate HasFields(p: Patch) {
    !p.title.JUndefined? || !p.content.JUndefined? || !p.color.JUndefined?
    || p.pinned.Some? || p.position.Some?
  }

  /** The note with every sent field written. */
  function Patched(n: Note, p: Patch): Note {
    Note(n.owner,
         if p.title.JUndefined? then n.title else p.title,
         if p.content.JUndefined? then n.content else p.content,
         if p.color.JUndefined? then n.color else p.color,
         p.pinned.GetOr(n.pinned), p.position.GetOr(n.position), n.updated)
  }

  /** actualizar: false without a query when nothing is sent; otherwise an
      update of the caller's own note, true iff it matched. */
  function Update(notes: Notes, id: NoteId, u: UserId, p: Patch): (r: (bool, Notes))
    ensures r.0 <==> HasFields(p) && Owns(notes, id, u)
    ensures !r.0 ==> r.1 == notes
    ensures r.0 ==> r.1 == notes[id := Patched(notes[id], p)]
  {
    if !HasFields(p) then (false, notes)
    else if Owns(notes, id, u) then (true, notes[id := Patched(notes[id], p)])
    else (false, notes)
  }

  /** A patch changes exactly the fields it sends and leaves the owner in
      place; sending the same patch again changes nothing more. */
  lemma UpdateFields(notes: Notes, id: NoteId, u: UserId, p: Patch)
    requires Owns(notes, id, u) && HasFields(p)
    ensures var n := Update(notes, id, u, p).1[id];
      && n.owner == u
      && (p.title.JUndefined? ==> n.title == notes[id].title)
      && (!p.title.JUndefined? ==> n.title == p.title)
      && (p.pinned.Some? ==> n.pinned == p.pinned.value)
      && (p.position.None? ==> n.position == notes[id].position)
    ensures var after := Update(notes, id, u, p).1;
      Update(after, id, u, p).1 == after
  {
  }

  // ---------------------------------------------------------------------
  // eliminar

  /** eliminar: removes the caller's own note; true iff it existed. */
  function Delete(notes: Notes, id: NoteId, u: UserId): (r: (bool, Notes))
    ensures r.0 <==> Owns(notes, id, u)
    ensures r.0 ==> r.1 == notes - {id}
    ensures !r.0 ==> r.1 == notes
  {
    if Owns(notes, id, u) then (true, notes - {id}) else (false, notes)
  }

  /** A user's update or delete never changes a note of another user. */
  lemma WritesAreScoped(notes: Notes, id: NoteId, u: UserId, p: Patch, other: NoteId)
    requires other in notes && notes[other].owner != u
    ensures other in Update(notes, id, u, p).1 && Update(notes, id, u, p).1[other] == notes[other]
    ensures other in Delete(notes, id, u).1 && Delete(notes, id, u).1[other] == notes[other]
  {
  }

  // ---------------------------------------------------------------------
  // duplicar

  /** duplicar: a new note of the caller with the title suffixed by
      " (copia)" (a NULL title renders as "null") and the same content and
      colour; None when the caller has no such note. */
  function Duplicate(notes: Notes, id: NoteId, u: UserId, defaults: Defaults, now: int): (r: Option<(NoteId, Notes)>)
    ensures r.None? <==> !Owns(notes, id, u)
    ensures r.Some? ==>
      var (copy, after) := r.value;
      && copy in after && copy !in notes && after == notes[copy := after[copy]]
      && after[copy].owner == u
      && after[copy].title == JStr(Show(notes[id].title) + " (copia)")
      && after[copy].content == notes[id].content
      && after[copy].color == notes[id].color
  {
    if !Owns(notes, id, u) then None
    else
      var n := notes[id];
      var copy := Collections.FreshId(notes.Keys);
      Some((copy, notes[copy := Note(u, JStr(Show(n.title) + " (copia)"), n.content, n.color,
                                      defaults.pinned, defaults.position, now)]))
  }

  /** Duplicating keeps the original and adds exactly one note. */
  lemma DuplicateAddsOne(notes: Notes, id: NoteId, u: UserId, defaults: Defaults, now: int)
    requires Owns(notes, id, u)
    ensures var after := Duplicate(notes, id, u, defaults, now).value.1;
      |after| == |notes| + 1 && id in after && after[id] == notes[id]
  {
  }

  // ---------------------------------------------------------------------
  // actualizarPosiciones

  /** One `UPDATE nota SET posicion = i WHERE idNota = ? AND idUsuario = ?`. */
  function SetPosition(notes: Notes, id: NoteId, u: UserId, i: int): (r: Notes)
    ensures r.Keys == notes.Keys
  {
    if Owns(notes, id, u) then notes[id := notes[id].(position := i)] else notes
  }

  /** actualizarPosiciones: the note at index i of the given order gets
      position i. The updates run concurrently in the source; they are
      applied here in index order. */
  function Reorder(notes: Notes, order: seq<NoteId>, u: UserId): (r: Notes)
    ensures r.Keys == notes.Keys
    decreases |order|
  {
    if order == [] then notes
    else SetPosition(Reorder(notes, order[..|order| - 1], u), order[|order| - 1], u, |order| - 1)
  }

  /** After reordering, each of the caller's notes listed at index i (and
      nowhere later) has position i; every other note, and every other
      field, is unchanged. */
  lemma ReorderPositions(notes: Notes, order: seq<NoteId>, u: UserId)
    ensures forall i :: (0 <= i < |order| && Owns(notes, order[i], u)
      && (forall j :: i < j < |order| ==> order[j] != order[i])
      ==> Reorder(notes, order, u)[order[i]].position == i)
    ensures forall id :: (id in notes && (id !in order || notes[id].owner != u)
      ==> Reorder(notes, order, u)[id] == notes[id])
    ensures forall id :: id in notes ==> Reorder(notes, order, u)[id] == notes[id].(position := Reorder(notes, order, u)[id].position)
  {
    forall i | 0 <= i < |order| && Owns(notes, order[i], u)
      && (forall j :: i < j < |order| ==> order[j] != order[i])
      ensures Reorder(notes, order, u)[order[i]].position == i
    {
      ReorderLast(notes, order, u, i);
    }
    ReorderOthers(notes, order, u);
    ReorderOnlyPosition(notes, order, u);
  }

  /** The last index at which an owned note is listed is its position. */
  lemma {:induction false} ReorderLast(notes: Notes, order: seq<NoteId>, u: UserId, i: nat)
    requires i < |order| && Owns(notes, order[i], u)
    requires forall j :: i < j < |order| ==> order[j] != order[i]
    ensures Reorder(notes, order, u)[order[i]].position == i
    decreases |order|
  {
    var init := order[..|order| - 1];
    if i < |order| - 1 {
      assert init[i] == order[i];
      ReorderLast(notes, init, u, i);
    } else {
      ReorderOthers(notes, init, u);
      ReorderOnlyPosition(notes, init, u);
    }
  }

  /** Notes not listed, and notes of other users, are untouched. */
  lemma {:induction false} ReorderOthers(notes: Notes, order: seq<NoteId>, u: UserId)
    ensures forall id :: (id in notes && (id !in order || notes[id].owner != u)
      ==> Reorder(notes, order, u)[id] == notes[id])
    decreases |order|
  {
    if order != [] {
      var init := order[..|order| - 1];
      ReorderOthers(notes, init, u);
      ReorderOnlyPosition(notes, init, u);
      forall id | id in notes && id !in order
        ensures id !in init
      {
      }
    }
  }

  /** Reordering changes no field but the position. */
  lemma {:induction false} ReorderOnlyPosition(notes: Notes, order: seq<NoteId>, u: UserId)
    ensures forall id :: id in notes ==> Reorder(notes, order, u)[id] == notes[id].(position := Reorder(notes, order, u)[id].position)
    decreases |order|
  {
    if order != [] {
      ReorderOnlyPosition(notes, order[..|order| - 1], u);
    }
  }

  // ---------------------------------------------------------------------
  // obtenerPorUsuario

  /** ORDER BY fijada DESC, posicion ASC, fechaActualizacion DESC. */
  function SortKey(notes: Notes, id: NoteId): seq<int> {
    if id in notes then
      [if notes[id].pinned then 0 else 1, notes[id].position, -notes[id].updated]
    else [0, 0, 0]
  }

  /** The caller's notes, each once, in listing order (ties between equal
      keys are in id order here; the database leaves them unspecified). */
  function Listing(notes: Notes, u: UserId): (r: seq<NoteId>)
    ensures forall id :: id in r <==> Owns(notes, id, u)
    ensures Collections.SortedBy(r, id => SortKey(notes, id))
    ensures forall i, j :: 0 <= i < j < |r| ==> r[i] != r[j]
  {
    var owned := Collections.SortedKeys(set id | id in notes && notes[id].owner == u);
    var key := id => SortKey(notes, id);
    assert Collections.KeysUniform(owned, key, 3);
    var r := Collections.SortBy(owned, key, 3);
    Collections.PermutationKeepsDistinctKeys(owned, r, (id: NoteId) => id);
    forall id
      ensures id in r <==> id in owned
    {
      Collections.MultisetMember(owned, r, id);
    }
    r
  }

  /** Pinned notes come first, and among notes pinned alike the lower
      position comes first. */
  lemma ListingOrder(notes: Notes, u: UserId, i: int, j: int)
    requires 0 <= i < j < |Listing(notes, u)|
    ensures var r := Listing(notes, u);
      && r[i] in notes && r[j] in notes
      && (notes[r[j]].pinned ==> notes[r[i]].pinned)
      && (notes[r[i]].pinned == notes[r[j]].pinned ==> notes[r[i]].position <= notes[r[j]].position)
  {
    var r := Listing(notes, u);
    assert Owns(notes, r[i], u) && Owns(notes, r[j], u);
    var a, b := SortKey(notes, r[i]), SortKey(notes, r[j]);
    assert Collections.LexLe(a, b);
    if a[0] == b[0] {
      assert Collections.LexLe(a[1..], b[1..]);
      assert a[1..][0] == a[1] && b[1..][0] == b[1];
    }
  }
}
