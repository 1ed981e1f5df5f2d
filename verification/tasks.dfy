/** Tasks (tarea.js and the task controller): who may see, edit, delete,
    re-state and assign a task, the column-by-column update, the
    constructor's defaults, the request checks of the controller, the
    assigned-task filter of the list views, the reminder list of a task and
    the day steps of a repeating task. A task lives in its own table; the
    lists and list grants it is checked against come from the sharing
    State. */
module Tasks {
  import opened Wrappers
  import opened Js
  import opened Text
  import opened Store
  import opened Collections
  import Roles

  type TaskId = int

  /** The task fields a row or a request body may carry, by their column
      names (idTarea, nombre, ..., idUsuarioAsignado). */
  datatype Column =
    | IdTarea | Nombre | Descripcion | Prioridad | Estado | FechaCreacion | FechaVencimiento
    | MiDia | Pasos | Notas | Recordatorio | Repetir | TipoRepeticion | ConfigRepeticion
    | IdLista | IdUsuarioAsignado

  const AllColumns: set<Column> :=
    {IdTarea, Nombre, Descripcion, Prioridad, Estado, FechaCreacion, FechaVencimiento, MiDia, Pasos,
     Notas, Recordatorio, Repetir, TipoRepeticion, ConfigRepeticion, IdLista, IdUsuarioAsignado}

  lemma ColumnListed(k: Column)
    ensures k in AllColumns
  {
    match k
    case IdTarea =>
    case Nombre =>
    case Descripcion =>
    case Prioridad =>
    case Estado =>
    case FechaCreacion =>
    case FechaVencimiento =>
    case MiDia =>
    case Pasos =>
    case Notas =>
    case Recordatorio =>
    case Repetir =>
    case TipoRepeticion =>
    case ConfigRepeticion =>
    case IdLista =>
    case IdUsuarioAsignado =>
  }

  /** A row or a request body: the fields it carries. */
  type Row = map<Column, JsValue>

  /** `row.field`: undefined when the field is absent. */
  function At(r: Row, c: Column): (v: JsValue)
    ensures c in r ==> v == r[c]
    ensures c !in r ==> v == JUndefined
  {
    if c in r then r[c] else JUndefined
  }

  /** A task row: its owner (idUsuario), the user it is assigned to
      (idUsuarioAsignado) and its other columns. */
  datatype Task = Task(owner: UserId, assignee: Option<UserId>, columns: Row)

  type TaskTable = map<TaskId, Task>

  /** An answer together with the task table it leaves behind. */
  datatype Outcome<T> = Outcome(result: Result<T, Error>, tasks: TaskTable)

  /** The task's list: `if (tarea.idLista)` holds for a non-zero number. */
  function ListOf(t: Task): (l: Option<ListId>)
    ensures l.Some? <==> At(t.columns, IdLista).JNum? && At(t.columns, IdLista).n != 0
  {
    var v := At(t.columns, IdLista);
    if v.JNum? && v.n != 0 then Some(v.n) else None
  }

  /** idPropietarioLista of the LEFT JOIN: the owner of the task's list, or
      null when the task has no list or the list is gone. */
  function ListOwner(st: State, t: Task): (o: Option<UserId>)
    ensures o.Some? <==> ListOf(t).Some? && ListOf(t).value in st.lists
    ensures o.Some? ==> o.value == st.lists[ListOf(t).value].owner
  {
    match ListOf(t)
    case None => None
    case Some(l) => if l in st.lists then Some(st.lists[l].owner) else None
  }

  /** The caller's role from an active, accepted row on the task's list. */
  function SharedRole(st: State, t: Task, u: UserId): (r: Option<string>)
    ensures r.Some? <==> ListOf(t).Some? && Member(st.listGrants, ListOf(t).value, u)
    ensures r.Some? ==> r.value == st.listGrants[(ListOf(t).value, u)].role
  {
    match ListOf(t)
    case None => None
    case Some(l) => if Member(st.listGrants, l, u) then Some(st.listGrants[(l, u)].role) else None
  }

  const View := "ver"
  const Edit := "editar"
  const Delete := "eliminar"

  /** The role matrix of verificarPermisos; any other action name has no
      entry and is allowed to nobody. */
  predicate RoleAllows(action: string, role: string) {
    || (action == View && (role == Roles.Admin || role == Roles.Editor || role == Roles.Collaborator || role == Roles.Viewer))
    || (action == Edit && (role == Roles.Admin || role == Roles.Editor || role == Roles.Collaborator))
    || (action == Delete && (role == Roles.Admin || role == Roles.Editor))
  }

  /** verificarPermisos: the task owner, then the list owner, may do
      anything; otherwise a task in a list is open to an active, accepted
      grantee whose role the matrix allows. Category grants are not
      consulted. */
  function MayOnTask(st: State, tasks: TaskTable, id: TaskId, u: UserId, action: string): (ok: bool)
    ensures id !in tasks ==> !ok
    ensures id in tasks && (tasks[id].owner == u || ListOwner(st, tasks[id]) == Some(u)) ==> ok
    ensures id in tasks && tasks[id].owner != u && ListOwner(st, tasks[id]) != Some(u) ==>
      (ok <==> ListOf(tasks[id]).Some? && Member(st.listGrants, ListOf(tasks[id]).value, u)
               && RoleAllows(action, st.listGrants[(ListOf(tasks[id]).value, u)].role))
  {
    if id !in tasks then false
    else
      var t := tasks[id];
      if t.owner == u then true
      else if ListOwner(st, t) == Some(u) then true
      else if ListOf(t).Some? then
        var r := SharedRole(st, t, u);
        r.Some? && RoleAllows(action, r.value)
      else false
  }

  /** Whoever may delete may edit, and whoever may edit may view. */
  lemma PermissionsNested(st: State, tasks: TaskTable, id: TaskId, u: UserId)
    ensures MayOnTask(st, tasks, id, u, Delete) ==> MayOnTask(st, tasks, id, u, Edit)
    ensures MayOnTask(st, tasks, id, u, Edit) ==> MayOnTask(st, tasks, id, u, View)
  {
  }

  /** A viewer ('visor') may look at a task of someone else's list and do
      nothing else; a collaborator may edit it but not delete it. */
  lemma ViewerAndCollaborator(st: State, tasks: TaskTable, id: TaskId, u: UserId)
    requires id in tasks && tasks[id].owner != u && ListOwner(st, tasks[id]) != Some(u)
    requires SharedRole(st, tasks[id], u) == Some(Roles.Viewer) || SharedRole(st, tasks[id], u) == Some(Roles.Collaborator)
    ensures MayOnTask(st, tasks, id, u, View)
    ensures MayOnTask(st, tasks, id, u, Edit) <==> SharedRole(st, tasks[id], u) == Some(Roles.Collaborator)
    ensures !MayOnTask(st, tasks, id, u, Delete)
  {
  }

  /** An action outside the matrix is open to the two owners only. */
  lemma UnknownActionOwnersOnly(st: State, tasks: TaskTable, id: TaskId, u: UserId, action: string)
    requires action != View && action != Edit && action != Delete
    ensures MayOnTask(st, tasks, id, u, action) <==>
      id in tasks && (tasks[id].owner == u || ListOwner(st, tasks[id]) == Some(u))
  {
  }

  /** Category grants never decide a task permission, and neither does a
      pending or revoked list row. */
  lemma PermissionIgnoresCategoryAndInactiveRows(st: State, st': State, tasks: TaskTable, id: TaskId,
                                                 u: UserId, action: string)
    requires st'.lists == st.lists
    requires forall k :: k in st.listGrants && st.listGrants[k].active && st.listGrants[k].accepted ==>
      k in st'.listGrants && st'.listGrants[k] == st.listGrants[k]
    requires forall k :: k in st'.listGrants && st'.listGrants[k].active && st'.listGrants[k].accepted ==>
      k in st.listGrants && st.listGrants[k] == st'.listGrants[k]
    ensures MayOnTask(st, tasks, id, u, action) == MayOnTask(st', tasks, id, u, action)
  {
  }

  /** A task outside every list is open to its owner alone. */
  lemma NoListOwnerOnly(st: State, tasks: TaskTable, id: TaskId, u: UserId, action: string)
    requires id in tasks && ListOf(tasks[id]).None?
    ensures MayOnTask(st, tasks, id, u, action) <==> tasks[id].owner == u
  {
  }

  /** Tarea.cambiarEstado: its own permission test (task owner, list owner,
      or an active, accepted admin, editor or collaborator), then the new
      estado is written; None is the null answer. */
  function ChangeState(st: State, tasks: TaskTable, id: TaskId, u: UserId, estado: JsValue): (r: Option<TaskTable>)
    ensures r.Some? ==> id in tasks && r.value == tasks[id := tasks[id].(columns := tasks[id].columns[Estado := estado])]
  {
    if id !in tasks then None
    else
      var t := tasks[id];
      var permitted :=
        if t.owner == u then true
        else if ListOwner(st, t) == Some(u) then true
        else if ListOf(t).Some? then
          (var r := SharedRole(st, t, u);
           r.Some? && r.value in [Roles.Admin, Roles.Editor, Roles.Collaborator])
        else false;
      if !permitted then None
      else Some(tasks[id := t.(columns := t.columns[Estado := estado])])
  }

  /** cambiarEstado lets through exactly the users 'editar' lets through. */
  lemma ChangeStateIsEdit(st: State, tasks: TaskTable, id: TaskId, u: UserId, estado: JsValue)
    ensures ChangeState(st, tasks, id, u, estado).Some? <==> MayOnTask(st, tasks, id, u, Edit)
  {
  }

  /** The cambiarEstado handler: a missing estado, then one outside C, P and
      N, is a 400; a null answer from the model is a 404. */
  function ChangeStateRequest(st: State, tasks: TaskTable, id: TaskId, u: UserId, estado: JsValue): (o: Outcome<Task>)
    ensures !Truthy(estado) ==> o == Outcome(Failure(Error(BadRequest, StateRequired)), tasks)
    ensures Truthy(estado) && !ValidState(estado) ==> o == Outcome(Failure(Error(BadRequest, InvalidState)), tasks)
    ensures o.result.Success? ==>
      (&& ValidState(estado) && estado.JStr? && MayOnTask(st, tasks, id, u, Edit)
       && id in o.tasks && o.result.value == o.tasks[id]
       && Estado in o.tasks[id].columns && o.tasks[id].columns[Estado] == estado)
    ensures o.result.Failure? ==> o.tasks == tasks
    ensures Truthy(estado) && ValidState(estado) ==>
      (o.result.Success? <==> MayOnTask(st, tasks, id, u, Edit))
  {
    if !Truthy(estado) then Outcome(Failure(Error(BadRequest, StateRequired)), tasks)
    else if !ValidState(estado) then Outcome(Failure(Error(BadRequest, InvalidState)), tasks)
    else
      ChangeStateIsEdit(st, tasks, id, u, estado);
      match ChangeState(st, tasks, id, u, estado)
      case None => Outcome(Failure(Error(NotFound, TaskNotFound)), tasks)
      case Some(t') => Outcome(Success(t'[id]), t')
  }

  /** Tarea.eliminar: with 'eliminar' permission the row is deleted and the
      answer is true; otherwise false and nothing changes. */
  function DeleteTask(st: State, tasks: TaskTable, id: TaskId, u: UserId): (r: (bool, TaskTable))
    ensures r.0 <==> MayOnTask(st, tasks, id, u, Delete)
    ensures r.0 ==> id in tasks && r.1 == tasks - {id}
    ensures !r.0 ==> r.1 == tasks
  {
    if MayOnTask(st, tasks, id, u, Delete) then (true, tasks - {id}) else (false, tasks)
  }

  /** A collaborator's delete is refused and leaves the task in place. */
  lemma CollaboratorCannotDelete(st: State, tasks: TaskTable, id: TaskId, u: UserId)
    requires id in tasks && tasks[id].owner != u && ListOwner(st, tasks[id]) != Some(u)
    requires SharedRole(st, tasks[id], u) == Some(Roles.Collaborator)
    ensures DeleteTask(st, tasks, id, u) == (false, tasks)
    ensures id in DeleteTask(st, tasks, id, u).1
  {
  }

  /** The controller's enum checks: a present prioridad must be A, N or B
      and a present estado C, P or N (`includes` compares strictly, so a
      value that is not a string fails too). */
  predicate ValidPriority(v: JsValue) {
    !Truthy(v) || (v.JStr? && (v.s == "A" || v.s == "N" || v.s == "B"))
  }

  predicate ValidState(v: JsValue) {
    !Truthy(v) || (v.JStr? && (v.s == "C" || v.s == "P" || v.s == "N"))
  }

  /** The two enum checks in the order the create and update handlers run
      them. */
  function CheckEnums(prioridad: JsValue, estado: JsValue): (r: Result<(), Error>)
    ensures r.Success? <==> ValidPriority(prioridad) && ValidState(estado)
    ensures !ValidPriority(prioridad) ==> r == Failure(Error(BadRequest, InvalidPriority))
    ensures ValidPriority(prioridad) && !ValidState(estado) ==> r == Failure(Error(BadRequest, InvalidState))
  {
    if !ValidPriority(prioridad) then Failure(Error(BadRequest, InvalidPriority))
    else if !ValidState(estado) then Failure(Error(BadRequest, InvalidState))
    else Success(())
  }

  /** The columns Tarea.actualizar may write, in its order. */
  predicate Updatable(c: Column) {
    c != IdTarea && c != FechaCreacion && c != IdUsuarioAsignado
  }

  /** The SET list of the update: every updatable field that is not
      undefined, with its value. */
  function Assignments(data: Row): (a: Row)
    ensures forall k :: k in a <==> k in data && Updatable(k) && data[k] != JUndefined
    ensures forall k :: k in a ==> a[k] == data[k]
  {
    map k | k in data && Updatable(k) && data[k] != JUndefined :: data[k]
  }

  /** Tarea.actualizar: without 'editar' permission the answer is null and
      nothing is written; with no field to set it throws; otherwise exactly
      the given fields are written and the updated row is returned. */
  function Update(st: State, tasks: TaskTable, id: TaskId, u: UserId, data: Row): (o: Outcome<Option<Task>>)
    ensures !MayOnTask(st, tasks, id, u, Edit) ==> o == Outcome(Success(None), tasks)
    ensures MayOnTask(st, tasks, id, u, Edit) && Assignments(data) == map[] ==>
      o == Outcome(Failure(Error(ServerError, NoFields)), tasks)
    ensures o.result.Success? && o.result.value.Some? ==>
      && id in tasks && o.tasks == tasks[id := o.result.value.value]
      && var t, t' := tasks[id], o.result.value.value;
      && t'.owner == t.owner && t'.assignee == t.assignee
      && (forall k :: k in data && Updatable(k) && data[k] != JUndefined ==>
            k in t'.columns && t'.columns[k] == data[k])
      && (forall k :: !(k in data && Updatable(k) && data[k] != JUndefined) ==>
            (k in t'.columns <==> k in t.columns) && (k in t.columns ==> t'.columns[k] == t.columns[k]))
    ensures o.result.Failure? || o.result.value.None? ==> o.tasks == tasks
  {
    if !MayOnTask(st, tasks, id, u, Edit) then Outcome(Success(None), tasks)
    else
      var a := Assignments(data);
      if a == map[] then Outcome(Failure(Error(ServerError, NoFields)), tasks)
      else
        var t' := tasks[id].(columns := tasks[id].columns + a);
        Outcome(Success(Some(t')), tasks[id := t'])
  }

  /** Sending the same update twice leaves the table as the first one did. */
  lemma UpdateIdempotent(st: State, tasks: TaskTable, id: TaskId, u: UserId, data: Row)
    requires MayOnTask(st, tasks, id, u, Edit) && Assignments(data) != map[]
    requires IdLista !in Assignments(data)
    ensures var once := Update(st, tasks, id, u, data).tasks;
      Update(st, once, id, u, data).tasks == once
  {
    var once := Update(st, tasks, id, u, data).tasks;
    assert ListOf(once[id]) == ListOf(tasks[id]);
    assert once[id].columns + Assignments(data) == once[id].columns;
  }

  /** What hayCambios asks of one field: recordatorio, repetir and idLista
      count when they are not undefined, the others when they are truthy. */
  predicate Changed(body: Row, k: Column) {
    if k == Recordatorio || k == Repetir || k == IdLista then At(body, k) != JUndefined
    else Truthy(At(body, k))
  }

  /** hayCambios of the update handler: some field it destructures counts
      as changed. miDia is not among those fields. */
  predicate HasChanges(body: Row) {
    exists k :: ForwardedField(k) && Changed(body, k)
  }

  /** `v?.trim()`: undefined for null and undefined, the trimmed text for a
      string; on anything else the call throws (None). */
  function TrimOptional(v: JsValue): (r: Option<JsValue>)
    ensures v.JStr? ==> r == Some(JStr(Trim(v.s)))
    ensures v == JUndefined || v == JNull ==> r == Some(JUndefined)
    ensures r.None? <==> !(v.JStr? || v == JUndefined || v == JNull)
  {
    match v
    case JStr(s) => Some(JStr(Trim(s)))
    case JUndefined => Some(JUndefined)
    case JNull => Some(JUndefined)
    case _ => None
  }

  /** The fields the update handler destructures: the updatable columns
      except miDia. */
  predicate ForwardedField(c: Column) {
    Updatable(c) && c != MiDia
  }

  /** The object the update handler hands to Tarea.actualizar: the twelve
      fields it destructures, nombre and descripcion trimmed.
      The recordatorio rewriting into JSON text is abstracted: the value is
      passed as it came, which keeps whether it is undefined. */
  function Forwarded(body: Row): (r: Option<Row>)
    ensures r.Some? <==> TrimOptional(At(body, Nombre)).Some?
                         && TrimOptional(At(body, Descripcion)).Some?
    ensures r.Some? ==> forall k :: k in r.value <==> ForwardedField(k)
    ensures r.Some? ==> forall k :: ForwardedField(k) && k != Nombre && k != Descripcion ==>
      r.value[k] == At(body, k)
  {
    var nombre := TrimOptional(At(body, Nombre));
    var descripcion := TrimOptional(At(body, Descripcion));
    if nombre.None? || descripcion.None? then None
    else
      Some(map k | k in AllColumns && ForwardedField(k) ::
             if k == Nombre then nombre.value
             else if k == Descripcion then descripcion.value
             else At(body, k))
  }

  /** actualizarTarea: no change at all is a 400 before anything else, then
      the enum checks; a throw inside the model is a 500 and a null answer
      a 404. */
  function UpdateRequest(st: State, tasks: TaskTable, id: TaskId, u: UserId, body: Row): (o: Outcome<Task>)
    ensures !HasChanges(body) ==> o == Outcome(Failure(Error(BadRequest, NoFields)), tasks)
    ensures HasChanges(body) ==>
      (match CheckEnums(At(body, Prioridad), At(body, Estado))
       case Failure(e) => o == Outcome(Failure(e), tasks)
       case Success(_) => true)
    ensures o.result.Failure? ==> o.tasks == tasks
    ensures o.result.Success? ==>
      (&& HasChanges(body) && MayOnTask(st, tasks, id, u, Edit) && id in o.tasks
       && o.result.value == o.tasks[id])
    ensures HasChanges(body) && CheckEnums(At(body, Prioridad), At(body, Estado)).Success?
            && Forwarded(body).Some? && !MayOnTask(st, tasks, id, u, Edit) ==>
      o == Outcome(Failure(Error(NotFound, TaskNotFound)), tasks)
    ensures o.result.Success? <==>
      (&& HasChanges(body) && CheckEnums(At(body, Prioridad), At(body, Estado)).Success?
       && Forwarded(body).Some? && MayOnTask(st, tasks, id, u, Edit))
  {
    if !HasChanges(body) then Outcome(Failure(Error(BadRequest, NoFields)), tasks)
    else
      match CheckEnums(At(body, Prioridad), At(body, Estado))
      case Failure(e) => Outcome(Failure(e), tasks)
      case Success(_) =>
        match Forwarded(body)
        case None => Outcome(Failure(Error(ServerError, Unhandled)), tasks)
        case Some(data) =>
          ChangesReachTheModel(body);
          var o := Update(st, tasks, id, u, data);
          if o.result.Failure? then Outcome(Failure(Error(ServerError, Unhandled)), tasks)
          else if o.result.value.None? then Outcome(Failure(Error(NotFound, TaskNotFound)), tasks)
          else Outcome(Success(o.result.value.value), o.tasks)
  }

  /** Whatever passes hayCambios gives the model at least one field: the
      model's "no fields" throw cannot be reached through the handler. */
  lemma ChangesReachTheModel(body: Row)
    requires HasChanges(body)
    requires TrimOptional(At(body, Nombre)).Some? && TrimOptional(At(body, Descripcion)).Some?
    ensures Assignments(Forwarded(body).value) != map[]
  {
    var data := Forwarded(body).value;
    var k :| ForwardedField(k) && Changed(body, k);
    ColumnListed(k);
    assert k in data && data[k] != JUndefined;
    assert k in Assignments(data);
  }

  /** The update handler never writes miDia: a body that only sets it is
      refused as having no changes. */
  lemma UpdateRequestIgnoresMiDia(st: State, tasks: TaskTable, id: TaskId, u: UserId, v: JsValue)
    ensures UpdateRequest(st, tasks, id, u, map[MiDia := v]).result == Failure(Error(BadRequest, NoFields))
  {
    var body := map[MiDia := v];
    assert !HasChanges(body) by {
      forall k | ForwardedField(k)
        ensures !Changed(body, k)
      {
        assert k !in body;
      }
    }
  }

  /** What the Tarea constructor builds from a row or request object. */
  datatype TaskData = TaskData(
    idTarea: JsValue, nombre: JsValue, descripcion: JsValue, prioridad: JsValue, estado: JsValue,
    fechaCreacion: JsValue, fechaVencimiento: JsValue, miDia: bool, pasos: JsValue, notas: JsValue,
    recordatorio: JsValue, repetir: bool, tipoRepeticion: JsValue, configRepeticion: JsValue,
    idLista: JsValue, idUsuarioAsignado: JsValue)

  /** The constructor: identity, name and creation date are copied; the
      optional columns fall back to null, prioridad to 'N' and estado to
      'P'; miDia and repetir become booleans. */
  function Construct(data: Row): (c: TaskData)
    ensures c.idTarea == At(data, IdTarea) && c.nombre == At(data, Nombre)
    ensures Truthy(c.prioridad) && Truthy(c.estado)
    ensures c.prioridad == JStr("N") <==> !Truthy(At(data, Prioridad)) || At(data, Prioridad) == JStr("N")
    ensures c.estado == JStr("P") <==> !Truthy(At(data, Estado)) || At(data, Estado) == JStr("P")
    ensures c.miDia <==> Truthy(At(data, MiDia))
    ensures c.repetir <==> Truthy(At(data, Repetir))
    ensures !Truthy(c.descripcion) ==> c.descripcion == JNull
    ensures !Truthy(c.idLista) ==> c.idLista == JNull
    ensures Truthy(At(data, IdLista)) ==> c.idLista == At(data, IdLista)
  {
    TaskData(
      At(data, IdTarea), At(data, Nombre), Or(At(data, Descripcion), JNull),
      Or(At(data, Prioridad), JStr("N")), Or(At(data, Estado), JStr("P")),
      At(data, FechaCreacion), Or(At(data, FechaVencimiento), JNull),
      Truthy(At(data, MiDia)), Or(At(data, Pasos), JNull), Or(At(data, Notas), JNull),
      Or(At(data, Recordatorio), JNull), Truthy(At(data, Repetir)),
      Or(At(data, TipoRepeticion), JNull), Or(At(data, ConfigRepeticion), JNull),
      Or(At(data, IdLista), JNull), Or(At(data, IdUsuarioAsignado), JNull))
  }

  /** The object a built task serialises to (its own fields). */
  function FieldOf(c: TaskData, k: Column): JsValue {
    match k
    case IdTarea => c.idTarea
    case Nombre => c.nombre
    case Descripcion => c.descripcion
    case Prioridad => c.prioridad
    case Estado => c.estado
    case FechaCreacion => c.fechaCreacion
    case FechaVencimiento => c.fechaVencimiento
    case MiDia => JBool(c.miDia)
    case Pasos => c.pasos
    case Notas => c.notas
    case Recordatorio => c.recordatorio
    case Repetir => JBool(c.repetir)
    case TipoRepeticion => c.tipoRepeticion
    case ConfigRepeticion => c.configRepeticion
    case IdLista => c.idLista
    case IdUsuarioAsignado => c.idUsuarioAsignado
  }

  function ToRow(c: TaskData): (r: Row)
    ensures forall k :: At(r, k) == FieldOf(c, k)
  {
    forall k: Column
      ensures k in AllColumns
    {
      ColumnListed(k);
    }
    map k | k in AllColumns :: FieldOf(c, k)
  }

  /** Building a task from an already built one changes nothing. */
  lemma ConstructIdempotent(data: Row)
    ensures Construct(ToRow(Construct(data))) == Construct(data)
  {
    var c := Construct(data);
    ConstructStable(data);
    RowSerialises(ToRow(c), c);
    RebuildStable(ToRow(c), c);
  }

  /** A built task already carries its defaults: applying them again
      changes no field. */
  predicate Stable(c: TaskData) {
    && Or(c.descripcion, JNull) == c.descripcion
    && Or(c.prioridad, JStr("N")) == c.prioridad && Or(c.estado, JStr("P")) == c.estado
    && Or(c.fechaVencimiento, JNull) == c.fechaVencimiento
    && Or(c.pasos, JNull) == c.pasos && Or(c.notas, JNull) == c.notas
    && Or(c.recordatorio, JNull) == c.recordatorio
    && Or(c.tipoRepeticion, JNull) == c.tipoRepeticion
    && Or(c.configRepeticion, JNull) == c.configRepeticion
    && Or(c.idLista, JNull) == c.idLista && Or(c.idUsuarioAsignado, JNull) == c.idUsuarioAsignado
  }

  lemma OrTwice(x: JsValue, d: JsValue)
    ensures Or(Or(x, d), d) == Or(x, d)
  {
  }

  lemma ConstructStable(data: Row)
    ensures Stable(Construct(data))
  {
    OrTwice(At(data, Descripcion), JNull);
    OrTwice(At(data, Prioridad), JStr("N"));
    OrTwice(At(data, Estado), JStr("P"));
    OrTwice(At(data, FechaVencimiento), JNull);
    OrTwice(At(data, Pasos), JNull);
    OrTwice(At(data, Notas), JNull);
    OrTwice(At(data, Recordatorio), JNull);
    OrTwice(At(data, TipoRepeticion), JNull);
    OrTwice(At(data, ConfigRepeticion), JNull);
    OrTwice(At(data, IdLista), JNull);
    OrTwice(At(data, IdUsuarioAsignado), JNull);
  }

  /** A row that serialises a stable task builds that task again. */
  lemma RebuildStable(r: Row, c: TaskData)
    requires Stable(c) && Serialises(r, c)
    ensures Construct(r) == c
  {
  }

  /** Every column of `r` holds the matching field of `c`. */
  predicate Serialises(r: Row, c: TaskData) {
    && At(r, IdTarea) == c.idTarea && At(r, Nombre) == c.nombre
    && At(r, Descripcion) == c.descripcion && At(r, Prioridad) == c.prioridad
    && At(r, Estado) == c.estado && At(r, FechaCreacion) == c.fechaCreacion
    && At(r, FechaVencimiento) == c.fechaVencimiento && At(r, MiDia) == JBool(c.miDia)
    && At(r, Pasos) == c.pasos && At(r, Notas) == c.notas
    && At(r, Recordatorio) == c.recordatorio && At(r, Repetir) == JBool(c.repetir)
    && At(r, TipoRepeticion) == c.tipoRepeticion && At(r, ConfigRepeticion) == c.configRepeticion
    && At(r, IdLista) == c.idLista && At(r, IdUsuarioAsignado) == c.idUsuarioAsignado
  }

  /** ToRow's per-column facts, four columns at a time. */
  lemma RowSerialises(r: Row, c: TaskData)
    requires forall k :: At(r, k) == FieldOf(c, k)
    ensures Serialises(r, c)
  {
    ColumnsA(r, c); ColumnsB(r, c); ColumnsC(r, c); ColumnsD(r, c);
  }

  lemma ColumnsA(r: Row, c: TaskData)
    requires forall k :: At(r, k) == FieldOf(c, k)
    ensures At(r, IdTarea) == c.idTarea && At(r, Nombre) == c.nombre && At(r, Descripcion) == c.descripcion && At(r, Prioridad) == c.prioridad
  {
    assert At(r, IdTarea) == FieldOf(c, IdTarea);
    assert At(r, Nombre) == FieldOf(c, Nombre);
    assert At(r, Descripcion) == FieldOf(c, Descripcion);
    assert At(r, Prioridad) == FieldOf(c, Prioridad);
  }

  lemma ColumnsB(r: Row, c: TaskData)
    requires forall k :: At(r, k) == FieldOf(c, k)
    ensures At(r, Estado) == c.estado && At(r, FechaCreacion) == c.fechaCreacion && At(r, FechaVencimiento) == c.fechaVencimiento && At(r, MiDia) == JBool(c.miDia)
  {
    assert At(r, Estado) == FieldOf(c, Estado);
    assert At(r, FechaCreacion) == FieldOf(c, FechaCreacion);
    assert At(r, FechaVencimiento) == FieldOf(c, FechaVencimiento);
    assert At(r, MiDia) == FieldOf(c, MiDia);
  }

  lemma ColumnsC(r: Row, c: TaskData)
    requires forall k :: At(r, k) == FieldOf(c, k)
    ensures At(r, Pasos) == c.pasos && At(r, Notas) == c.notas && At(r, Recordatorio) == c.recordatorio && At(r, Repetir) == JBool(c.repetir)
  {
    assert At(r, Pasos) == FieldOf(c, Pasos);
    assert At(r, Notas) == FieldOf(c, Notas);
    assert At(r, Recordatorio) == FieldOf(c, Recordatorio);
    assert At(r, Repetir) == FieldOf(c, Repetir);
  }

  lemma ColumnsD(r: Row, c: TaskData)
    requires forall k :: At(r, k) == FieldOf(c, k)
    ensures At(r, TipoRepeticion) == c.tipoRepeticion && At(r, ConfigRepeticion) == c.configRepeticion && At(r, IdLista) == c.idLista && At(r, IdUsuarioAsignado) == c.idUsuarioAsignado
  {
    assert At(r, TipoRepeticion) == FieldOf(c, TipoRepeticion);
    assert At(r, ConfigRepeticion) == FieldOf(c, ConfigRepeticion);
    assert At(r, IdLista) == FieldOf(c, IdLista);
    assert At(r, IdUsuarioAsignado) == FieldOf(c, IdUsuarioAsignado);
  }





  /** The list views' filter: a task stays when it is unassigned or
      assigned to the caller. */
  predicate ShownTo(t: Task, u: UserId) {
    t.assignee.None? || t.assignee == Some(u)
  }

  /** ShownTo as a filter condition. */
  function ShownFilter(u: UserId): Task -> bool {
    t => ShownTo(t, u)
  }

  function VisibleTo(s: seq<Task>, u: UserId): (r: seq<Task>)
    ensures |r| <= |s|
    ensures forall i :: 0 <= i < |r| ==> r[i] in s && ShownTo(r[i], u)
    ensures forall i :: 0 <= i < |s| && ShownTo(s[i], u) ==> s[i] in r
    ensures r == Filter(s, ShownFilter(u)) && IsSubsequence(r, s)
  {
    if s == [] then []
    else if ShownTo(s[0], u) then [s[0]] + VisibleTo(s[1..], u)
    else VisibleTo(s[1..], u)
  }

  /** Filtering twice is filtering once, and nothing is dropped from a
      sequence with no task assigned to someone else. */
  lemma {:induction false} VisibleToIdempotent(s: seq<Task>, u: UserId)
    ensures VisibleTo(VisibleTo(s, u), u) == VisibleTo(s, u)
  {
    if s != [] {
      VisibleToIdempotent(s[1..], u);
    }
  }

  lemma {:induction false} VisibleToKeepsAll(s: seq<Task>, u: UserId)
    requires forall i :: 0 <= i < |s| ==> ShownTo(s[i], u)
    ensures VisibleTo(s, u) == s
  {
    if s != [] {
      VisibleToKeepsAll(s[1..], u);
    }
  }

  /** The name the assignment notice gives the assigner: their name, or
      'Alguien' when there is none. */
  function AssignerName(st: State, u: UserId): (n: string)
    ensures n != ""
    ensures u in st.users && st.users[u].name != "" ==> n == st.users[u].name
  {
    if u in st.users && st.users[u].name != "" then st.users[u].name else "Alguien"
  }

  /** The 'tarea_asignada' notification written for the assignee. The task
      id comes from the route, so it is stored as text, written the way
      the route spells it in decimal. */
  function AssignNotice(st: State, t: Task, id: TaskId, assignee: UserId, assigner: UserId): (n: Notification)
    ensures n.user == assignee && n.kind == "tarea_asignada" && !n.read
    ensures Get(n.data, "tareaId") == JStr(IntToString(id)) && Get(n.data, "asignadoPorId") == JNum(assigner)
  {
    var name := At(t.columns, Nombre);
    var listId := match ListOf(t) case Some(l) => JNum(l) case None => At(t.columns, IdLista);
    var listName := match ListOf(t)
      case Some(l) => if l in st.lists then JStr(st.lists[l].name) else JNull
      case None => JNull;
    Notification(assignee, "tarea_asignada", "Nueva tarea asignada",
                 AssignerName(st, assigner) + " te ha asignado la tarea \"" + Show(name) + "\"",
                 JObject(map["tareaId" := JStr(IntToString(id)), "tareaNombre" := name, "listaId" := listId,
                             "listaNombre" := listName, "asignadoPor" := JStr(AssignerName(st, assigner)),
                             "asignadoPorId" := JNum(assigner)]),
                 false)
  }

  /** Who may assign: the list owner, or an active, accepted admin of the
      task's list. */
  predicate MayAssign(st: State, t: Task, u: UserId) {
    ListOwner(st, t) == Some(u) || (ListOf(t).Some? && SharedRole(st, t, u) == Some(Roles.Admin))
  }

  /** asignarUsuario: a missing task, then an assigner who is neither the
      list owner nor an admin, then an assignee without access to the list,
      is refused; otherwise the assignee is recorded and notified. */
  function Assign(st: State, tasks: TaskTable, id: TaskId, assignee: UserId, assigner: UserId)
    : (r: Result<(TaskTable, Notification), Reason>)
    ensures id !in tasks ==> r == Failure(TaskNotFound)
    ensures id in tasks && !MayAssign(st, tasks[id], assigner) ==> r == Failure(NoPermission)
    ensures r.Success? <==>
      id in tasks && MayAssign(st, tasks[id], assigner)
      && (ListOf(tasks[id]).Some? ==> SharedRole(st, tasks[id], assignee).Some? || ListOwner(st, tasks[id]) == Some(assignee))
    ensures r.Success? ==>
      (&& r.value.0 == tasks[id := tasks[id].(assignee := Some(assignee))]
       && r.value.1 == AssignNotice(st, tasks[id], id, assignee, assigner))
  {
    if id !in tasks then Failure(TaskNotFound)
    else
      var t := tasks[id];
      if !MayAssign(st, t, assigner) then Failure(NoPermission)
      else if ListOf(t).Some? && SharedRole(st, t, assignee).None? && ListOwner(st, t) != Some(assignee)
      then Failure(NoListAccess)
      else Success((tasks[id := t.(assignee := Some(assignee))], AssignNotice(st, t, id, assignee, assigner)))
  }

  /** A task outside every list cannot be assigned, and the task's own
      owner is not thereby allowed to assign it. */
  lemma AssignNeedsListAuthority(st: State, tasks: TaskTable, id: TaskId, assignee: UserId, assigner: UserId)
    requires id in tasks
    requires ListOf(tasks[id]).None? || (ListOwner(st, tasks[id]) != Some(assigner)
                                        && SharedRole(st, tasks[id], assigner) != Some(Roles.Admin))
    ensures Assign(st, tasks, id, assignee, assigner) == Failure(NoPermission)
  {
  }

  /** Whoever may assign may also delete the task, and an assignee whose
      row holds one of the four stored roles may view it. */
  lemma AssignAuthority(st: State, tasks: TaskTable, id: TaskId, assignee: UserId, assigner: UserId)
    requires Assign(st, tasks, id, assignee, assigner).Success?
    ensures MayOnTask(st, tasks, id, assigner, Delete)
    ensures SharedRole(st, tasks[id], assignee).Some? && Roles.IsStoredRole(SharedRole(st, tasks[id], assignee).value) ==>
      MayOnTask(st, Assign(st, tasks, id, assignee, assigner).value.0, id, assignee, View)
  {
    var t' := Assign(st, tasks, id, assignee, assigner).value.0;
    assert ListOf(t'[id]) == ListOf(tasks[id]);
  }

  /** desasignarUsuario: 'editar' permission, then the assignee is cleared. */
  function Unassign(st: State, tasks: TaskTable, id: TaskId, u: UserId): (r: Result<TaskTable, Reason>)
    ensures r.Success? <==> MayOnTask(st, tasks, id, u, Edit)
    ensures r.Success? ==> id in tasks && r.value == tasks[id := tasks[id].(assignee := None)]
  {
    if !MayOnTask(st, tasks, id, u, Edit) then Failure(NoPermission)
    else Success(tasks[id := tasks[id].(assignee := None)])
  }

  /** The one who assigned a task may take the assignment back, which
      leaves the task as it was before apart from having no assignee. */
  lemma AssignThenUnassign(st: State, tasks: TaskTable, id: TaskId, assignee: UserId, assigner: UserId)
    requires Assign(st, tasks, id, assignee, assigner).Success?
    ensures var t' := Assign(st, tasks, id, assignee, assigner).value.0;
      Unassign(st, t', id, assigner) == Success(tasks[id := tasks[id].(assignee := None)])
  {
    var t' := Assign(st, tasks, id, assignee, assigner).value.0;
    assert ListOf(t'[id]) == ListOf(tasks[id]);
    AssignAuthority(st, tasks, id, assignee, assigner);
    PermissionsNested(st, t', id, assigner);
    assert t'[id].(assignee := None) == tasks[id].(assignee := None);
    assert t'[id := t'[id].(assignee := None)] == tasks[id := tasks[id].(assignee := None)];
  }
}
