/** The sharing audit log (auditoria_compartidos). Two models write it:
    the one bundled with the grant models and a standalone one. Both are
    best-effort: a failed INSERT is swallowed and reported as a null id,
    so an audit failure never fails the operation that logs. The log is
    append-only; its order is the order of `fecha`, so "newest first" is
    the reverse of the log. */
module Audit {
  import opened Wrappers
  import opened Js
  import opened Store
  import opened Collections

  /** registrar in the bundled model: `detalles || {}`. */
  function DetailsOrEmpty(d: JsValue): (r: JsValue)
    ensures Truthy(d) ==> r == d
    ensures !Truthy(d) ==> r == JObject(map[])
  {
    if Truthy(d) then d else JObject(map[])
  }

  /** registrar in the standalone model: the parameter default `{}` only
      replaces an undefined `detalles`; null is stored as null. */
  function DetailsDefault(d: JsValue): (r: JsValue)
    ensures d.JUndefined? ==> r == JObject(map[])
    ensures !d.JUndefined? ==> r == d
  {
    if d.JUndefined? then JObject(map[]) else d
  }

  /** Appends an entry unless the INSERT fails; returns the new entry's id
      (its position, counting from 1) or None, and never fails. */
  function Append(log: seq<AuditEntry>, e: AuditEntry, fails: bool): (res: (Option<int>, seq<AuditEntry>))
    ensures fails ==> res == (None, log)
    ensures !fails ==> res.1 == log + [e] && res.0 == Some(|log| + 1)
  {
    if fails then (None, log) else (Some(|log| + 1), log + [e])
  }

  /** registrar (bundled model). */
  function RegisterShared(log: seq<AuditEntry>, entityType: string, entity: int, user: UserId,
                          action: string, details: JsValue, fails: bool): (res: (Option<int>, seq<AuditEntry>))
    ensures fails ==> res == (None, log)
    ensures !fails ==> res.1 == log + [AuditEntry(entityType, entity, user, action, DetailsOrEmpty(details))]
    ensures res.0.Some? ==> res.0.value == |res.1|
  {
    Append(log, AuditEntry(entityType, entity, user, action, DetailsOrEmpty(details)), fails)
  }

  /** registrar (standalone model). */
  function Register(log: seq<AuditEntry>, entityType: string, entity: int, user: UserId,
                    action: string, details: JsValue, fails: bool): (res: (Option<int>, seq<AuditEntry>))
    ensures fails ==> res == (None, log)
    ensures !fails ==> res.1 == log + [AuditEntry(entityType, entity, user, action, DetailsDefault(details))]
    ensures res.0.Some? ==> res.0.value == |res.1|
  {
    Append(log, AuditEntry(entityType, entity, user, action, DetailsDefault(details)), fails)
  }

  /** The entries about one entity whose user exists (the queries join
      usuario). */
  function Concerning(users: map<UserId, User>, entityType: string, entity: int): AuditEntry -> bool {
    (e: AuditEntry) => e.entityType == entityType && e.entity == entity && e.user in users
  }

  /** The history of one entity, newest first: every log entry about it
      whose user exists, from the last appended back to the first. */
  function NewestFirst(log: seq<AuditEntry>, users: map<UserId, User>, entityType: string, entity: int)
    : (r: seq<AuditEntry>)
    ensures r == Reverse(Filter(log, Concerning(users, entityType, entity)))
    ensures forall i :: 0 <= i < |r| ==>
      r[i] in log && r[i].entityType == entityType && r[i].entity == entity && r[i].user in users
    ensures forall i :: 0 <= i < |log| && Concerning(users, entityType, entity)(log[i]) ==> log[i] in r
  {
    if log == [] then []
    else
      var init, last := log[..|log| - 1], log[|log| - 1];
      var rest := NewestFirst(init, users, entityType, entity);
      assert log == init + [last];
      NewestFilteredFirst(init, last, Concerning(users, entityType, entity), rest);
      if last.entityType == entityType && last.entity == entity && last.user in users
      then [last] + rest else rest
  }

  function Take<T>(s: seq<T>, n: int): (r: seq<T>)
    ensures |r| <= |s| && |r| <= (if n < 0 then 0 else n)
    ensures r == s[..|r|]
    ensures n >= 0 && |s| >= n ==> |r| == n
    ensures |s| < n ==> r == s
  {
    if n <= 0 then [] else if |s| <= n then s else s[..n]
  }

  /** obtenerHistorial: at most 100 entries, newest first; a failed query
      gives an empty history rather than an error. */
  function History(log: seq<AuditEntry>, users: map<UserId, User>, entityType: string, entity: int,
                   fails: bool): (r: seq<AuditEntry>)
    ensures fails ==> r == []
    ensures |r| <= 100
    ensures !fails ==> (|r| <= |NewestFirst(log, users, entityType, entity)|
                        && r == NewestFirst(log, users, entityType, entity)[..|r|])
    ensures !fails && |NewestFirst(log, users, entityType, entity)| <= 100 ==>
      r == NewestFirst(log, users, entityType, entity)
    ensures !fails && |NewestFirst(log, users, entityType, entity)| > 100 ==> |r| == 100
  {
    if fails then [] else Take(NewestFirst(log, users, entityType, entity), 100)
  }

  /** obtenerPorEntidad: `limite` defaults to 50; unlike the standalone
      model, a failed query throws. */
  function ByEntity(log: seq<AuditEntry>, users: map<UserId, User>, entityType: string, entity: int,
                    limit: Option<int>, fails: bool): (r: Result<seq<AuditEntry>, Error>)
    ensures fails <==> r.Failure?
    ensures r.Success? && limit.GetOr(50) >= 0 ==> |r.value| <= limit.GetOr(50)
    ensures r.Success? ==> (|r.value| <= |NewestFirst(log, users, entityType, entity)|
                            && r.value == NewestFirst(log, users, entityType, entity)[..|r.value|])
  {
    if fails then Failure(Error(ServerError, Unhandled))
    else Success(Take(NewestFirst(log, users, entityType, entity), limit.GetOr(50)))
  }

  /** What was just logged about an entity is the first entry of its
      history. */
  lemma {:induction false} RegisterThenHistory(log: seq<AuditEntry>, users: map<UserId, User>,
                                               entityType: string, entity: int, user: UserId,
                                               action: string, details: JsValue)
    requires user in users
    ensures var log' := Register(log, entityType, entity, user, action, details, false).1;
      History(log', users, entityType, entity, false)[0]
        == AuditEntry(entityType, entity, user, action, DetailsDefault(details))
  {
    var e := AuditEntry(entityType, entity, user, action, DetailsDefault(details));
    var log' := log + [e];
    assert log'[..|log'| - 1] == log;
    assert NewestFirst(log', users, entityType, entity)[0] == e;
  }

  /** A failed audit write leaves the log as it was, and a later history
      read cannot tell it was attempted. */
  lemma FailedRegisterInvisible(log: seq<AuditEntry>, users: map<UserId, User>, entityType: string,
                                entity: int, user: UserId, action: string, details: JsValue)
    ensures History(Register(log, entityType, entity, user, action, details, true).1, users,
                    entityType, entity, false)
         == History(log, users, entityType, entity, false)
  {
  }
}
