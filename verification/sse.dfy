/** The server-sent-events manager: a registry of open connections per user,
    the text/event-stream frame it writes, and the bookkeeping of a push to
    one user or to several. Connections are opaque ids; whether writing to
    one throws is an input (`failing`), since the socket itself is I/O. */
module Sse {
  import opened Wrappers
  import opened Js
  import Collections

  type UserId = int
  type ConnId = int

  /** `clients`: each connected user's set of open responses. */
  type Registry = map<UserId, set<ConnId>>

  /** The invariant the manager keeps: no user maps to an empty set. */
  predicate Wellformed(reg: Registry) {
    forall u :: u in reg ==> reg[u] != {}
  }

  /** The connections of `u`, empty when `u` is not a key. */
  function Conns(reg: Registry, u: UserId): set<ConnId> {
    if u in reg then reg[u] else {}
  }

  /** addClient: creates the user's set on first use and adds the response. */
  function AddClient(reg: Registry, u: UserId, c: ConnId): (r: Registry)
    ensures Wellformed(reg) ==> Wellformed(r)
    ensures u in r && r[u] == Conns(reg, u) + {c}
    ensures forall v :: v != u ==> Conns(r, v) == Conns(reg, v)
    ensures r.Keys == reg.Keys + {u}
  {
    reg[u := Conns(reg, u) + {c}]
  }

  /** Registering the same response twice is the same as registering it once. */
  lemma AddClientIdempotent(reg: Registry, u: UserId, c: ConnId)
    ensures AddClient(AddClient(reg, u, c), u, c) == AddClient(reg, u, c)
  {
  }

  /** removeClient: drops the response and deletes the user's entry once it
      is empty; an unknown user is ignored. */
  function RemoveClient(reg: Registry, u: UserId, c: ConnId): (r: Registry)
    ensures Wellformed(reg) ==> Wellformed(r)
    ensures Conns(r, u) == Conns(reg, u) - {c}
    ensures forall v :: v != u ==> Conns(r, v) == Conns(reg, v)
    ensures r.Keys <= reg.Keys
  {
    if u !in reg then reg
    else
      var rest := reg[u] - {c};
      if rest == {} then reg - {u} else reg[u := rest]
  }

  /** isUserConnected. */
  predicate IsUserConnected(reg: Registry, u: UserId) {
    u in reg && reg[u] != {}
  }

  /** In a well-formed registry being connected is being a key, and adding a
      response connects its user. */
  lemma ConnectedIffKey(reg: Registry, u: UserId, c: ConnId)
    requires Wellformed(reg)
    ensures IsUserConnected(reg, u) <==> u in reg
    ensures IsUserConnected(AddClient(reg, u, c), u)
  {
  }

  /** Removing a response that was just added restores the registry. */
  lemma AddThenRemove(reg: Registry, u: UserId, c: ConnId)
    requires Wellformed(reg)
    requires c !in Conns(reg, u)
    ensures RemoveClient(AddClient(reg, u, c), u, c) == reg
  {
    var r := RemoveClient(AddClient(reg, u, c), u, c);
    assert forall v :: v in r <==> v in reg;
  }

  /** Sum of the sizes of the users' connection sets. */
  function Total(reg: Registry): (n: nat)
    decreases |reg|
  {
    if reg == map[] then 0
    else
      var m := Collections.MinOf(reg.Keys);
      |reg[m]| + Total(reg - {m})
  }

  /** The sum can be split at any user, not only the least one. */
  lemma {:induction false} TotalSplit(reg: Registry, k: UserId)
    requires k in reg
    ensures Total(reg) == |reg[k]| + Total(reg - {k})
    decreases |reg|
  {
    var m := Collections.MinOf(reg.Keys);
    if m != k {
      TotalSplit(reg - {m}, k);
      TotalSplit(reg - {k}, m);
      assert reg - {m} - {k} == reg - {k} - {m};
    }
  }

  /** A well-formed registry has at least as many connections as users. */
  lemma {:induction false} TotalAtLeastUsers(reg: Registry)
    requires Wellformed(reg)
    ensures Total(reg) >= |reg|
    decreases |reg|
  {
    if reg != map[] {
      var m := Collections.MinOf(reg.Keys);
      TotalAtLeastUsers(reg - {m});
    }
  }

  /** What getStats reports. Insertion order of the users is not modelled. */
  datatype Stats = Stats(totalUsers: nat, totalConnections: nat, users: set<UserId>)

  function GetStats(reg: Registry): (s: Stats)
    ensures s.users == reg.Keys
    ensures s.totalUsers == |s.users|
  {
    Stats(|reg|, Total(reg), reg.Keys)
  }

  /** Replacing one user's set changes the total by the difference. */
  lemma TotalUpdate(reg: Registry, u: UserId, conns: set<ConnId>)
    ensures Total(reg[u := conns]) == |conns| + Total(reg - {u})
  {
    TotalSplit(reg[u := conns], u);
    assert reg[u := conns] - {u} == reg - {u};
  }

  /** A new response adds one connection, and a new user one user. */
  lemma AddClientCounts(reg: Registry, u: UserId, c: ConnId)
    requires c !in Conns(reg, u)
    ensures GetStats(AddClient(reg, u, c)).totalConnections == GetStats(reg).totalConnections + 1
    ensures GetStats(AddClient(reg, u, c)).totalUsers == GetStats(reg).totalUsers + (if u in reg then 0 else 1)
  {
    AddedConnection(reg, u, c);
    AddedUser(reg, u, c);
  }

  lemma AddedConnection(reg: Registry, u: UserId, c: ConnId)
    requires c !in Conns(reg, u)
    ensures Total(AddClient(reg, u, c)) == Total(reg) + 1
  {
    TotalUpdate(reg, u, Conns(reg, u) + {c});
    assert |Conns(reg, u) + {c}| == |Conns(reg, u)| + 1;
    if u in reg {
      TotalSplit(reg, u);
    } else {
      assert reg - {u} == reg;
    }
  }

  lemma AddedUser(reg: Registry, u: UserId, c: ConnId)
    ensures |AddClient(reg, u, c).Keys| == |reg.Keys| + (if u in reg then 0 else 1)
  {
    if u in reg {
      assert reg.Keys + {u} == reg.Keys;
    }
  }

  /** Removing a registered response takes one connection away. */
  lemma RemoveClientCounts(reg: Registry, u: UserId, c: ConnId)
    requires c in Conns(reg, u)
    ensures GetStats(RemoveClient(reg, u, c)).totalConnections + 1 == GetStats(reg).totalConnections
  {
    TotalSplit(reg, u);
    if reg[u] - {c} == {} {
      assert RemoveClient(reg, u, c) == reg - {u};
    } else {
      TotalUpdate(reg, u, reg[u] - {c});
    }
  }

  // ---------------------------------------------------------------------
  // formatSSE

  const DefaultEvent := "nueva_notificacion"

  /** `data.event || 'nueva_notificacion'`. */
  function EventName(data: JsValue): JsValue {
    Or(Get(data, "event"), JStr(DefaultEvent))
  }

  /** `data.id || data.idNotificacion || Date.now()`. */
  function EventId(data: JsValue, now: int): JsValue {
    Or(Get(data, "id"), Or(Get(data, "idNotificacion"), JNum(now)))
  }

  /** The payload object: `data` without `event`, given both id fields when
      neither is truthy. */
  function PayloadFields(fields: map<string, JsValue>, id: JsValue): map<string, JsValue> {
    var clean := fields - {"event"};
    if !Truthy(Get(JObject(clean), "idNotificacion")) && !Truthy(Get(JObject(clean), "id"))
    then clean["idNotificacion" := id]["id" := id]
    else clean
  }

  /** The frame written to the stream. */
  function Frame(id: string, event: string, payload: string): string {
    "id: " + id + "\n" + "event: " + event + "\n" + "data: " + payload + "\n" + "\n"
  }

  /** formatSSE. JSON.stringify is the parameter `encode`; '' means the frame
      is not sent. */
  function FormatSSE(data: JsValue, now: int, encode: map<string, JsValue> -> string): (r: string)
    ensures !data.JObject? ==> r == ""
    ensures data.JObject? && data.fields.Keys <= {"event"} ==> r == ""
    ensures r != "" ==> data.JObject? && exists k :: k in data.fields && k != "event"
    ensures r != "" ==>
      var p := encode(PayloadFields(data.fields, EventId(data, now)));
      p != "" && p != "{}" && r == Frame(Show(EventId(data, now)), Show(EventName(data)), p)
  {
    if !Truthy(data) || !data.JObject? then ""
    else
      var event := EventName(data);
      var id := EventId(data, now);
      var clean := data.fields - {"event"};
      if |clean| == 0 then ""
      else
        var payload := encode(PayloadFields(data.fields, id));
        if payload == "" || payload == "{}" then ""
        else Frame(Show(id), Show(event), payload)
  }

  /** The payload never carries `event`, and with a non-zero clock it always
      carries a truthy `id` or `idNotificacion`. */
  lemma PayloadIdentified(fields: map<string, JsValue>, data: JsValue, now: int)
    requires data == JObject(fields)
    requires now != 0
    ensures "event" !in PayloadFields(fields, EventId(data, now))
    ensures var p := JObject(PayloadFields(fields, EventId(data, now)));
      Truthy(Get(p, "id")) || Truthy(Get(p, "idNotificacion"))
  {
    var id := EventId(data, now);
    assert Truthy(id);
  }

  // ---------------------------------------------------------------------
  // Interpreting an event stream, as section 9.2.6 of the WHATWG HTML
  // Living Standard describes it (the BOM and the `retry` field aside).

  /** One dispatched event: its type, its data and the last event id. */
  datatype Event = Event(kind: string, data: string, lastId: string)

  /** The parser's event type, data and last-event-id buffers. */
  datatype Buffers = Buffers(kind: string, data: string, lastId: string)

  predicate LineBreakFree(s: string) {
    '\n' !in s && '\r' !in s
  }

  /** The complete lines of a stream: each ends at LF, CR or CRLF; `cur`
      holds the part of the current line read so far, and an unterminated
      last line is never processed. */
  function Lines(s: string, cur: string): seq<string>
    decreases |s|
  {
    if s == [] then []
    else if s[0] == '\n' then [cur] + Lines(s[1..], "")
    else if s[0] == '\r' then
      if |s| > 1 && s[1] == '\n' then [cur] + Lines(s[2..], "") else [cur] + Lines(s[1..], "")
    else Lines(s[1..], cur + [s[0]])
  }

  /** A line-break-free text followed by LF is one line. */
  lemma {:induction false} LinesCons(a: string, rest: string, cur: string)
    requires LineBreakFree(a)
    ensures Lines(a + "\n" + rest, cur) == [cur + a] + Lines(rest, "")
    decreases |a|
  {
    var s := a + "\n" + rest;
    if a == [] {
      assert s[1..] == rest;
      assert cur + a == cur;
    } else {
      assert s[0] == a[0];
      assert s[1..] == a[1..] + "\n" + rest;
      LinesCons(a[1..], rest, cur + [a[0]]);
      assert cur + [a[0]] + a[1..] == cur + a;
    }
  }

  /** A line split into field name and value: the name runs to the first
      colon and one space after the colon is dropped; a line without a colon
      is a name with an empty value. */
  function Field(line: string): (string, string) {
    if ':' in line then
      var i := Text.IndexOf(line, ':');
      var value := line[i + 1..];
      (line[..i], if |value| > 0 && value[0] == ' ' then value[1..] else value)
    else (line, "")
  }

  /** Processes one line, dispatching an event at a blank line when the
      data buffer holds something. */
  function Step(b: Buffers, line: string): (Buffers, Option<Event>) {
    if line == "" then
      if b.data == "" then (Buffers("", "", b.lastId), None)
      else
        var d := if b.data[|b.data| - 1] == '\n' then b.data[..|b.data| - 1] else b.data;
        (Buffers("", "", b.lastId), Some(Event(if b.kind == "" then "message" else b.kind, d, b.lastId)))
    else if line[0] == ':' then (b, None)
    else (Apply(b, Field(line).0, Field(line).1), None)
  }

  /** Processes a field: `event` sets the type, `data` appends a line, `id`
      sets the last event id unless it holds NUL; other fields are ignored. */
  function Apply(b: Buffers, name: string, value: string): Buffers {
    if name == "event" then b.(kind := value)
    else if name == "data" then b.(data := b.data + value + "\n")
    else if name == "id" && '\0' !in value then b.(lastId := value)
    else b
  }

  function Interpret(lines: seq<string>, b: Buffers): seq<Event>
    decreases |lines|
  {
    if lines == [] then []
    else
      var (b', e) := Step(b, lines[0]);
      (if e.Some? then [e.value] else []) + Interpret(lines[1..], b')
  }

  /** Interpretation proceeds line by line. */
  lemma InterpretCons(line: string, rest: seq<string>, b: Buffers)
    ensures Interpret([line] + rest, b)
      == (if Step(b, line).1.Some? then [Step(b, line).1.value] else []) + Interpret(rest, Step(b, line).0)
  {
    assert ([line] + rest)[1..] == rest;
  }

  /** The events a client receives from a stream. */
  function Events(stream: string): seq<Event> {
    Interpret(Lines(stream, ""), Buffers("", "", ""))
  }

  /** The value of a `name: value` line whose name has no colon. */
  lemma FieldOfPrefixed(name: string, value: string)
    requires ':' !in name
    ensures Field(name + ": " + value) == (name, value)
  {
    var line := name + ": " + value;
    assert line[|name|] == ':';
    var i := Text.IndexOf(line, ':');
    assert line[..|name|] == name;
    assert i == |name|;
    assert line[i + 1..] == " " + value;
  }

  /** A frame is four lines: id, event, data and the blank line. */
  lemma FrameLines(id: string, event: string, payload: string)
    requires LineBreakFree(id) && LineBreakFree(event) && LineBreakFree(payload)
    ensures Lines(Frame(id, event, payload), "") == ["id: " + id, "event: " + event, "data: " + payload, ""]
  {
    var l1, l2, l3 := "id: " + id, "event: " + event, "data: " + payload;
    var t4 := "\n";
    var t3 := l3 + "\n" + t4;
    var t2 := l2 + "\n" + t3;
    assert Lines(t4, "") == [""] by {
      LinesCons("", "", "");
      assert "" + "\n" + "" == t4;
    }
    assert Lines(t3, "") == [l3, ""] by {
      LinesCons(l3, t4, "");
      assert "" + l3 == l3;
    }
    assert Lines(t2, "") == [l2, l3, ""] by {
      LinesCons(l2, t3, "");
      assert "" + l2 == l2;
    }
    assert Lines(l1 + "\n" + t2, "") == [l1, l2, l3, ""] by {
      LinesCons(l1, t2, "");
      assert "" + l1 == l1;
    }
    FrameConcat(id, event, payload);
  }

  lemma FrameConcat(id: string, event: string, payload: string)
    ensures Frame(id, event, payload)
      == ("id: " + id) + "\n" + (("event: " + event) + "\n" + (("data: " + payload) + "\n" + "\n"))
  {
  }

  /** A `name: value` line is processed as that field. */
  lemma StepField(b: Buffers, name: string, value: string)
    requires |name| > 0 && ':' !in name
    ensures Step(b, name + ": " + value) == (Apply(b, name, value), None)
  {
    FieldOfPrefixed(name, value);
    assert (name + ": " + value)[0] == name[0];
  }

  /** The three fields a frame uses. */
  lemma ApplyFields(b: Buffers, value: string)
    ensures Apply(b, "event", value) == b.(kind := value)
    ensures Apply(b, "data", value) == b.(data := b.data + value + "\n")
    ensures '\0' !in value ==> Apply(b, "id", value) == b.(lastId := value)
  {
    assert "data"[0] != "event"[0];
    assert |"id"| != |"event"| && |"id"| != |"data"|;
  }

  /** The blank line dispatches the buffered event. */
  lemma DispatchLine(event: string, payload: string, id: string)
    ensures Interpret([""], Buffers(event, payload + "\n", id))
      == [Event(if event == "" then "message" else event, payload, id)]
  {
    assert (payload + "\n")[..|payload|] == payload;
    InterpretCons("", [], Buffers(event, payload + "\n", id));
    assert [""] + [] == [""];
  }

  /** The data line fills the data buffer. */
  lemma DataLine(event: string, payload: string, id: string)
    ensures Interpret(["data: " + payload, ""], Buffers(event, "", id))
      == [Event(if event == "" then "message" else event, payload, id)]
  {
    var line := "data: " + payload;
    DataStep(event, payload, id);
    QuietLine(line, [""], Buffers(event, "", id), Buffers(event, payload + "\n", id));
    assert [line] + [""] == [line, ""];
    DispatchLine(event, payload, id);
  }

  lemma DataStep(event: string, payload: string, id: string)
    ensures Step(Buffers(event, "", id), "data: " + payload) == (Buffers(event, payload + "\n", id), None)
  {
    var b := Buffers(event, "", id);
    assert "data" + ": " == "data: ";
    StepField(b, "data", payload);
    ApplyFields(b, payload);
    assert "" + payload + "\n" == payload + "\n";
  }

  /** A line that dispatches nothing only moves the buffers on. */
  lemma QuietLine(line: string, rest: seq<string>, b: Buffers, b': Buffers)
    requires Step(b, line) == (b', None)
    ensures Interpret([line] + rest, b) == Interpret(rest, b')
  {
    InterpretCons(line, rest, b);
  }

  /** The event line sets the type. */
  lemma EventLine(event: string, payload: string, id: string)
    ensures Interpret(["event: " + event, "data: " + payload, ""], Buffers("", "", id))
      == [Event(if event == "" then "message" else event, payload, id)]
  {
    var line := "event: " + event;
    var rest := ["data: " + payload, ""];
    EventStep(event, id);
    QuietLine(line, rest, Buffers("", "", id), Buffers(event, "", id));
    assert [line] + rest == [line, "data: " + payload, ""];
    DataLine(event, payload, id);
  }

  lemma EventStep(event: string, id: string)
    ensures Step(Buffers("", "", id), "event: " + event) == (Buffers(event, "", id), None)
  {
    var b := Buffers("", "", id);
    assert "event" + ": " == "event: ";
    StepField(b, "event", event);
    ApplyFields(b, event);
  }

  /** A frame whose id, event name and payload are free of line breaks (and
      the id of NUL) reaches the client as exactly one event carrying them. */
  lemma FrameRoundTrip(id: string, event: string, payload: string)
    requires LineBreakFree(id) && LineBreakFree(event) && LineBreakFree(payload)
    requires '\0' !in id
    ensures Events(Frame(id, event, payload))
      == [Event(if event == "" then "message" else event, payload, id)]
  {
    FrameLines(id, event, payload);
    var b := Buffers("", "", "");
    var line := "id: " + id;
    var rest := ["event: " + event, "data: " + payload, ""];
    assert Step(b, line) == (Buffers("", "", id), None) by {
      assert "id" + ": " == "id: ";
      StepField(b, "id", id);
      ApplyFields(b, id);
    }
    assert Interpret([line, "event: " + event, "data: " + payload, ""], b)
        == Interpret(rest, Buffers("", "", id)) by {
      InterpretCons(line, rest, b);
      assert [line] + rest == [line, "event: " + event, "data: " + payload, ""];
    }
    EventLine(event, payload, id);
  }

  /** What a connected client receives from a pushed notification: one
      event of the given type (nueva_notificacion unless `event` is set)
      whose data is the encoded payload. */
  lemma FormatSSEDelivers(data: JsValue, now: int, encode: map<string, JsValue> -> string)
    requires FormatSSE(data, now, encode) != ""
    requires LineBreakFree(Show(EventId(data, now))) && '\0' !in Show(EventId(data, now))
    requires LineBreakFree(Show(EventName(data)))
    requires LineBreakFree(encode(PayloadFields(data.fields, EventId(data, now))))
    ensures Events(FormatSSE(data, now, encode))
      == [Event(Show(EventName(data)), encode(PayloadFields(data.fields, EventId(data, now))),
                Show(EventId(data, now)))]
  {
    var e := EventName(data);
    assert Truthy(e);
    assert Show(e) != "";
    FrameRoundTrip(Show(EventId(data, now)), Show(e), encode(PayloadFields(data.fields, EventId(data, now))));
  }

  // ---------------------------------------------------------------------
  // sendToUser / sendToUsers

  /** The registry after the user's `gone` responses were removed one by one. */
  function Pruned(reg: Registry, u: UserId, gone: set<ConnId>): Registry
    requires u in reg
  {
    if reg[u] - gone == {} then reg - {u} else reg[u := reg[u] - gone]
  }

  /** Removing one more of the user's responses prunes it too. */
  lemma PruneStep(reg: Registry, u: UserId, done: set<ConnId>, c: ConnId)
    requires u in reg && c in reg[u] && c !in done
    ensures RemoveClient(Pruned(reg, u, done), u, c) == Pruned(reg, u, done + {c})
  {
    assert reg[u] - done - {c} == reg[u] - (done + {c});
  }

  /** Whether a push to `u` reaches at least one of its responses. */
  predicate Reaches(reg: Registry, u: UserId, failing: set<ConnId>) {
    u in reg && reg[u] - failing != {}
  }

  /** The write loop of sendToUser for an already formatted frame: writes
      it to every response of `u`, removes those whose write threw, and
      reports whether any write succeeded. */
  method SendFrame(reg: Registry, u: UserId, frame: string, failing: set<ConnId>)
    returns (sent: bool, reg': Registry)
    ensures sent <==> IsUserConnected(reg, u) && frame != "" && Reaches(reg, u, failing)
    ensures !IsUserConnected(reg, u) || frame == "" ==> reg' == reg
    ensures IsUserConnected(reg, u) && frame != "" ==> reg' == Pruned(reg, u, failing)
    ensures Wellformed(reg) ==> Wellformed(reg')
    ensures forall v :: Reaches(reg', v, failing) <==> Reaches(reg, v, failing)
  {
    if u !in reg || |reg[u]| == 0 {
      return false, reg;
    }
    if frame == "" {
      return false, reg;
    }
    var sentCount := |reg[u] - failing|;
    reg' := RemoveAll(reg, u, reg[u] * failing);
    assert reg[u] - reg[u] * failing == reg[u] - failing;
    PrunedReaches(reg, u, failing);
    sent := sentCount > 0;
  }

  /** The removals after the writes: each dead response of `u` in turn. */
  method RemoveAll(reg: Registry, u: UserId, dead: set<ConnId>) returns (reg': Registry)
    requires u in reg && reg[u] != {} && dead <= reg[u]
    ensures reg' == Pruned(reg, u, dead)
  {
    reg' := reg;
    var todo, done := dead, {};
    assert reg[u] - {} == reg[u] && reg[u := reg[u]] == reg;
    while todo != {}
      invariant done == dead - todo && todo <= dead
      invariant reg' == Pruned(reg, u, done)
      decreases |todo|
    {
      var c := Collections.MinOf(todo);
      PruneStep(reg, u, done, c);
      reg' := RemoveClient(reg', u, c);
      todo, done := todo - {c}, done + {c};
    }
    assert done == dead;
  }

  /** Pruning the failing responses of `u` keeps who can be reached. */
  lemma PrunedReaches(reg: Registry, u: UserId, failing: set<ConnId>)
    requires u in reg
    ensures Wellformed(reg) ==> Wellformed(Pruned(reg, u, failing))
    ensures forall v :: Reaches(Pruned(reg, u, failing), v, failing) <==> Reaches(reg, v, failing)
  {
    assert reg[u] - failing - failing == reg[u] - failing;
  }

  /** sendToUser: formats the data and pushes the frame to every response
      of `u`; nothing is written when the user has none or the frame is
      empty. */
  method SendToUser(reg: Registry, u: UserId, data: JsValue, now: int,
                    encode: map<string, JsValue> -> string, failing: set<ConnId>)
    returns (sent: bool, reg': Registry)
    ensures sent <==> IsUserConnected(reg, u) && FormatSSE(data, now, encode) != "" && Reaches(reg, u, failing)
    ensures !IsUserConnected(reg, u) || FormatSSE(data, now, encode) == "" ==> reg' == reg
    ensures IsUserConnected(reg, u) && FormatSSE(data, now, encode) != "" ==> reg' == Pruned(reg, u, failing)
    ensures Wellformed(reg) ==> Wellformed(reg')
    ensures forall v :: Reaches(reg', v, failing) <==> Reaches(reg, v, failing)
  {
    sent, reg' := SendFrame(reg, u, FormatSSE(data, now, encode), failing);
  }

  /** The number of entries of `users` (repeats included) that a push reaches. */
  function ReachCount(reg: Registry, users: seq<UserId>, failing: set<ConnId>): (n: nat)
    ensures n <= |users|
  {
    if users == [] then 0
    else (ReachCount(reg, users[..|users| - 1], failing)
          + if Reaches(reg, users[|users| - 1], failing) then 1 else 0)
  }

  /** One more user adds one when the push reaches it. */
  lemma ReachCountStep(reg: Registry, users: seq<UserId>, i: nat, failing: set<ConnId>)
    requires i < |users|
    ensures ReachCount(reg, users[..i + 1], failing)
      == ReachCount(reg, users[..i], failing) + if Reaches(reg, users[i], failing) then 1 else 0
  {
    assert users[..i + 1][..i] == users[..i];
  }

  /** sendToUsers: the number of users the frame reached; each send prunes
      the registry before the next one. The frame is formatted once, as the
      clock is a single input here. */
  method SendToUsers(reg: Registry, users: seq<UserId>, data: JsValue, now: int,
                     encode: map<string, JsValue> -> string, failing: set<ConnId>)
    returns (total: nat, reg': Registry)
    ensures total == (if FormatSSE(data, now, encode) == "" then 0 else ReachCount(reg, users, failing))
    ensures Wellformed(reg) ==> Wellformed(reg')
    ensures forall v :: Reaches(reg', v, failing) <==> Reaches(reg, v, failing)
  {
    total, reg' := SendFrameToUsers(reg, users, FormatSSE(data, now, encode), failing);
  }

  /** The loop of sendToUsers over an already formatted frame. */
  method SendFrameToUsers(reg: Registry, users: seq<UserId>, frame: string, failing: set<ConnId>)
    returns (total: nat, reg': Registry)
    ensures total == (if frame == "" then 0 else ReachCount(reg, users, failing))
    ensures Wellformed(reg) ==> Wellformed(reg')
    ensures forall v :: Reaches(reg', v, failing) <==> Reaches(reg, v, failing)
  {
    total := 0;
    reg' := reg;
    var i := 0;
    while i < |users|
      invariant 0 <= i <= |users|
      invariant total == (if frame == "" then 0 else ReachCount(reg, users[..i], failing))
      invariant Wellformed(reg) ==> Wellformed(reg')
      invariant forall v :: Reaches(reg', v, failing) <==> Reaches(reg, v, failing)
    {
      var ok;
      ok, reg' := SendFrame(reg', users[i], frame, failing);
      ReachCountStep(reg, users, i, failing);
      if ok {
        total := total + 1;
      }
      i := i + 1;
    }
    assert users[..i] == users;
  }
}
