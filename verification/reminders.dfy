/** The reminder list of a task (agregarRecordatorio, eliminarRecordatorio)
    and the next date of a repeating task (calcularProximaFecha). The
    recordatorio column holds JSON text; the handlers work on what parsing
    it gives, so the stored value is modelled already decoded. Dates are
    whole day or instant numbers. */
module Reminders {
  import opened Wrappers
  import opened Js
  import opened Store
  import opened Collections
  import Text

  /** One reminder: when it fires, its kind, whether it was sent, when it
      was created. */
  datatype Reminder = Reminder(date: int, kind: JsValue, notified: bool, createdAt: int)

  /** The recordatorio column as the handlers find it: empty (null or
      ''), text that does not parse, a parsed value that is not an array,
      or an array of reminders. */
  datatype Stored = Empty | Unparseable | NotArray | Items(items: seq<Reminder>)

  /** The task row the handlers read: its owner and its reminders. */
  datatype ReminderRow = ReminderRow(owner: UserId, stored: Stored)

  /** The sort key: the reminder's date. */
  function DateKey(r: Reminder): seq<int> {
    [r.date]
  }

  /** The list the add handler starts from: the stored array, or [] for
      anything that is not one. */
  function Existing(s: Stored): (r: seq<Reminder>)
    ensures s.Items? ==> r == s.items
    ensures !s.Items? ==> r == []
  {
    if s.Items? then s.items else []
  }

  /** agregarRecordatorio: a missing task is a 404, another user's task a
      403, an invalid date a 400; otherwise the new reminder (kind defaulting
      to 'personalizado', not yet sent) joins the existing ones and the
      list is sorted by date, earliest first. */
  function Add(row: Option<ReminderRow>, caller: UserId, date: Option<int>, kind: JsValue, now: int)
    : (r: Result<seq<Reminder>, Error>)
    ensures row.None? ==> r == Failure(Error(NotFound, TaskNotFound))
    ensures row.Some? && row.value.owner != caller ==> r == Failure(Error(Forbidden, NotTaskOwner))
    ensures row.Some? && row.value.owner == caller && date.None? ==> r == Failure(Error(BadRequest, InvalidDate))
    ensures r.Success? <==> row.Some? && row.value.owner == caller && date.Some?
    ensures r.Success? ==>
      var added := Reminder(date.value, Or(kind, JStr("personalizado")), false, now);
      && |r.value| == |Existing(row.value.stored)| + 1
      && multiset(r.value) == multiset(Existing(row.value.stored)) + multiset{added}
      && SortedBy(r.value, DateKey)
  {
    if row.None? then Failure(Error(NotFound, TaskNotFound))
    else if row.value.owner != caller then Failure(Error(Forbidden, NotTaskOwner))
    else if date.None? then Failure(Error(BadRequest, InvalidDate))
    else
      var added := Reminder(date.value, Or(kind, JStr("personalizado")), false, now);
      var all := Existing(row.value.stored) + [added];
      assert KeysUniform(all, DateKey, 1);
      Success(SortBy(all, DateKey, 1))
  }

  /** Every reminder that was there is still there, with the new one, in
      date order. */
  lemma AddKeepsReminders(row: ReminderRow, caller: UserId, date: int, kind: JsValue, now: int, x: Reminder)
    requires row.owner == caller
    ensures var r := Add(Some(row), caller, Some(date), kind, now).value;
      && (x in Existing(row.stored) ==> x in r)
      && Reminder(date, Or(kind, JStr("personalizado")), false, now) in r
      && (forall i, j :: 0 <= i < j < |r| ==> r[i].date <= r[j].date)
  {
    var r := Add(Some(row), caller, Some(date), kind, now).value;
    var added := Reminder(date, Or(kind, JStr("personalizado")), false, now);
    assert added in multiset(r);
    if x in Existing(row.stored) {
      assert x in multiset(r);
    }
    forall i, j | 0 <= i < j < |r|
      ensures r[i].date <= r[j].date
    {
      assert LexLe(DateKey(r[i]), DateKey(r[j]));
    }
  }

  /** What a removal answers: the remaining reminders and the value the
      column is set to (null once none remain). */
  datatype Removed = Removed(rest: seq<Reminder>, stored: Stored)

  function StoredAfter(rest: seq<Reminder>): (s: Stored)
    ensures rest == [] ==> s == Empty
    ensures rest != [] ==> s == Items(rest)
  {
    if rest == [] then Empty else Items(rest)
  }

  /** `array.splice(i, 1)` for an index already in range. */
  function RemoveAt(s: seq<Reminder>, i: nat): (r: seq<Reminder>)
    requires i < |s|
    ensures |r| == |s| - 1
    ensures forall j :: 0 <= j < i ==> r[j] == s[j]
    ensures forall j :: i <= j < |r| ==> r[j] == s[j + 1]
  {
    s[..i] + s[i + 1..]
  }

  /** eliminarRecordatorio as written: 404, 403, then a column that does
      not parse is a 400. The index is `parseInt(indice)` and the guard is
      `idx < 0 || idx >= length`; NaN fails both comparisons, so it gets
      through, and splice(NaN, 1) removes the element at 0. A parsed value
      that is not an array has no length: a negative index is refused, any
      other makes splice throw (500). */
  function RemoveAsWritten(row: Option<ReminderRow>, caller: UserId, index: string): (r: Result<Removed, Error>)
    ensures row.None? ==> r == Failure(Error(NotFound, TaskNotFound))
    ensures row.Some? && row.value.owner != caller ==> r == Failure(Error(Forbidden, NotTaskOwner))
    ensures r.Success? ==> row.Some? && (row.value.stored.Empty? || row.value.stored.Items?)
  {
    if row.None? then Failure(Error(NotFound, TaskNotFound))
    else if row.value.owner != caller then Failure(Error(Forbidden, NotTaskOwner))
    else
      var idx := ParseInt(index);
      match row.value.stored
      case Unparseable => Failure(Error(BadRequest, InvalidStoredValue))
      case NotArray =>
        if idx.Some? && idx.value < 0 then Failure(Error(BadRequest, InvalidIndex))
        else Failure(Error(ServerError, Unhandled))
      case Empty =>
        if idx.Some? then Failure(Error(BadRequest, InvalidIndex))
        else Success(Removed([], Empty))
      case Items(items) =>
        match idx
        case Some(i) =>
          if i < 0 || i >= |items| then Failure(Error(BadRequest, InvalidIndex))
          else
            var rest := RemoveAt(items, i);
            Success(Removed(rest, StoredAfter(rest)))
        case None =>
          var rest := if items == [] then [] else RemoveAt(items, 0);
          Success(Removed(rest, StoredAfter(rest)))
  }

  /** A non-numeric index deletes the first reminder instead of being
      refused. */
  lemma RemoveAsWrittenTakesNaNAsZero(caller: UserId, a: Reminder, b: Reminder)
    ensures RemoveAsWritten(Some(ReminderRow(caller, Items([a, b]))), caller, "x")
         == Success(Removed([b], Items([b])))
  {
    assert ParseInt("x").None? by {
      assert !Text.IsSpace('x');
      assert Text.TrimStart("x") == "x";
      assert ParseUnsigned("x").None? by {
        assert !IsDigit('x');
        assert DigitRun("x", 10) == 0;
      }
    }
    assert RemoveAt([a, b], 0) == [b];
  }

  /** eliminarRecordatorio with the index checked for being a number: as
      above, except that an index that does not parse is refused with the
      400 the out-of-range index gets. */
  function Remove(row: Option<ReminderRow>, caller: UserId, index: string): (r: Result<Removed, Error>)
    ensures row.None? ==> r == Failure(Error(NotFound, TaskNotFound))
    ensures row.Some? && row.value.owner != caller ==> r == Failure(Error(Forbidden, NotTaskOwner))
    ensures row.Some? && row.value.owner == caller && row.value.stored.Unparseable? ==>
      r == Failure(Error(BadRequest, InvalidStoredValue))
    ensures row.Some? && row.value.owner == caller && ParseInt(index).None? && !row.value.stored.Unparseable? ==>
      r == Failure(Error(BadRequest, InvalidIndex))
    ensures r.Success? <==>
      && row.Some? && row.value.owner == caller && (row.value.stored.Empty? || row.value.stored.Items?)
      && ParseInt(index).Some? && 0 <= ParseInt(index).value < |Existing(row.value.stored)|
    ensures r.Success? ==>
      var items, i := Existing(row.value.stored), ParseInt(index).value;
      && r.value.rest == items[..i] + items[i + 1..]
      && r.value.stored == (if |items| == 1 then Empty else Items(r.value.rest))
  {
    if row.None? then Failure(Error(NotFound, TaskNotFound))
    else if row.value.owner != caller then Failure(Error(Forbidden, NotTaskOwner))
    else
      var idx := ParseInt(index);
      match row.value.stored
      case Unparseable => Failure(Error(BadRequest, InvalidStoredValue))
      case NotArray =>
        if idx.None? || idx.value < 0 then Failure(Error(BadRequest, InvalidIndex))
        else Failure(Error(ServerError, Unhandled))
      case Empty => Failure(Error(BadRequest, InvalidIndex))
      case Items(items) =>
        match idx
        case None => Failure(Error(BadRequest, InvalidIndex))
        case Some(i) =>
          if i < 0 || i >= |items| then Failure(Error(BadRequest, InvalidIndex))
          else
            var rest := RemoveAt(items, i);
            Success(Removed(rest, StoredAfter(rest)))
  }

  /** The two removals agree on every index that is a number. */
  lemma RemoveAgreesOnNumbers(row: Option<ReminderRow>, caller: UserId, index: string)
    requires ParseInt(index).Some?
    ensures Remove(row, caller, index) == RemoveAsWritten(row, caller, index)
  {
  }

  /** Removing the reminder just added, at the place it was sorted to, gives
      back the earlier reminders (as a multiset: equal dates may be
      reordered by the sort). */
  lemma AddThenRemove(row: ReminderRow, caller: UserId, date: int, kind: JsValue, now: int, i: nat)
    requires row.owner == caller
    requires var r := Add(Some(row), caller, Some(date), kind, now).value;
      i < |r| && r[i] == Reminder(date, Or(kind, JStr("personalizado")), false, now)
    ensures var r := Add(Some(row), caller, Some(date), kind, now).value;
      var removed := Remove(Some(ReminderRow(caller, Items(r))), caller, Text.IntToString(i));
      removed.Success? && multiset(removed.value.rest) == multiset(Existing(row.stored))
  {
    var r := Add(Some(row), caller, Some(date), kind, now).value;
    RemoveRestores(caller, r, Existing(row.stored), r[i], i);
  }

  /** Removing, by its printed index, an element that was added to a list
      leaves that list's elements. */
  lemma RemoveRestores(caller: UserId, r: seq<Reminder>, before: seq<Reminder>, x: Reminder, i: nat)
    requires multiset(r) == multiset(before) + multiset{x}
    requires i < |r| && r[i] == x
    ensures var removed := Remove(Some(ReminderRow(caller, Items(r))), caller, Text.IntToString(i));
      removed.Success? && multiset(removed.value.rest) == multiset(before)
  {
    var index := Text.IntToString(i);
    ParseIntOfIntToString(i);
    assert ParseInt(index) == Some(i);
    var removed := Remove(Some(ReminderRow(caller, Items(r))), caller, index);
    assert removed.Success?;
    assert removed.value.rest == RemoveAt(r, i);
    RemovedMultiset(r, i);
    var left, right := multiset(RemoveAt(r, i)), multiset(before);
    assert left + multiset{x} == right + multiset{x};
    forall y
      ensures left[y] == right[y]
    {
      assert (left + multiset{x})[y] == (right + multiset{x})[y];
    }
    assert left == right;
  }

  lemma RemovedMultiset(r: seq<Reminder>, i: nat)
    requires i < |r|
    ensures multiset(RemoveAt(r, i)) + multiset{r[i]} == multiset(r)
  {
    assert r == r[..i] + [r[i]] + r[i + 1..];
  }

  /** Day of the week of a day number counted from 1970-01-01, a Thursday:
      0 is Sunday and 6 is Saturday, as Date.getDay numbers them. */
  function Weekday(day: int): (w: int)
    ensures 0 <= w < 7
  {
    (day + 4) % 7
  }

  predicate IsWeekend(day: int) {
    Weekday(day) == 0 || Weekday(day) == 6
  }

  /** The 'laborales' step in closed form: from a Friday three days, from a
      Saturday two, otherwise one. */
  function NextWorkday(day: int): (r: int)
    ensures day < r <= day + 3
    ensures !IsWeekend(r)
    ensures forall k :: day < k < r ==> IsWeekend(k)
  {
    var w := Weekday(day);
    if w == 5 then day + 3 else if w == 6 then day + 2 else day + 1
  }

  /** The do-while loop of 'laborales': step one day at a time until the
      day is neither Saturday nor Sunday. */
  method NextWorkdayLoop(day: int) returns (r: int)
    ensures r == NextWorkday(day)
  {
    r := day + 1;
    while IsWeekend(r)
      invariant day < r <= day + 3
      invariant forall k :: day < k < r ==> IsWeekend(k)
      invariant r <= NextWorkday(day)
      decreases day + 3 - r
    {
      r := r + 1;
    }
  }

  /** configRepeticion of a 'personalizado' task: a unit and a count. */
  datatype RepeatConfig = RepeatConfig(unit: string, every: int)

  /** calcularProximaFecha on day numbers: diario one day on, semanal seven,
      laborales the next weekday, personalizado in days or weeks by its
      configuration; any other type, or a personalizado one without
      configuration or with an unknown unit, leaves the date as it is.
      None marks the month and year steps, which this model does not
      compute. */
  function NextDate(day: int, kind: string, config: Option<RepeatConfig>): (r: Option<int>)
    ensures kind == "diario" ==> r == Some(day + 1)
    ensures kind == "semanal" ==> r == Some(day + 7)
    ensures kind == "laborales" ==>
      (&& r.Some? && r.value > day && !IsWeekend(r.value)
       && forall k :: day < k < r.value ==> IsWeekend(k))
    ensures kind !in ["diario", "laborales", "semanal", "mensual", "personalizado"] ==> r == Some(day)
    ensures r.None? <==> kind == "mensual" || (kind == "personalizado" && config.Some?
                                               && config.value.unit in ["meses", "a\U{F1}os"])
    ensures kind == "personalizado" && config.Some? && config.value.unit == "dias" ==>
      r == Some(day + config.value.every)
    ensures kind == "personalizado" && config.Some? && config.value.unit == "semanas" ==>
      r == Some(day + 7 * config.value.every)
    ensures kind == "personalizado" && (config.None? || config.value.unit !in ["dias", "semanas", "meses", "a\U{F1}os"]) ==>
      r == Some(day)
  {
    match kind
    case "diario" => Some(day + 1)
    case "laborales" => Some(NextWorkday(day))
    case "semanal" => Some(day + 7)
    case "mensual" => None
    case "personalizado" =>
      if config.None? then Some(day)
      else
        (match config.value.unit
         case "dias" => Some(day + config.value.every)
         case "semanas" => Some(day + config.value.every * 7)
         case "meses" => None
         case "a\U{F1}os" => None
         case _ => Some(day))
    case _ => Some(day)
  }

  /** A custom repetition of n weeks is one of 7n days, and two custom
      day steps add up. */
  lemma CustomStepsCompose(day: int, a: int, b: int)
    ensures NextDate(day, "personalizado", Some(RepeatConfig("semanas", a)))
         == NextDate(day, "personalizado", Some(RepeatConfig("dias", 7 * a)))
    ensures NextDate(NextDate(day, "personalizado", Some(RepeatConfig("dias", a))).value,
                     "personalizado", Some(RepeatConfig("dias", b)))
         == NextDate(day, "personalizado", Some(RepeatConfig("dias", a + b)))
  {
  }

  /** Weekly repetition is seven daily steps, and a custom repetition of
      one week is the weekly one. */
  lemma WeeklyIsSevenDays(day: int)
    ensures NextDate(day, "semanal", None) == Some(day + 7)
    ensures NextDate(day, "personalizado", Some(RepeatConfig("semanas", 1))) == NextDate(day, "semanal", None)
    ensures NextDate(day, "personalizado", Some(RepeatConfig("dias", 7))) == NextDate(day, "semanal", None)
  {
  }
}
