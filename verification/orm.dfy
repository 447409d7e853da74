/** The activity-event and work-status ledgers, and the parent capability that
    owns them (`orm.py`). Persistent rows are immutable records; a parent is a
    record holding its event list and its status history, in insertion order. */
module Orm {
  import opened Wrappers
  import opened Faults
  import opened Text
  import J = Json

  /** The status value a row gets when none is given (`DEFAULT_STATE`). */
  const DefaultState: string := "state:CREATED"

  /** A row of another table as the JSON projections show it: its class slug
      and its id. Parents and users are seen through such references. */
  datatype Ref = Ref(classSlug: string, id: int)

  /** An `ActivityEventAssociation` row. Its back-reference to the parent is
      empty when no parent row points at it. */
  datatype Association = Association(parent: Option<Ref>)

  /** An `ActivityEvent` row. Times are ticks of an abstract clock. */
  datatype Event = Event(
    id: int,
    created: nat,
    modified: nat,
    target: string,
    action: string,
    data: map<string, J.Value>,
    association: Option<Association>,
    user: Option<Ref>)

  /** A `WorkStatus` row, optionally recording the event that caused it. */
  datatype StatusRow = StatusRow(id: int, created: nat, value: string, event: Option<Event>)

  /** An entity with the `WorkStatusMixin` capability: its own identity, its
      `modified` time, and the rows reachable through its two associations. */
  datatype Parent = Parent(
    classSlug: string,
    singularSlug: string,
    id: int,
    modified: nat,
    activityEvents: seq<Event>,
    workStatuses: seq<StatusRow>)

  function RefOf(p: Parent): Ref {
    Ref(p.classSlug, p.id)
  }

  // ---- the compound event type ----

  /** The `type_` getter: `target:action`. */
  function TypeOf(e: Event): (r: string)
    ensures |r| == |e.target| + 1 + |e.action|
    ensures r[..|e.target|] == e.target && r[|e.target|] == Colon && r[|e.target| + 1..] == e.action
  {
    Join(e.target, e.action)
  }

  /** The `type_` setter: unpacks `value.split(':')` into `target` and
      `action`. It succeeds exactly when `value` holds a single `:`, and then
      reading `type_` back gives `value`; nothing but the two tokens changes. */
  function SetType(e: Event, value: string): (r: Result<Event, Fault>)
    ensures r.Success? <==> ColonCount(value) == 1
    ensures r.Success? ==> TypeOf(r.value) == value
    ensures r.Success? ==> r.value == e.(target := r.value.target, action := r.value.action)
    ensures r.Success? ==> ColonFree(r.value.target) && ColonFree(r.value.action)
    ensures r.Failure? ==> r.error == UnpackMismatch
  {
    var (target, action) :- SplitPair(value);
    Success(e.(target := target, action := action))
  }

  /** Setting `type_` to `target:action` stores exactly those tokens, when
      neither holds a colon. */
  lemma SetTypeOfJoin(e: Event, target: string, action: string)
    requires ColonFree(target) && ColonFree(action)
    ensures SetType(e, Join(target, action)) == Success(e.(target := target, action := action))
  {
    SplitJoin(target, action);
  }

  /** Writing back the type an event already has changes nothing. */
  lemma SetTypeOfOwnType(e: Event)
    requires ColonFree(e.target) && ColonFree(e.action)
    ensures SetType(e, TypeOf(e)) == Success(e)
  {
    SetTypeOfJoin(e, e.target, e.action);
  }

  /** A value with a second colon, `a:b:c`, cannot be unpacked into two
      names, whatever the three parts hold. */
  lemma SetTypeRejectsExtraColon(e: Event, a: string, b: string, c: string)
    ensures SetType(e, Join(Join(a, b), c)) == Failure(UnpackMismatch)
  {
    ColonCountJoin(a, b);
    ColonCountJoin(Join(a, b), c);
  }

  // ---- JSON projections ----

  function RefJson(r: Ref): J.Value {
    J.Obj(map["type" := J.Str(r.classSlug), "id" := J.Int(r.id)])
  }

  /** The parent reachable from an event, `None` when it has no association or
      its association has no parent. */
  function ParentOf(e: Event): (r: Option<Ref>)
    ensures e.association.None? ==> r.None?
    ensures e.association.Some? ==> r == e.association.value.parent
  {
    if e.association.Some? then e.association.value.parent else None
  }

  /** The keys every event projection has. */
  const BaseKeys: set<string> := {"type", "id", "created_at", "modified_at", "data"}

  /** The optional `parent` and `user` entries never clash with the base keys. */
  lemma OptionalKeysAreNew()
    ensures "parent" !in BaseKeys && "user" !in BaseKeys && "parent" != "user"
  {
  }

  /** The dict display `__json__` starts from. `type` is written twice, first
      with the event's class slug and then with the compound type, and the
      later entry wins. */
  function EventBase(e: Event, eventSlug: string, iso: nat -> string): (r: map<string, J.Value>)
    ensures r.Keys == BaseKeys
    ensures r["type"] == J.Str(TypeOf(e))
    ensures r["id"] == J.Int(e.id) && r["data"] == J.Obj(e.data)
    ensures r["created_at"] == J.Str(iso(e.created)) && r["modified_at"] == J.Str(iso(e.modified))
  {
    var pairs := [("type", J.Str(eventSlug)),
                  ("id", J.Int(e.id)),
                  ("created_at", J.Str(iso(e.created))),
                  ("modified_at", J.Str(iso(e.modified))),
                  ("type", J.Str(TypeOf(e))),
                  ("data", J.Obj(e.data))];
    assert J.LastWithKey(pairs, 1) && J.LastWithKey(pairs, 2) && J.LastWithKey(pairs, 3);
    assert J.LastWithKey(pairs, 4) && J.LastWithKey(pairs, 5);
    assert J.Keys(pairs) == BaseKeys by {
      assert pairs[0].0 == "type" && pairs[1].0 == "id" && pairs[2].0 == "created_at";
      assert pairs[3].0 == "modified_at" && pairs[5].0 == "data";
    }
    J.DictLiteral(pairs)
  }

  /** `ActivityEvent.__json__` with the parent treated as absent when there is
      no association: the base entries, plus `parent` and `user` exactly when
      the event has them. `iso` renders a time. */
  function EventJson(e: Event, eventSlug: string, iso: nat -> string): (r: map<string, J.Value>)
    ensures "type" in r && r["type"] == J.Str(TypeOf(e))
    ensures "id" in r && r["id"] == J.Int(e.id)
    ensures "data" in r && r["data"] == J.Obj(e.data)
    ensures "created_at" in r && r["created_at"] == J.Str(iso(e.created))
    ensures "modified_at" in r && r["modified_at"] == J.Str(iso(e.modified))
    ensures "parent" in r <==> ParentOf(e).Some?
    ensures "parent" in r ==> r["parent"] == RefJson(ParentOf(e).value)
    ensures "user" in r <==> e.user.Some?
    ensures "user" in r ==> r["user"] == RefJson(e.user.value)
    ensures r.Keys <= BaseKeys + {"parent", "user"}
  {
    var base := EventBase(e, eventSlug, iso);
    OptionalKeysAreNew();
    var withParent := if ParentOf(e).Some? then base["parent" := RefJson(ParentOf(e).value)] else base;
    if e.user.Some? then withParent["user" := RefJson(e.user.value)] else withParent
  }

  /** `ActivityEvent.__json__` as written: `self.parent` reads
      `self.assocation.parent`, which raises when the event has no
      association; otherwise the projection is the one above. */
  function EventJsonAsWritten(e: Event, eventSlug: string, iso: nat -> string): (r: Result<map<string, J.Value>, Fault>)
    ensures r.Failure? <==> e.association.None?
    ensures r.Failure? ==> r.error == NoneAttribute("parent")
  {
    if e.association.None? then Failure(NoneAttribute("parent"))
    else Success(EventJson(e, eventSlug, iso))
  }

  /** For an event with an association, the projection as written and the
      corrected one agree. */
  lemma AsWrittenAgreesWhenAssociated(e: Event, eventSlug: string, iso: nat -> string)
    requires e.association.Some?
    ensures EventJsonAsWritten(e, eventSlug, iso) == Success(EventJson(e, eventSlug, iso))
  {
  }

  /** `WorkStatus.__json__`. */
  function StatusJson(s: StatusRow, statusSlug: string): (r: map<string, J.Value>)
    ensures r.Keys == {"type", "id", "value"}
    ensures r["type"] == J.Str(statusSlug) && r["id"] == J.Int(s.id) && r["value"] == J.Str(s.value)
  {
    map["type" := J.Str(statusSlug), "id" := J.Int(s.id), "value" := J.Str(s.value)]
  }

  // ---- the status ledger ----

  /** A new `WorkStatus` row as stored: a value left unspecified takes the
      column default. */
  function NewStatus(id: int, created: nat, value: Option<string>, event: Option<Event>): (s: StatusRow)
    ensures value.None? ==> s.value == DefaultState
    ensures value.Some? ==> s.value == value.value
    ensures s.id == id && s.created == created && s.event == event
  {
    StatusRow(id, created, value.ValueOr(DefaultState), event)
  }

  /** `set_work_status(value, event)` at time `now`, the store giving the new
      row the id `newId`: the history grows by exactly the new row, at the end,
      every earlier row is kept, and the parent's `modified` becomes `now`. */
  function SetWorkStatus(p: Parent, value: Option<string>, event: Option<Event>, now: nat, newId: int)
    : (r: (Parent, StatusRow))
    ensures |r.0.workStatuses| == |p.workStatuses| + 1
    ensures r.0.workStatuses[..|p.workStatuses|] == p.workStatuses
    ensures r.0.workStatuses[|p.workStatuses|] == r.1
    ensures r.1.value == (if value.Some? then value.value else DefaultState)
    ensures r.1.event == event && r.1.created == now && r.1.id == newId
    ensures r.0.modified == now
    ensures r.0 == p.(modified := now, workStatuses := r.0.workStatuses)
  {
    var status := NewStatus(newId, now, value, event);
    (p.(modified := now, workStatuses := p.workStatuses + [status]), status)
  }

  predicate Matches(s: StatusRow, filter: Option<string>) {
    filter.None? || s.value == filter.value
  }

  /** `s` is a most recent row of `rows` among those passing `filter`. */
  predicate IsLatest(rows: seq<StatusRow>, filter: Option<string>, s: StatusRow) {
    && s in rows
    && Matches(s, filter)
    && forall i :: 0 <= i < |rows| && Matches(rows[i], filter) ==> rows[i].created <= s.created
  }

  /** The query `filter(value).order_by(created desc).first()` over `rows`:
      `None` exactly when no row passes the filter, otherwise a passing row with
      the greatest `created`. The query sets no order among rows created at the
      same time; this definition picks the one appended last. */
  function Latest(rows: seq<StatusRow>, filter: Option<string>): (r: Option<StatusRow>)
    ensures r.None? <==> forall i :: 0 <= i < |rows| ==> !Matches(rows[i], filter)
    ensures r.Some? ==> IsLatest(rows, filter, r.value)
  {
    if |rows| == 0 then None
    else
      var init := rows[..|rows| - 1];
      var last := rows[|rows| - 1];
      assert rows == init + [last];
      var best := Latest(init, filter);
      if !Matches(last, filter) then best
      else if best.Some? && best.value.created > last.created then best
      else Some(last)
  }

  /** `get_work_status(value)`: the latest row of the parent's history,
      optionally only among rows with that value. */
  function GetWorkStatus(p: Parent, filter: Option<string>): (r: Option<StatusRow>)
    ensures r.None? <==> forall i :: 0 <= i < |p.workStatuses| ==> !Matches(p.workStatuses[i], filter)
    ensures r.Some? ==> IsLatest(p.workStatuses, filter, r.value)
    ensures filter.Some? && r.Some? ==> r.value.value == filter.value
  {
    Latest(p.workStatuses, filter)
  }

  /** The `work_status` property: the unfiltered latest row. */
  function WorkStatus(p: Parent): (r: Option<StatusRow>)
    ensures r.None? <==> |p.workStatuses| == 0
    ensures r.Some? ==> IsLatest(p.workStatuses, None, r.value)
  {
    GetWorkStatus(p, None)
  }

  predicate CreatedBefore(rows: seq<StatusRow>, now: nat) {
    forall i :: 0 <= i < |rows| ==> rows[i].created < now
  }

  /** A row appended later than every earlier row is the current status, and
      also the latest row with its own value. */
  lemma SetThenGet(p: Parent, value: Option<string>, event: Option<Event>, now: nat, newId: int)
    requires CreatedBefore(p.workStatuses, now)
    ensures var (q, s) := SetWorkStatus(p, value, event, now, newId);
      WorkStatus(q) == Some(s) && GetWorkStatus(q, Some(s.value)) == Some(s)
  {
    var (q, s) := SetWorkStatus(p, value, event, now, newId);
    assert q.workStatuses == p.workStatuses + [s];
    assert q.workStatuses[..|q.workStatuses| - 1] == p.workStatuses;
  }

  /** Appending a row leaves the latest row for any other value unchanged. */
  lemma {:induction false} SetLeavesOtherValues(p: Parent, value: Option<string>, event: Option<Event>, now: nat, newId: int, other: string)
    requires other != (if value.Some? then value.value else DefaultState)
    ensures GetWorkStatus(SetWorkStatus(p, value, event, now, newId).0, Some(other)) == GetWorkStatus(p, Some(other))
  {
    var (q, s) := SetWorkStatus(p, value, event, now, newId);
    assert q.workStatuses[..|q.workStatuses| - 1] == p.workStatuses;
  }

  /** Appending a row never loses a match: a filter that found a row before
      still finds one after. */
  lemma SetKeepsMatchFound(p: Parent, value: Option<string>, event: Option<Event>, now: nat, newId: int, filter: Option<string>)
    requires GetWorkStatus(p, filter).Some?
    ensures GetWorkStatus(SetWorkStatus(p, value, event, now, newId).0, filter).Some?
  {
    var (q, s) := SetWorkStatus(p, value, event, now, newId);
    var i :| 0 <= i < |p.workStatuses| && Matches(p.workStatuses[i], filter);
    assert q.workStatuses[i] == p.workStatuses[i];
  }

  /** Successive `set_work_status` calls, the k-th at time `start + k` and
      given id `firstId + k`. */
  function AppendStatuses(p: Parent, values: seq<string>, start: nat, firstId: int): (q: Parent)
    ensures |q.workStatuses| == |p.workStatuses| + |values|
    ensures q.workStatuses[..|p.workStatuses|] == p.workStatuses
    decreases |values|
  {
    if |values| == 0 then p
    else
      var (p1, _) := SetWorkStatus(p, Some(values[0]), None, start, firstId);
      var q := AppendStatuses(p1, values[1..], start + 1, firstId + 1);
      assert q.workStatuses[..|p.workStatuses|] == q.workStatuses[..|p1.workStatuses|][..|p.workStatuses|];
      q
  }

  /** A row appended at `now` leaves every row created before `now + 1`. */
  lemma SetKeepsCreatedBefore(p: Parent, value: Option<string>, event: Option<Event>, now: nat, newId: int)
    requires CreatedBefore(p.workStatuses, now)
    ensures CreatedBefore(SetWorkStatus(p, value, event, now, newId).0.workStatuses, now + 1)
  {
    var q := SetWorkStatus(p, value, event, now, newId).0;
    forall i | 0 <= i < |q.workStatuses| ensures q.workStatuses[i].created < now + 1 {
      if i < |p.workStatuses| {
        assert q.workStatuses[i] == q.workStatuses[..|p.workStatuses|][i];
      }
    }
  }

  /** A history whose last row was created after every other row has that
      row as its current status. */
  lemma NewestIsCurrent(p: Parent)
    requires |p.workStatuses| > 0
    requires CreatedBefore(p.workStatuses[..|p.workStatuses| - 1], p.workStatuses[|p.workStatuses| - 1].created)
    ensures WorkStatus(p) == Some(p.workStatuses[|p.workStatuses| - 1])
  {
    var rows := p.workStatuses;
    var best := Latest(rows[..|rows| - 1], None);
    if best.Some? {
      var i :| 0 <= i < |rows| - 1 && rows[..|rows| - 1][i] == best.value;
    }
  }

  /** The rows n appends leave behind: the last one is the row of the last
      append, and every row before it was created earlier. */
  lemma {:induction false} AppendStatusesRows(p: Parent, values: seq<string>, start: nat, firstId: int)
    requires CreatedBefore(p.workStatuses, start)
    ensures var q := AppendStatuses(p, values, start, firstId);
      && CreatedBefore(q.workStatuses, start + |values|)
      && (|values| > 0 ==>
            && q.workStatuses[|q.workStatuses| - 1]
                 == StatusRow(firstId + |values| - 1, start + |values| - 1, values[|values| - 1], None)
            && CreatedBefore(q.workStatuses[..|q.workStatuses| - 1], start + |values| - 1))
    decreases |values|
  {
    if |values| > 0 {
      var (p1, s) := SetWorkStatus(p, Some(values[0]), None, start, firstId);
      var q := AppendStatuses(p1, values[1..], start + 1, firstId + 1);
      assert AppendStatuses(p, values, start, firstId) == q;
      SetKeepsCreatedBefore(p, Some(values[0]), None, start, firstId);
      AppendStatusesRows(p1, values[1..], start + 1, firstId + 1);
      if |values| == 1 {
        assert q == p1;
        assert p1.workStatuses[..|p1.workStatuses| - 1] == p.workStatuses;
      } else {
        assert values[1..][|values| - 2] == values[|values| - 1];
      }
    }
  }

  /** After n appends at increasing times the current status is the row of
      the last append. */
  lemma AppendStatusesLatest(p: Parent, values: seq<string>, start: nat, firstId: int)
    requires |values| > 0
    requires CreatedBefore(p.workStatuses, start)
    ensures var n := |values|;
      WorkStatus(AppendStatuses(p, values, start, firstId))
        == Some(StatusRow(firstId + n - 1, start + n - 1, values[n - 1], None))
  {
    AppendStatusesRows(p, values, start, firstId);
    NewestIsCurrent(AppendStatuses(p, values, start, firstId));
  }
}
