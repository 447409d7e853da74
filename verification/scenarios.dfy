/** Worked examples of the engine's behaviour, each proved as a lemma. */
module Scenarios {
  import opened Wrappers
  import opened Faults
  import opened Text
  import J = Json
  import opened Orm
  import Repo
  import opened Subscribe

  /** A job with no history yet. */
  function Job(): Parent {
    Parent("jobs", "job", 7, 0, [], [])
  }

  /** An event with no association, as code outside the factory may create. */
  function Unattached(): Event {
    Event(1, 0, 0, "job", "confirmed", map[], None, None)
  }

  // ---- orm.py ----

  /** `type_ = 'message:created'` stores the two tokens. */
  lemma TypeSetterStoresTokens()
    ensures SetType(Unattached(), Join("message", "created"))
      == Success(Unattached().(target := "message", action := "created"))
  {
    SetTypeOfJoin(Unattached(), "message", "created");
  }

  /** `__json__` of an event without an association raises as written. */
  lemma UnattachedEventJson(eventSlug: string, iso: nat -> string)
    ensures EventJsonAsWritten(Unattached(), eventSlug, iso) == Failure(NoneAttribute("parent"))
  {
  }

  /** The corrected projection of the same event leaves `parent` out and keeps
      its type. */
  lemma UnattachedEventJsonCorrected(eventSlug: string, iso: nat -> string)
    ensures "parent" !in EventJson(Unattached(), eventSlug, iso)
    ensures EventJson(Unattached(), eventSlug, iso)["type"] == J.Str("job:confirmed")
  {
    assert TypeOf(Unattached()) == "job:confirmed";
  }

  /** Statuses `c`, `a`, `c` set in that order (say `CREATED`, `ACTIVE`,
      `CREATED`): the latest `c` row is the third, not the first, and it is
      also the current status. */
  lemma FilteredRetrievalFindsLastMatch(c: string, a: string)
    ensures var p1 := SetWorkStatus(Job(), Some(c), None, 1, 100).0;
      var p2 := SetWorkStatus(p1, Some(a), None, 2, 101).0;
      var (p3, third) := SetWorkStatus(p2, Some(c), None, 3, 102);
      && third == StatusRow(102, 3, c, None)
      && GetWorkStatus(p3, Some(c)) == Some(third)
      && WorkStatus(p3) == Some(third)
      && |p3.workStatuses| == 3
  {
    var p1 := SetWorkStatus(Job(), Some(c), None, 1, 100).0;
    var p2 := SetWorkStatus(p1, Some(a), None, 2, 101).0;
    assert p2.workStatuses == [StatusRow(100, 1, c, None), StatusRow(101, 2, a, None)];
    SetThenGet(p2, Some(c), None, 3, 102);
  }

  // ---- subscribe.py ----

  /** A subscriber registered for `state:DECLINED` does not fire on
      `{"state": "state:ACTIVE"}`, and fires with its handler's result on
      `{"state": "state:DECLINED"}`. */
  lemma DispatchFiltering(handler: Handler, context: Option<Context>, event: Option<Event>)
    ensures var s := AddEngineSubscriber("IJob", One("state:DECLINED"), handler)[0].subscriber;
      && Call(s, CombinedArgs(Request(map["state" := J.Str("state:ACTIVE")], context), context, event)) == None
      && var declined := Request(map["state" := J.Str("state:DECLINED")], context);
         Call(s, CombinedArgs(declined, context, event)) == handler(declined, context, event)
  {
    assert Join("state", "DECLINED") == "state:DECLINED";
    FirstSegmentOfJoin("state", "DECLINED");
  }

  /** Two matching subscriptions, one returning `None` and one `{"ok": true}`:
      only the latter's result is kept. An empty result is kept too. */
  lemma DispatchAggregation(args: CombinedArgs)
    ensures var ok := J.Obj(map["ok" := J.Bool(true)]);
      HandlerResults([Plain(a => None), Plain(a => Some(ok))], args) == [ok]
    ensures HandlerResults([Plain(a => Some(J.Arr([]))), Plain(a => None)], args) == [J.Arr([])]
  {
    var ok := J.Obj(map["ok" := J.Bool(true)]);
    var rs := Invoke([Plain(a => None), Plain(a => Some(ok))], args);
    assert rs == [None] + [Some(ok)];
    KeepNonNoneAppend([None], [Some(ok)]);
    KeepNonNoneAllNone([None]);
    KeepNonNoneAllSome([Some(ok)]);
    var rs2 := Invoke([Plain(a => Some(J.Arr([]))), Plain(a => None)], args);
    assert rs2 == [Some(J.Arr([]))] + [None];
    KeepNonNoneAppend([Some(J.Arr([]))], [None]);
    KeepNonNoneAllNone([None]);
    KeepNonNoneAllSome([Some(J.Arr([]))]);
  }

  /** With no `event_id`, the request's event is the one that caused the
      context's current status; with an unparseable `event_id` and no status,
      there is none. */
  lemma ActivityEventResolution(e: Event, events: map<int, Event>)
    ensures var (job, _) := SetWorkStatus(Job(), Some("state:CONFIRMED"), Some(e), 5, 1);
      ActivityEvent(Request(map[], Some(Tracked(job))), events) == Some(e)
    ensures ActivityEvent(Request(map["event_id" := J.Str("abc")], Some(Tracked(Job()))), events) == None
  {
    var (job, s) := SetWorkStatus(Job(), Some("state:CONFIRMED"), Some(e), 5, 1);
    SetThenGet(Job(), Some("state:CONFIRMED"), Some(e), 5, 1);
    assert !IsDigit('a');
    assert ParseInt("abc") == None by {
      assert Strip("abc") == "abc";
    }
  }

  // ---- repo.py, end to end ----

  /** Without `type_`, the action `state:CONFIRMED` on a job gives the type
      `job:confirmed`. */
  lemma DerivedEventType(p: Parent, snapshot: Parent -> J.Value)
    requires p.singularSlug == "job"
    ensures var r := Repo.CreateActivityEvent(p, None, None, None, Some(Join("state", "CONFIRMED")), snapshot, 1, 10);
      r.Success? && TypeOf(r.value.1) == Join("job", Lower("CONFIRMED"))
  {
    Repo.DerivedTypeOfNamespacedAction(p, None, None, "state", "CONFIRMED", snapshot, 1, 10);
  }

  /** The lower-cased action name of `CONFIRMED` is `confirmed`. */
  lemma LowerConfirmed()
    ensures Lower("CONFIRMED") == "confirmed"
  {
  }

  /** Recording a `target:action` event without an action succeeds and
      stores exactly that type. */
  lemma RecordEvent(
    p: Parent, target: string, action: string, data: map<string, J.Value>,
    snapshot: Parent -> J.Value, eventId: int, now: nat)
    requires ColonFree(target) && ColonFree(action)
    ensures var created := Repo.CreateActivityEvent(p, None, Some(Join(target, action)), Some(data), None, snapshot, eventId, now);
      && created.Success?
      && TypeOf(created.value.1) == Join(target, action)
      && created.value.0.workStatuses == p.workStatuses
  {
    ColonCountJoin(target, action);
  }

  /** Record a `target:action` event, then set the parent's status to a value
      caused by that event: the event behind the parent's current status is
      the recorded one. */
  lemma RecordThenSetStatus(
    p: Parent, target: string, action: string, status: string, data: map<string, J.Value>,
    snapshot: Parent -> J.Value, eventId: int, statusId: int, now: nat)
    requires ColonFree(target) && ColonFree(action)
    requires CreatedBefore(p.workStatuses, now + 1)
    ensures
      var created := Repo.CreateActivityEvent(p, None, Some(Join(target, action)), Some(data), None, snapshot, eventId, now);
      && created.Success?
      && var (p1, ev) := created.value;
         CurrentStatusEvent(Some(Tracked(SetWorkStatus(p1, Some(status), Some(ev), now + 1, statusId).0))) == Some(ev)
  {
    RecordEvent(p, target, action, data, snapshot, eventId, now);
    var created := Repo.CreateActivityEvent(p, None, Some(Join(target, action)), Some(data), None, snapshot, eventId, now);
    var (p1, ev) := created.value;
    SetThenGet(p1, Some(status), Some(ev), now + 1, statusId);
    var q := SetWorkStatus(p1, Some(status), Some(ev), now + 1, statusId);
    assert WorkStatus(q.0) == Some(q.1);
  }

  /** Notify a parent with `{ns: "ns:value"}` and no `event_id`: a subscriber
      registered on `ns:value` is called with the parent and the event behind
      its current status, and its result is the whole of the dispatch's
      answer. */
  lemma NotifyReachesSubscriber(
    q: Parent, ev: Event, ns: string, value: string, h: Handler, events: map<int, Event>)
    requires ColonFree(ns) && ns != "event_id"
    requires CurrentStatusEvent(Some(Tracked(q))) == Some(ev)
    ensures
      var req := Request(map[ns := J.Str(Join(ns, value))], Some(Tracked(q)));
      var subs := [AddEngineSubscriber("marker", One(Join(ns, value)), h)[0].subscriber];
      var result := h(req, Some(Tracked(q)), Some(ev));
      && ArgsOf(req, events) == CombinedArgs(req, Some(Tracked(q)), Some(ev))
      && Dispatch(req, subs, events)["handlers"] == J.Arr(if result.Some? then [result.value] else [])
  {
    var req := Request(map[ns := J.Str(Join(ns, value))], Some(Tracked(q)));
    var s := AddEngineSubscriber("marker", One(Join(ns, value)), h)[0].subscriber;
    FirstSegmentOfJoin(ns, value);
    assert EventId(req.body).None?;
    var args := ArgsOf(req, events);
    assert args == CombinedArgs(req, Some(Tracked(q)), Some(ev));
    var rs := Invoke([s], args);
    assert rs == [h(req, Some(Tracked(q)), Some(ev))];
    if rs[0].Some? { KeepNonNoneAllSome(rs); } else { KeepNonNoneAllNone(rs); }
  }
}
