/** Creating and looking up activity events (`repo.py`). The session's
    add/flush is the assignment of a fresh id and the current time, both passed
    in; the parent's `__json__` snapshot is a given function. */
module Repo {
  import opened Wrappers
  import opened Faults
  import opened Text
  import J = Json
  import opened Orm

  // ---- ActivityEventFactory ----

  /** `ActivityEventFactory.factory`: builds the event from `user`, `type_`
      and `data` (the `type_` setter may raise), appends it to the parent's
      events, which attaches it to the parent, and saves it under `newId` at
      time `now`. */
  function Factory(p: Parent, user: Option<Ref>, typ: string, data: map<string, J.Value>, newId: int, now: nat)
    : (r: Result<(Parent, Event), Fault>)
    ensures r.Success? <==> ColonCount(typ) == 1
    ensures r.Failure? ==> r.error == UnpackMismatch
    ensures r.Success? ==> var (q, e) := r.value;
      && q.activityEvents == p.activityEvents + [e]
      && q == p.(activityEvents := q.activityEvents)
      && TypeOf(e) == typ
      && e.data == data && e.user == user
      && ParentOf(e) == Some(RefOf(p))
      && e.id == newId && e.created == now && e.modified == now
  {
    var blank := Event(newId, now, now, "", "", data, Some(Association(Some(RefOf(p)))), user);
    var e :- SetType(blank, typ);
    Success((p.(activityEvents := p.activityEvents + [e]), e))
  }

  /** `action.split(':')[-1].lower()`: the lower-cased last segment of an
      action such as `state:CONFIRMED`. */
  function ActionName(action: string): (r: string)
    ensures ColonFree(r)
    ensures |r| <= |action|
    ensures r == Lower(action[|action| - |r|..])
    ensures |r| < |action| ==> action[|action| - |r| - 1] == Colon
  {
    var seg := LastSegment(action);
    LowerKeepsColonFree(seg);
    Lower(seg)
  }

  /** The last segment of `ns:value` is `value` when `value` holds no colon. */
  lemma {:induction false} LastSegmentOfJoin(ns: string, value: string)
    requires ColonFree(value)
    ensures LastSegment(Join(ns, value)) == value
    decreases |value|
  {
    var s := Join(ns, value);
    if |value| > 0 {
      var v0 := value[..|value| - 1];
      assert s[..|s| - 1] == Join(ns, v0);
      assert value[|value| - 1] in value;
      LastSegmentOfJoin(ns, v0);
      assert value == v0 + [value[|value| - 1]];
    }
  }

  /** The action name of a namespaced value `ns:VALUE` is `value`, lower-cased. */
  lemma ActionNameOfNamespaced(ns: string, value: string)
    requires ColonFree(value)
    ensures ActionName(Join(ns, value)) == Lower(value)
  {
    LastSegmentOfJoin(ns, value);
  }

  /** The action the event type is derived from: the given one, else the value
      of the parent's current status, whose absence raises. */
  function DefaultAction(p: Parent, action: Option<string>): (r: Result<string, Fault>)
    ensures action.Some? ==> r == Success(action.value)
    ensures action.None? && WorkStatus(p).None? ==> r == Failure(NoneAttribute("value"))
    ensures action.None? && WorkStatus(p).Some? ==> r == Success(WorkStatus(p).value.value)
  {
    if action.Some? then Success(action.value)
    else if WorkStatus(p).Some? then Success(WorkStatus(p).value.value)
    else Failure(NoneAttribute("value"))
  }

  /** The `type_` `__call__` stores: the explicit one, or else the parent's
      singular slug joined to the action name of the action (which defaults
      to the current status value). The derived type has exactly one colon
      iff the slug has none. */
  function EventType(p: Parent, typ: Option<string>, action: Option<string>): (r: Result<string, Fault>)
    ensures typ.Some? ==> r == Success(typ.value)
    ensures typ.None? ==> (r.Success? <==> DefaultAction(p, action).Success?)
    ensures typ.None? && r.Success? ==>
      && r.value == Join(p.singularSlug, ActionName(DefaultAction(p, action).value))
      && (ColonCount(r.value) == 1 <==> ColonFree(p.singularSlug))
  {
    if typ.Some? then Success(typ.value)
    else
      var act :- DefaultAction(p, action);
      var name := ActionName(act);
      ColonCountJoin(p.singularSlug, name);
      Success(Join(p.singularSlug, name))
  }

  /** The payload `__call__` saves: the given data (`{}` when absent) with a
      `snapshot` of the parent added, every other key kept. */
  function Payload(p: Parent, data: Option<map<string, J.Value>>, snapshot: Parent -> J.Value)
    : (d: map<string, J.Value>)
    ensures var given := if data.Some? then data.value else map[];
      && d.Keys == given.Keys + {"snapshot"}
      && d["snapshot"] == snapshot(p)
      && (forall k :: k in given && k != "snapshot" ==> d[k] == given[k])
  {
    var given := if data.Some? then data.value else map[];
    given["snapshot" := snapshot(p)]
  }

  /** `ActivityEventFactory.__call__(parent, user, type_, data, action)`:
      composes the type and the payload, then saves the event through the
      factory. An explicit `type_` is stored as given; a derived one is
      `slug:name`. */
  function CreateActivityEvent(
    p: Parent, user: Option<Ref>, typ: Option<string>, data: Option<map<string, J.Value>>,
    action: Option<string>, snapshot: Parent -> J.Value, newId: int, now: nat)
    : (r: Result<(Parent, Event), Fault>)
    ensures typ.Some? ==> (r.Success? <==> ColonCount(typ.value) == 1)
    ensures typ.Some? && r.Success? ==> TypeOf(r.value.1) == typ.value
    ensures typ.None? && action.None? && WorkStatus(p).None? ==> r == Failure(NoneAttribute("value"))
    ensures r.Failure? && (typ.Some? || DefaultAction(p, action).Success?) ==> r.error == UnpackMismatch
    ensures typ.None? && DefaultAction(p, action).Success? ==>
      && (r.Success? <==> ColonFree(p.singularSlug))
      && (r.Success? ==>
            r.value.1.target == p.singularSlug
            && r.value.1.action == ActionName(DefaultAction(p, action).value))
    ensures r.Success? ==> var (q, e) := r.value;
      && e.data == Payload(p, data, snapshot)
      && q.activityEvents == p.activityEvents + [e]
      && ParentOf(e) == Some(RefOf(p))
      && e.user == user
    ensures r.Success? ==> var (q, e) := r.value;
      && q == p.(activityEvents := q.activityEvents)
      && e.id == newId && e.created == now && e.modified == now
  {
    var t :- EventType(p, typ, action);
    var payload := Payload(p, data, snapshot);
    if typ.Some? then Factory(p, user, t, payload, newId, now)
    else
      FactoryOfJoin(p, user, p.singularSlug, ActionName(DefaultAction(p, action).value), payload, newId, now);
      Factory(p, user, t, payload, newId, now)
  }

  /** Saving an event typed `target:name` stores exactly those two tokens. */
  lemma FactoryOfJoin(p: Parent, user: Option<Ref>, target: string, name: string,
                      data: map<string, J.Value>, newId: int, now: nat)
    requires ColonFree(name)
    ensures ColonFree(target) ==>
      var r := Factory(p, user, Join(target, name), data, newId, now);
      r.Success? && r.value.1.target == target && r.value.1.action == name
  {
    if ColonFree(target) {
      var blank := Event(newId, now, now, "", "", data, Some(Association(Some(RefOf(p)))), user);
      SetTypeOfJoin(blank, target, name);
    }
  }

  /** Without `type_`, an action `ns:VALUE` gives the type `slug:value`
      (lower-cased), whatever the parent's history. */
  lemma DerivedTypeOfNamespacedAction(
    p: Parent, user: Option<Ref>, data: Option<map<string, J.Value>>, ns: string, value: string,
    snapshot: Parent -> J.Value, newId: int, now: nat)
    requires ColonFree(p.singularSlug) && ColonFree(value)
    ensures var r := CreateActivityEvent(p, user, None, data, Some(Join(ns, value)), snapshot, newId, now);
      r.Success? && TypeOf(r.value.1) == Join(p.singularSlug, Lower(value))
  {
    ActionNameOfNamespaced(ns, value);
  }

  // ---- LookupActivityEvent ----

  /** `LookupActivityEvent.__call__(id_)`: the event stored under `id`, or
      `None` for an unknown id. */
  function Lookup(events: map<int, Event>, id: int): (r: Option<Event>)
    ensures r.Some? <==> id in events
    ensures r.Some? ==> r.value == events[id]
  {
    if id in events then Some(events[id]) else None
  }

  /** The `image` or `video` sub-dict of a payload, `{}` when absent. */
  function SubDict(d: map<string, J.Value>, key: string): J.Value {
    J.GetOr(d, key, J.EmptyObj)
  }

  /** `LookupActivityEvent.matching_status(quote, user, data)`, given the first
      event the query found (if any). Reading `data['message']` and
      `data['status']` raises when either is missing; otherwise the candidate
      is returned exactly when there is one and its `image` and `video`
      sub-dicts match the given ones under `dictsMatch`. */
  function MatchingStatus(
    data: map<string, J.Value>, candidate: Option<Event>, dictsMatch: (J.Value, J.Value) -> bool)
    : (r: Result<Option<Event>, Fault>)
    ensures "message" !in data ==> r == Failure(MissingKey("message"))
    ensures "message" in data && "status" !in data ==> r == Failure(MissingKey("status"))
    ensures r.Success? <==> "message" in data && "status" in data
    ensures r.Success? && r.value.Some? ==> r.value == candidate
    ensures r.Success? ==>
      (r.value.Some? <==>
         && candidate.Some?
         && dictsMatch(SubDict(data, "image"), SubDict(candidate.value.data, "image"))
         && dictsMatch(SubDict(data, "video"), SubDict(candidate.value.data, "video")))
  {
    if "message" !in data then Failure(MissingKey("message"))
    else if "status" !in data then Failure(MissingKey("status"))
    else if candidate.None? then Success(None)
    else
      var instance := candidate.value;
      if !dictsMatch(SubDict(data, "image"), SubDict(instance.data, "image")) then Success(None)
      else if !dictsMatch(SubDict(data, "video"), SubDict(instance.data, "video")) then Success(None)
      else Success(Some(instance))
  }

  /** What `matching_status` is for: a status update that exactly repeats the
      candidate the query found -- its `image` and `video` sub-dicts equal the
      stored ones, both possibly absent -- is reported as that duplicate,
      whenever `dictsMatch` holds of equal dicts. */
  lemma DuplicateStatusIsFound(
    data: map<string, J.Value>, e: Event, dictsMatch: (J.Value, J.Value) -> bool)
    requires forall x :: dictsMatch(x, x)
    requires "message" in data && "status" in data
    requires SubDict(data, "image") == SubDict(e.data, "image")
    requires SubDict(data, "video") == SubDict(e.data, "video")
    ensures MatchingStatus(data, Some(e), dictsMatch) == Success(Some(e))
  {
    assert dictsMatch(SubDict(data, "image"), SubDict(e.data, "image"));
    assert dictsMatch(SubDict(data, "video"), SubDict(e.data, "video"));
  }
}
