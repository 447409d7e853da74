/** The state-change subscription system (`subscribe.py`): dispatching a
    change notification to every subscription registered for the context,
    subscriptions that fire only on an exact request-parameter value, the
    directive that registers them, and the request's activity event. */
module Subscribe {
  import opened Wrappers
  import opened Text
  import J = Json
  import opened Orm
  import Repo

  /** The resource a request was routed to: either an entity with the status
      capability, or some other resource (which has no `work_status`). */
  datatype Context = Resource(name: string) | Tracked(parent: Parent)

  /** An inbound notification: its JSON body and its routed context. */
  datatype Request = Request(body: map<string, J.Value>, context: Option<Context>)

  /** The single tuple `(request, context, event)` every subscription is called
      with. */
  datatype CombinedArgs = CombinedArgs(request: Request, context: Option<Context>, event: Option<Event>)

  /** A handler function `handler(request, context, event)`; `None` stands for
      Python's `None` result. */
  type Handler = (Request, Option<Context>, Option<Event>) -> Option<J.Value>

  /** A registered subscription: a `ParamAwareSubscriber` wrapping a handler,
      or any other callable taking the combined arguments. */
  datatype Subscriber =
    | ParamAware(param: string, value: string, handler: Handler)
    | Plain(call: CombinedArgs -> Option<J.Value>)

  // ---- operation_config ----

  /** A handler tagged with an operation name: `fn` is the wrapper and `op`
      the `.op` attribute it carries. */
  datatype Operation<!A, R> = Operation(op: A, fn: seq<A> -> R)

  /** `operation_config(op)(wrapped)`: the wrapper calls `wrapped` with the
      arguments it was given followed by `op`, and carries `op`. */
  function OperationConfig<A(!new), R>(op: A, wrapped: seq<A> -> R): (w: Operation<A, R>)
    ensures w.op == op
    ensures forall args :: w.fn(args) == wrapped(args + [op])
  {
    Operation(op, (args: seq<A>) => wrapped(args + [op]))
  }

  /** Stacking two decorators: the outer operation's wrapper carries the
      outer `op`, and the handler finally receives the arguments followed by
      the outer `op` and then the inner one. */
  lemma StackedOperations<A(!new), R>(outer: A, inner: A, handler: seq<A> -> R, args: seq<A>)
    ensures var w := OperationConfig(outer, OperationConfig(inner, handler).fn);
      && w.op == outer
      && w.fn(args) == handler(args + [outer, inner])
  {
    assert args + [outer] + [inner] == args + [outer, inner];
  }

  // ---- ParamAwareSubscriber ----

  /** The body holds `param` with exactly the string `value`. */
  predicate BodyHas(body: map<string, J.Value>, param: string, value: string) {
    param in body && body[param] == J.Str(value)
  }

  /** Calling a subscription with the combined arguments. A param-aware one
      returns `None` without calling its handler unless the request body's
      `param` field equals its `value`, and then returns what the handler
      returns for `(request, context, event)`. */
  function Call(s: Subscriber, args: CombinedArgs): (r: Option<J.Value>)
    ensures s.ParamAware? && (s.param !in args.request.body || args.request.body[s.param] != J.Str(s.value))
      ==> r.None?
    ensures s.ParamAware? && BodyHas(args.request.body, s.param, s.value)
      ==> r == s.handler(args.request, args.context, args.event)
    ensures s.Plain? ==> r == s.call(args)
  {
    match s
    case ParamAware(param, value, handler) =>
      var paramValue := J.GetOr(args.request.body, param, J.Null);
      if paramValue != J.Str(value) then None
      else handler(args.request, args.context, args.event)
    case Plain(call) => call(args)
  }

  // ---- StateChangeHandler ----

  /** The `results` list: every subscription called once, in enumeration
      order, with the same combined arguments. */
  function Invoke(subs: seq<Subscriber>, args: CombinedArgs): (rs: seq<Option<J.Value>>)
    ensures |rs| == |subs|
    ensures forall i :: 0 <= i < |subs| ==> rs[i] == Call(subs[i], args)
  {
    seq(|subs|, i requires 0 <= i < |subs| => Call(subs[i], args))
  }

  /** `[item for item in results if item is not None]`. */
  function KeepNonNone(xs: seq<Option<J.Value>>): (r: seq<J.Value>)
    ensures |r| <= |xs|
    ensures forall v :: v in r <==> Some(v) in xs
  {
    if |xs| == 0 then []
    else
      var init := xs[..|xs| - 1];
      var last := xs[|xs| - 1];
      assert xs == init + [last];
      var kept := KeepNonNone(init);
      if last.None? then kept else kept + [last.value]
  }

  /** Filtering distributes over concatenation, so the kept results stay in
      the order their subscriptions were called. */
  lemma {:induction false} KeepNonNoneAppend(a: seq<Option<J.Value>>, b: seq<Option<J.Value>>)
    ensures KeepNonNone(a + b) == KeepNonNone(a) + KeepNonNone(b)
    decreases |b|
  {
    if |b| > 0 {
      var b0 := b[..|b| - 1];
      assert (a + b)[..|a + b| - 1] == a + b0;
      assert b[..|b| - 1] == b0;
      KeepNonNoneAppend(a, b0);
    } else {
      assert a + b == a;
    }
  }

  /** Only `None` is dropped: a list with no `None` keeps every value, in
      order, even the empty ones. */
  lemma {:induction false} KeepNonNoneAllSome(xs: seq<Option<J.Value>>)
    requires forall i :: 0 <= i < |xs| ==> xs[i].Some?
    ensures |KeepNonNone(xs)| == |xs|
    ensures forall i :: 0 <= i < |xs| ==> KeepNonNone(xs)[i] == xs[i].value
  {
    if |xs| > 0 {
      var init := xs[..|xs| - 1];
      KeepNonNoneAllSome(init);
      assert KeepNonNone(xs) == KeepNonNone(init) + [xs[|xs| - 1].value];
      forall i | 0 <= i < |xs| ensures KeepNonNone(xs)[i] == xs[i].value {
        if i < |init| {
          assert xs[i] == init[i];
        }
      }
    }
  }

  /** A list of `None`s contributes nothing. */
  lemma {:induction false} KeepNonNoneAllNone(xs: seq<Option<J.Value>>)
    requires forall i :: 0 <= i < |xs| ==> xs[i].None?
    ensures KeepNonNone(xs) == []
  {
    if |xs| > 0 {
      KeepNonNoneAllNone(xs[..|xs| - 1]);
    }
  }

  /** The handler results of a dispatch to `subs` with `args`. */
  function HandlerResults(subs: seq<Subscriber>, args: CombinedArgs): (hs: seq<J.Value>)
    ensures |hs| <= |subs|
    ensures forall v :: v in hs <==> exists i :: 0 <= i < |subs| && Call(subs[i], args) == Some(v)
  {
    var rs := Invoke(subs, args);
    assert forall v :: Some(v) in rs <==> exists i :: 0 <= i < |subs| && Call(subs[i], args) == Some(v) by {
      forall v ensures Some(v) in rs <==> exists i :: 0 <= i < |subs| && Call(subs[i], args) == Some(v) {
        if Some(v) in rs {
          var i :| 0 <= i < |rs| && rs[i] == Some(v);
          assert Call(subs[i], args) == Some(v);
        }
      }
    }
    KeepNonNone(rs)
  }

  /** Dispatching to two groups of subscriptions gives the first group's
      results followed by the second's: no subscription is skipped. */
  lemma HandlerResultsAppend(a: seq<Subscriber>, b: seq<Subscriber>, args: CombinedArgs)
    ensures HandlerResults(a + b, args) == HandlerResults(a, args) + HandlerResults(b, args)
  {
    var ra, rb := Invoke(a, args), Invoke(b, args);
    assert Invoke(a + b, args) == ra + rb by {
      forall i | 0 <= i < |a + b| ensures Invoke(a + b, args)[i] == (ra + rb)[i] {
        if i < |a| {
          assert (a + b)[i] == a[i];
        } else {
          assert (a + b)[i] == b[i - |a|];
        }
      }
    }
    KeepNonNoneAppend(ra, rb);
  }

  /** One subscription contributes its result when it returns one and nothing
      when it returns `None`; with `HandlerResultsAppend` this fixes the whole
      list, in subscription order and with every repeat kept. */
  lemma HandlerResultsSingle(s: Subscriber, args: CombinedArgs)
    ensures Call(s, args).None? ==> HandlerResults([s], args) == []
    ensures Call(s, args).Some? ==> HandlerResults([s], args) == [Call(s, args).value]
  {
    assert Invoke([s], args) == [] + [Call(s, args)];
  }

  /** The combined arguments of a request: its context and its activity
      event. */
  function ArgsOf(req: Request, events: map<int, Event>): (args: CombinedArgs)
    ensures args.request == req && args.context == req.context
    ensures args.event == ActivityEvent(req, events)
  {
    CombinedArgs(req, req.context, ActivityEvent(req, events))
  }

  /** `StateChangeHandler.__call__(request)`, the subscriptions for the
      context being `subs` in enumeration order: `{'handlers': rs}` where `rs`
      holds the non-`None` results of calling each subscription once. */
  function Dispatch(req: Request, subs: seq<Subscriber>, events: map<int, Event>): (r: map<string, J.Value>)
    ensures r.Keys == {"handlers"} && r["handlers"].Arr?
    ensures |r["handlers"].items| <= |subs|
    ensures forall v :: v in r["handlers"].items <==>
      exists i :: 0 <= i < |subs| && Call(subs[i], ArgsOf(req, events)) == Some(v)
    ensures r["handlers"].items == HandlerResults(subs, ArgsOf(req, events))
  {
    map["handlers" := J.Arr(HandlerResults(subs, ArgsOf(req, events)))]
  }

  // ---- AddEngineSubscriber ----

  /** The `namespaced_events` argument: a single name or a list of them. */
  datatype NamespacedEvents = One(name: string) | Many(names: seq<string>)

  function Names(ev: NamespacedEvents): (ns: seq<string>)
    ensures ev.One? ==> ns == [ev.name]
    ensures ev.Many? ==> ns == ev.names
  {
    match ev
    case One(n) => [n]
    case Many(ns) => ns
  }

  /** A subscriber registered against an interface marker. */
  datatype Registration = Registration(marker: string, subscriber: Subscriber)

  /** `AddEngineSubscriber.__call__(config, context, namespaced_events,
      handler)`: one param-aware subscriber per name, in order, keyed by the
      text before the first `:` and matching the whole name. */
  function AddEngineSubscriber(marker: string, ev: NamespacedEvents, handler: Handler): (rs: seq<Registration>)
    ensures |rs| == |Names(ev)|
    ensures forall i :: 0 <= i < |rs| ==>
      && rs[i].marker == marker
      && rs[i].subscriber.ParamAware?
      && rs[i].subscriber.value == Names(ev)[i]
      && rs[i].subscriber.handler == handler
      && rs[i].subscriber.param <= Names(ev)[i]
      && ColonFree(rs[i].subscriber.param)
      && (|rs[i].subscriber.param| < |Names(ev)[i]| ==> Names(ev)[i][|rs[i].subscriber.param|] == Colon)
  {
    var ns := Names(ev);
    seq(|ns|, i requires 0 <= i < |ns| => Registration(marker, ParamAware(FirstSegment(ns[i]), ns[i], handler)))
  }

  /** A single name registers exactly as the one-element list of it. */
  lemma SingleNameIsOneElementList(marker: string, name: string, handler: Handler)
    ensures AddEngineSubscriber(marker, One(name), handler) == AddEngineSubscriber(marker, Many([name]), handler)
  {
  }

  /** A subscriber registered for `ns:VALUE` fires exactly when the body's
      `ns` field holds `ns:VALUE`, and then returns its handler's result. */
  lemma RegisteredFiresOnItsName(marker: string, ns: string, value: string, handler: Handler, args: CombinedArgs)
    requires ColonFree(ns)
    ensures var s := AddEngineSubscriber(marker, One(Join(ns, value)), handler)[0].subscriber;
      && s.param == ns
      && (BodyHas(args.request.body, ns, Join(ns, value)) ==> Call(s, args) == handler(args.request, args.context, args.event))
      && (!BodyHas(args.request.body, ns, Join(ns, value)) ==> Call(s, args) == None)
  {
    FirstSegmentOfJoin(ns, value);
  }

  // ---- GetActivityEvent ----

  /** `int(request.json.get('event_id'))`, `None` when it raises: integers
      convert as they are, booleans to 0 or 1, strings by decimal parsing; a
      missing field, `null`, lists and objects do not convert. */
  function EventId(body: map<string, J.Value>): (r: Option<int>)
    ensures "event_id" !in body ==> r.None?
    ensures "event_id" in body && body["event_id"].Int? ==> r == Some(body["event_id"].i)
    ensures "event_id" in body && body["event_id"].Str? ==> r == ParseInt(body["event_id"].s)
    ensures "event_id" in body && body["event_id"].Bool? ==> r == Some(if body["event_id"].b then 1 else 0)
    ensures "event_id" in body && (body["event_id"].Null? || body["event_id"].Arr? || body["event_id"].Obj?)
      ==> r.None?
  {
    match J.GetOr(body, "event_id", J.Null)
    case Int(i) => Some(i)
    case Bool(b) => Some(if b then 1 else 0)
    case Str(s) => ParseInt(s)
    case _ => None
  }

  /** The event that caused the context's current status, if the context has
      a status history with a current row. */
  function CurrentStatusEvent(context: Option<Context>): (r: Option<Event>)
    ensures context.None? || context.value.Resource? ==> r.None?
    ensures context.Some? && context.value.Tracked? && WorkStatus(context.value.parent).Some?
      ==> r == WorkStatus(context.value.parent).value.event
    ensures context.Some? && context.value.Tracked? && |context.value.parent.workStatuses| == 0 ==> r.None?
  {
    match context
    case None => None
    case Some(Resource(_)) => None
    case Some(Tracked(p)) =>
      var status := WorkStatus(p);
      if status.Some? then status.value.event else None
  }

  /** `GetActivityEvent.__call__(request)` over the stored events: the event
      named by `event_id` when it converts to an int and is stored, otherwise
      the event behind the context's current status. */
  function ActivityEvent(req: Request, events: map<int, Event>): (r: Option<Event>)
    ensures EventId(req.body).Some? && EventId(req.body).value in events
      ==> r == Some(events[EventId(req.body).value])
    ensures EventId(req.body).None? ==> r == CurrentStatusEvent(req.context)
    ensures EventId(req.body).Some? && EventId(req.body).value !in events
      ==> r == CurrentStatusEvent(req.context)
  {
    var id := EventId(req.body);
    var found := if id.Some? then Repo.Lookup(events, id.value) else None;
    if found.Some? then found
    else CurrentStatusEvent(req.context)
  }

  /** Without a usable `event_id` the request's event is the one that caused
      the current status; with no status either, there is none. */
  lemma ActivityEventFallback(req: Request, events: map<int, Event>)
    requires EventId(req.body).None? || EventId(req.body).value !in events
    ensures req.context.Some? && req.context.value.Tracked? && WorkStatus(req.context.value.parent).Some?
      ==> ActivityEvent(req, events) == WorkStatus(req.context.value.parent).value.event
    ensures req.context.None? || req.context.value.Resource? ==> ActivityEvent(req, events).None?
  {
  }

  /** A numeric string `event_id` names the event stored under that number. */
  lemma ActivityEventByStringId(req: Request, events: map<int, Event>, id: int)
    requires "event_id" in req.body && req.body["event_id"] == J.Str(Render(id))
    requires id in events
    ensures ActivityEvent(req, events) == Some(events[id])
  {
    ParseRender(id);
  }
}
