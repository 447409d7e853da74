# pyramid_torque_engine core, modelled in Dafny

This project models the sequential core of `pyramid_torque_engine`. It has three parts:

- **Ledgers (`orm.py`).** An `ActivityEvent` has a compound `type_` written `target:action` and a JSON projection. A parent's work-status history is append-only. `set_work_status` appends to it, and `get_work_status` / `work_status` read its latest row.
- **Subscription dispatch (`subscribe.py`).** `StateChangeHandler` calls every subscription registered for the context. A `ParamAwareSubscriber` fires only when one request-body field equals its namespaced value, for example `state:DECLINED`. `AddEngineSubscriber` registers such subscribers. `GetActivityEvent` resolves a request's activity event. `operation_config` tags a handler with an operation name.
- **Event creation and lookup (`repo.py`).** `ActivityEventFactory` composes and saves an event. `LookupActivityEvent` finds an event by id or looks for a duplicate status update.

Everything is pure functions over immutable datatypes:

- A parent is a record that holds its event list and its status list, in insertion order.
- The database's events table is a partial map from id to event.
- Python exceptions are `Failure` values of a `Result`, and `None` is `Option.None`.
- The clock is a natural number passed in as `now`. The id the store assigns on flush is passed in as `newId`.
- The subscriptions that `providedBy` and the adapter registry yield for a context are a given ordered sequence.

Files:

- `wrappers.dfy`: `Option`, `Result`, and the `Fault` values standing for the exceptions the code can raise.
- `json.dfy`: JSON values, and Python dict-display semantics (`DictLiteral`).
- `text.dfy`: `split(':')` in its three uses, ASCII `lower()`, and `int()` on a string.
- `orm.dfy`: module `Orm`.
- `subscribe.dfy`: module `Subscribe`.
- `repo.dfy`: module `Repo`.
- `scenarios.dfy`: worked examples, each proved as a lemma.

Points where the code's behaviour is easy to misread, and what the model does:

- **Setting `type_`.** The setter unpacks `value.split(':')` into two names, so a value without exactly one colon raises. It does not split on the first colon only. `Orm.SetType` fails in that case, and `Orm.SetTypeRejectsExtraColon` shows it for `a:b:c`.
- **Current-status ties.** The query orders by `created` only, so which of several rows with equal `created` times comes first is unspecified. `Orm.GetWorkStatus` therefore promises *some* matching row with the greatest `created`. Its definition happens to pick the row appended last.
- **Dropped handler results.** Only `None` is dropped. Empty results such as `[]` and `{}` are kept (`Scenarios.DispatchAggregation`).
- **Python version.** The code is Python 2. A single event-name string has no `__iter__` there, so `AddEngineSubscriber` wraps it in a one-element tuple, and the model does the same.

## Model

| member | source | states |
|---|---|---|
| Json.DictLiteral | src/pyramid_torque_engine/orm.py:100-107 | a dict display has exactly the keys written; for each key, the value is the one from the last entry written with that key |
| Json.GetOr | src/pyramid_torque_engine/repo.py:106-107 | `d.get(key, default)`: the stored value when `key` is present, `default` otherwise |
| Text.FirstSegment | src/pyramid_torque_engine/subscribe.py:117 | `split(':')[0]` is a colon-free prefix of the name, and it is followed by `:` unless it is the whole name |
| Text.LastSegment | src/pyramid_torque_engine/repo.py:59 | `split(':')[-1]` is a colon-free suffix of the action, and it is preceded by `:` unless it is the whole action |
| Text.Join | src/pyramid_torque_engine/orm.py:91 | `u'{0}:{1}'.format(target, action)`: the target, one colon, then the action, at those positions |
| Text.SplitPair | src/pyramid_torque_engine/orm.py:95 | the two-name unpack of `split(':')` succeeds exactly when the value holds one colon; the two parts are colon-free and rejoin to the value |
| Text.ColonCountJoin | src/pyramid_torque_engine/orm.py:91 | the getter's `target:action` holds the colons of both tokens plus exactly one separator |
| Text.FirstSegmentOfJoin | src/pyramid_torque_engine/subscribe.py:117 | `split(':')[0]` of `ns:rest`, with ns colon-free, is ns |
| Text.SplitJoin | src/pyramid_torque_engine/orm.py:89-95 | joining two colon-free tokens and splitting the result gives back the same tokens |
| Text.Lower | src/pyramid_torque_engine/repo.py:59 | `lower()` keeps the length and turns each upper-case ASCII letter into its lower-case form, keeping every other character |
| Text.Strip | src/pyramid_torque_engine/subscribe.py:134 | the text `int()` reads is the middle of the string: it neither starts nor ends with white space, and only white space surrounds it |
| Text.StripSurrounded | src/pyramid_torque_engine/subscribe.py:134 | one white-space character on each side of a string whose ends are not white space is stripped away, giving the string back |
| Text.ParseNumeral | src/pyramid_torque_engine/subscribe.py:134 | a stripped string converts iff it is one or more decimal digits, optionally after one sign; the value is the digits' decimal value, negated after `-` |
| Text.ParseInt | src/pyramid_torque_engine/subscribe.py:132-136 | `int()` of a string succeeds iff the string, stripped, is such a numeral (anything else raises and becomes None), and then returns the numeral's value, negated after `-` |
| Text.LeadingZero | src/pyramid_torque_engine/subscribe.py:134 | a leading `0` does not change the value of a string of digits |
| Text.ParsePlusAndZeros | src/pyramid_torque_engine/subscribe.py:134 | `int()` reads `+ds` and `0ds` as it reads `ds`, and `-0ds` as it reads `-ds`: a `+` sign or a leading zero, after an optional minus, does not change the number |
| Text.ParseNumeralRender | src/pyramid_torque_engine/subscribe.py:134 | the decimal form of every integer, sign included, converts back to that integer |
| Text.ParsePadded | src/pyramid_torque_engine/subscribe.py:134 | a white-space character on each side of a number's decimal form does not change what `int()` reads |
| Text.LowerKeepsColonFree | src/pyramid_torque_engine/repo.py:59-60 | lower-casing a colon-free action name keeps it colon-free, so the derived `slug:name` has one colon |
| Text.ParseRender | src/pyramid_torque_engine/subscribe.py:134 | `int(str(n)) == n` for every integer n |
| Orm.TypeOf | src/pyramid_torque_engine/orm.py:89-91 | the `type_` getter is `target`, then one `:`, then `action` |
| Orm.SetType | src/pyramid_torque_engine/orm.py:93-95 | the setter succeeds exactly when the value holds one colon; reading `type_` back then returns the value, and only `target` and `action` change |
| Orm.SetTypeOfJoin | src/pyramid_torque_engine/orm.py:93-95 | setting `type_` to `t:a`, with t and a colon-free, stores exactly t and a |
| Orm.SetTypeOfOwnType | src/pyramid_torque_engine/orm.py:89-95 | for an event whose `target` and `action` hold no colon, writing back the `type_` it already has leaves the event unchanged |
| Orm.SetTypeRejectsExtraColon | src/pyramid_torque_engine/orm.py:95 | a value of the form `a:b:c` always fails the two-name unpack |
| Orm.EventBase | src/pyramid_torque_engine/orm.py:100-107 | the projection's `type` entry is the compound `type_`, because the later of the two `type` entries wins over the class slug; `id`, `data` and both timestamps are present |
| Orm.ParentOf | src/pyramid_torque_engine/orm.py:71-73 | the `parent` property without its exception: the association's parent, and None where `self.assocation` is None and the property would raise (that raising form is `Orm.EventJsonAsWritten`) |
| Orm.EventJson | src/pyramid_torque_engine/orm.py:97-118 | corrected projection: `type` is the compound type, `id`, `data`, `created_at` and `modified_at` hold the event's id, payload and rendered timestamps; `parent` is present iff the event reaches a parent, and then holds that parent's slug and id; `user` is present iff the event has a user; no other key |
| Orm.EventJsonAsWritten | src/pyramid_torque_engine/orm.py:71-73 | as written, the projection raises exactly when the event has no association, because `self.parent` dereferences it, and the error is the missing `parent` attribute |
| Orm.AsWrittenAgreesWhenAssociated | src/pyramid_torque_engine/orm.py:97-118 | for an event with an association, the projection as written equals the corrected one |
| Orm.StatusJson | src/pyramid_torque_engine/orm.py:170-176 | a status row projects to exactly `type`, `id` and `value` |
| Orm.NewStatus | src/pyramid_torque_engine/orm.py:136-140 | a status row created without a value stores `state:CREATED` |
| Orm.SetWorkStatus | src/pyramid_torque_engine/orm.py:249-267 | appends exactly one row at the end, carrying the value (or the default) and the event; keeps the earlier rows as they are (see "## Left out" for the one-to-one event link); sets `modified` to now; returns the new row; changes nothing else |
| Orm.Latest | src/pyramid_torque_engine/orm.py:272-277 | the ordered query is None iff no row passes the filter; otherwise it is a passing row whose `created` is greatest among passing rows |
| Orm.GetWorkStatus | src/pyramid_torque_engine/orm.py:269-277 | returns a latest row of the parent's history among rows equal to the filter (or all rows), or None iff there is none; a filtered result has the filtered value |
| Orm.WorkStatus | src/pyramid_torque_engine/orm.py:279-281 | `work_status` is None iff the history is empty, and otherwise a row with the greatest `created` |
| Orm.SetThenGet | src/pyramid_torque_engine/orm.py:249-281 | a row appended later than all earlier rows becomes the current status, and the latest row with its own value |
| Orm.SetLeavesOtherValues | src/pyramid_torque_engine/orm.py:269-277 | appending a row does not change the latest row for any other value |
| Orm.SetKeepsMatchFound | src/pyramid_torque_engine/orm.py:249-277 | a filter that found a row before an append still finds one after it |
| Orm.AppendStatuses | src/pyramid_torque_engine/orm.py:249-257 | n successive appends grow the history by exactly n rows and keep the earlier rows as a prefix |
| Orm.SetKeepsCreatedBefore | src/pyramid_torque_engine/orm.py:249-260 | a row appended at time now leaves every row of the history created no later than now |
| Orm.NewestIsCurrent | src/pyramid_torque_engine/orm.py:276-281 | a history whose last row was created after every other row has that row as its `work_status` |
| Orm.AppendStatusesRows | src/pyramid_torque_engine/orm.py:249-267 | after n appends at increasing times the last row is the row of the last append, and every earlier row was created before it |
| Orm.AppendStatusesLatest | src/pyramid_torque_engine/orm.py:249-281 | after n appends at increasing times, the current status is the row of the last append |
| Subscribe.OperationConfig | src/pyramid_torque_engine/subscribe.py:39-47 | the wrapper carries `.op == op` and calls the wrapped function with its own arguments followed by `op` |
| Subscribe.StackedOperations | src/pyramid_torque_engine/subscribe.py:39-47 | two stacked `operation_config` decorators: the result carries the outer `op`, and the handler receives the arguments, then the outer `op`, then the inner one |
| Subscribe.Call | src/pyramid_torque_engine/subscribe.py:84-99 | a param-aware subscriber returns None without calling its handler when the body lacks the param or holds a different value; on an exact match it returns `handler(request, context, event)` |
| Subscribe.Invoke | src/pyramid_torque_engine/subscribe.py:66-71 | every subscription is called exactly once, in enumeration order, with the same combined `(request, context, event)` |
| Subscribe.KeepNonNone | src/pyramid_torque_engine/subscribe.py:72 | the filter never lengthens the list, and a value is kept iff some entry is that non-None value |
| Subscribe.KeepNonNoneAppend | src/pyramid_torque_engine/subscribe.py:72 | filtering distributes over concatenation, so the kept results stay in call order |
| Subscribe.KeepNonNoneAllSome | src/pyramid_torque_engine/subscribe.py:72 | with no None present, every result is kept in place, empty ones included |
| Subscribe.KeepNonNoneAllNone | src/pyramid_torque_engine/subscribe.py:72 | a list of Nones yields no handler results |
| Subscribe.HandlerResults | src/pyramid_torque_engine/subscribe.py:66-72 | a value is in the results iff some subscription returned it; there are at most as many results as subscriptions |
| Subscribe.HandlerResultsAppend | src/pyramid_torque_engine/subscribe.py:67-71 | dispatching to two groups gives the first group's results, then the second's; no subscription is skipped |
| Subscribe.HandlerResultsSingle | src/pyramid_torque_engine/subscribe.py:67-71 | one subscription contributes its result, or nothing when it returns `None`; with the append lemma this fixes the list's order and multiplicity |
| Subscribe.ArgsOf | src/pyramid_torque_engine/subscribe.py:59-60 | subscriptions get the request, its context, and the request's activity event |
| Subscribe.Dispatch | src/pyramid_torque_engine/subscribe.py:55-72 | the answer is exactly `{'handlers': [...]}`; the list is the handler results in subscription order with exactly the `None`s removed (order and repeats fixed by `HandlerResultsAppend` and `HandlerResultsSingle`), and its items are the values some subscription returned |
| Subscribe.Names | src/pyramid_torque_engine/subscribe.py:110-112 | a single event name is treated as the one-element list of it |
| Subscribe.AddEngineSubscriber | src/pyramid_torque_engine/subscribe.py:107-120 | one registration per name, in order, under the given marker; each holds the handler, the full name as value, and the text before the first `:` as param |
| Subscribe.SingleNameIsOneElementList | src/pyramid_torque_engine/subscribe.py:110-115 | registering one name is the same as registering the list holding just it |
| Subscribe.RegisteredFiresOnItsName | src/pyramid_torque_engine/subscribe.py:94-99 | a subscriber registered for `ns:value` has param `ns`; it returns its handler's result iff the body's `ns` field is exactly `ns:value`, and None otherwise |
| Subscribe.EventId | src/pyramid_torque_engine/subscribe.py:132-136 | a missing `event_id`, `null`, a list or an object does not convert (the `TypeError` is caught); an integer converts to itself, a boolean to 1 or 0, and a string as `int()` parses it |
| Subscribe.CurrentStatusEvent | src/pyramid_torque_engine/subscribe.py:141-145 | with no context, a context without status history, or an empty history, the fallback is None; otherwise it is the event behind the current status |
| Subscribe.ActivityEvent | src/pyramid_torque_engine/subscribe.py:131-145 | an `event_id` that converts and is stored wins; an unparseable, missing or unknown id falls back to the current status's event |
| Subscribe.ActivityEventFallback | src/pyramid_torque_engine/subscribe.py:141-145 | without a usable id, the event is the current status's event for a tracked context, and None for no context or a plain resource |
| Subscribe.ActivityEventByStringId | src/pyramid_torque_engine/subscribe.py:132-140 | an `event_id` sent as the decimal string of a stored id resolves to that event |
| Repo.Factory | src/pyramid_torque_engine/repo.py:33-40 | saving fails exactly when `type_` is not one-colon, and then with the setter's unpack error; otherwise the event is appended to the parent's events, attached to the parent, typed as given, and holds the given data and user, with the new id and `now` as both timestamps |
| Repo.ActionName | src/pyramid_torque_engine/repo.py:59 | the derived action name is the lower-cased text after the action's last colon (the whole action when it has none): a colon-free suffix, preceded by a colon unless it is the whole action |
| Repo.LastSegmentOfJoin | src/pyramid_torque_engine/repo.py:59 | the last `:`-segment of `ns:value`, with value colon-free, is value |
| Repo.ActionNameOfNamespaced | src/pyramid_torque_engine/repo.py:59 | the action name of `ns:VALUE` is VALUE lower-cased |
| Repo.DefaultAction | src/pyramid_torque_engine/repo.py:57-58 | a given action is used as is; otherwise the current status value is used, and its absence raises |
| Repo.EventType | src/pyramid_torque_engine/repo.py:55-60 | an explicit `type_` is used as given; otherwise the type is `slug:` plus the action name of the action (or of the status value), and it fails only when neither is there; the derived type has one colon iff the slug has none |
| Repo.Payload | src/pyramid_torque_engine/repo.py:53-63 | the saved data is the given dict (`{}` when absent) plus a `snapshot` of the parent; every other key keeps its value |
| Repo.CreateActivityEvent | src/pyramid_torque_engine/repo.py:49-71 | an explicit `type_` is stored when it has one colon, and raises otherwise; without one, the event's target is the slug and its action the lower-cased last segment of the action (or of the status value), failing only on a slug with a colon or when there is no action at all; the event carries that payload and is appended to the parent; nothing else about the parent changes, and the event gets the new id and `now` as both timestamps |
| Repo.FactoryOfJoin | src/pyramid_torque_engine/repo.py:60-71 | an event saved with type `t:n`, with t and n colon-free, stores target t and action n |
| Repo.DerivedTypeOfNamespacedAction | src/pyramid_torque_engine/repo.py:55-60 | without `type_`, an action `ns:VALUE` yields type `slug:value` whatever the history |
| Repo.Lookup | src/pyramid_torque_engine/repo.py:80-83 | finds an event iff its id is stored, and then it is that event |
| Repo.MatchingStatus | src/pyramid_torque_engine/repo.py:85-116 | raises iff `message` or `status` is missing; otherwise returns the candidate iff there is one and its `image` and `video` sub-dicts (default `{}`) match, and None in every other case |
| Repo.DuplicateStatusIsFound | src/pyramid_torque_engine/repo.py:85-116 | an exact duplicate of the found candidate (same `image` and `video`, both possibly absent) is reported as that candidate whenever `dicts_match` holds of equal dicts |
| Scenarios.TypeSetterStoresTokens | src/pyramid_torque_engine/orm.py:93-95 | `type_ = 'message:created'` stores target `message` and action `created` |
| Scenarios.UnattachedEventJson | src/pyramid_torque_engine/orm.py:108 | an event with no association makes the as-written projection raise |
| Scenarios.UnattachedEventJsonCorrected | src/pyramid_torque_engine/orm.py:108 | the corrected projection of that event omits `parent` and keeps its `type` |
| Scenarios.FilteredRetrievalFindsLastMatch | src/pyramid_torque_engine/orm.py:249-277 | after setting statuses c, a, c (say CREATED, ACTIVE, CREATED), filtering on c finds the third row, not the first, and the third row is also the current status |
| Scenarios.DispatchFiltering | src/pyramid_torque_engine/subscribe.py:94-99 | a subscriber on `state:DECLINED` ignores `{"state": "state:ACTIVE"}` and returns its handler's result on `{"state": "state:DECLINED"}` |
| Scenarios.DispatchAggregation | src/pyramid_torque_engine/subscribe.py:72 | results `None` and `{"ok": true}` dispatch to `[{"ok": true}]`; an empty list result is kept |
| Scenarios.ActivityEventResolution | src/pyramid_torque_engine/subscribe.py:131-145 | with no `event_id`, the current status's event is returned; an id of `abc` with no status gives None |
| Scenarios.DerivedEventType | src/pyramid_torque_engine/repo.py:55-60 | action `state:CONFIRMED` on a job gives type `job:` plus lower-case `CONFIRMED` |
| Scenarios.LowerConfirmed | src/pyramid_torque_engine/repo.py:59 | `CONFIRMED` lower-cases to `confirmed` |
| Scenarios.RecordEvent | src/pyramid_torque_engine/repo.py:49-71 | recording an event with an explicit `target:action` type succeeds, stores that type and leaves the status history alone |
| Scenarios.RecordThenSetStatus | src/pyramid_torque_engine/repo.py:49-71 | a recorded event, set as the cause of the next status, becomes the event behind the parent's current status |
| Scenarios.NotifyReachesSubscriber | src/pyramid_torque_engine/subscribe.py:55-99 | notifying with `{ns: "ns:value"}` calls the subscriber on `ns:value` with the parent and its current status's event, and the dispatch answer is that result alone |

## Left out

- SQLAlchemy mapping machinery is not modelled: `declared_attr`, per-parent association subclasses built with `type(...)`, polymorphic discriminators, and `association_proxy` (orm.py lines 188-247). A parent holds its events and statuses directly, and an event's association is reduced to the parent it points at.
- The startup patch of `ActivityEvent.user` / `user_id` and the `before_configured` check (orm.py lines 283-315) are configuration hooks. The projection's `user` entry uses the user reference's own id in place of `self.user_id`, which the foreign key makes equal.
- `DEFAULT_STATE` is taken as `state:CREATED`. Overriding it through the `ENGINE_DEFAULT_STATE` environment variable is I/O.
- The model relies on SQLAlchemy filling the column default when a status is created with value `None`. This is SQLAlchemy behaviour, not code in the repository.
- Sessions, `add` / `flush` and SQL building are not modelled. A flush is the assignment of `newId` and `now`.
- Orm.SetWorkStatus: uses one clock reading for the row's `created` and the parent's `modified`, which the code reads separately.
- Orm.SetWorkStatus: does not model the one-to-one link between an event and its status row (`WorkStatus.event` with the `uselist=False` backref `work_status`, orm.py:158-168). Giving a new status an event that already caused an earlier status moves the backref to the new row, and SQLAlchemy then detaches the earlier row (its `event` becomes None and `event_id` NULL at the flush). The model keeps the earlier row's event. The scenarios give a status either no event or one just created, which no earlier row can name.
- Orm.SetWorkStatus: does not model the `Unicode(64)` width of `WorkStatus.value` (orm.py:136-140). A value longer than 64 characters fails at the flush in `set_work_status` (orm.py:263-264), but the model accepts a value of any length.
- `get_work_status` is modelled over the parent's own rows. The code filters on `association_id`, and on a parent that never had an association that filter compares with NULL. That case is not modelled.
- Repo.MatchingStatus: the query that yields the candidate is a given input. The model does not filter by user, association and `data->>'status'`. It also ignores that the query's `filter_by(message=...)` names a column the default `ActivityEvent` model does not declare.
- `render.json_dumps` (the snapshot) is a parameter, because its source is not part of this model. So are `util.dicts_are_the_same` (the `dictsMatch` predicate) and `datetime.isoformat` (the `iso` function).
- `zope.interface.providedBy` and the adapter registry are abstracted: the subscriptions for a context are a given ordered sequence. The route, view, directive and request-method wiring in `IncludeMe` is framework plumbing.
- Exceptions raised by handlers propagate in the code. Handlers here are total functions, so there is no failure to propagate.
- `request.json` is a JSON object. A body that is not JSON, or not an object, is not modelled.
- Text.ParseInt: accepts only ASCII white space and ASCII digits. Python 2 also accepts Unicode digits, Unicode white space around the number (`int(u'\xa05') == 5`; also U+2003 and the separators U+001C-U+001F), and white space between the sign and the digits.
- JSON floating-point numbers are not modelled, so `int()` truncating a float `event_id` is left out.
- Text.Lower: lower-cases ASCII letters only; Unicode case mapping is out of scope.
- `ActivityEventFactory.__call__` adds the snapshot to the caller's own `data` dict. The model builds a new map, so the aliasing is not modelled.
- `constants.py` holds string constants only.

## Findings

| source | as written | input that shows it | evidently intended | confidence | as-written member | corrected member |
|---|---|---|---|---|---|---|
| src/pyramid_torque_engine/orm.py:71-73 | `__json__` tests `if self.parent:`, but the `parent` property returns `self.assocation.parent`, which raises `AttributeError` when the event has no association | an `ActivityEvent` saved without a parent (`association_id` NULL), e.g. `Scenarios.Unattached` | leave the `parent` entry out, since the event has no parent | medium; not executed | Orm.EventJsonAsWritten, Scenarios.UnattachedEventJson | Orm.EventJson |
