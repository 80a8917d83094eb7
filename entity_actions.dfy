/** The action creators of ctr_web/src/redux/Actions/EntityActions.js. Each thunk dispatches
    its REQUEST action, calls the entity store, dispatches SUCCESS with the store's answer, and
    dispatches FAILURE with `error.message` if anything in the `try` block threw, including the
    reducer while it handled SUCCESS. The `await`s are left out: each call settles at once. */
module EntityActions {
  import opened Wrappers
  import opened EntityModel
  import opened ActionTypes
  import opened EntitiesReducer
  import opened Service

  /** What a thunk's promise resolves to: `undefined` (fetchEntities), `{ success: true }`,
      `{ success: true, entity }` or `{ success: false, error }`. */
  datatype ThunkResult =
    | Resolved
    | Succeeded
    | SucceededWith(entity: Option<Entity>)
    | Failed(error: string)

  /** The actions a thunk dispatched, in order, the state they leave, and what it resolves to. */
  datatype Outcome = Outcome(dispatched: seq<Action>, state: State, result: ThunkResult)

  /** The message of the TypeError raised by calling `EntityAPI.deleteMany`, which the entity
      store does not define. */
  const MissingDeleteManyMessage := "EntityAPI.deleteMany is not a function"

  /** The message the corrected `updateEntity` reports for an id the store does not hold. */
  const NotFoundMessage := "Entity not found"

  /** What the `catch` block returns: fetchEntities returns nothing, the others `{ success: false }`. */
  function FailedResult(op: Op, message: string): ThunkResult {
    if op == Fetch then Resolved else Failed(message)
  }

  /** The run of one thunk from state `s`: `call` is the store call's outcome, already turned into
      the SUCCESS action, or the message it threw; `onSuccess` is what the `try` block returns. */
  function Settle(s: State, op: Op, request: Action, call: Result<Action>, onSuccess: ThunkResult)
    : (o: Outcome)
    requires IsRequestOf(request, op)
    requires call.Ok? ==> IsSuccessOf(call.value, op)
    ensures 2 <= |o.dispatched| <= 3 && o.dispatched[0] == request
  {
    var s1 := Reduce(s, request).value;
    match call
    case Err(m) =>
      Outcome([request, FailureOf(op, m)], Reduce(s1, FailureOf(op, m)).value, FailedResult(op, m))
    case Ok(success) =>
      match Reduce(s1, success)
      case Ok(s2) => Outcome([request, success], s2, onSuccess)
      case Err(m) =>
        Outcome([request, success, FailureOf(op, m)], Reduce(s1, FailureOf(op, m)).value,
                FailedResult(op, m))
  }

  /** REQUEST comes first, and then exactly one of SUCCESS or FAILURE unless the reducer threw
      on SUCCESS. A store error becomes the FAILURE payload and the returned error, the same
      message in both; otherwise SUCCESS carries the store's answer and the thunk returns it. */
  lemma SettleDispatchesRequestThenOneOutcome(
    s: State, op: Op, request: Action, call: Result<Action>, onSuccess: ThunkResult)
    requires IsRequestOf(request, op)
    requires call.Ok? ==> IsSuccessOf(call.value, op)
    ensures var o := Settle(s, op, request, call, onSuccess);
      (|o.dispatched| == 2 <==> call.Err? || Reduce(Reduce(s, request).value, call.value).Ok?)
      && (|o.dispatched| == 2 ==>
            (IsSuccessOf(o.dispatched[1], op) <==> call.Ok?)
            && (IsFailureOf(o.dispatched[1], op) <==> call.Err?))
      && (call.Err? ==> o.dispatched[1] == FailureOf(op, call.message)
                        && o.result == FailedResult(op, call.message))
      && (call.Ok? && |o.dispatched| == 2 ==> o.dispatched[1] == call.value && o.result == onSuccess)
  {
  }

  /** The only way a thunk dispatches both SUCCESS and FAILURE: UPDATE_ENTITY_SUCCESS with a null
      record while the list is not empty; the FAILURE then carries the engine's TypeError text. */
  lemma OnlyANullUpdateDispatchesBoth(
    s: State, op: Op, request: Action, call: Result<Action>, onSuccess: ThunkResult)
    requires IsRequestOf(request, op)
    requires call.Ok? ==> IsSuccessOf(call.value, op)
    ensures var o := Settle(s, op, request, call, onSuccess);
      (|o.dispatched| == 3 <==>
         op == Update && call.Ok? && call.value.updated.None? && s.entities != [])
      && (|o.dispatched| == 3 ==>
            o.dispatched[2] == UpdateEntityFailure(NullPayloadMessage)
            && o.result == Failed(NullPayloadMessage))
  {
    RequestMarksOnlyItsOperation(s, request);
  }

  /** After a thunk the operation is no longer in flight, and the error says how it ended: the
      store's message after a store error, nothing after a SUCCESS the reducer took. A store error
      leaves the list as it was. */
  lemma SettleLeavesOperationIdle(
    s: State, op: Op, request: Action, call: Result<Action>, onSuccess: ThunkResult)
    requires IsRequestOf(request, op)
    requires call.Ok? ==> IsSuccessOf(call.value, op)
    ensures var o := Settle(s, op, request, call, onSuccess);
      !Busy(o.state, op)
      && (call.Err? ==> o.state.error == Some(call.message) && o.state.entities == s.entities)
      && (|o.dispatched| == 2 && call.Ok? ==> o.state.error.None?)
  {
    RequestMarksOnlyItsOperation(s, request);
    var s1 := Reduce(s, request).value;
    match call {
      case Err(m) =>
        RequestThenOutcomeSettles(s, op, request, FailureOf(op, m));
      case Ok(success) =>
        if Reduce(s1, success).Ok? {
          RequestThenOutcomeSettles(s, op, request, success);
        } else {
          RequestThenOutcomeSettles(s, op, request, FailureOf(op, NullPayloadMessage));
        }
    }
  }

  /** `setSearchTerm(term)`: a plain SET_SEARCH_TERM action. */
  function SearchTermAction(term: string): Action {
    SetSearchTerm(term)
  }

  /** `clearEntityError()`: a plain CLEAR_ENTITY_ERROR action with no payload. */
  function ClearErrorAction(): Action {
    ClearEntityError
  }

  /** The plain creators reach the reducer as intended: the term becomes the search term, and
      the error is cleared, with nothing else changed. */
  lemma PlainCreatorsReachTheReducer(s: State, term: string)
    ensures Reduce(s, SearchTermAction(term)) == Ok(s.(searchTerm := term))
    ensures Reduce(s, ClearErrorAction()) == Ok(s.(error := None))
  {
  }

  /** The store call of the corrected `updateEntity`: an absent id is an error. */
  function FixedUpdateCall(es: seq<Entity>, id: int, u: Patch): (call: Result<Action>)
    ensures call.Ok? <==> HasId(es, id)
    ensures call.Ok? ==> call.value == UpdateEntitySuccess(EditResult(es, id, u))
                         && call.value.updated.Some?
  {
    var updated := EditResult(es, id, u);
    if updated.None? then Err(NotFoundMessage) else Ok(UpdateEntitySuccess(updated))
  }

  /** The corrected `updateEntity` dispatches exactly one of SUCCESS or FAILURE, and SUCCESS only
      when the store held the id. */
  lemma FixedUpdateSettlesOnce(s: State, es: seq<Entity>, id: int, u: Patch)
    ensures var o := Settle(s, Update, UpdateEntityRequest, FixedUpdateCall(es, id, u),
                            SucceededWith(EditResult(es, id, u)));
      |o.dispatched| == 2
      && (o.dispatched[1].UpdateEntitySuccess? <==> HasId(es, id))
      && (o.dispatched[1].UpdateEntityFailure? <==> !HasId(es, id))
  {
    OnlyANullUpdateDispatchesBoth(s, Update, UpdateEntityRequest, FixedUpdateCall(es, id, u),
                                  SucceededWith(EditResult(es, id, u)));
  }

  /** The store of a Redux application running these thunks against the entity store: the
      `entities` slice of the state, the actions dispatched so far, and the store object.
      `shared` says that the state's list is the store's own array object: `all` returns
      `this.entities` itself and FETCH_ENTITIES_SUCCESS keeps the payload as it is. While it is
      shared, a change the store makes in place (the push of `add`, the index assignment of
      `edit`) is a change to the state's list too; a reducer case that builds a new array
      ends the sharing. */
  class Dispatcher {
    var state: State
    var log: seq<Action>
    var shared: bool
    const api: EntityApi

    /** A shared list is the store's array itself, so the two read the same. */
    ghost predicate Coherent()
      reads this, api
    {
      shared ==> state.entities == api.entities
    }

    constructor (api: EntityApi)
      ensures this.api == api && state == InitialState && log == [] && !shared
      ensures Coherent()
    {
      this.api := api;
      state := InitialState;
      log := [];
      shared := false;
    }

    /** `dispatch(action)`: records the action and runs the reducer. When the reducer throws,
        the state stays as it was and the error reaches the caller. */
    method Dispatch(a: Action) returns (thrown: Option<string>)
      requires Coherent()
      modifies this
      ensures Coherent()
      ensures log == old(log) + [a]
      ensures Reduce(old(state), a).Ok? ==> state == Reduce(old(state), a).value && thrown.None?
      ensures Reduce(old(state), a).Err? ==>
                state == old(state) && thrown == Some(Reduce(old(state), a).message)
      ensures shared <==> old(shared) && !(Reduce(old(state), a).Ok? && IsSuccess(a))
    {
      log := log + [a];
      var r := Reduce(state, a);
      if r.Ok? {
        state := r.value;
        thrown := None;
        if IsSuccess(a) {
          shared := false;
        } else if r.value.entities != old(state.entities) {
          ListChangesOnlyOnSuccess(old(state), a);
        }
      } else {
        thrown := Some(r.message);
      }
    }

    /** `fetchEntities()` as written: loads the store's list into the state, which then agrees
        with it; the state's list is now the store's own array. */
    method FetchEntities() returns (r: ThunkResult)
      requires Coherent()
      modifies this
      ensures Coherent()
      ensures var o := Settle(old(state), Fetch, FetchEntitiesRequest,
                              Ok(FetchEntitiesSuccess(api.entities)), Resolved);
        log == old(log) + o.dispatched && state == o.state && r == o.result
      ensures state.entities == api.entities && shared
    {
      var _ := Dispatch(FetchEntitiesRequest);
      var es := api.All();
      var _ := Dispatch(FetchEntitiesSuccess(es));
      shared := true;
      r := Resolved;
    }

    /** The corrected `fetchEntities()`: the store hands out a copy of its array
        (`[...this.entities]`), so the state agrees with the store without sharing its array. */
    method FetchEntitiesFixed() returns (r: ThunkResult)
      requires Coherent()
      modifies this
      ensures Coherent()
      ensures var o := Settle(old(state), Fetch, FetchEntitiesRequest,
                              Ok(FetchEntitiesSuccess(api.entities)), Resolved);
        log == old(log) + o.dispatched && state == o.state && r == o.result
      ensures state.entities == api.entities && !shared
    {
      var _ := Dispatch(FetchEntitiesRequest);
      var es := api.All();
      var _ := Dispatch(FetchEntitiesSuccess(es));
      r := Resolved;
    }

    /** `addEntity(data)`: the store appends the record under the next id; SUCCESS carries that
        record, and the thunk returns it. A state that agreed with the store without sharing its
        array still agrees. A shared array already holds the pushed record when SUCCESS appends
        it, so the state then shows the new record twice. */
    method AddEntity(data: EntityData) returns (r: ThunkResult)
      requires Coherent()
      modifies this, api
      ensures Coherent()
      ensures var e := Created(data, NextId(old(api.entities)));
        api.entities == old(api.entities) + [e]
        && var seen := if old(shared) then old(state).(entities := api.entities) else old(state);
        var o := Settle(seen, Add, AddEntityRequest, Ok(AddEntitySuccess(e)),
                        SucceededWith(Some(e)));
        log == old(log) + o.dispatched && state == o.state && r == o.result
      ensures !shared
      ensures !old(shared) && old(state.entities) == old(api.entities) ==>
                state.entities == api.entities
      ensures var e := Created(data, NextId(old(api.entities)));
        old(shared) ==> state.entities == api.entities + [e]
                        && state.entities == old(state.entities) + [e, e]
    {
      var _ := Dispatch(AddEntityRequest);
      var e := api.Add(data);
      if shared {
        // the push went into the state's list as well
        state := state.(entities := api.entities);
      }
      var _ := Dispatch(AddEntitySuccess(e));
      r := SucceededWith(Some(e));
    }

    /** `updateEntity(id, u)` as written: SUCCESS carries whatever `edit` returned, null for an
        absent id, and a reducer error on that null is caught and dispatched as FAILURE. A shared
        array sees the edit before the reducer does. */
    method UpdateEntity(id: int, u: Patch) returns (r: ThunkResult)
      requires Coherent()
      modifies this, api
      ensures Coherent()
      ensures api.entities == EditStore(old(api.entities), id, u)
      ensures var updated := EditResult(old(api.entities), id, u);
        var seen := if old(shared) then old(state).(entities := api.entities) else old(state);
        var o := Settle(seen, Update, UpdateEntityRequest, Ok(UpdateEntitySuccess(updated)),
                        SucceededWith(updated));
        log == old(log) + o.dispatched && state == o.state && r == o.result
      ensures shared <==> old(shared) && r.Failed?
    {
      var _ := Dispatch(UpdateEntityRequest);
      var updated := api.Edit(id, u);
      if shared {
        // the index assignment went into the state's list as well
        state := state.(entities := api.entities);
      }
      var thrown := Dispatch(UpdateEntitySuccess(updated));
      if thrown.Some? {
        var _ := Dispatch(UpdateEntityFailure(thrown.value));
        r := Failed(thrown.value);
      } else {
        r := SucceededWith(updated);
      }
    }

    /** The corrected `updateEntity`: an absent id is reported as FAILURE, never as SUCCESS. */
    method UpdateEntityFixed(id: int, u: Patch) returns (r: ThunkResult)
      requires Coherent()
      modifies this, api
      ensures Coherent()
      ensures api.entities == EditStore(old(api.entities), id, u)
      ensures var seen := if old(shared) then old(state).(entities := api.entities) else old(state);
        var o := Settle(seen, Update, UpdateEntityRequest,
                        FixedUpdateCall(old(api.entities), id, u),
                        SucceededWith(EditResult(old(api.entities), id, u)));
        log == old(log) + o.dispatched && state == o.state && r == o.result
      ensures shared <==> old(shared) && r.Failed?
    {
      var _ := Dispatch(UpdateEntityRequest);
      var updated := api.Edit(id, u);
      if shared {
        state := state.(entities := api.entities);
      }
      if updated.None? {
        var _ := Dispatch(UpdateEntityFailure(NotFoundMessage));
        r := Failed(NotFoundMessage);
      } else {
        var _ := Dispatch(UpdateEntitySuccess(updated));
        r := SucceededWith(updated);
      }
    }

    /** `deleteEntity(id)`: the same id goes into REQUEST and SUCCESS; the store drops it, and a
        state that agreed with the store still does. */
    method DeleteEntity(id: int) returns (r: ThunkResult)
      requires Coherent()
      modifies this, api
      ensures Coherent()
      ensures api.entities == Without(old(api.entities), id)
      ensures var o := Settle(old(state), Delete, DeleteEntityRequest(id),
                              Ok(DeleteEntitySuccess(id)), Succeeded);
        log == old(log) + o.dispatched && state == o.state && r == o.result
      ensures old(state.entities) == old(api.entities) ==> state.entities == api.entities
      ensures !shared
    {
      var _ := Dispatch(DeleteEntityRequest(id));
      api.Delete(id);
      // `delete` gives the store a new array; the state keeps the old one
      shared := false;
      var _ := Dispatch(DeleteEntitySuccess(id));
      r := Succeeded;
    }

    /** `deleteManyEntities(ids)` as written: the call to the missing `EntityAPI.deleteMany`
        throws, so FAILURE is dispatched every time and nothing is deleted. */
    method DeleteManyEntities(ids: seq<int>) returns (r: ThunkResult)
      requires Coherent()
      modifies this
      ensures Coherent()
      ensures var o := Settle(old(state), DeleteMany, DeleteManyEntitiesRequest(ids),
                              Err(MissingDeleteManyMessage), Succeeded);
        log == old(log) + o.dispatched && state == o.state && r == o.result
      ensures shared == old(shared)
    {
      var _ := Dispatch(DeleteManyEntitiesRequest(ids));
      var _ := Dispatch(DeleteManyEntitiesFailure(MissingDeleteManyMessage));
      r := Failed(MissingDeleteManyMessage);
    }

    /** The corrected `deleteManyEntities(ids)`: deletes the ids one at a time through the
        store's `delete`, then dispatches SUCCESS with the same ids as REQUEST. */
    method DeleteManyEntitiesFixed(ids: seq<int>) returns (r: ThunkResult)
      requires Coherent()
      modifies this, api
      ensures Coherent()
      ensures api.entities == WithoutAny(old(api.entities), ids)
      ensures var o := Settle(old(state), DeleteMany, DeleteManyEntitiesRequest(ids),
                              Ok(DeleteManyEntitiesSuccess(ids)), Succeeded);
        log == old(log) + o.dispatched && state == o.state && r == o.result
      ensures old(state.entities) == old(api.entities) ==> state.entities == api.entities
      ensures !shared
    {
      var _ := Dispatch(DeleteManyEntitiesRequest(ids));
      WithoutNothing(api.entities);
      var i := 0;
      while i < |ids|
        invariant 0 <= i <= |ids|
        invariant api.entities == WithoutAny(old(api.entities), ids[..i])
        invariant state == Reduce(old(state), DeleteManyEntitiesRequest(ids)).value
        invariant log == old(log) + [DeleteManyEntitiesRequest(ids)]
        invariant Coherent()
      {
        WithoutAnyStep(old(api.entities), ids[..i], ids[i]);
        assert ids[..i + 1] == ids[..i] + [ids[i]];
        api.Delete(ids[i]);
        shared := false;
        i := i + 1;
      }
      assert ids[..|ids|] == ids;
      var _ := Dispatch(DeleteManyEntitiesSuccess(ids));
      r := Succeeded;
    }
  }

  /** As written: a fresh application that fetches and then adds one record shows it twice,
      though the store holds it once. */
  method FetchThenAddShowsRecordTwice(api: EntityApi, data: EntityData) returns (d: Dispatcher)
    modifies api
    ensures fresh(d) && d.api == api
    ensures var e := Created(data, NextId(old(api.entities)));
      api.entities == old(api.entities) + [e] && d.state.entities == old(api.entities) + [e, e]
  {
    d := new Dispatcher(api);
    var _ := d.FetchEntities();
    var _ := d.AddEntity(data);
  }

  /** Corrected: with the store handing out a copy, fetching and then adding leaves the state's
      list equal to the store's, with the new record once. */
  method FixedFetchThenAddAgrees(api: EntityApi, data: EntityData) returns (d: Dispatcher)
    modifies api
    ensures fresh(d) && d.api == api
    ensures var e := Created(data, NextId(old(api.entities)));
      api.entities == old(api.entities) + [e] && d.state.entities == api.entities
  {
    d := new Dispatcher(api);
    var _ := d.FetchEntitiesFixed();
    var _ := d.AddEntity(data);
  }

  /** Updating an id the store does not hold, with records present: the thunk dispatches
      REQUEST, SUCCESS with null, and then FAILURE with the engine's TypeError text. */
  lemma NullUpdateDispatchesSuccessAndFailure()
    ensures var es := SeedEntities();
      var s := InitialState.(entities := es);
      var updated := EditResult(es, 99, Patch(None, Some("X"), None, None, None, None));
      updated == None
      && Settle(s, Update, UpdateEntityRequest, Ok(UpdateEntitySuccess(updated)),
                SucceededWith(updated)).dispatched
         == [UpdateEntityRequest, UpdateEntitySuccess(None), UpdateEntityFailure(NullPayloadMessage)]
  {
    var es := SeedEntities();
    assert !HasId(es, 99);
  }

  /** The as-written `deleteManyEntities` never removes anything: whatever the ids, the list is
      unchanged and the thunk reports the missing function. */
  lemma DeleteManyNeverDeletes(s: State, ids: seq<int>)
    ensures var o := Settle(s, DeleteMany, DeleteManyEntitiesRequest(ids),
                            Err(MissingDeleteManyMessage), Succeeded);
      o.state.entities == s.entities && o.result == Failed(MissingDeleteManyMessage)
      && o.dispatched[1] == DeleteManyEntitiesFailure(MissingDeleteManyMessage)
  {
  }

  /** As written: once the state's list is the store's own array, `add`'s push is already in it
      when ADD_ENTITY_SUCCESS appends the same record again, so the state holds the new record
      twice while the store holds it once. */
  lemma SharedListAddShowsRecordTwice(s: State, stored: seq<Entity>, data: EntityData)
    ensures var e := Created(data, NextId(stored));
      var o := Settle(s.(entities := stored + [e]), Add, AddEntityRequest,
                      Ok(AddEntitySuccess(e)), SucceededWith(Some(e)));
      e !in stored && o.state.entities == stored + [e, e]
  {
    var e := Created(data, NextId(stored));
    var s1 := Reduce(s.(entities := stored + [e]), AddEntityRequest).value;
    AddSuccessAppends(s1, e);
    assert (stored + [e]) + [e] == stored + [e, e];
  }

  /** Corrected: a state that holds a copy of the store's list still agrees with the store
      after `addEntity`, and holds the new record once. */
  lemma CopiedListAddAgrees(s: State, data: EntityData)
    ensures var e := Created(data, NextId(s.entities));
      var o := Settle(s, Add, AddEntityRequest, Ok(AddEntitySuccess(e)), SucceededWith(Some(e)));
      e !in s.entities && o.state.entities == s.entities + [e]
  {
    var e := Created(data, NextId(s.entities));
    AddSuccessAppends(Reduce(s, AddEntityRequest).value, e);
  }

  /** The corrected `deleteManyEntities` removes exactly the listed ids from a state that agreed
      with the store, and the state is left with nothing being deleted and no error. */
  lemma FixedDeleteManyRemovesListed(s: State, ids: seq<int>)
    ensures var o := Settle(s, DeleteMany, DeleteManyEntitiesRequest(ids),
                            Ok(DeleteManyEntitiesSuccess(ids)), Succeeded);
      |o.dispatched| == 2 && o.result == Succeeded
      && (forall x :: x in o.state.entities <==> x in s.entities && x.id !in ids)
      && o.state.deletingIds == [] && o.state.error.None?
  {
    RequestMarksOnlyItsOperation(s, DeleteManyEntitiesRequest(ids));
    DeleteManySuccessRemovesIdsOnce(Reduce(s, DeleteManyEntitiesRequest(ids)).value, ids);
  }
}
