/** The `entities` slice of the Redux store: `entitiesReducer` of
    ctr_web/src/redux/reducers/entitiesReducer.js, a pure function from the previous state and an
    action to the next state. Each case returns `{ ...state, ... }`, which is a datatype update here. */
module EntitiesReducer {
  import opened Wrappers
  import opened Seqs
  import opened EntityModel
  import opened ActionTypes

  datatype State = State(
    entities: seq<Entity>,
    searchTerm: string,
    loading: bool,
    adding: bool,
    updating: bool,
    deletingIds: seq<int>,
    error: Option<string>)

  const InitialState := State([], "", false, false, false, [], None)

  /** What the engine throws when UPDATE_ENTITY_SUCCESS carries null and the `map` callback
      reads `action.payload.id`. */
  const NullPayloadMessage := "Cannot read properties of null (reading 'id')"

  /** `entitiesReducer(state, action)`. It throws (`Err`) in exactly one situation: an
      UPDATE_ENTITY_SUCCESS whose payload is null, while there is at least one entity for
      the `map` callback to run on. */
  function Reduce(s: State, a: Action): (r: Result<State>)
    ensures r.Err? <==> a.UpdateEntitySuccess? && a.updated.None? && s.entities != []
    ensures r.Err? ==> r.message == NullPayloadMessage
  {
    match a
    case FetchEntitiesRequest => Ok(s.(loading := true, error := None))
    case FetchEntitiesSuccess(es) => Ok(s.(loading := false, entities := es, error := None))
    case FetchEntitiesFailure(m) => Ok(s.(loading := false, error := Some(m)))
    case AddEntityRequest => Ok(s.(adding := true, error := None))
    case AddEntitySuccess(e) => Ok(s.(adding := false, entities := s.entities + [e], error := None))
    case AddEntityFailure(m) => Ok(s.(adding := false, error := Some(m)))
    case UpdateEntityRequest => Ok(s.(updating := true, error := None))
    case UpdateEntitySuccess(p) =>
      if p.Some? then
        Ok(s.(updating := false, entities := ReplaceById(s.entities, p.value), error := None))
      else if s.entities == [] then
        Ok(s.(updating := false, error := None))
      else
        Err(NullPayloadMessage)
    case UpdateEntityFailure(m) => Ok(s.(updating := false, error := Some(m)))
    case DeleteEntityRequest(id) => Ok(s.(deletingIds := [id], error := None))
    case DeleteEntitySuccess(id) =>
      Ok(s.(deletingIds := [], entities := Without(s.entities, id), error := None))
    case DeleteEntityFailure(m) => Ok(s.(deletingIds := [], error := Some(m)))
    case DeleteManyEntitiesRequest(ids) => Ok(s.(deletingIds := ids, error := None))
    case DeleteManyEntitiesSuccess(ids) =>
      Ok(s.(deletingIds := [], entities := WithoutAny(s.entities, ids), error := None))
    case DeleteManyEntitiesFailure(m) => Ok(s.(deletingIds := [], error := Some(m)))
    case SetSearchTerm(t) => Ok(s.(searchTerm := t))
    case ClearEntityError => Ok(s.(error := None))
    case UserLogin(_) => Ok(s)
    case UserLogout => Ok(s)
    case UserRegister(_) => Ok(s)
    case OtherAction(_) => Ok(s)
  }

  /** Whether `op` is in flight, as the state records it. */
  predicate Busy(s: State, op: Op) {
    match op
    case Fetch => s.loading
    case Add => s.adding
    case Update => s.updating
    case Delete => s.deletingIds != []
    case DeleteMany => s.deletingIds != []
  }

  /** A REQUEST raises its own flag (a delete request records the ids being deleted), clears the
      error, and leaves the list, the search term and the other flags alone. */
  lemma RequestMarksOnlyItsOperation(s: State, a: Action)
    requires IsRequest(a)
    ensures Reduce(s, a).Ok?
    ensures var r := Reduce(s, a).value;
      r.entities == s.entities && r.searchTerm == s.searchTerm && r.error.None?
      && r.loading == (a.FetchEntitiesRequest? || s.loading)
      && r.adding == (a.AddEntityRequest? || s.adding)
      && r.updating == (a.UpdateEntityRequest? || s.updating)
      && r.deletingIds == (if a.DeleteEntityRequest? then [a.id]
                           else if a.DeleteManyEntitiesRequest? then a.ids
                           else s.deletingIds)
  {
  }

  /** FETCH_ENTITIES_SUCCESS replaces the list with the payload and clears `loading` and `error`. */
  lemma FetchSuccessReplacesList(s: State, es: seq<Entity>)
    ensures Reduce(s, FetchEntitiesSuccess(es)).Ok?
    ensures var r := Reduce(s, FetchEntitiesSuccess(es)).value;
      r.entities == es && !r.loading && r.error.None?
      && r.searchTerm == s.searchTerm && r.adding == s.adding && r.updating == s.updating
      && r.deletingIds == s.deletingIds
  {
  }

  /** A FAILURE keeps the list, records the message as the error, and ends its own operation:
      its flag goes down, or `deletingIds` empties for the two delete operations. */
  lemma FailureKeepsListAndRecordsError(s: State, a: Action)
    requires IsFailure(a)
    ensures Reduce(s, a).Ok?
    ensures var r := Reduce(s, a).value;
      r.entities == s.entities && r.searchTerm == s.searchTerm && r.error == Some(a.message)
      && r.loading == (!a.FetchEntitiesFailure? && s.loading)
      && r.adding == (!a.AddEntityFailure? && s.adding)
      && r.updating == (!a.UpdateEntityFailure? && s.updating)
      && r.deletingIds == (if a.DeleteEntityFailure? || a.DeleteManyEntitiesFailure? then []
                           else s.deletingIds)
  {
  }

  /** ADD_ENTITY_SUCCESS appends the payload: one more entity, the earlier ones unchanged. */
  lemma AddSuccessAppends(s: State, e: Entity)
    ensures Reduce(s, AddEntitySuccess(e)).Ok?
    ensures var r := Reduce(s, AddEntitySuccess(e)).value;
      |r.entities| == |s.entities| + 1 && r.entities[..|s.entities|] == s.entities
      && r.entities[|s.entities|] == e && !r.adding && r.error.None?
  {
  }

  /** UPDATE_ENTITY_SUCCESS with a record replaces exactly the entries with the record's id,
      keeping length, order and the ids at every position. */
  lemma UpdateSuccessReplacesById(s: State, e: Entity)
    ensures Reduce(s, UpdateEntitySuccess(Some(e))).Ok?
    ensures var r := Reduce(s, UpdateEntitySuccess(Some(e))).value;
      |r.entities| == |s.entities| && !r.updating && r.error.None?
      && (forall i :: 0 <= i < |s.entities| ==>
            r.entities[i] == (if s.entities[i].id == e.id then e else s.entities[i]))
      && Ids(r.entities) == Ids(s.entities)
  {
    var r := Reduce(s, UpdateEntitySuccess(Some(e))).value;
    assert forall i :: 0 <= i < |s.entities| ==> Ids(r.entities)[i] == Ids(s.entities)[i];
  }

  /** DELETE_ENTITY_SUCCESS keeps, in order, exactly the entries with another id, and nothing is
      left being deleted. */
  lemma DeleteSuccessRemovesId(s: State, id: int)
    ensures Reduce(s, DeleteEntitySuccess(id)).Ok?
    ensures var r := Reduce(s, DeleteEntitySuccess(id)).value;
      IsSubsequence(r.entities, s.entities)
      && (forall x :: x in r.entities <==> x in s.entities && x.id != id)
      && r.deletingIds == [] && r.error.None?
  {
    WithoutKeepsOthersInOrder(s.entities, id);
  }

  /** DELETE_MANY_ENTITIES_SUCCESS keeps, in order, exactly the entries whose id is not listed;
      delivering the same action again leaves the whole state as it is. */
  lemma DeleteManySuccessRemovesIdsOnce(s: State, ids: seq<int>)
    ensures Reduce(s, DeleteManyEntitiesSuccess(ids)).Ok?
    ensures var r := Reduce(s, DeleteManyEntitiesSuccess(ids)).value;
      IsSubsequence(r.entities, s.entities)
      && (forall x :: x in r.entities <==> x in s.entities && x.id !in ids)
      && r.deletingIds == [] && r.error.None?
      && Reduce(r, DeleteManyEntitiesSuccess(ids)) == Ok(r)
  {
    WithoutAnyKeepsOthersInOrder(s.entities, ids);
    WithoutAnyIdempotent(s.entities, ids);
  }

  /** SET_SEARCH_TERM changes the search term and nothing else; CLEAR_ENTITY_ERROR changes the
      error and nothing else; the user actions and any unknown action change nothing. */
  lemma OtherActionsTouchOneFieldOrNone(s: State, a: Action)
    requires a.SetSearchTerm? || a.ClearEntityError? || a.UserLogin? || a.UserLogout?
             || a.UserRegister? || a.OtherAction?
    ensures Reduce(s, a).Ok?
    ensures a.SetSearchTerm? ==> Reduce(s, a).value.searchTerm == a.term
                                 && Reduce(s, a).value.(searchTerm := s.searchTerm) == s
    ensures a.ClearEntityError? ==> Reduce(s, a).value.error.None?
                                    && Reduce(s, a).value.(error := s.error) == s
    ensures !a.SetSearchTerm? && !a.ClearEntityError? ==> Reduce(s, a) == Ok(s)
  {
  }

  /** Only a SUCCESS action can change the list. */
  lemma ListChangesOnlyOnSuccess(s: State, a: Action)
    requires Reduce(s, a).Ok? && Reduce(s, a).value.entities != s.entities
    ensures IsSuccess(a)
  {
  }

  /** The error after an action: the message of a FAILURE; nothing after a REQUEST, a SUCCESS or
      CLEAR_ENTITY_ERROR; and the previous error after anything else. */
  lemma ErrorFollowsLastOutcome(s: State, a: Action)
    requires Reduce(s, a).Ok?
    ensures IsFailure(a) ==> Reduce(s, a).value.error == Some(a.message)
    ensures IsRequest(a) || IsSuccess(a) || a.ClearEntityError? ==> Reduce(s, a).value.error.None?
    ensures !IsFailure(a) && !IsRequest(a) && !IsSuccess(a) && !a.ClearEntityError? ==>
              Reduce(s, a).value.error == s.error
  {
  }

  /** The protocol of every thunk, seen by the reducer: after REQUEST and then the SUCCESS or the
      FAILURE of the same operation, that operation is no longer in flight, and the error is
      cleared by a SUCCESS and set by a FAILURE. */
  lemma RequestThenOutcomeSettles(s: State, op: Op, request: Action, outcome: Action)
    requires IsRequestOf(request, op)
    requires IsSuccessOf(outcome, op) || IsFailureOf(outcome, op)
    requires Reduce(Reduce(s, request).value, outcome).Ok?
    ensures !Busy(Reduce(Reduce(s, request).value, outcome).value, op)
    ensures IsSuccessOf(outcome, op) ==> Reduce(Reduce(s, request).value, outcome).value.error.None?
    ensures IsFailureOf(outcome, op) ==>
              Reduce(Reduce(s, request).value, outcome).value.error == Some(outcome.message)
  {
  }
}
