/** Every action the Redux store can receive. The constructors are named after the action-type
    identifiers that ctr_web/src/redux/reducers/entitiesReducer.js, userReducer.js and
    ctr_web/src/redux/Actions/EntityActions.js import; each carries its `payload`. Because
    `combineReducers` hands every action to every reducer, one datatype serves them all, and
    `OtherAction` stands for any other type (the theme actions among them). */
module ActionTypes {
  import opened Wrappers
  import opened EntityModel
  import opened Auth

  datatype Action =
    | FetchEntitiesRequest
    | FetchEntitiesSuccess(entities: seq<Entity>)
    | FetchEntitiesFailure(message: string)
    | AddEntityRequest
    | AddEntitySuccess(entity: Entity)
    | AddEntityFailure(message: string)
    | UpdateEntityRequest
    /** `edit` may return null, and the payload is then null. */
    | UpdateEntitySuccess(updated: Option<Entity>)
    | UpdateEntityFailure(message: string)
    | DeleteEntityRequest(id: int)
    | DeleteEntitySuccess(id: int)
    | DeleteEntityFailure(message: string)
    | DeleteManyEntitiesRequest(ids: seq<int>)
    | DeleteManyEntitiesSuccess(ids: seq<int>)
    | DeleteManyEntitiesFailure(message: string)
    | SetSearchTerm(term: string)
    | ClearEntityError
    | UserLogin(user: Option<PublicUser>)
    | UserLogout
    | UserRegister(user: Option<PublicUser>)
    | OtherAction(kind: string)

  /** The five asynchronous operations, each with its REQUEST, SUCCESS and FAILURE actions. */
  datatype Op = Fetch | Add | Update | Delete | DeleteMany

  predicate IsRequestOf(a: Action, op: Op) {
    match op
    case Fetch => a.FetchEntitiesRequest?
    case Add => a.AddEntityRequest?
    case Update => a.UpdateEntityRequest?
    case Delete => a.DeleteEntityRequest?
    case DeleteMany => a.DeleteManyEntitiesRequest?
  }

  predicate IsSuccessOf(a: Action, op: Op) {
    match op
    case Fetch => a.FetchEntitiesSuccess?
    case Add => a.AddEntitySuccess?
    case Update => a.UpdateEntitySuccess?
    case Delete => a.DeleteEntitySuccess?
    case DeleteMany => a.DeleteManyEntitiesSuccess?
  }

  predicate IsFailureOf(a: Action, op: Op) {
    match op
    case Fetch => a.FetchEntitiesFailure?
    case Add => a.AddEntityFailure?
    case Update => a.UpdateEntityFailure?
    case Delete => a.DeleteEntityFailure?
    case DeleteMany => a.DeleteManyEntitiesFailure?
  }

  /** The FAILURE action of `op`, carrying `error.message`. */
  function FailureOf(op: Op, message: string): (a: Action)
    ensures IsFailureOf(a, op) && a.message == message
  {
    match op
    case Fetch => FetchEntitiesFailure(message)
    case Add => AddEntityFailure(message)
    case Update => UpdateEntityFailure(message)
    case Delete => DeleteEntityFailure(message)
    case DeleteMany => DeleteManyEntitiesFailure(message)
  }

  predicate IsFailure(a: Action) {
    a.FetchEntitiesFailure? || a.AddEntityFailure? || a.UpdateEntityFailure?
    || a.DeleteEntityFailure? || a.DeleteManyEntitiesFailure?
  }

  predicate IsRequest(a: Action) {
    a.FetchEntitiesRequest? || a.AddEntityRequest? || a.UpdateEntityRequest?
    || a.DeleteEntityRequest? || a.DeleteManyEntitiesRequest?
  }

  predicate IsSuccess(a: Action) {
    a.FetchEntitiesSuccess? || a.AddEntitySuccess? || a.UpdateEntitySuccess?
    || a.DeleteEntitySuccess? || a.DeleteManyEntitiesSuccess?
  }
}
