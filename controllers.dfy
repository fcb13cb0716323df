/**
  TodoItemsController (aspnet5-base-ef/Controllers/TodoController.cs): one
  method per endpoint under `api/TodoItems`, each turning what the service
  reports into an action result. A call that throws propagates as `Threw`.
 */
module Controllers {
  import opened Wrappers
  import opened Models
  import opened DTOs
  import opened Profiles
  import opened Async
  import opened Repositories
  import opened Services

  /** The ASP.NET Core action results the endpoints produce (200, 200, 404, 400, 204, 201). */
  datatype ActionResult =
    | OkListResult(values: seq<TodoItemDtoV1>)
    | OkObjectResult(value: TodoItemDtoV1)
    | NotFoundResult
    | BadRequestResult
    | NoContentResult
    | CreatedAtActionResult(actionName: string, routeId: Guid, value: TodoItemDtoV1)

  /** GET by id: a null item is NotFound, anything else is Ok with the item. */
  function FoundOrNotFound(item: Option<TodoItemDtoV1>): (r: ActionResult)
    ensures r == NotFoundResult <==> item.None?
    ensures item.Some? ==> r == OkObjectResult(item.value)
  {
    if item == None then NotFoundResult else OkObjectResult(item.value)
  }

  /** POST: a created item is Created, with a route to GetTodoItem for its own id; null is BadRequest. */
  function CreatedOrBadRequest(created: Option<TodoItemDtoV1>): (r: ActionResult)
    ensures r.CreatedAtActionResult? <==> created.Some?
    ensures r.CreatedAtActionResult? ==>
      r.actionName == "GetTodoItem" && r.value == created.value && r.routeId == r.value.id
    ensures created.None? ==> r == BadRequestResult
  {
    match created
    case Some(item) => CreatedAtActionResult("GetTodoItem", item.id, item)
    case None => BadRequestResult
  }

  /**
    PUT once the ids match: a change that succeeded is NoContent. A change
    that failed is NotFound if the lookup that follows it is null, and
    BadRequest if the record is still there.
   */
  function ChangedOrNot(success: bool, lookupIsNull: bool): (r: ActionResult)
    ensures success ==> r == NoContentResult
    ensures !success && lookupIsNull ==> r == NotFoundResult
    ensures !success && !lookupIsNull ==> r == BadRequestResult
  {
    if success then NoContentResult
    else if lookupIsNull then NotFoundResult
    else BadRequestResult
  }

  class TodoItemsController {
    const service: TodoItemsService

    ghost predicate Valid()
      reads this, service, service.repository
    {
      service.Valid()
    }

    constructor (service: TodoItemsService)
      requires service.Valid()
      ensures Valid() && this.service == service
    {
      this.service := service;
    }

    /** GET api/TodoItems: always Ok, with the DTO of every stored record. */
    method GetTodoItems() returns (r: ActionResult)
      requires Valid()
      modifies service
      ensures Valid() && service.calls == old(service.calls) + [ListCall]
      ensures r.OkListResult? && IsDtoListingOf(r.values, service.repository.items)
    {
      var items := service.GetTodoItems();
      r := OkListResult(items);
    }

    /** GET api/TodoItems/{id}. */
    method GetTodoItem(id: Guid) returns (r: ActionResult)
      requires Valid()
      modifies service
      ensures Valid() && service.calls == old(service.calls) + [GetCall(id)]
      ensures id !in service.repository.items ==> r == NotFoundResult
      ensures id in service.repository.items ==> r == OkObjectResult(ToDto(service.repository.items[id]))
    {
      var task := service.GetTodoItem(id);
      var item := task.Result;
      r := FoundOrNotFound(item);
    }

    /**
      PUT api/TodoItems/{id}, as written: after a failed change the lookup is
      not awaited, so the test `is null` is applied to the Task object, which
      is never null. A change of a missing record therefore ends in
      BadRequest, never NotFound.
     */
    method PutTodoItem(id: Guid, todoItem: TodoItemDtoV1, save: SaveOutcome) returns (r: Raised<ActionResult>)
      requires Valid()
      modifies service, service.repository
      ensures Valid()
      ensures id != todoItem.id ==>
        && r == Returned(BadRequestResult)
        && service.calls == old(service.calls)
        && service.repository.items == old(service.repository.items)
      ensures id == todoItem.id && id in old(service.repository.items) && save == Ok ==>
        && r == Returned(NoContentResult)
        && service.calls == old(service.calls) + [ChangeCall(todoItem)]
        && service.repository.items == old(service.repository.items)[id := FromDto(todoItem)]
      ensures id == todoItem.id && id in old(service.repository.items) && save == Conflict ==>
        && r == Threw(ConcurrencyConflict)
        && service.calls == old(service.calls) + [ChangeCall(todoItem)]
        && service.repository.items == old(service.repository.items)
      ensures id == todoItem.id && id !in old(service.repository.items) ==>
        && r == Returned(BadRequestResult)
        && service.calls == old(service.calls) + [ChangeCall(todoItem), GetCall(id)]
        && service.repository.items == old(service.repository.items)
      ensures r != Returned(NotFoundResult)
    {
      if id != todoItem.id {
        return Returned(BadRequestResult);
      }
      var success := service.ChangeTodoItem(todoItem, save);
      if success.Threw? {
        return Threw(success.error);
      }
      if success.value {
        r := Returned(ChangedOrNot(true, false));
      } else {
        var pending: Task?<Option<TodoItemDtoV1>> := service.GetTodoItem(id);
        r := Returned(ChangedOrNot(false, pending == null));
      }
    }

    /**
      PUT api/TodoItems/{id} with the lookup awaited, as the controller's unit
      test expects: a change of a missing record ends in NotFound.
     */
    method PutTodoItemAwaited(id: Guid, todoItem: TodoItemDtoV1, save: SaveOutcome) returns (r: Raised<ActionResult>)
      requires Valid()
      modifies service, service.repository
      ensures Valid()
      ensures id != todoItem.id ==>
        && r == Returned(BadRequestResult)
        && service.calls == old(service.calls)
        && service.repository.items == old(service.repository.items)
      ensures id == todoItem.id && id in old(service.repository.items) && save == Ok ==>
        && r == Returned(NoContentResult)
        && service.calls == old(service.calls) + [ChangeCall(todoItem)]
        && service.repository.items == old(service.repository.items)[id := FromDto(todoItem)]
      ensures id == todoItem.id && id in old(service.repository.items) && save == Conflict ==>
        && r == Threw(ConcurrencyConflict)
        && service.calls == old(service.calls) + [ChangeCall(todoItem)]
        && service.repository.items == old(service.repository.items)
      ensures id == todoItem.id && id !in old(service.repository.items) ==>
        && r == Returned(NotFoundResult)
        && service.calls == old(service.calls) + [ChangeCall(todoItem), GetCall(id)]
        && service.repository.items == old(service.repository.items)
    {
      if id != todoItem.id {
        return Returned(BadRequestResult);
      }
      var success := service.ChangeTodoItem(todoItem, save);
      if success.Threw? {
        return Threw(success.error);
      }
      if success.value {
        r := Returned(ChangedOrNot(true, false));
      } else {
        var pending := service.GetTodoItem(id);
        r := Returned(ChangedOrNot(false, pending.Result == None));
      }
    }

    /** POST api/TodoItems, with `now` standing for the clock the service reads. */
    method PostTodoItem(todoItem: TodoItemDtoV1, now: DateTime) returns (r: Raised<ActionResult>)
      requires Valid()
      modifies service, service.repository
      ensures Valid() && service.calls == old(service.calls) + [CreateCall(todoItem)]
      ensures todoItem.id !in old(service.repository.items) ==>
        && r == Returned(CreatedAtActionResult("GetTodoItem", todoItem.id, todoItem))
        && service.repository.items == old(service.repository.items)[todoItem.id := FromDto(todoItem).(createdAt := now)]
      ensures todoItem.id in old(service.repository.items) ==>
        r == Threw(DuplicateKey) && service.repository.items == old(service.repository.items)
    {
      var created := service.CreateTodoItem(todoItem, now);
      match created
      case Threw(e) =>
        r := Threw(e);
      case Returned(item) =>
        r := Returned(CreatedOrBadRequest(item));
    }

    /** DELETE api/TodoItems/{id}: look up first, delete only what is there. */
    method DeleteTodoItem(id: Guid) returns (r: ActionResult)
      requires Valid()
      modifies service, service.repository
      ensures Valid()
      ensures id !in old(service.repository.items) ==>
        && r == NotFoundResult
        && service.calls == old(service.calls) + [GetCall(id)]
        && service.repository.items == old(service.repository.items)
      ensures id in old(service.repository.items) ==>
        && r == NoContentResult
        && service.calls == old(service.calls) + [GetCall(id), DeleteCall(id)]
        && service.repository.items == old(service.repository.items) - {id}
    {
      var task := service.GetTodoItem(id);
      if task.Result == None {
        return NotFoundResult;
      }
      var success := service.DeleteTodoItem(id);
      r := NoContentResult;
    }
  }
}
