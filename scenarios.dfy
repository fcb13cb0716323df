/**
  Whole requests through controller, service and repository over an empty
  store, as a client of the API sees them.
 */
module Scenarios {
  import opened Models
  import opened DTOs
  import opened Repositories
  import opened Controllers
  import opened Services

  /**
    Create "Buy milk", read it, mark it complete, read it, delete it, read it.
    The stored CreatedAt is the clock value after the POST and the default
    after the PUT.
   */
  method BuyMilk(id: Guid, now: DateTime)
    returns (post: Raised<ActionResult>, get1: ActionResult, put: Raised<ActionResult>,
             get2: ActionResult, delete: ActionResult, get3: ActionResult,
             createdAtAfterPost: DateTime, createdAtAfterPut: DateTime)
    ensures post == Returned(CreatedAtActionResult("GetTodoItem", id, TodoItemDtoV1(id, "Buy milk", false)))
    ensures get1 == OkObjectResult(TodoItemDtoV1(id, "Buy milk", false))
    ensures createdAtAfterPost == now
    ensures put == Returned(NoContentResult)
    ensures get2 == OkObjectResult(TodoItemDtoV1(id, "Buy milk", true))
    ensures createdAtAfterPut == MinValue
    ensures delete == NoContentResult
    ensures get3 == NotFoundResult
  {
    var repository := new TodoItemsRepository(map[]);
    var service := new TodoItemsService(repository);
    var controller := new TodoItemsController(service);
    post := controller.PostTodoItem(TodoItemDtoV1(id, "Buy milk", false), now);
    createdAtAfterPost := repository.items[id].createdAt;
    get1 := controller.GetTodoItem(id);
    put := controller.PutTodoItem(id, TodoItemDtoV1(id, "Buy milk", true), Ok);
    createdAtAfterPut := repository.items[id].createdAt;
    get2 := controller.GetTodoItem(id);
    delete := controller.DeleteTodoItem(id);
    get3 := controller.GetTodoItem(id);
  }

  /**
    PUT of an id no record has: the controller as written answers BadRequest,
    the one that awaits its lookup answers NotFound.
   */
  method PutOfMissingItem(item: TodoItemDtoV1, save: SaveOutcome)
    returns (asWritten: Raised<ActionResult>, awaited: Raised<ActionResult>)
    ensures asWritten == Returned(BadRequestResult)
    ensures awaited == Returned(NotFoundResult)
  {
    var repository := new TodoItemsRepository(map[]);
    var service := new TodoItemsService(repository);
    var controller := new TodoItemsController(service);
    asWritten := controller.PutTodoItem(item.id, item, save);
    awaited := controller.PutTodoItemAwaited(item.id, item, save);
  }
}
