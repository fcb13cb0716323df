/**
  TodoItemsService (aspnet5-base-ef/Services/TodoService.cs): maps between
  records and DTOs around the repository, and stamps CreatedAt on create. The
  clock `DateTime.UtcNow` is the parameter `now`.
 */
module Services {
  import opened Wrappers
  import opened Models
  import opened DTOs
  import opened Profiles
  import opened Async
  import opened Repositories

  /** A call made on the service, as a mock of the service would record it. */
  datatype ServiceCall =
    | ListCall
    | GetCall(id: Guid)
    | CreateCall(item: TodoItemDtoV1)
    | ChangeCall(item: TodoItemDtoV1)
    | DeleteCall(id: Guid)

  /** `models.Select(_mapper.Map<TodoItem, TodoItemDTOv1>).ToList()`: same length, same order, element by element. */
  function MapAll(models: seq<TodoItem>): (dtos: seq<TodoItemDtoV1>)
    ensures |dtos| == |models|
    ensures forall i :: 0 <= i < |models| ==> dtos[i] == ToDto(models[i])
  {
    if models == [] then [] else [ToDto(models[0])] + MapAll(models[1..])
  }

  /** `dtos` holds the DTO of every record of `m`, each exactly once, in some order. */
  ghost predicate IsDtoListingOf(dtos: seq<TodoItemDtoV1>, m: map<Guid, TodoItem>) {
    && |dtos| == |m|
    && (forall i :: 0 <= i < |dtos| ==> dtos[i].id in m && dtos[i] == ToDto(m[dtos[i].id]))
    && (forall i, j :: 0 <= i < j < |dtos| ==> dtos[i].id != dtos[j].id)
    && (forall id :: id in m ==> ToDto(m[id]) in dtos)
  }

  /** Mapping a listing of the store element by element gives a listing of the store's DTOs. */
  lemma MapAllOfListing(models: seq<TodoItem>, m: map<Guid, TodoItem>)
    requires IsListingOf(models, m)
    ensures IsDtoListingOf(MapAll(models), m)
  {
  }

  class TodoItemsService {
    const repository: TodoItemsRepository
    /** Every call made on this service so far, oldest first. */
    ghost var calls: seq<ServiceCall>

    ghost predicate Valid()
      reads this, repository
    {
      repository.Valid()
    }

    constructor (repository: TodoItemsRepository)
      requires repository.Valid()
      ensures Valid() && this.repository == repository && calls == []
    {
      this.repository := repository;
      calls := [];
    }

    method GetTodoItems() returns (dtos: seq<TodoItemDtoV1>)
      requires Valid()
      modifies this
      ensures Valid() && calls == old(calls) + [ListCall]
      ensures IsDtoListingOf(dtos, repository.items)
    {
      calls := calls + [ListCall];
      var models := repository.GetTodoItems();
      dtos := MapAll(models);
      MapAllOfListing(models, repository.items);
    }

    /** Hands back the Task of the lookup; its result is null exactly when no record has the id. */
    method GetTodoItem(id: Guid) returns (task: Task<Option<TodoItemDtoV1>>)
      requires Valid()
      modifies this
      ensures Valid() && calls == old(calls) + [GetCall(id)]
      ensures task.Result.Some? <==> id in repository.items
      ensures task.Result.Some? ==> task.Result.value == ToDto(repository.items[id])
    {
      calls := calls + [GetCall(id)];
      task := new Task.FromResult(ToDtoOrNull(repository.GetTodoItem(id)));
    }

    /**
      Map the DTO to a record, stamp CreatedAt with `now`, store it, and map
      the stored record back: the caller gets its own DTO back.
     */
    method CreateTodoItem(item: TodoItemDtoV1, now: DateTime) returns (r: Raised<Option<TodoItemDtoV1>>)
      requires Valid()
      modifies this, repository
      ensures Valid() && calls == old(calls) + [CreateCall(item)]
      ensures item.id !in old(repository.items) ==>
        && r == Returned(Some(item))
        && repository.items == old(repository.items)[item.id := FromDto(item).(createdAt := now)]
      ensures item.id in old(repository.items) ==>
        r == Threw(DuplicateKey) && repository.items == old(repository.items)
    {
      calls := calls + [CreateCall(item)];
      var itemModel := FromDto(item);
      itemModel := itemModel.(createdAt := now);
      var stored := repository.CreateTodoItem(itemModel);
      match stored
      case Threw(e) =>
        r := Threw(e);
      case Returned(model) =>
        r := Returned(ToDtoOrNull(model));
    }

    /**
      Map the DTO to a record and hand it to the repository. The record
      written carries the default CreatedAt and no DeletedAt, so a change
      resets the creation stamp.
     */
    method ChangeTodoItem(item: TodoItemDtoV1, save: SaveOutcome) returns (r: Raised<bool>)
      requires Valid()
      modifies this, repository
      ensures Valid() && calls == old(calls) + [ChangeCall(item)]
      ensures item.id in old(repository.items) && save == Ok ==>
        r == Returned(true) && repository.items == old(repository.items)[item.id := FromDto(item)]
      ensures item.id in old(repository.items) && save == Conflict ==>
        r == Threw(ConcurrencyConflict) && repository.items == old(repository.items)
      ensures item.id !in old(repository.items) ==>
        r == Returned(false) && repository.items == old(repository.items)
      ensures r == Returned(true) ==>
        repository.items[item.id].createdAt == MinValue && repository.items[item.id].deletedAt == None
    {
      calls := calls + [ChangeCall(item)];
      var itemModel := FromDto(item);
      r := repository.ChangeTodoItem(itemModel, save);
    }

    method DeleteTodoItem(id: Guid) returns (r: bool)
      requires Valid()
      modifies this, repository
      ensures Valid() && calls == old(calls) + [DeleteCall(id)]
      ensures r <==> id in old(repository.items)
      ensures repository.items == old(repository.items) - {id}
    {
      calls := calls + [DeleteCall(id)];
      r := repository.DeleteTodoItem(id);
    }
  }
}
