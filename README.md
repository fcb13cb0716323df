# aspnet5-base-ef todo API in Dafny

A model of the todo-item REST API in `aspnet5-base-ef`. The API has four layers, modelled bottom-up:

- **Repository** (`TodoItemsRepository`). A class over the EF Core set of records, which is a `map<Guid, TodoItem>` field. Create, change and delete update it in place.
- **Profile** (`TodoProfile`). The AutoMapper field copy between `TodoItem` and `TodoItemDTOv1`, written as two functions.
- **Service** (`TodoItemsService`). It maps records to DTOs and back, stamps `CreatedAt` on create and delegates to the repository.
- **Controller** (`TodoItemsController`). One method per endpoint. Each turns the service's answers into an ASP.NET action result.

Modules follow the C# namespaces: `Models`, `DTOs`, `Profiles`, `Repositories`, `Services` and `Controllers`.

Three more modules support them:
- `Wrappers` holds `Option`, which stands for C#'s nullable references.
- `Async` holds `Task`, the object an `async` method returns.
- `Scenarios` drives all four layers over an empty store.

Outside inputs become values:
- The clock `DateTime.UtcNow` is the parameter `now`.
- What EF's `SaveChangesAsync` decides about an update is the injected `SaveOutcome` (`Ok | Conflict`). An update of an id that is not stored always conflicts. EF does this too, except for the empty Guid (see Left out).
- Exceptions that the code lets escape are `Raised.Threw`. These are the re-thrown concurrency conflict and the insert of a key that is already stored.

The service keeps a ghost log of the calls made on it (`calls`). With it, the controller contracts can say what a mock of the service could verify: "no service call", "delete called once". The controller's unit tests only check the type of the result.

Four things the code does that a reader may not expect, all modelled as the code does them:
- A PUT of a missing record answers BadRequest. The unit test at aspnet5-base-ef.UnitTests/TodoController.Tests.cs:114-138 expects NotFound (see Findings).
- A PUT writes the mapped DTO, so the stored `CreatedAt` goes back to `DateTime(0)`. It is not set only once.
- A POST keeps the Id the client sent.
- `Name` may be any string. Nothing in the code demands that it be non-empty.

The repository always returns the item it stored, so the BadRequest branch of POST cannot be reached through this stack. `Controllers.CreatedOrBadRequest` states that branch for a service that does return null.

In the same way, a change through this repository answers false only when the id is missing. So the PUT row "change false, record still found, BadRequest" cannot be reached through this stack. `Controllers.ChangedOrNot` states it for any service answers.

## Model

| member | source | states |
|---|---|---|
| Profiles.ToDto | aspnet5-base-ef/Profiles/TodoProfile.cs:12-21 | the DTO carries the record's Id, Name and IsComplete unchanged |
| Profiles.FromDto | aspnet5-base-ef/Profiles/TodoProfile.cs:22 | the reverse map copies Id, Name and IsComplete; CreatedAt is `DateTime(0)` and DeletedAt is null |
| Profiles.ToDtoOrNull | aspnet5-base-ef/Services/TodoService.cs:31 | mapping null gives null; mapping a record gives its DTO |
| Profiles.DtoRoundTrip | aspnet5-base-ef/Profiles/TodoProfile.cs:12-22 | DTO to record to DTO is the identity |
| Profiles.ModelRoundTrip | aspnet5-base-ef/Profiles/TodoProfile.cs:12-22 | record to DTO to record keeps Id, Name and IsComplete and resets CreatedAt and DeletedAt |
| Profiles.ModelRoundTripIdentity | aspnet5-base-ef/Profiles/TodoProfile.cs:12-22 | record to DTO to record gives back the record iff its CreatedAt is `DateTime(0)` and its DeletedAt is null |
| Profiles.ToDtoIgnoresTimestamps | aspnet5-base-ef/DTOs/TodoDTO.cs:8-31 | two records have the same DTO iff they agree on Id, Name and IsComplete |
| Repositories.TodoItemsRepository.constructor | aspnet5-base-ef/Repositories/TodoRepository.cs:13-16 | the repository starts from the injected context's records, each keyed by its own Id |
| Repositories.TodoItemsRepository.GetTodoItems | aspnet5-base-ef/Repositories/TodoRepository.cs:17-20 | the list has one entry per stored record, holds each record exactly once and holds nothing else |
| Repositories.TodoItemsRepository.GetTodoItem | aspnet5-base-ef/Repositories/TodoRepository.cs:21-25 | the result is the record stored under the id, whose Id is that id; it is null iff no record has the id |
| Repositories.TodoItemsRepository.CreateTodoItem | aspnet5-base-ef/Repositories/TodoRepository.cs:26-31 | for a new id it returns the very item and the store then maps its id to it; a stored id throws and changes nothing; keys stay equal to Ids |
| Repositories.UpdateOutcome | aspnet5-base-ef/Repositories/TodoRepository.cs:44-51 | saving the update of a missing row always conflicts; for a stored row the store's own check decides |
| Repositories.TodoItemsRepository.ChangeTodoItem | aspnet5-base-ef/Repositories/TodoRepository.cs:32-66 | stored id and clean save: true, and only that entry is replaced; a conflict on a stored id is re-thrown; a missing id gives false; neither conflict case changes the store |
| Repositories.TodoItemsRepository.DeleteTodoItem | aspnet5-base-ef/Repositories/TodoRepository.cs:67-78 | the answer is true iff the id was stored; afterwards the store is the old one without that id, so every other entry is untouched |
| Repositories.TodoItemsRepository.TodoItemExists | aspnet5-base-ef/Repositories/TodoRepository.cs:80-83 | some stored record carries the id iff the id is a key of the store |
| Services.MapAll | aspnet5-base-ef/Services/TodoService.cs:26 | the `Select` keeps length and order: the i-th DTO is the DTO of the i-th record |
| Services.MapAllOfListing | aspnet5-base-ef/Services/TodoService.cs:23-27 | mapping a listing of the store gives each stored record's DTO exactly once and nothing else |
| Services.TodoItemsService.constructor | aspnet5-base-ef/Services/TodoService.cs:17-21 | the service holds the injected repository and no call has been made yet |
| Services.TodoItemsService.GetTodoItems | aspnet5-base-ef/Services/TodoService.cs:23-27 | the result lists every stored record's DTO exactly once; the store is untouched |
| Services.TodoItemsService.GetTodoItem | aspnet5-base-ef/Services/TodoService.cs:29-32 | the task's result is null iff no record has the id, and otherwise is that record's DTO |
| Services.TodoItemsService.CreateTodoItem | aspnet5-base-ef/Services/TodoService.cs:34-40 | the record stored has the DTO's Id, Name and IsComplete and `CreatedAt = now`, whatever the input; the caller gets back its DTO; a stored id throws and changes nothing |
| Services.TodoItemsService.ChangeTodoItem | aspnet5-base-ef/Services/TodoService.cs:42-46 | returns exactly the repository's answer for the mapped record; a successful change stores `CreatedAt = DateTime(0)` and a null DeletedAt |
| Services.TodoItemsService.DeleteTodoItem | aspnet5-base-ef/Services/TodoService.cs:48-51 | the repository's answer and effect: true iff the id was stored, and the id is gone afterwards |
| Controllers.FoundOrNotFound | aspnet5-base-ef/Controllers/TodoController.cs:33-38 | NotFound exactly for a null item; otherwise Ok carrying the item |
| Controllers.CreatedOrBadRequest | aspnet5-base-ef/Controllers/TodoController.cs:73-79 | Created exactly for a non-null result, routed to GetTodoItem with the created item's own Id; BadRequest for null |
| Controllers.ChangedOrNot | aspnet5-base-ef/Controllers/TodoController.cs:53-65 | the PUT table after the id check: a true change is NoContent; a false change is NotFound when the lookup is null and BadRequest when it is not |
| Controllers.TodoItemsController.constructor | aspnet5-base-ef/Controllers/TodoController.cs:17-20 | the controller holds the injected service |
| Controllers.TodoItemsController.GetTodoItems | aspnet5-base-ef/Controllers/TodoController.cs:24-27 | always Ok, carrying every stored record's DTO exactly once |
| Controllers.TodoItemsController.GetTodoItem | aspnet5-base-ef/Controllers/TodoController.cs:31-39 | NotFound iff no record has the id; otherwise Ok with that record's DTO |
| Controllers.TodoItemsController.PutTodoItem | aspnet5-base-ef/Controllers/TodoController.cs:44-66 | mismatched ids: BadRequest, no service call, store unchanged; clean change: NoContent; conflict on a stored record: re-thrown; missing record: BadRequest after a change call and a lookup; never NotFound |
| Controllers.TodoItemsController.PutTodoItemAwaited | aspnet5-base-ef.UnitTests/TodoController.Tests.cs:113-138 | as PutTodoItem, except that a missing record gives NotFound |
| Controllers.TodoItemsController.PostTodoItem | aspnet5-base-ef/Controllers/TodoController.cs:71-80 | a new id gives Created with route id equal to the item's Id, and the record is stored stamped with `now`; a stored id throws and changes nothing |
| Controllers.TodoItemsController.DeleteTodoItem | aspnet5-base-ef/Controllers/TodoController.cs:84-94 | missing id: NotFound after one lookup and no delete, store unchanged; stored id: NoContent after one lookup and one delete, and the id is gone |
| Scenarios.BuyMilk | aspnet5-base-ef/Controllers/TodoController.cs:22-94 | over an empty store, POST, GET, PUT, GET, DELETE, GET give Created, Ok, NoContent, Ok with IsComplete true, NoContent, NotFound; CreatedAt is `now` after the POST and `DateTime(0)` after the PUT |
| Scenarios.PutOfMissingItem | aspnet5-base-ef/Controllers/TodoController.cs:57-60 | a PUT of a missing id answers BadRequest as written and NotFound once the lookup is awaited |

## Findings

| source | as written | input that shows it | evidently intended | confidence | as-written member | corrected member |
|---|---|---|---|---|---|---|
| aspnet5-base-ef/Controllers/TodoController.cs:57 | `_service.GetTodoItem(id) is null` is not awaited. It tests the returned Task, which is never null, so the NotFound branch is dead. | PUT `api/TodoItems/X` with body Id `X` when no record has Id `X`. The change answers false and the endpoint answers BadRequest. | NotFound, as the unit test at aspnet5-base-ef.UnitTests/TodoController.Tests.cs:114-138 expects with a mocked service. Over one EF context, adding `await` alone would still find the entity that the failed Update left tracked, and answer BadRequest. | high; not executed | Controllers.TodoItemsController.PutTodoItem (its `ensures r != Returned(NotFoundResult)`), Scenarios.PutOfMissingItem | Controllers.TodoItemsController.PutTodoItemAwaited |

## Left out

- Startup, Program, the dependency-injection container, Swagger, Serilog, HTTPS and routing. They are framework plumbing. The constructors take the injected objects directly.
- `ITodoItemsService` and `ITodoItemsRepository` only declare signatures. The classes are used directly.
- EF Core internals. `SaveChangesAsync` and change tracking are replaced by the map and the injected `SaveOutcome`. Which conflicts the store's concurrency check raises is not modelled. It is an input.
- Controllers.TodoItemsController.PutTodoItemAwaited: its NotFound for a missing record relies on the map having no change tracker. In EF, the failed `Update` leaves the entity tracked, and `FindAsync` returns tracked entities before it queries the store. So over one context the awaited lookup would find the entity and the endpoint would answer BadRequest. The NotFound is what the unit test expects with a mocked service.
- Repositories.TodoItemsRepository.GetTodoItems: the order in which the store enumerates its records is not modelled. The contract promises the set of records, each once, in some order.
- Repositories.TodoItemsRepository.CreateTodoItem: EF reports several different exceptions for a key that is already stored or tracked. They are all one `DuplicateKey`.
- Id generation by `[DatabaseGenerated(Identity)]` is not modelled. Every Id is the one supplied, so a POST with the empty Guid keeps it.
- Repositories.TodoItemsRepository.ChangeTodoItem: an update whose Id is the empty Guid is treated like any other missing id (a conflict, answer false). EF would track it as a new entity, insert it under a generated Guid and answer true.
- Controllers.TodoItemsController.PutTodoItem: for `PUT api/TodoItems/00000000-0000-0000-0000-000000000000` with an empty body Id, the model answers BadRequest and leaves the store unchanged. EF would insert a new record and the endpoint would answer NoContent. The same holds for PutTodoItemAwaited, which answers NotFound there.
- `DateTime.UtcNow` is the parameter `now`.
- AutoMapper's reflection and the injected `IMapper`. The three-field copy is written by hand.
- async execution and concurrent requests on the shared store. Every call runs to completion in sequence. Only the service's GetTodoItem returns a `Task`, because one of its callers uses the Task itself. The other async methods are modelled by their awaited results.
- An exception that escapes a controller is returned as `Threw`. The status code the host then sends (500) is not modelled.
- `Debug.Assert(success)` in DELETE. The result is NoContent either way.
- `[Required]` on `TodoItem`. The model cannot represent a null Name: `name` is always a string. Model binding of the request body is not modelled.
- DeletedAt is carried in the record but has no behaviour, as in the code.
- The integration tests and their seed data, which work over HTTP.
