/**
  TodoItemsRepository (aspnet5-base-ef/Repositories/TodoRepository.cs). The
  EF Core set `_context.TodoItems` is the map `items` from key to record; what
  `SaveChangesAsync` reports about an update is an injected `SaveOutcome`.
 */
module Repositories {
  import opened Wrappers
  import opened Models

  /** What the store's optimistic check says when the pending update is saved. */
  datatype SaveOutcome = Ok | Conflict

  /** The exceptions the repository lets escape to its callers. */
  datatype StoreError =
    | ConcurrencyConflict  // a conflicting update of a record that is still stored (re-thrown)
    | DuplicateKey         // an insert whose key the store already holds

  /** The result of a call that either returns or throws. */
  datatype Raised<+T> = Returned(value: T) | Threw(error: StoreError)

  /** Every record is stored under its own Id, the entity's key. */
  ghost predicate KeyedById(m: map<Guid, TodoItem>) {
    forall id :: id in m ==> m[id].id == id
  }

  /** `list` enumerates the records of `m`, each exactly once, in some order. */
  ghost predicate IsListingOf(list: seq<TodoItem>, m: map<Guid, TodoItem>) {
    && |list| == |m|
    && (forall i :: 0 <= i < |list| ==> list[i].id in m && m[list[i].id] == list[i])
    && (forall i, j :: 0 <= i < j < |list| ==> list[i].id != list[j].id)
    && (forall id :: id in m ==> m[id] in list)
  }

  /**
    Once the tracked update is saved, the store reports a conflict whenever
    the row is missing (EF cannot update a row that is not there) and
    otherwise whatever its concurrency check decides. Every Id is taken as
    supplied: EF would instead insert a record whose Id is the empty Guid
    under a generated key, which this model does not do.
   */
  function UpdateOutcome(present: bool, save: SaveOutcome): (r: SaveOutcome)
    ensures !present ==> r == Conflict
    ensures present ==> r == save
  {
    if present then save else Conflict
  }

  class TodoItemsRepository {
    var items: map<Guid, TodoItem>

    ghost predicate Valid()
      reads this
    {
      KeyedById(items)
    }

    /** The context handed in by dependency injection, seen as its contents. */
    constructor (initial: map<Guid, TodoItem>)
      requires KeyedById(initial)
      ensures Valid() && items == initial
    {
      items := initial;
    }

    /** `ToListAsync`: every stored record once, in the store's enumeration order. */
    method GetTodoItems() returns (list: seq<TodoItem>)
      requires Valid()
      ensures IsListingOf(list, items)
    {
      var pending := items.Keys;
      list := [];
      while pending != {}
        invariant pending <= items.Keys
        invariant |list| + |pending| == |items|
        invariant forall i :: 0 <= i < |list| ==> list[i].id in items && items[list[i].id] == list[i] && list[i].id !in pending
        invariant forall i, j :: 0 <= i < j < |list| ==> list[i].id != list[j].id
        invariant forall id :: id in items && id !in pending ==> items[id] in list
        decreases pending
      {
        var id :| id in pending;
        list := list + [items[id]];
        pending := pending - {id};
      }
    }

    /** `FindAsync(id)`: the record stored under `id`, or null. */
    function GetTodoItem(id: Guid): (r: Option<TodoItem>)
      requires Valid()
      reads this
      ensures r.Some? <==> id in items
      ensures r.Some? ==> r.value == items[id] && r.value.id == id
    {
      if id in items then Some(items[id]) else None
    }

    /** `Add` then `SaveChangesAsync`; the item itself is returned. */
    method CreateTodoItem(item: TodoItem) returns (r: Raised<Option<TodoItem>>)
      requires Valid()
      modifies this
      ensures Valid()
      ensures item.id !in old(items) ==> r == Returned(Some(item)) && items == old(items)[item.id := item]
      ensures item.id in old(items) ==> r == Threw(DuplicateKey) && items == old(items)
    {
      if item.id in items {
        r := Threw(DuplicateKey);
        return;
      }
      items := items[item.id := item];
      r := Returned(Some(item));
    }

    /**
      `Update` then `SaveChangesAsync`. A clean save replaces the record and
      answers true. On a conflict the answer is false if no record has the id
      any more; otherwise the conflict is re-thrown. A conflict changes nothing.
     */
    method ChangeTodoItem(item: TodoItem, save: SaveOutcome) returns (r: Raised<bool>)
      requires Valid()
      modifies this
      ensures Valid()
      ensures item.id in old(items) && save == Ok ==> r == Returned(true) && items == old(items)[item.id := item]
      ensures item.id in old(items) && save == Conflict ==> r == Threw(ConcurrencyConflict) && items == old(items)
      ensures item.id !in old(items) ==> r == Returned(false) && items == old(items)
    {
      var outcome := UpdateOutcome(item.id in items, save);
      match outcome
      case Ok =>
        items := items[item.id := item];
        r := Returned(true);
      case Conflict =>
        if !TodoItemExists(item.id) {
          r := Returned(false);
        } else {
          r := Threw(ConcurrencyConflict);
        }
    }

    /** Look the id up; if it is stored, `Remove` it and save. */
    method DeleteTodoItem(id: Guid) returns (r: bool)
      requires Valid()
      modifies this
      ensures Valid()
      ensures r <==> id in old(items)
      ensures items == old(items) - {id}
    {
      var todoItem := GetTodoItem(id);
      if todoItem == None {
        return false;
      }
      items := items - {todoItem.value.id};
      return true;
    }

    /** `Any(e => e.Id == id)`: some stored record carries the id. */
    function TodoItemExists(id: Guid): (r: bool)
      requires Valid()
      reads this
      ensures r <==> id in items
    {
      exists item | item in items.Values :: item.id == id
    }
  }
}
