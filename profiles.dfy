/**
  The AutoMapper profile (aspnet5-base-ef/Profiles/TodoProfile.cs): a
  field-for-field map from TodoItem to TodoItemDtoV1 on Id, Name and
  IsComplete, and its `ReverseMap`, which leaves the members the DTO does not
  have at their defaults.
 */
module Profiles {
  import opened Wrappers
  import opened Models
  import opened DTOs

  function ToDto(item: TodoItem): (dto: TodoItemDtoV1)
    ensures dto.id == item.id && dto.name == item.name && dto.isComplete == item.isComplete
  {
    TodoItemDtoV1(item.id, item.name, item.isComplete)
  }

  function FromDto(dto: TodoItemDtoV1): (item: TodoItem)
    ensures item.id == dto.id && item.name == dto.name && item.isComplete == dto.isComplete
    ensures item.createdAt == MinValue && item.deletedAt == None
  {
    TodoItem(dto.id, dto.name, dto.isComplete, MinValue, None)
  }

  /** `Map<TodoItemDTOv1>(null)` is `null`; a record maps to its DTO. */
  function ToDtoOrNull(item: Option<TodoItem>): (dto: Option<TodoItemDtoV1>)
    ensures dto.Some? <==> item.Some?
    ensures item.Some? ==> dto.value == ToDto(item.value)
  {
    match item
    case None => None
    case Some(model) => Some(ToDto(model))
  }

  /** DTO -> model -> DTO gives back the DTO. */
  lemma DtoRoundTrip(dto: TodoItemDtoV1)
    ensures ToDto(FromDto(dto)) == dto
  {
  }

  /** Model -> DTO -> model keeps Id, Name and IsComplete and resets the two timestamps. */
  lemma ModelRoundTrip(item: TodoItem)
    ensures FromDto(ToDto(item)) == item.(createdAt := MinValue, deletedAt := None)
  {
  }

  /** Model -> DTO -> model is the identity exactly on records whose timestamps are the defaults. */
  lemma ModelRoundTripIdentity(item: TodoItem)
    ensures FromDto(ToDto(item)) == item <==> item.createdAt == MinValue && item.deletedAt == None
  {
  }

  /** The DTO hides the timestamps: two records have the same DTO iff they agree on Id, Name and IsComplete. */
  lemma ToDtoIgnoresTimestamps(a: TodoItem, b: TodoItem)
    ensures ToDto(a) == ToDto(b) <==> a.id == b.id && a.name == b.name && a.isComplete == b.isComplete
  {
  }
}
