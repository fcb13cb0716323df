/** The wire model (aspnet5-base-ef/DTOs/TodoDTO.cs): the record without its timestamps. */
module DTOs {
  import opened Models

  datatype TodoItemDtoV1 = TodoItemDtoV1(id: Guid, name: string, isComplete: bool)
}
