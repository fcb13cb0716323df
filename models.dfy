/** The persistence model (aspnet5-base-ef/Models/TodoItem.cs). */
module Models {
  import opened Wrappers

  /** A 128-bit `System.Guid`; only equality of ids matters here. */
  newtype Guid = x: int | 0 <= x < 0x1_0000_0000_0000_0000_0000_0000_0000_0000

  /** `System.DateTime` counts 100-nanosecond ticks from 0001-01-01 up to DateTime.MaxValue. */
  newtype Ticks = t: int | 0 <= t <= 3_155_378_975_999_999_999

  datatype DateTime = DateTime(ticks: Ticks)

  /** `new DateTime(0)`, the value a `DateTime` property holds until it is assigned. */
  const MinValue: DateTime := DateTime(0)

  /** One stored record. `deletedAt` is carried but no operation reads or writes it. */
  datatype TodoItem = TodoItem(
    id: Guid,
    name: string,
    isComplete: bool,
    createdAt: DateTime,
    deletedAt: Option<DateTime>)
}
