/**
 * The generic record every domain object is built on: a dict from field
 * names to values, whose attribute access reads an absent field as None.
 */
module Entities {
  import opened Json

  type Entity = map<string, Value>

  /**
   * Attribute access `entity.name` for a name that neither dict nor the
   * record class defines: such a lookup falls through to `dict.get`.
   */
  function Attr(e: Entity, name: string): Value {
    if name in e then e[name] else Null
  }

  /** `entity.id` */
  function Id(e: Entity): Value {
    Attr(e, "id")
  }
}
