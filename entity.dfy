/**
 * Records of the relational store: column values, the mapped objects the
 * repository hands out, and the update payloads it accepts.
 */
module Entities {

  /** The name of the one attribute `update` refuses to overwrite. */
  const IdField: string := "id"

  /** A column value. */
  datatype Value = Null | Int(i: int) | Str(s: string) | Bool(b: bool)

  /**
   * A mapped object (an ORM instance). `attrs` holds one entry per mapped
   * attribute, so `hasattr(obj, f)` is `f in obj.attrs`; `setattr` changes it in place.
   */
  class Entity {
    var attrs: map<string, Value>

    constructor (attrs: map<string, Value>)
      ensures this.attrs == attrs
    {
      this.attrs := attrs;
    }
  }

  /** A caller's dictionary, which `update` mutates in place. */
  class Dict {
    var items: map<string, Value>

    constructor (items: map<string, Value>)
      ensures this.items == items
    {
      this.items := items;
    }
  }

  /**
   * The input of `update`: a plain dictionary (shared with the caller), or a
   * schema object of which only the explicitly set fields take part.
   */
  datatype Payload = FromDict(dict: Dict) | FromSchema(setFields: map<string, Value>)
  {
    /** The objects an update through this payload may change. */
    function Frame(): (objs: set<object>)
    {
      if FromDict? then {dict} else {}
    }

    /** The key/value pairs the payload supplies. */
    function Data(): (data: map<string, Value>)
      reads Frame()
    {
      match this
      case FromDict(d) => d.items
      case FromSchema(f) => f
    }
  }

  /** `e` carries the primary key `id`. */
  predicate HasId(e: Entity, id: int)
    reads e
  {
    IdField in e.attrs && e.attrs[IdField] == Int(id)
  }
}
