/**
 * The partial-update merge of `CRUDBase.update`, as functions on attribute
 * maps, and what it promises: the key `id` never changes, attributes the
 * payload does not name keep their values, the ones it names take the
 * payload's values, and payload names the object lacks are ignored.
 */
module PartialUpdates {
  import opened Entities

  /**
   * What the attribute loop of `update` does to an object's attributes:
   * every attribute that `data` names takes `data`'s value; names the
   * object lacks are ignored.
   */
  function Assign(attrs: map<string, Value>, data: map<string, Value>): (r: map<string, Value>)
    ensures r.Keys == attrs.Keys
    ensures forall k :: k in attrs && k in data ==> r[k] == data[k]
    ensures forall k :: k in attrs && k !in data ==> r[k] == attrs[k]
  {
    map k | k in attrs :: if k in data then data[k] else attrs[k]
  }

  /**
   * The whole partial update: `id` is dropped from the payload, then the rest
   * assigned. It differs from assigning the whole payload only at `id`.
   */
  function PartialUpdate(attrs: map<string, Value>, data: map<string, Value>): (r: map<string, Value>)
    ensures r.Keys == attrs.Keys
    ensures forall k :: k in attrs && k != IdField ==> r[k] == Assign(attrs, data)[k]
    ensures IdField in attrs ==> r[IdField] == attrs[IdField]
  {
    Assign(attrs, data - {IdField})
  }

  /** The primary key survives an update, even one whose payload names `id`. */
  lemma UpdateKeepsId(attrs: map<string, Value>, data: map<string, Value>)
    ensures IdField in attrs <==> IdField in PartialUpdate(attrs, data)
    ensures IdField in attrs ==> PartialUpdate(attrs, data)[IdField] == attrs[IdField]
  {
  }

  /** No attribute appears or disappears: unknown payload names are dropped silently. */
  lemma UpdateAddsNoFields(attrs: map<string, Value>, data: map<string, Value>)
    ensures PartialUpdate(attrs, data).Keys == attrs.Keys
  {
  }

  /** An attribute the payload does not name keeps its value. */
  lemma UpdateKeepsUnnamed(attrs: map<string, Value>, data: map<string, Value>, k: string)
    requires k in attrs && k !in data
    ensures PartialUpdate(attrs, data)[k] == attrs[k]
  {
  }

  /** An attribute other than `id` that the payload names takes the payload's value. */
  lemma UpdateOverwritesNamed(attrs: map<string, Value>, data: map<string, Value>, k: string)
    requires k in attrs && k in data && k != IdField
    ensures PartialUpdate(attrs, data)[k] == data[k]
  {
  }

  /** Repeating an update changes nothing more. */
  lemma UpdateIdempotent(attrs: map<string, Value>, data: map<string, Value>)
    ensures PartialUpdate(PartialUpdate(attrs, data), data) == PartialUpdate(attrs, data)
  {
  }

  /**
   * Two updates in a row are one update with the merged payload, the later
   * value winning where both name an attribute.
   */
  lemma UpdatesCompose(attrs: map<string, Value>, first: map<string, Value>, second: map<string, Value>)
    ensures PartialUpdate(PartialUpdate(attrs, first), second) == PartialUpdate(attrs, first + second)
  {
  }

  /**
   * Only the literal name `id` is protected: an entity keyed by another
   * column, such as a category's `category_cd`, has that key overwritten.
   */
  lemma OtherKeysNotProtected(attrs: map<string, Value>, code: Value)
    requires "category_cd" in attrs
    ensures PartialUpdate(attrs, map["category_cd" := code])["category_cd"] == code
  {
  }
}
