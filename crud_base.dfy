/**
 * The generic repository `CRUDBase`: get, get_all, create, update and delete
 * for one mapped entity type, over its table held as a sequence of mapped
 * objects in storage order.
 */
module CrudBase {
  import opened Wrappers
  import opened Entities
  import opened PartialUpdates

  /** Default paging arguments of `get_all`. */
  const DefaultSkip: nat := 0
  const DefaultLimit: nat := 100

  /** The errors `create` lets escape to its caller. */
  datatype Fault =
    | TypeError       // the model constructor was given a keyword that is not a mapped attribute
    | DataError       // the primary key value is not an integer
    | IntegrityError  // the primary key is already taken

  /**
   * The position of the first row carrying primary key `id`: the
   * `filter(model.id == id)` query followed by `first()`.
   */
  function FindFirst(rows: seq<Entity>, id: int): (r: Option<nat>)
    reads rows
    ensures r.Some? ==> r.value < |rows| && HasId(rows[r.value], id)
    ensures r.Some? ==> forall j :: 0 <= j < r.value ==> !HasId(rows[j], id)
    ensures r.None? <==> forall j :: 0 <= j < |rows| ==> !HasId(rows[j], id)
    decreases |rows|
  {
    if rows == [] then None
    else if HasId(rows[0], id) then Some(0)
    else match FindFirst(rows[1..], id)
      case None => None
      case Some(i) => Some(i + 1)
  }

  /** The smaller of two numbers. */
  function Min(a: int, b: int): int
  {
    if a <= b then a else b
  }

  /** The primary key `create` inserts with: the one supplied, or else the generated one. */
  function NewKey(fields: map<string, Value>, generated: int): (k: Value)
    ensures k != Null
    ensures k == Int(generated) || (IdField in fields && k == fields[IdField])
    ensures IdField !in fields ==> k == Int(generated)
  {
    if IdField in fields && fields[IdField] != Null then fields[IdField] else Int(generated)
  }

  /**
   * The attributes of a freshly inserted row: the explicitly set fields, the
   * key, and `Null` for every other column.
   */
  function Materialize(columns: set<string>, fields: map<string, Value>, generated: int): (a: map<string, Value>)
    requires IdField in columns
    ensures a.Keys == columns
    ensures a[IdField] == NewKey(fields, generated)
    ensures forall c :: c in columns && c != IdField && c in fields ==> a[c] == fields[c]
    ensures forall c :: c in columns && c != IdField && c !in fields ==> a[c] == Null
  {
    map c | c in columns :: if c == IdField then NewKey(fields, generated) else if c in fields then fields[c] else Null
  }

  /**
   * What the database keeps true of a table keyed by an integer `id`: every
   * row has exactly the mapped attributes, an integer key, and no two rows
   * share a key.
   */
  ghost predicate WellKeyed(columns: set<string>, rows: seq<Entity>)
    reads rows
  {
    && IdField in columns
    && (forall i :: 0 <= i < |rows| ==> rows[i].attrs.Keys == columns && rows[i].attrs[IdField].Int?)
    && (forall i, j :: 0 <= i < |rows| && 0 <= j < |rows| && i != j ==>
          rows[i].attrs[IdField] != rows[j].attrs[IdField])
  }

  /** A repository bound to one entity type, with the table of that type. */
  class Repository {
    /** The mapped attributes of the entity type. */
    const columns: set<string>
    /** The table, in storage order. */
    var rows: seq<Entity>

    /** The table's invariant: every row has exactly the mapped attributes and a distinct integer key. */
    ghost predicate Valid()
      reads this, rows
    {
      WellKeyed(columns, rows)
    }

    /** Binds a repository to the mapped attributes of one entity type and its table as it stands. */
    constructor (columns: set<string>, table: seq<Entity>)
      requires WellKeyed(columns, table)
      ensures this.columns == columns && rows == table
      ensures Valid()
    {
      this.columns := columns;
      rows := table;
    }

    /** `get(id)`: the row with primary key `id`, if there is one; nothing changes. */
    function Get(id: int): (r: Option<Entity>)
      reads this, rows
      ensures r.Some? ==> r.value in rows && HasId(r.value, id)
      ensures r.None? <==> forall e :: e in rows ==> !HasId(e, id)
    {
      match FindFirst(rows, id)
      case None => None
      case Some(i) => Some(rows[i])
    }

    /**
     * `get_all(skip, limit)`: at most `limit` rows, the contiguous run of
     * the table that starts at position `skip`.
     */
    function GetAll(skip: nat, limit: nat): (r: seq<Entity>)
      reads this
      ensures |r| <= limit
      ensures skip >= |rows| ==> r == []
      ensures skip < |rows| ==> |r| == Min(limit, |rows| - skip)
      ensures forall k :: 0 <= k < |r| ==> r[k] == rows[skip + k]
    {
      if skip >= |rows| then []
      else if limit <= |rows| - skip then rows[skip..skip + limit]
      else rows[skip..]
    }

    /**
     * `create(obj_in)`: builds a row from the explicitly set fields and
     * inserts it. `generated` is the key the database would assign.
     */
    method Create(fields: map<string, Value>, generated: int) returns (r: Result<Entity, Fault>)
      requires Valid()
      modifies this
      ensures Valid()
      ensures !(fields.Keys <= columns) ==> r == Failure(TypeError)
      ensures fields.Keys <= columns && !NewKey(fields, generated).Int? ==> r == Failure(DataError)
      ensures fields.Keys <= columns && NewKey(fields, generated).Int? ==>
                (r == Failure(IntegrityError) <==> old(Get(NewKey(fields, generated).i)).Some?)
      ensures r.Success? <==> fields.Keys <= columns && NewKey(fields, generated).Int?
                              && old(Get(NewKey(fields, generated).i)).None?
      ensures r.Failure? ==> rows == old(rows)
      ensures r.Success? ==> fresh(r.value) && rows == old(rows) + [r.value]
      ensures r.Success? ==> r.value.attrs == Materialize(columns, fields, generated)
      ensures r.Success? ==> Get(r.value.attrs[IdField].i) == Some(r.value)
    {
      if !(fields.Keys <= columns) {
        return Failure(TypeError);
      }
      var key := NewKey(fields, generated);
      if !key.Int? {
        return Failure(DataError);
      }
      if Get(key.i).Some? {
        return Failure(IntegrityError);
      }
      var e := new Entity(Materialize(columns, fields, generated));
      rows := rows + [e];
      FindFirstAppend(old(rows), e, key.i);
      r := Success(e);
    }

    /**
     * `update(db_obj, obj_in)`: drops `id` from the payload (from the
     * caller's own dictionary when a dictionary is given), then sets every
     * remaining payload key that `obj` has as an attribute.
     */
    method Update(obj: Entity, input: Payload) returns (r: Entity)
      modifies obj, input.Frame()
      ensures r == obj
      ensures obj.attrs == PartialUpdate(old(obj.attrs), old(input.Data()))
      ensures input.FromDict? ==> input.dict.items == old(input.dict.items) - {IdField}
      ensures old(Valid()) ==> Valid()
    {
      var data := input.Data();
      data := data - {IdField};
      if input.FromDict? {
        input.dict.items := data;
      }
      var pending := data.Keys;
      while pending != {}
        invariant pending <= data.Keys
        invariant obj.attrs.Keys == old(obj.attrs).Keys
        invariant forall k :: k in obj.attrs ==>
          obj.attrs[k] == if k in data && k !in pending then data[k] else old(obj.attrs)[k]
        invariant input.FromDict? ==> input.dict.items == data
        decreases pending
      {
        var k :| k in pending;
        if k in obj.attrs {
          obj.attrs := obj.attrs[k := data[k]];
        }
        pending := pending - {k};
      }
      r := obj;
      assert data == old(input.Data()) - {IdField};
      assert obj.attrs == Assign(old(obj.attrs), data);
      UpdateKeepsId(old(obj.attrs), old(input.Data()));
      if old(Valid()) {
        forall i | 0 <= i < |rows|
          ensures rows[i].attrs.Keys == old(rows[i].attrs.Keys)
          ensures rows[i].attrs[IdField] == old(rows[i].attrs[IdField])
        {
        }
      }
    }

    /**
     * `delete(id)`: looks the row up as `get` does; removes it when found.
     * Returns the removed row, or `None` and leaves the table as it was.
     */
    method Delete(id: int) returns (r: Option<Entity>)
      requires Valid()
      modifies this
      ensures Valid()
      ensures r == old(Get(id))
      ensures r.None? ==> rows == old(rows)
      ensures r.Some? ==> exists i :: 0 <= i < |old(rows)| && old(rows)[i] == r.value
                                      && rows == old(rows)[..i] + old(rows)[i + 1..]
      ensures Get(id) == None
    {
      var found := FindFirst(rows, id);
      if found.None? {
        return None;
      }
      var i := found.value;
      r := Some(rows[i]);
      RemoveOnly(rows, i, id);
      RemoveKeepsKeyed(columns, rows, i);
      rows := rows[..i] + rows[i + 1..];
    }

    // ---- Lemmas about the table ----

    /** Under the invariant a row is found by its own key: `get(e.id)` returns `e`. */
    lemma GetFindsRow(e: Entity, id: int)
      requires Valid()
      requires e in rows && HasId(e, id)
      ensures Get(id) == Some(e)
    {
    }

    /** Reading the table page by page: two adjacent pages make one larger page. */
    lemma GetAllPaging(skip: nat, a: nat, b: nat)
      ensures GetAll(skip, a) + GetAll(skip + a, b) == GetAll(skip, a + b)
    {
    }

    /** The default page is a prefix of the table of at most 100 rows. */
    lemma GetAllDefault()
      ensures |GetAll(DefaultSkip, DefaultLimit)| == if |rows| < 100 then |rows| else 100
      ensures GetAll(DefaultSkip, DefaultLimit) <= rows
    {
    }

    /** One page as large as the table, from the start, is the whole table. */
    lemma GetAllWhole()
      ensures GetAll(0, |rows|) == rows
    {
    }
  }

  // ---- Lemmas about the lookup ----

  /** A row appended with a key no earlier row carries is what the lookup finds. */
  lemma {:induction false} FindFirstAppend(rows: seq<Entity>, e: Entity, id: int)
    requires forall j :: 0 <= j < |rows| ==> !HasId(rows[j], id)
    requires HasId(e, id)
    ensures FindFirst(rows + [e], id) == Some(|rows|)
  {
    if rows != [] {
      assert (rows + [e])[1..] == rows[1..] + [e];
      FindFirstAppend(rows[1..], e, id);
    }
  }

  /** Removing one row from a table keeps it well keyed. */
  lemma RemoveKeepsKeyed(columns: set<string>, rows: seq<Entity>, i: nat)
    requires i < |rows| && WellKeyed(columns, rows)
    ensures WellKeyed(columns, rows[..i] + rows[i + 1..])
  {
    var rest := rows[..i] + rows[i + 1..];
    forall j | 0 <= j < |rest| ensures rest[j] == rows[if j < i then j else j + 1] {
    }
  }

  /**
   * With distinct keys, once the row the lookup found is removed, no row
   * carries that key: `delete(id)` then `get(id)` finds nothing.
   */
  lemma RemoveOnly(rows: seq<Entity>, i: nat, id: int)
    requires i < |rows| && HasId(rows[i], id)
    requires forall a, b :: 0 <= a < |rows| && 0 <= b < |rows| && a != b ==>
               IdField in rows[a].attrs && IdField in rows[b].attrs &&
               rows[a].attrs[IdField] != rows[b].attrs[IdField]
    ensures FindFirst(rows[..i] + rows[i + 1..], id) == None
  {
  }

  /** A client: create a program, read it back by its generated key, delete it. */
  method CreateProgramExample()
  {
    var repo := new Repository({IdField, "program_name", "cal_year"}, []);
    var fields := map["program_name" := Str("New")];
    var created := repo.Create(fields, 42);
    assert NewKey(fields, 42) == Int(42);
    assert created.Success?;
    var p := created.value;
    assert p.attrs[IdField] == Int(42);
    assert repo.Get(42) == Some(p);
    var gone := repo.Delete(42);
    assert gone == Some(p) && repo.Get(42) == None;
  }

  /** A client: patch a program's name with a dictionary that also names `id`. */
  method PatchProgramExample()
  {
    var repo := new Repository({IdField, "program_name"}, []);
    var p := new Entity(map[IdField := Int(42), "program_name" := Str("Old")]);
    var patch := new Dict(map["program_name" := Str("Updated"), IdField := Int(7)]);
    ghost var before, data := p.attrs, patch.items;
    var same := repo.Update(p, FromDict(patch));
    UpdateOverwritesNamed(before, data, "program_name");
    assert same == p && p.attrs["program_name"] == Str("Updated");
    assert p.attrs[IdField] == Int(42);
    assert IdField !in patch.items;
  }
}
