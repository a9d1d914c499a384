# CRUDBase: a verified model of the generic async repository

The repository being modelled serves programs, surveys, survey types and
categories over HTTP. All of its data access goes through one generic class,
`CRUDBase` (`app/crud/base.py`), which offers five operations. Every
entity type gets all five. `get` and `delete` look rows up by the attribute
`id`, so they work only for types keyed by an `id` column:

- `get(id)`: one row by primary key;
- `get_all(skip, limit)`: an offset/limit page;
- `create(obj_in)`: insert a row built from the fields the caller set;
- `update(db_obj, obj_in)`: partial update of an object in place;
- `delete(id)`: look up by key and remove.

This project models that class in Dafny. The database table becomes a
`Repository` object holding:

- `columns`: the entity type's mapped attribute names;
- `rows`: a sequence of mapped objects (`Entity`) in storage order.

Each `Entity` keeps its attributes in a map, so `hasattr(obj, f)` is
`f in obj.attrs` and `setattr` rewrites that map in place. A row returned by
`get` is the same object the table holds, so updating it changes the table.
This is how the ORM session behaves. The invariant `Valid()` states what
the database guarantees:

- every row has exactly the mapped attributes;
- every row's `id` is an integer;
- no two rows share an `id`.

Files:

- `wrappers.dfy`: `Option` and `Result`.
- `entity.dfy`: column values, the mapped object class `Entity`, the
  caller's dictionary class `Dict`, and the update payload. A payload is
  either a dictionary or a schema object reduced to its explicitly set fields.
- `partial_update.dfy`: the update merge as functions on attribute maps,
  with its laws.
- `crud_base.dfy`: the repository class and the lookup function, with
  lemmas about lookups and pages, and two clients.
  `CreateProgramExample` creates a program, reads it back by its key and
  deletes it. `PatchProgramExample` patches a program's name with a
  dictionary that also names `id`.

Three details of `update` the model keeps exactly as the code has them:

- `update` raises no error when the payload names `id`. It drops the key
  (app/crud/base.py:45-46), and the comment there says only that the key
  must not be updated by accident.
- Only the literal name `id` is protected. An entity keyed by another
  column has that key overwritten like any other attribute. A category,
  keyed by `category_cd`, is one such entity (`OtherKeysNotProtected`).
- When the payload is a dictionary, dropping `id` mutates the caller's
  dictionary.

## Model

| member | source | states |
|---|---|---|
| `CrudBase.FindFirst` | app/crud/base.py:18-19 | the key query with `first()`. The result is the position of a row carrying the key, and no earlier row carries it. The result is absent exactly when no row carries the key. |
| `CrudBase.Repository.Get` | app/crud/base.py:17-19 | `get` returns a row of the table that carries the key. It returns `None` exactly when no row carries it. It reads the table and changes nothing. |
| `CrudBase.Repository.GetFindsRow` | app/crud/base.py:17-19 | Under the table invariant, any row of the table is what `get` returns for its own key. |
| `CrudBase.Repository.GetAll` | app/crud/base.py:21-23 | `get_all` returns at most `limit` rows. It returns exactly `min(limit, rows after skip)` of them: the contiguous run of the table starting at position `skip`. |
| `CrudBase.Repository.GetAllDefault` | app/crud/base.py:21-23 | With the defaults `skip = 0` and `limit = 100`, the page is a prefix of the table holding `min(100, size)` rows. |
| `CrudBase.Repository.GetAllPaging` | app/crud/base.py:21-23 | Two adjacent pages concatenated equal the single page that spans both, so paging neither skips nor repeats rows. |
| `CrudBase.Repository.GetAllWhole` | app/crud/base.py:21-23 | A page from 0 as large as the table is the whole table, in storage order. |
| `CrudBase.NewKey` | app/crud/base.py:27-31 | The key a new row is inserted with is never `Null`. It is the caller's own `id` or the generated one, and always the generated one when the caller set no `id`. |
| `CrudBase.Materialize` | app/crud/base.py:27-28 | A new row has exactly the mapped attributes. Each explicitly set field keeps the value it was given. Each unset column is `Null`. The key is the supplied one, or else the generated one. |
| `CrudBase.Repository.Create` | app/crud/base.py:25-32 | An unknown keyword fails with `TypeError`. A non-integer key fails with `DataError`. A taken key fails with `IntegrityError`. On any failure the table is unchanged. Otherwise exactly one fresh row, built by `Materialize`, is appended, `get` of its key returns it, and the invariant is kept. |
| `CrudBase.FindFirstAppend` | app/crud/base.py:17-31 | When no row carries a key, the lookup finds a row appended with that key at the end. This is create followed by get. |
| `CrudBase.Repository.Update` | app/crud/base.py:34-55 | The object's new attributes are `PartialUpdate` of its old ones and the payload. A dictionary payload loses its `id` key in place. The same object is returned. The table invariant is kept. |
| `CrudBase.Repository.Delete` | app/crud/base.py:57-63 | Returns what `get` returned before the call. If that was nothing, the table is unchanged. Otherwise exactly that row is removed and the others keep their order. Afterwards `get(id)` finds nothing, and the invariant is kept. |
| `CrudBase.RemoveKeepsKeyed` | app/crud/base.py:60-62 | Removing one row keeps the table well keyed: exactly the mapped attributes and distinct integer keys. |
| `CrudBase.RemoveOnly` | app/crud/base.py:57-63 | With distinct keys, removing the row the lookup found leaves no row with that key. This is delete followed by get. |
| `CrudBase.Repository.constructor` | app/crud/base.py:14-15 | A repository binds one entity type's mapped attributes, `id` among them, to that type's table as it stands. The table must be well keyed, and the invariant then holds. |
| `PartialUpdates.Assign` | app/crud/base.py:48-50 | The attribute loop adds and removes no attribute. Every attribute the payload names takes the payload's value, and every other keeps its value. |
| `PartialUpdates.PartialUpdate` | app/crud/base.py:46-50 | The attribute set is unchanged and `id` keeps its value. Every other attribute ends as if the whole payload had been assigned. |
| `PartialUpdates.UpdateKeepsId` | app/crud/base.py:45-46 | `id` is neither added nor removed, and keeps its value, even when the payload names `id`. |
| `PartialUpdates.UpdateAddsNoFields` | app/crud/base.py:48-50 | The attribute set is unchanged. Payload names the object lacks are ignored, with no error and no new attribute. |
| `PartialUpdates.UpdateKeepsUnnamed` | app/crud/base.py:42-50 | An attribute the payload does not name keeps its old value. |
| `PartialUpdates.UpdateOverwritesNamed` | app/crud/base.py:48-50 | An attribute other than `id` that the payload names takes the payload's value. |
| `PartialUpdates.UpdateIdempotent` | app/crud/base.py:46-50 | Applying the same payload twice gives the same object as applying it once. |
| `PartialUpdates.UpdatesCompose` | app/crud/base.py:46-50 | Two successive updates equal one update with the merged payload, where the later payload wins. |
| `PartialUpdates.OtherKeysNotProtected` | app/crud/base.py:46 | A key column not named `id`, here `category_cd`, is overwritten by a payload that names it. |

## Left out

- The database session calls are not modelled: `execute`, `select`, `scalars`, `add`, `commit`, `refresh` and `delete`. For `get`, `get_all`, `create` and `delete`, their combined effect is the change to `rows`. For `update`, see the line `Repository.Update` below.
- A commit that fails is not modelled, except for `create`'s duplicate key. This covers a lost connection and any constraint the database rejects at commit: a unique column, a foreign key, or a code key that an `update` moves onto another row's value.
- `async`/`await` and concurrent requests are not modelled. The code does no coordination of its own: two updates to one row race in the database, and the last write wins.
- The log line in `create` has no effect on the data and is not modelled.
- Pydantic's tracking of unset fields (`model_dump(exclude_unset=True)`) is not modelled. A schema payload and the `create` input are given directly as the map of explicitly set fields. Schema validation happens before this code and is not modelled.
- Column types, server-side defaults and foreign keys are not modelled. An unset column becomes `Null`, and a value of the wrong type for a non-key column is accepted.
- `Repository.Create`: the database's key generator is the parameter `generated`, not modelled. A supplied `id` of `None` counts as not supplied.
- `Repository.Update`: the object is changed in place and `rows` is left as it is. When the object is already a row of the table, that is the whole effect. When it is not, `db.add` would insert it as a new row; the model does not capture that insert. An update that breaks a unique or key constraint does not fail in the model.
- `Repository.Update`: `hasattr` is taken to be true exactly for the mapped attributes. On a real ORM object it is also true for class-level names such as `metadata`, which `setattr` would then overwrite. Python's iteration order over the payload is not modelled; the loop takes the keys in any order, and the proven result is the same for every order.
- `Repository.GetAll`: `skip` and `limit` are natural numbers. What a negative offset or limit does depends on the database backend.
- `Repository.constructor`: only tables keyed by an integer `id` column are modelled. Code-keyed types such as categories (keyed by `category_cd`) and survey types are bound to `CRUDBase` too. On them `get` and `delete` fail at `self.model.id`, while `get_all`, `create` and `update` work; those types are not modelled. The constructor takes the existing table as a parameter, and the model does not read it from the database.
- `get_detail` in app/crud/category.py is not part of this model. It is one query that eagerly loads related rows.
- The schema creation script, the connectivity smoke test and the HTTP endpoint tests are not part of this model. The tests replace every repository function with a fake.
