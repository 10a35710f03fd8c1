# finesql ORM core in Dafny

This project models the core of `fynor/orm.py`, the small object-relational mapper of finesql. It covers three parts:

- **Type mapping.** `SQL_TYPES` sends `int`, `float`, `str`, `bytes` and `bool` to `INTEGER`, `REAL`, `TEXT`, `BLOB` and `INTEGER`. `Column.sql_type` looks a column's type up in that table. It raises `KeyError` for any other type.
- **CREATE TABLE generation.** `Table._get_create_sql` lists a table class's members in name order. It starts the column list with `id INTEGER PRIMARY KEY AUTOINCREMENT`. It adds `<name> <sqltype>` for each `Column` and `<name>_id INTEGER` for each `ForeignKey`, and skips every other member. It joins the list with `", "` and wraps it in `CREATE TABLE IF NOT EXISTS <lower-cased class name> (...);`.
- **Instance value store.** `Table.__init__` copies the keyword arguments into `_data` and then sets `id` to `None`. `Table.__getattribute__` returns the `_data` entry for a name that has one. For any other name it falls back to ordinary attribute lookup.

Layout:

- `strings.dfy` (`Strings`): Python's `<` on `str` as a strict total order, `str.lower` on ASCII, and `str.join`.
- `schema.dfy` (`Schema`): `PyType`, `SQL_TYPES`, the `Column`/`ForeignKey` descriptors and `Entity`, the explicit form of a table class. The class is given as its `__name__` plus the members `inspect.getmembers` would report, in any order. `SortByName` places them in name order. It is proved to be a permutation, strictly ascending when names are distinct, and independent of declaration order.
- `ddl.dfy` (`Ddl`): `CreateStatement` is the statement as a function of the class. `CreateSql` is the imperative loop of `_get_create_sql`, proved to return exactly `CreateStatement`. The lemmas state the properties of the statement. This module also holds the test suite's `Author` and `Book` classes with their exact expected statements.
- `instance.dfy` (`Instance`): class `Table`. Its constructor models `__init__`, and `GetAttribute` models `__getattribute__` over a `map<string, Value>` field.

Errors are values. `Result<T>` is `Ok(value)` or `Err(KeyError(type))` / `Err(AttributeError(name))`, standing for the Python exceptions.

`CreateStatement` is a function, so calling `_get_create_sql` twice on the same class gives the same statement by construction. `CreateSql`'s postcondition carries this over to the loop.

finesql's tests also use column defaults (`Column(bool, default=False)`, tests/conftest.py:43), INSERT/SELECT/UPDATE/DELETE statements, `save`/`get`/`all` and foreign-key rehydration. `fynor/orm.py` implements none of these: its `Column.__init__` takes only the type. The model follows `fynor/orm.py`.

A class may declare its own `Column` named `id`. It then gets a second definition `id <type>` after the identity column. The model reproduces this as the code does. `Ddl.IdFieldFirstAndOnce` says only that the identity column's own definition occurs once.

## Model

| member | source | states |
|---|---|---|
| `Schema.Member.SqlType` | fynor/orm.py:69-71 | the lookup succeeds exactly when the type is a key of `SQL_TYPES` and then returns that entry (one of INTEGER, REAL, TEXT, BLOB); otherwise it is `KeyError` of that type, never a default string |
| `Schema.SqlTypeTable` | fynor/orm.py:6-12 | int, float, str, bytes and bool map to INTEGER, REAL, TEXT, BLOB and INTEGER; every other type gives `KeyError` |
| `Schema.SortByName` | fynor/orm.py:43 | the name order of `inspect.getmembers`; its properties are stated by `SortByNamePermutes`, `SortByNameSorted` and `SortByNameCanonical` |
| `Schema.SortByNamePermutes` | fynor/orm.py:43 | the name-ordered member listing holds exactly the class's members (same multiset) |
| `Schema.SortByNameSorted` | fynor/orm.py:43 | with distinct member names, the listing is strictly ascending by name under Python's string order |
| `Schema.SortByNameCanonical` | fynor/orm.py:43 | two declarations of the same members in any order give the same listing |
| `Schema.FieldsInNameOrder` | fynor/orm.py:43-47 | the reflected fields are exactly the class's `Column` and `ForeignKey` members, strictly ascending by attribute name |
| `Strings.Lower` | fynor/orm.py:50 | the table name has the class name's length; each upper-case ASCII letter becomes its lower-case counterpart (code point plus 32), so none remains; every other character is kept |
| `Strings.Less` | fynor/orm.py:43 | Python's `<` on `str`, by which `getmembers` orders names; `LessIrreflexive`, `LessTransitive` and `LessTotal` show it is a strict total order |
| `Strings.LessIrreflexive` | fynor/orm.py:43 | no name sorts before itself under Python's string `<` |
| `Strings.LessTransitive` | fynor/orm.py:43 | Python's string `<`, by which the members are listed, is transitive |
| `Strings.LessTotal` | fynor/orm.py:43 | any two different names are ordered one way or the other, so the listing order is total |
| `Strings.Join` | fynor/orm.py:49 | `sep.join(parts)`; `JoinSnoc` states how it grows by one part |
| `Strings.JoinSnoc` | fynor/orm.py:49 | `", ".join` of a non-empty list with one more part is the old joined string, the separator, then that part |
| `Ddl.ColumnDefinition` | fynor/orm.py:45-47 | `name sqltype` for a column, `name_id INTEGER` for a foreign key; `ColumnDefinitionIsNotId` and `FieldPiecesOk` carry its properties |
| `Ddl.Piece` | fynor/orm.py:44-47 | what one member adds in the loop body: one definition for a field, nothing for another member, the `KeyError` of an unsupported column; `FieldPiecesOk` and `FieldPiecesError` carry its properties |
| `Ddl.FieldPieces` | fynor/orm.py:43-47 | the definitions the loop appends, stopping at the first error; specified by `FieldPiecesErrorStays`, `FieldPiecesOk` and `FieldPiecesError` |
| `Ddl.CreateStatement` | fynor/orm.py:36-53 | the statement `_get_create_sql` returns or the error it raises; `CreateSql` is proved equal to it, and `ColumnDefsContents`, `IdFieldFirstAndOnce`, `CreateFailsOnFirstUnsupported` and `CreateStatementIgnoresDeclarationOrder` state its properties |
| `Ddl.CreateSql` | fynor/orm.py:36-53 | the loop over the listed members, appending definitions and then joining them, returns exactly `CreateStatement(e)`, including the `KeyError` case |
| `Ddl.FieldPiecesErrorStays` | fynor/orm.py:43-45 | once a prefix of the members fails, every longer prefix fails with the same error |
| `Ddl.FieldPiecesOk` | fynor/orm.py:43-47 | the member visit succeeds exactly when no column has an unsupported type; it then yields one definition per field, in order: `name sqltype` for a column, `name_id INTEGER` for a foreign key, nothing for other members |
| `Ddl.FieldPiecesError` | fynor/orm.py:44-45 | a failing visit reports the `KeyError` of the first column with an unsupported type |
| `Ddl.ColumnDefsContents` | fynor/orm.py:39-47 | the `fields` list exists exactly when every column type is supported; it is the identity column followed by one definition per reflected field, in name order |
| `Ddl.CreateFailsOnFirstUnsupported` | fynor/orm.py:43-45 | a class with an unsupported column raises the `KeyError` of the first such column in name order instead of producing a statement |
| `Ddl.ColumnDefinitionIsNotId` | fynor/orm.py:39-47 | no column or foreign-key definition equals the identity column's definition |
| `Ddl.IdFieldFirstAndOnce` | fynor/orm.py:39-41 | the identity column is the first definition, no later definition equals it, and the statement opens with `CREATE TABLE IF NOT EXISTS <name> (id INTEGER PRIMARY KEY AUTOINCREMENT` |
| `Ddl.CreateStatementIgnoresDeclarationOrder` | fynor/orm.py:43-53 | classes with the same name and the same members, declared in different orders, give the same statement |
| `Ddl.ForeignKeyOrderedByAttributeName` | fynor/orm.py:46-47 | a foreign key `au` is placed by `au`, not by `au_id`: it comes before the column `au_b` even though `au_b < au_id` |
| `Ddl.AuthorColumnDefs` | tests/conftest.py:31-36 | Author's definitions are `id ...`, `age INTEGER`, `name TEXT` |
| `Ddl.AuthorStatement` | tests/test_orm.py:34-38 | Author gives `CREATE TABLE IF NOT EXISTS author (id INTEGER PRIMARY KEY AUTOINCREMENT, age INTEGER, name TEXT);` |
| `Ddl.BookColumnDefs` | tests/conftest.py:39-45 | Book's definitions (its `published` column is declared by type alone: `fynor/orm.py`'s one-argument `Column` has no `default`) are `id ...`, `author_id INTEGER`, `published INTEGER`, `title TEXT` |
| `Ddl.BookStatement` | tests/test_orm.py:34-39 | Book gives `CREATE TABLE IF NOT EXISTS book (id INTEGER PRIMARY KEY AUTOINCREMENT, author_id INTEGER, published INTEGER, title TEXT);` |
| `Instance.FindMember` | fynor/orm.py:61 | class attribute lookup finds a member exactly when one has that name, returns a member actually declared under it, and otherwise raises `AttributeError` |
| `Instance.Table.constructor` | fynor/orm.py:31-33 | `_data` is the keyword arguments with `id` set to `None`: it holds exactly the keyword names plus `id`, `id` is `None` even if the caller passed one, and every other keyword keeps its value |
| `Instance.Table.GetAttribute` | fynor/orm.py:55-61 | a name in `_data` reads the stored value; `_data` itself reads the store; any other name reads the class attribute of that name, or raises `AttributeError` when there is none |
| `Instance.ReadAfterConstruction` | fynor/orm.py:31-61 | right after construction, `id` reads `None`; a supplied field reads the supplied value; `_data` reads the keyword arguments with `id` set to `None`; an omitted name reads the class member declared under that name, or raises `AttributeError` when the class has none |
| `Instance.JohnDoe` | tests/test_orm.py:45-50 | `Author(name="John Doe", age=44)` reads name "John Doe", age 44 and id `None` |

## Left out

- The `Database` class (fynor/orm.py:15-27): it opens a sqlite3 connection, reads `sqlite_master` and executes the DDL. All of that is foreign I/O.
- The `ic()` debug calls from `icecream`: they only log.
- `inspect.getmembers` and Python reflection: a table class is given explicitly as its name and member list. Inherited members such as methods appear as `Other` members.
- Column defaults, INSERT/SELECT/UPDATE/DELETE generation, `save`/`get`/`all`, and foreign-key rehydration: the tests call them, but `fynor/orm.py` does not implement them.
- `Strings.Lower`: models `str.lower` on ASCII letters only; Unicode case mapping is not modelled.
- `Instance.Table.constructor`: requires that no keyword argument is called `_data` or `self`. With `_data`, the source's `self._data.update(id=None)` goes through `__getattribute__` and reaches the caller's own value. With `self`, the call `__init__(self, **kwargs)` raises `TypeError` (multiple values for `self`) before the body runs. The model captures neither; `Instance.ReadAfterConstruction` inherits the same precondition.
- `Instance.ReadAfterConstruction`: same precondition as the constructor; the `TypeError` for a `self` keyword and the `_data` keyword case are not modelled.
- `Instance.Table.GetAttribute`: the fallback covers only the instance's `_data` attribute and the class members listed in the entity. Python's descriptor protocol and `__getattr__` hooks are not modelled.
- `ForeignKey(table)` holds the target class as a value. Class identity is not modelled.
- `FloatValue` holds a mathematical real, not an IEEE double. Values are only stored and read back, never computed with.
