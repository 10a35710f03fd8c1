/** `Table._get_create_sql`: the CREATE TABLE statement of a table class. */
module Ddl {
  import opened Strings
  import opened Schema

  /** The implicit identity column, always the first column definition. */
  const ID_FIELD := "id INTEGER PRIMARY KEY AUTOINCREMENT"
  const CREATE_PREFIX := "CREATE TABLE IF NOT EXISTS "

  /** The column definition a supported field declares: `<name> <sqltype>`
      for a `Column`, `<name>_id INTEGER` for a `ForeignKey`. */
  function ColumnDefinition(f: NamedMember): string
    requires IsField(f.1) && !Unsupported(f.1)
  {
    if f.1.Column? then f.0 + " " + SQL_TYPES[f.1.columnType] else f.0 + "_id INTEGER"
  }

  /** What one listed member adds to the column definitions: one definition
      for a field, nothing for any other member, and the `KeyError` of
      `sql_type` for a column of unsupported type. */
  function Piece(f: NamedMember): Result<seq<string>>
  {
    match f.1
    case Column(_) =>
      (match f.1.SqlType()
       case Ok(sqlType) => Ok([f.0 + " " + sqlType])
       case Err(e) => Err(e))
    case ForeignKey(_) => Ok([f.0 + "_id INTEGER"])
    case Other => Ok([])
  }

  /** The definitions the members `s` add, visited in the order of `s`; the
      first failing member ends the visit with its error. */
  function FieldPieces(s: seq<NamedMember>): Result<seq<string>>
  {
    if s == [] then Ok([])
    else
      match FieldPieces(s[..|s| - 1])
      case Err(e) => Err(e)
      case Ok(p) =>
        match Piece(s[|s| - 1])
        case Err(e) => Err(e)
        case Ok(q) => Ok(p + q)
  }

  /** The `fields` list of `_get_create_sql` before it is joined. */
  function ColumnDefs(e: Entity): Result<seq<string>>
  {
    match FieldPieces(SortByName(e.members))
    case Ok(p) => Ok([ID_FIELD] + p)
    case Err(x) => Err(x)
  }

  /** The statement `_get_create_sql` returns, or the exception it raises. */
  function CreateStatement(e: Entity): Result<string>
  {
    match ColumnDefs(e)
    case Ok(f) => Ok(CREATE_PREFIX + Lower(e.name) + " (" + Join(f, ", ") + ");")
    case Err(x) => Err(x)
  }

  /** `Table._get_create_sql`: walks the members in `getmembers` order,
      appending one definition per column and foreign key, then joins them. */
  method CreateSql(e: Entity) returns (r: Result<string>)
    ensures r == CreateStatement(e)
  {
    var members := SortByName(e.members);
    var fields := [ID_FIELD];
    assert members[..0] == [] && fields[1..] == [];
    for i := 0 to |members|
      invariant |fields| >= 1 && fields[0] == ID_FIELD
      invariant FieldPieces(members[..i]) == Ok(fields[1..])
    {
      assert members[..i + 1][..i] == members[..i];
      ghost var before := fields;
      ghost var piece: seq<string> := [];
      var (name, col) := members[i];
      if col.Column? {
        var sqlType := col.SqlType();
        if sqlType.Err? {
          FieldPiecesErrorStays(members, i + 1, |members|);
          assert members[..|members|] == members;
          return Err(sqlType.error);
        }
        fields := fields + [name + " " + sqlType.value];
        piece := [name + " " + sqlType.value];
      } else if col.ForeignKey? {
        fields := fields + [name + "_id INTEGER"];
        piece := [name + "_id INTEGER"];
      }
      assert Piece(members[i]) == Ok(piece);
      assert fields == before + piece;
      assert fields[1..] == before[1..] + piece;
    }
    assert members[..|members|] == members;
    assert [ID_FIELD] + fields[1..] == fields;
    var joined := Join(fields, ", ");
    var name := Lower(e.name);
    r := Ok(CREATE_PREFIX + name + " (" + joined + ");");
  }

  /** Once a prefix of the members fails, every longer prefix fails with the
      same error: the exception ends the loop. */
  lemma {:induction false} FieldPiecesErrorStays(s: seq<NamedMember>, i: nat, j: nat)
    requires i <= j <= |s|
    requires FieldPieces(s[..i]).Err?
    ensures FieldPieces(s[..j]) == FieldPieces(s[..i])
  {
    if i < j {
      FieldPiecesErrorStays(s, i, j - 1);
      assert s[..j][..j - 1] == s[..j - 1];
    }
  }

  /** The visit succeeds exactly when no column has an unsupported type, and
      then yields one definition per field, in the order of `s`. */
  lemma {:induction false} FieldPiecesOk(s: seq<NamedMember>)
    ensures FieldPieces(s).Ok? <==> forall k :: 0 <= k < |s| ==> !Unsupported(s[k].1)
    ensures FieldPieces(s).Ok? ==>
      var d := DeclaredFields(s);
      |FieldPieces(s).value| == |d| &&
      forall k :: 0 <= k < |d| ==>
        IsField(d[k].1) && !Unsupported(d[k].1) && FieldPieces(s).value[k] == ColumnDefinition(d[k])
  {
    if s != [] {
      var init := s[..|s| - 1];
      var last := s[|s| - 1];
      FieldPiecesOk(init);
      assert forall k :: 0 <= k < |init| ==> init[k] == s[k];
    }
  }

  /** `s[k]` is the first column of `s` whose type is unsupported. */
  predicate FirstUnsupportedAt(s: seq<NamedMember>, k: int)
  {
    0 <= k < |s| && Unsupported(s[k].1) && forall j :: 0 <= j < k ==> !Unsupported(s[j].1)
  }

  /** A failing visit reports the `KeyError` of the first column, in the
      order of `s`, whose type is unsupported. */
  lemma {:induction false} FieldPiecesError(s: seq<NamedMember>)
    requires FieldPieces(s).Err?
    ensures exists k :: FirstUnsupportedAt(s, k) && FieldPieces(s).error == KeyError(s[k].1.columnType)
  {
    var init := s[..|s| - 1];
    var last := s[|s| - 1];
    assert forall k :: 0 <= k < |init| ==> init[k] == s[k];
    if FieldPieces(init).Err? {
      FieldPiecesError(init);
    } else {
      FieldPiecesOk(init);
      assert Unsupported(s[|s| - 1].1);
    }
  }

  /** The column definitions of a table: the identity column, then one
      definition per column and foreign key in ascending name order; they
      exist exactly when every column's type is supported. */
  lemma ColumnDefsContents(e: Entity)
    ensures ColumnDefs(e).Ok? <==> forall x :: x in e.members ==> !Unsupported(x.1)
    ensures ColumnDefs(e).Ok? ==>
      var f := ColumnDefs(e).value;
      |f| == |Fields(e)| + 1 && f[0] == ID_FIELD &&
      forall k :: 0 <= k < |Fields(e)| ==>
        IsField(Fields(e)[k].1) && !Unsupported(Fields(e)[k].1) && f[k + 1] == ColumnDefinition(Fields(e)[k])
  {
    var sorted := SortByName(e.members);
    FieldPiecesOk(sorted);
    SortByNamePermutes(e.members);
    forall x
      ensures x in sorted <==> x in e.members
    {
      assert x in sorted <==> x in multiset(sorted);
    }
  }

  /** A class with a column of unsupported type raises the `KeyError` of
      the first such column in name order, never a statement. */
  lemma CreateFailsOnFirstUnsupported(e: Entity)
    requires CreateStatement(e).Err?
    ensures exists k :: (FirstUnsupportedAt(SortByName(e.members), k) &&
                         CreateStatement(e).error == KeyError(SortByName(e.members)[k].1.columnType))
  {
    var s := SortByName(e.members);
    FieldPiecesError(s);
    var k :| FirstUnsupportedAt(s, k) && FieldPieces(s).error == KeyError(s[k].1.columnType);
    assert CreateStatement(e).error == FieldPieces(s).error;
  }

  /** No field's definition can be taken for the identity column's: the
      second-to-last character of every definition comes from its type. */
  lemma ColumnDefinitionIsNotId(f: NamedMember)
    requires IsField(f.1) && !Unsupported(f.1)
    ensures ColumnDefinition(f) != ID_FIELD
  {
    var c := ColumnDefinition(f);
    var tail := if f.1.Column? then SQL_TYPES[f.1.columnType] else "_id INTEGER";
    assert c[|c| - 2] == tail[|tail| - 2];
    assert ID_FIELD[|ID_FIELD| - 2] == 'N';
  }

  /** The identity column comes first and only once, and the statement
      opens with it. */
  lemma IdFieldFirstAndOnce(e: Entity)
    requires CreateStatement(e).Ok?
    ensures ColumnDefs(e).Ok? && ColumnDefs(e).value[0] == ID_FIELD
    ensures forall k :: 1 <= k < |ColumnDefs(e).value| ==> ColumnDefs(e).value[k] != ID_FIELD
    ensures CREATE_PREFIX + Lower(e.name) + " (" + ID_FIELD <= CreateStatement(e).value
  {
    ColumnDefsContents(e);
    var f := ColumnDefs(e).value;
    forall k | 1 <= k < |f|
      ensures f[k] != ID_FIELD
    {
      ColumnDefinitionIsNotId(Fields(e)[k - 1]);
    }
    JoinStartsWithFirst(f, ", ");
  }

  /** Declaring the same members in another order gives the same statement. */
  lemma CreateStatementIgnoresDeclarationOrder(p: Entity, q: Entity)
    requires p.name == q.name
    requires DistinctNames(p.members) && DistinctNames(q.members)
    requires multiset(p.members) == multiset(q.members)
    ensures CreateStatement(p) == CreateStatement(q)
  {
    SortByNameCanonical(p.members, q.members);
  }

  /** One more member extends the visit by its own piece. */
  lemma FieldPiecesSnoc(s: seq<NamedMember>, x: NamedMember)
    ensures FieldPieces(s).Ok? && Piece(x).Ok? ==>
      FieldPieces(s + [x]) == Ok(FieldPieces(s).value + Piece(x).value)
  {
    assert (s + [x])[..|s|] == s;
  }

  lemma FieldPiecesFour(a: NamedMember, b: NamedMember, c: NamedMember, d: NamedMember)
    requires Piece(a).Ok? && Piece(b).Ok? && Piece(c).Ok? && Piece(d).Ok?
    ensures FieldPieces([a, b, c, d]) == Ok(Piece(a).value + Piece(b).value + Piece(c).value + Piece(d).value)
  {
    var none: seq<NamedMember> := [];
    FieldPiecesSnoc(none, a);
    assert none + [a] == [a];
    assert FieldPieces(none).value + Piece(a).value == Piece(a).value;
    FieldPiecesSnoc([a], b);
    assert [a] + [b] == [a, b];
    assert FieldPieces([a, b]) == Ok(Piece(a).value + Piece(b).value);
    FieldPiecesSnoc([a, b], c);
    assert [a, b] + [c] == [a, b, c];
    assert FieldPieces([a, b, c]) == Ok(Piece(a).value + Piece(b).value + Piece(c).value);
    FieldPiecesSnoc([a, b, c], d);
    assert [a, b, c] + [d] == [a, b, c, d];
  }

  /** The two table classes of the test suite. Author also lists two of the
      methods it inherits from `Table`, Book only `__init__`: the listing of a
      class skips them either way. */
  function Author(): Entity
  {
    Entity("Author", [("name", Column(StrType)), ("age", Column(IntType)),
                      ("__init__", Other), ("_get_create_sql", Other)])
  }

  function Book(): Entity
  {
    Entity("Book", [("title", Column(StrType)), ("published", Column(BoolType)),
                    ("author", ForeignKey(Author())), ("__init__", Other)])
  }

  lemma AuthorListing()
    ensures SortByName(Author().members) ==
      [("__init__", Other), ("_get_create_sql", Other), ("age", Column(IntType)), ("name", Column(StrType))]
  {
  }

  lemma AuthorPieces()
    ensures Piece(("__init__", Other)) == Ok([])
    ensures Piece(("_get_create_sql", Other)) == Ok([])
    ensures Piece(("age", Column(IntType))) == Ok(["age INTEGER"])
    ensures Piece(("name", Column(StrType))) == Ok(["name TEXT"])
  {
    assert Column(IntType).SqlType() == Ok("INTEGER");
    assert "age" + " " + "INTEGER" == "age INTEGER";
    assert Column(StrType).SqlType() == Ok("TEXT");
    assert "name" + " " + "TEXT" == "name TEXT";
  }

  lemma AuthorColumnDefs()
    ensures ColumnDefs(Author()) == Ok([ID_FIELD, "age INTEGER", "name TEXT"])
  {
    AuthorListing();
    AuthorPieces();
    FieldPiecesFour(("__init__", Other), ("_get_create_sql", Other), ("age", Column(IntType)), ("name", Column(StrType)));
    var none: seq<string> := [];
    var pieces := ["age INTEGER", "name TEXT"];
    assert none + none + ["age INTEGER"] + ["name TEXT"] == pieces;
    var sorted := SortByName(Author().members);
    assert sorted == [("__init__", Other), ("_get_create_sql", Other), ("age", Column(IntType)), ("name", Column(StrType))];
    assert FieldPieces(sorted) == Ok(pieces);
    assert [ID_FIELD] + pieces == [ID_FIELD, "age INTEGER", "name TEXT"];
  }

  lemma AuthorStatement()
    ensures CreateStatement(Author()) ==
      Ok("CREATE TABLE IF NOT EXISTS " + "author" + " (" +
         ("id INTEGER PRIMARY KEY AUTOINCREMENT" + ", " + "age INTEGER" + ", " + "name TEXT") + ");")
  {
    AuthorColumnDefs();
    assert Lower("Author") == "author";
    AuthorJoined();
  }

  lemma AuthorJoined()
    ensures Join([ID_FIELD, "age INTEGER", "name TEXT"], ", ") == ID_FIELD + ", " + "age INTEGER" + ", " + "name TEXT"
  {
    var f2 := [ID_FIELD, "age INTEGER"];
    JoinSnoc([ID_FIELD], "age INTEGER", ", ");
    assert [ID_FIELD] + ["age INTEGER"] == f2;
    JoinSnoc(f2, "name TEXT", ", ");
    assert f2 + ["name TEXT"] == [ID_FIELD, "age INTEGER", "name TEXT"];
  }

  lemma BookListing()
    ensures SortByName(Book().members) ==
      [("__init__", Other), ("author", ForeignKey(Author())), ("published", Column(BoolType)), ("title", Column(StrType))]
  {
  }

  lemma BookPieces()
    ensures Piece(("__init__", Other)) == Ok([])
    ensures Piece(("author", ForeignKey(Author()))) == Ok(["author_id INTEGER"])
    ensures Piece(("published", Column(BoolType))) == Ok(["published INTEGER"])
    ensures Piece(("title", Column(StrType))) == Ok(["title TEXT"])
  {
    var m0, m1, m2, m3 := ("__init__", Other), ("author", ForeignKey(Author())), ("published", Column(BoolType)), ("title", Column(StrType));
    assert "author" + "_id INTEGER" == "author_id INTEGER";
    assert Piece(m1) == Ok(["author_id INTEGER"]);
    assert Column(BoolType).SqlType() == Ok("INTEGER");
    assert "published" + " " + "INTEGER" == "published INTEGER";
    assert Piece(m2) == Ok(["published INTEGER"]);
    assert Column(StrType).SqlType() == Ok("TEXT");
    assert "title" + " " + "TEXT" == "title TEXT";
    assert Piece(m3) == Ok(["title TEXT"]);
  }

  lemma BookColumnDefs()
    ensures ColumnDefs(Book()) == Ok([ID_FIELD, "author_id INTEGER", "published INTEGER", "title TEXT"])
  {
    BookListing();
    BookPieces();
    FieldPiecesFour(("__init__", Other), ("author", ForeignKey(Author())), ("published", Column(BoolType)), ("title", Column(StrType)));
    var none: seq<string> := [];
    var pieces := ["author_id INTEGER", "published INTEGER", "title TEXT"];
    assert none + ["author_id INTEGER"] + ["published INTEGER"] + ["title TEXT"] == pieces;
    var sorted := SortByName(Book().members);
    assert sorted == [("__init__", Other), ("author", ForeignKey(Author())), ("published", Column(BoolType)), ("title", Column(StrType))];
    assert FieldPieces(sorted) == Ok(pieces);
    assert [ID_FIELD] + pieces == [ID_FIELD, "author_id INTEGER", "published INTEGER", "title TEXT"];
  }

  lemma BookStatement()
    ensures CreateStatement(Book()) ==
      Ok("CREATE TABLE IF NOT EXISTS " + "book" + " (" + ("id INTEGER PRIMARY KEY AUTOINCREMENT" + ", " +
         "author_id INTEGER" + ", " + "published INTEGER" + ", " + "title TEXT") + ");")
  {
    BookColumnDefs();
    BookJoined();
    assert Lower("Book") == "book";
  }

  lemma BookJoined()
    ensures Join([ID_FIELD, "author_id INTEGER", "published INTEGER", "title TEXT"], ", ") ==
      ID_FIELD + ", " + "author_id INTEGER" + ", " + "published INTEGER" + ", " + "title TEXT"
  {
    var f2, f3 := [ID_FIELD, "author_id INTEGER"], [ID_FIELD, "author_id INTEGER", "published INTEGER"];
    JoinSnoc([ID_FIELD], "author_id INTEGER", ", ");
    assert [ID_FIELD] + ["author_id INTEGER"] == f2;
    JoinSnoc(f2, "published INTEGER", ", ");
    assert f2 + ["published INTEGER"] == f3;
    JoinSnoc(f3, "title TEXT", ", ");
    assert f3 + ["title TEXT"] == [ID_FIELD, "author_id INTEGER", "published INTEGER", "title TEXT"];
  }

  /** A class whose foreign key `au` and column `au_b` share a prefix: the
      listing places the key by `au`, not by the `au_id` it defines. */
  function PrefixClash(): Entity
  {
    Entity("PrefixClash", [("au_b", Column(FloatType)), ("au", ForeignKey(Author()))])
  }

  lemma PrefixClashListing()
    ensures SortByName(PrefixClash().members) == [("au", ForeignKey(Author())), ("au_b", Column(FloatType))]
  {
  }

  lemma PrefixClashPieces()
    ensures Piece(("au", ForeignKey(Author()))) == Ok(["au_id INTEGER"])
    ensures Piece(("au_b", Column(FloatType))) == Ok(["au_b REAL"])
  {
    assert "au" + "_id INTEGER" == "au_id INTEGER";
    assert Column(FloatType).SqlType() == Ok("REAL");
    assert "au_b" + " " + "REAL" == "au_b REAL";
  }

  /** A foreign key `au` is placed by `au`, not by `au_id`: it comes before
      the column `au_b` although `"au_b" < "au_id"`. */
  lemma ForeignKeyOrderedByAttributeName()
    ensures Less("au_b", "au_id")
    ensures ColumnDefs(PrefixClash()) == Ok([ID_FIELD, "au_id INTEGER", "au_b REAL"])
  {
    PrefixClashListing();
    PrefixClashPieces();
    var a, b := ("au", ForeignKey(Author())), ("au_b", Column(FloatType));
    var none: seq<NamedMember> := [];
    FieldPiecesSnoc(none, a);
    assert none + [a] == [a];
    assert FieldPieces(none).value + Piece(a).value == ["au_id INTEGER"];
    FieldPiecesSnoc([a], b);
    assert [a] + [b] == [a, b];
    assert FieldPieces([a]).value + Piece(b).value == ["au_id INTEGER", "au_b REAL"];
    assert [ID_FIELD] + ["au_id INTEGER", "au_b REAL"] == [ID_FIELD, "au_id INTEGER", "au_b REAL"];
  }
}
