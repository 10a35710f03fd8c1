/** Entity definitions: the scalar types a column may be declared with,
    the `SQL_TYPES` table, the two descriptors (`Column`, `ForeignKey`) and
    the member list of a `Table` subclass, listed in name order the way
    `inspect.getmembers` lists it. */
module Schema {
  import opened Strings

  /** The Python class given to `Column(...)`. `OtherType` stands for any
      class outside the five scalar ones (a `list`, a user class, ...); its
      name is only a label. */
  datatype PyType = IntType | FloatType | StrType | BytesType | BoolType | OtherType(name: string)

  /** `SQL_TYPES`: booleans are stored as the integers 0 and 1. */
  const SQL_TYPES: map<PyType, string> :=
    map[IntType := "INTEGER", FloatType := "REAL", StrType := "TEXT",
        BytesType := "BLOB", BoolType := "INTEGER"]

  /** The Python exceptions the core can raise. */
  datatype Error = KeyError(key: PyType) | AttributeError(attribute: string)

  datatype Result<T> = Ok(value: T) | Err(error: Error)

  /** A class attribute of a `Table` subclass: a `Column`, a `ForeignKey`,
      or anything else (a method, a constant, an inherited attribute). */
  datatype Member = Column(columnType: PyType) | ForeignKey(table: Entity) | Other
  {
    /** `Column.sql_type`: a lookup in `SQL_TYPES` that raises `KeyError`
        for a type the table does not hold, rather than falling back to a
        default. */
    function SqlType(): (r: Result<string>)
      requires Column?
      ensures r.Ok? <==> columnType in SQL_TYPES
      ensures r.Ok? ==> r.value == SQL_TYPES[columnType]
      ensures r.Ok? ==> r.value in {"INTEGER", "REAL", "TEXT", "BLOB"}
      ensures r.Err? ==> r.error == KeyError(columnType) && columnType.OtherType?
    {
      if columnType in SQL_TYPES then Ok(SQL_TYPES[columnType]) else Err(KeyError(columnType))
    }
  }

  /** The five supported types and their storage types; every other type
      has none. */
  lemma SqlTypeTable()
    ensures Column(IntType).SqlType() == Ok("INTEGER")
    ensures Column(FloatType).SqlType() == Ok("REAL")
    ensures Column(StrType).SqlType() == Ok("TEXT")
    ensures Column(BytesType).SqlType() == Ok("BLOB")
    ensures Column(BoolType).SqlType() == Ok("INTEGER")
    ensures forall n :: Column(OtherType(n)).SqlType() == Err(KeyError(OtherType(n)))
  {
  }

  type NamedMember = (string, Member)

  /** A `Table` subclass: its `__name__` and every attribute that
      `inspect.getmembers` reports for it, in declaration order. */
  datatype Entity = Entity(name: string, members: seq<NamedMember>)

  predicate IsField(m: Member)
  {
    m.Column? || m.ForeignKey?
  }

  /** A column whose type `SQL_TYPES` does not hold. */
  predicate Unsupported(m: Member)
  {
    m.Column? && m.columnType !in SQL_TYPES
  }

  /** A class namespace is a dictionary: no name occurs twice. */
  ghost predicate DistinctNames(s: seq<NamedMember>)
  {
    forall i, j :: 0 <= i < j < |s| ==> s[i].0 != s[j].0
  }

  ghost predicate StrictlySorted(s: seq<NamedMember>)
  {
    forall i, j :: 0 <= i < j < |s| ==> Less(s[i].0, s[j].0)
  }

  /** Places `x` before the first member whose name is not smaller. */
  function Insert(x: NamedMember, s: seq<NamedMember>): seq<NamedMember>
  {
    if s == [] || !Less(s[0].0, x.0) then [x] + s else [s[0]] + Insert(x, s[1..])
  }

  /** The members in ascending name order, as `inspect.getmembers` returns them. */
  function SortByName(s: seq<NamedMember>): seq<NamedMember>
  {
    if s == [] then [] else Insert(s[0], SortByName(s[1..]))
  }

  lemma {:induction false} InsertPermutes(x: NamedMember, s: seq<NamedMember>)
    ensures multiset(Insert(x, s)) == multiset(s) + multiset{x}
  {
    if s != [] && Less(s[0].0, x.0) {
      InsertPermutes(x, s[1..]);
      assert s == [s[0]] + s[1..];
    }
  }

  /** Sorting neither loses nor adds a member. */
  lemma {:induction false} SortByNamePermutes(s: seq<NamedMember>)
    ensures multiset(SortByName(s)) == multiset(s)
  {
    if s != [] {
      SortByNamePermutes(s[1..]);
      InsertPermutes(s[0], SortByName(s[1..]));
      assert s == [s[0]] + s[1..];
    }
  }

  lemma {:induction false} InsertSorted(x: NamedMember, s: seq<NamedMember>)
    requires StrictlySorted(s)
    requires forall k :: 0 <= k < |s| ==> s[k].0 != x.0
    ensures StrictlySorted(Insert(x, s))
  {
    if s == [] || !Less(s[0].0, x.0) {
      forall k | 0 <= k < |s|
        ensures Less(x.0, s[k].0)
      {
        LessTotal(x.0, s[0].0);
        if k > 0 {
          LessTransitive(x.0, s[0].0, s[k].0);
        }
      }
    } else {
      var rest := Insert(x, s[1..]);
      InsertSorted(x, s[1..]);
      InsertPermutes(x, s[1..]);
      forall k | 0 <= k < |rest|
        ensures Less(s[0].0, rest[k].0)
      {
        assert rest[k] in multiset(rest);
        assert rest[k] == x || rest[k] in s[1..];
      }
    }
  }

  /** With distinct names the order is strict: each name comes after all
      smaller ones. */
  lemma {:induction false} SortByNameSorted(s: seq<NamedMember>)
    requires DistinctNames(s)
    ensures StrictlySorted(SortByName(s))
  {
    if s != [] {
      var rest := SortByName(s[1..]);
      SortByNameSorted(s[1..]);
      SortByNamePermutes(s[1..]);
      forall k | 0 <= k < |rest|
        ensures rest[k].0 != s[0].0
      {
        assert rest[k] in multiset(s[1..]);
        var j :| 0 <= j < |s[1..]| && s[1..][j] == rest[k];
        assert s[j + 1] == rest[k];
      }
      InsertSorted(s[0], rest);
    }
  }

  /** Two strictly sorted sequences with the same members start alike. */
  lemma SortedSameHead(a: seq<NamedMember>, b: seq<NamedMember>)
    requires StrictlySorted(a) && StrictlySorted(b)
    requires multiset(a) == multiset(b) && |a| > 0 && |b| > 0
    ensures a[0] == b[0]
  {
    assert a[0] in multiset(b);
    var j :| 0 <= j < |b| && b[j] == a[0];
    assert b[0] in multiset(a);
    var i :| 0 <= i < |a| && a[i] == b[0];
    if j > 0 {
      // b[0] < b[j] == a[0] <= a[i] == b[0]
      if i > 0 {
        LessTransitive(b[0].0, a[0].0, a[i].0);
      }
      LessIrreflexive(b[0].0);
    }
  }

  /** Two strictly sorted sequences with the same members are equal. */
  lemma {:induction false} SortedUnique(a: seq<NamedMember>, b: seq<NamedMember>)
    requires StrictlySorted(a) && StrictlySorted(b)
    requires multiset(a) == multiset(b)
    ensures a == b
  {
    if a == [] {
      assert |multiset(b)| == 0;
    } else {
      assert |b| > 0 by { assert |multiset(b)| == |multiset(a)| > 0; }
      SortedSameHead(a, b);
      assert a == [a[0]] + a[1..] && b == [b[0]] + b[1..];
      assert multiset(a[1..]) == multiset(a) - multiset{a[0]} == multiset(b[1..]);
      SortedUnique(a[1..], b[1..]);
    }
  }

  /** The listing order depends on the members only, not on the order in
      which the class body declares them. */
  lemma SortByNameCanonical(p: seq<NamedMember>, q: seq<NamedMember>)
    requires DistinctNames(p) && DistinctNames(q)
    requires multiset(p) == multiset(q)
    ensures SortByName(p) == SortByName(q)
  {
    SortByNameSorted(p);
    SortByNameSorted(q);
    SortByNamePermutes(p);
    SortByNamePermutes(q);
    SortedUnique(SortByName(p), SortByName(q));
  }

  /** The columns and foreign keys of `s`, in the order of `s`. */
  function DeclaredFields(s: seq<NamedMember>): seq<NamedMember>
  {
    if s == [] then []
    else DeclaredFields(s[..|s| - 1]) + (if IsField(s[|s| - 1].1) then [s[|s| - 1]] else [])
  }

  lemma {:induction false} DeclaredFieldsMembers(s: seq<NamedMember>)
    ensures forall x :: x in DeclaredFields(s) <==> x in s && IsField(x.1)
  {
    if s != [] {
      var init := s[..|s| - 1];
      DeclaredFieldsMembers(init);
      assert s == init + [s[|s| - 1]];
    }
  }

  lemma {:induction false} DeclaredFieldsSorted(s: seq<NamedMember>)
    requires StrictlySorted(s)
    ensures StrictlySorted(DeclaredFields(s))
  {
    if s != [] {
      var init := s[..|s| - 1];
      var last := s[|s| - 1];
      DeclaredFieldsSorted(init);
      DeclaredFieldsMembers(init);
      var d := DeclaredFields(init);
      forall k | 0 <= k < |d|
        ensures Less(d[k].0, last.0)
      {
        assert d[k] in init;
      }
    }
  }

  /** The reflected field list of a table: its columns and foreign keys in
      ascending name order. */
  function Fields(e: Entity): seq<NamedMember>
  {
    DeclaredFields(SortByName(e.members))
  }

  /** Every column and foreign key of the class is listed, nothing else is,
      and the names ascend strictly. */
  lemma FieldsInNameOrder(e: Entity)
    requires DistinctNames(e.members)
    ensures forall x :: x in Fields(e) <==> x in e.members && IsField(x.1)
    ensures StrictlySorted(Fields(e))
  {
    var sorted := SortByName(e.members);
    SortByNamePermutes(e.members);
    SortByNameSorted(e.members);
    DeclaredFieldsMembers(sorted);
    DeclaredFieldsSorted(sorted);
    forall x
      ensures x in sorted <==> x in e.members
    {
      assert x in sorted <==> x in multiset(sorted);
    }
  }
}
