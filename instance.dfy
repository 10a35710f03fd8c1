/** A `Table` instance: one row whose field values live in the `_data`
    dictionary, read back through `__getattribute__`. */
module Instance {
  import opened Schema
  import Ddl

  /** A Python value passed as a keyword argument. `ObjectValue` stands for
      any other object (another table instance, a list, ...), by identity. */
  datatype Value =
    | NoneValue
    | BoolValue(b: bool)
    | IntValue(i: int)
    | FloatValue(r: real)
    | TextValue(s: string)
    | BytesValue(bytes: seq<bv8>)
    | ObjectValue(handle: nat)

  /** What an attribute read yields: a stored field value, the `_data`
      dictionary itself, or an attribute of the class. */
  datatype Attribute = Stored(value: Value) | Store(data: map<string, Value>) | ClassAttribute(member: Member)

  /** Class attribute lookup: the member called `name`, or `AttributeError`. */
  function FindMember(members: seq<NamedMember>, name: string): (r: Result<Member>)
    ensures r.Ok? <==> exists i :: 0 <= i < |members| && members[i].0 == name
    ensures r.Ok? ==> (name, r.value) in members
    ensures r.Err? ==> r.error == AttributeError(name)
  {
    if members == [] then Err(AttributeError(name))
    else if members[0].0 == name then Ok(members[0].1)
    else
      var rest := FindMember(members[1..], name);
      assert forall i :: 0 < i < |members| ==> members[i] == members[1..][i - 1];
      rest
  }

  class Table {
    /** The table class this object is an instance of. */
    const cls: Entity
    /** `self._data`. */
    var data: map<string, Value>

    /** `Table.__init__(**kwargs)`: copies the keyword arguments and then
        forces `id` to `None`, whether or not the caller passed one. */
    constructor (cls: Entity, kwargs: map<string, Value>)
      requires "_data" !in kwargs && "self" !in kwargs
      ensures this.cls == cls
      ensures data == kwargs["id" := NoneValue]
      ensures data.Keys == kwargs.Keys + {"id"}
      ensures data["id"] == NoneValue
      ensures forall k :: k in kwargs && k != "id" ==> data[k] == kwargs[k]
    {
      this.cls := cls;
      data := kwargs;
      new;
      data := data["id" := NoneValue];
    }

    /** `Table.__getattribute__`: a name held in `_data` reads the stored
        value; any other name falls back to ordinary lookup, which finds the
        `_data` attribute itself and then the class attributes. */
    function GetAttribute(name: string): (r: Result<Attribute>)
      reads this
      ensures name in data ==> r == Ok(Stored(data[name]))
      ensures name !in data && name == "_data" ==> r == Ok(Store(data))
      ensures name !in data && name != "_data" ==>
        (r.Ok? <==> exists i :: 0 <= i < |cls.members| && cls.members[i].0 == name)
      ensures name !in data && name != "_data" && r.Ok? ==>
        r.value.ClassAttribute? && (name, r.value.member) in cls.members
      ensures r.Err? ==> r.error == AttributeError(name)
    {
      if name in data then Ok(Stored(data[name]))
      else if name == "_data" then Ok(Store(data))
      else
        match FindMember(cls.members, name)
        case Ok(m) => Ok(ClassAttribute(m))
        case Err(e) => Err(e)
    }
  }

  /** Builds an instance and reads one attribute of it: `id` reads `None`
      even when the caller passed an `id`, a supplied field reads the
      supplied value, `_data` reads the keyword arguments with `id` set to
      `None`, and a field left out reads the class attribute of that name or
      raises `AttributeError`. */
  method ReadAfterConstruction(cls: Entity, kwargs: map<string, Value>, name: string) returns (r: Result<Attribute>)
    requires "_data" !in kwargs && "self" !in kwargs
    ensures name == "id" ==> r == Ok(Stored(NoneValue))
    ensures name in kwargs && name != "id" ==> r == Ok(Stored(kwargs[name]))
    ensures name !in kwargs && name != "id" && name != "_data" ==>
      (r.Ok? <==> exists i :: 0 <= i < |cls.members| && cls.members[i].0 == name)
    ensures name !in kwargs && name != "id" && name != "_data" && r.Ok? ==>
      r.value.ClassAttribute? && (name, r.value.member) in cls.members
    ensures name !in kwargs && name != "id" && name != "_data" && r.Err? ==> r.error == AttributeError(name)
    ensures name == "_data" ==> r == Ok(Store(kwargs["id" := NoneValue]))
  {
    var row := new Table(cls, kwargs);
    r := row.GetAttribute(name);
  }

  /** The instance of the test suite: `Author(name="John Doe", age=44)`. */
  method JohnDoe() returns (name: Result<Attribute>, age: Result<Attribute>, id: Result<Attribute>)
    ensures name == Ok(Stored(TextValue("John Doe")))
    ensures age == Ok(Stored(IntValue(44)))
    ensures id == Ok(Stored(NoneValue))
  {
    var john := new Table(Ddl.Author(), map["name" := TextValue("John Doe"), "age" := IntValue(44)]);
    name := john.GetAttribute("name");
    age := john.GetAttribute("age");
    id := john.GetAttribute("id");
  }
}
