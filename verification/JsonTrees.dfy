/**
 JSON documents as trees, and the decoding rules of Go's encoding/json for the field types
 that occur in the SS12000 objects.

 Attribute names are an enumeration: every name the objects use has a constructor and any
 other name is `Other`. Names are compared exactly.
 */
module JsonTrees {
  import opened Wrappers

  datatype Attr =
    | CivicNo | DisplayName | Emails | EmployedAt | EmploymentRole | Enrolments | ExternalId
    | FamilyName | GivenName | Group | Groups | Id | MunicipalityCode | Name | Organisation
    | Owner | ParentActivity | ProgramCode | Ref | RelationType | SchoolType | SchoolTypes
    | SchoolUnitCode | SchoolUnitGroup | SchoolYear | SecurityMarking | Signature
    | StudentGroupType | StudentMemberships | Teachers | Type | User | UserExtension
    | UserName | UserRelations | Value | Other(text: string)

  datatype Json =
    | Null
    | Bool(b: bool)
    | Int(n: int)
    | Float(r: real) // a number that is not written as an integer
    | Str(s: string)
    | Arr(elems: seq<Json>)
    | Obj(fields: map<Attr, Json>)

  /** What a request body or a stored resource is: text that may or may not be JSON. */
  datatype Text = NotJson | Tree(json: Json)

  /** Go's int on a 64-bit platform. */
  type Int64 = n: int | -0x8000_0000_0000_0000 <= n < 0x8000_0000_0000_0000

  /** The value decoded into a field: an absent attribute leaves the zero value, as null does. */
  function Get(fields: map<Attr, Json>, a: Attr): Json {
    if a in fields then fields[a] else Null
  }

  /** `fields` with attribute `a` added, unless `omitempty` leaves it out. */
  function With(fields: map<Attr, Json>, a: Attr, value: Option<Json>): map<Attr, Json> {
    if value.Some? then fields[a := value.value] else fields
  }

  function StructFields(j: Json): Result<map<Attr, Json>> {
    match j
    case Null => Success(map[])
    case Obj(fields) => Success(fields)
    case _ => Failure
  }

  function DecodeString(j: Json): Result<string> {
    match j
    case Null => Success("")
    case Str(s) => Success(s)
    case _ => Failure
  }

  function DecodeOptString(j: Json): Result<Option<string>> {
    match j
    case Null => Success(None)
    case Str(s) => Success(Some(s))
    case _ => Failure
  }

  function DecodeOptBool(j: Json): Result<Option<bool>> {
    match j
    case Null => Success(None)
    case Bool(b) => Success(Some(b))
    case _ => Failure
  }

  function DecodeOptInt(j: Json): Result<Option<Int64>> {
    match j
    case Null => Success(None)
    case Int(n) => if -0x8000_0000_0000_0000 <= n < 0x8000_0000_0000_0000 then Success(Some(n)) else Failure
    case _ => Failure
  }

  function DecodeAll<T>(elems: seq<Json>, decode: Json -> Result<T>): Result<seq<T>> {
    if elems == [] then Success([])
    else
      var first :- decode(elems[0]);
      var rest :- DecodeAll(elems[1..], decode);
      Success([first] + rest)
  }

  /** A slice field: null and absence give the nil slice, an array a slice that is not nil. */
  function DecodeList<T>(j: Json, decode: Json -> Result<T>): Result<Option<seq<T>>> {
    match j
    case Null => Success(None)
    case Arr(elems) =>
      var list :- DecodeAll(elems, decode);
      Success(Some(list))
    case _ => Failure
  }

  function EncodeOptString(o: Option<string>): Json {
    if o.Some? then Str(o.value) else Null
  }

  function EncodeList<T>(list: Option<seq<T>>, encode: T -> Json): Json {
    if list.Some? then Arr(Map(encode, list.value)) else Null
  }

  lemma {:induction false} DecodeAllOfMap<T>(s: seq<T>, encode: T -> Json, decode: Json -> Result<T>)
    requires forall x :: x in s ==> decode(encode(x)) == Success(x)
    ensures DecodeAll(Map(encode, s), decode) == Success(s)
  {
    if s != [] {
      DecodeAllOfMap(s[1..], encode, decode);
      assert Map(encode, s)[1..] == Map(encode, s[1..]);
      assert s == [s[0]] + s[1..];
    }
  }

  lemma DecodeListOfEncodeList<T>(list: Option<seq<T>>, encode: T -> Json, decode: Json -> Result<T>)
    requires forall x :: x in Elems(list) ==> decode(encode(x)) == Success(x)
    ensures DecodeList(EncodeList(list, encode), decode) == Success(list)
  {
    if list.Some? {
      DecodeAllOfMap(list.value, encode, decode);
    }
  }
}
