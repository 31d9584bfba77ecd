/**
 The SS12000 objects (ss12000v1/types.go): their values, their decoding from JSON with the
 required-attribute checks, and their encoding.

 A Go slice is an `Option<seq>` whose `None` is the nil slice; a Go pointer is an `Option`.
 */
module Objects {
  import opened Wrappers
  import opened JsonTrees

  /** The seven resource types, which are also the seven main tables. */
  datatype Kind = Users | StudentGroups | Organisations | SchoolUnitGroups | SchoolUnits | Employments | Activities

  datatype Reference = Reference(value: string, ref: string)
  datatype PersonName = PersonName(familyName: string, givenName: string)
  datatype Email = Email(value: string, typ: string)
  datatype Enrolment = Enrolment(
    value: string, ref: string, schoolYear: Option<Int64>, schoolType: Option<string>, programCode: Option<string>)
  datatype UserRelation = UserRelation(value: string, ref: string, relationType: string, displayName: Option<string>)
  datatype Extension = Extension(
    enrolments: Option<seq<Enrolment>>, civicNo: Option<string>, securityMarking: Option<bool>,
    userRelations: Option<seq<UserRelation>>)

  /** An SS12000 object; `id` is what `GetID` returns, the attribute externalId. */
  datatype Object =
    | User(id: string, userName: string, name: PersonName, displayName: string, emails: Option<seq<Email>>,
           extension: Extension)
    | StudentGroup(id: string, displayName: string, owner: Reference, groupType: Option<string>,
                   memberships: Option<seq<Reference>>, schoolType: Option<string>)
    | Organisation(id: string, displayName: string)
    | SchoolUnitGroup(id: string, displayName: string)
    | SchoolUnit(id: string, schoolUnitCode: string, displayName: string, organisation: Option<Reference>,
                 schoolUnitGroup: Option<Reference>, schoolTypes: Option<seq<string>>, municipalityCode: Option<string>)
    | Employment(id: string, employedAt: Reference, user: Reference, role: string, signature: string)
    | Activity(id: string, displayName: string, owner: Reference, groups: Option<seq<Reference>>,
               teachers: Option<seq<Reference>>, parentActivity: Option<seq<Reference>>)

  function KindOf(o: Object): Kind {
    match o
    case User(_, _, _, _, _, _) => Users
    case StudentGroup(_, _, _, _, _, _) => StudentGroups
    case Organisation(_, _) => Organisations
    case SchoolUnitGroup(_, _) => SchoolUnitGroups
    case SchoolUnit(_, _, _, _, _, _, _) => SchoolUnits
    case Employment(_, _, _, _, _) => Employments
    case Activity(_, _, _, _, _, _) => Activities
  }

  // ---------- decoding ----------

  /** The attributes of `j`, provided all required ones are present (a null value is present). */
  function EnsureRequired(required: seq<Attr>, j: Json): Result<map<Attr, Json>> {
    var fields :- StructFields(j);
    if forall a :: a in required ==> a in fields then Success(fields) else Failure
  }

  function DecodeReference(j: Json): Result<Reference> {
    var fields :- StructFields(j);
    var value, ref := DecodeString(Get(fields, Attr.Value)), DecodeString(Get(fields, Attr.Ref));
    if value.Failure? || ref.Failure? then Failure else Success(Reference(value.value, ref.value))
  }

  function DecodeOptReference(j: Json): Result<Option<Reference>> {
    if j.Null? then Success(None)
    else
      var r :- DecodeReference(j);
      Success(Some(r))
  }

  function DecodeName(j: Json): Result<PersonName> {
    var fields :- EnsureRequired([Attr.FamilyName, Attr.GivenName], j);
    var family, given := DecodeString(Get(fields, Attr.FamilyName)), DecodeString(Get(fields, Attr.GivenName));
    if family.Failure? || given.Failure? then Failure else Success(PersonName(family.value, given.value))
  }

  function DecodeEmail(j: Json): Result<Email> {
    var fields :- StructFields(j);
    var value, typ := DecodeString(Get(fields, Attr.Value)), DecodeString(Get(fields, Attr.Type));
    if value.Failure? || typ.Failure? then Failure else Success(Email(value.value, typ.value))
  }

  function DecodeEnrolment(j: Json): Result<Enrolment> {
    var fields :- EnsureRequired([Attr.Value], j);
    var value, ref := DecodeString(Get(fields, Attr.Value)), DecodeString(Get(fields, Attr.Ref));
    var schoolYear := DecodeOptInt(Get(fields, Attr.SchoolYear));
    var schoolType := DecodeOptString(Get(fields, Attr.SchoolType));
    var programCode := DecodeOptString(Get(fields, Attr.ProgramCode));
    if value.Failure? || ref.Failure? || schoolYear.Failure? || schoolType.Failure? || programCode.Failure? then Failure
    else Success(Enrolment(value.value, ref.value, schoolYear.value, schoolType.value, programCode.value))
  }

  function DecodeRelation(j: Json): Result<UserRelation> {
    var fields :- EnsureRequired([Attr.Value, Attr.RelationType], j);
    var value, ref := DecodeString(Get(fields, Attr.Value)), DecodeString(Get(fields, Attr.Ref));
    var relationType := DecodeString(Get(fields, Attr.RelationType));
    var displayName := DecodeOptString(Get(fields, Attr.DisplayName));
    if value.Failure? || ref.Failure? || relationType.Failure? || displayName.Failure? then Failure
    else Success(UserRelation(value.value, ref.value, relationType.value, displayName.value))
  }

  function DecodeExtension(j: Json): Result<Extension> {
    var fields :- StructFields(j);
    var enrolments := DecodeList(Get(fields, Attr.Enrolments), DecodeEnrolment);
    var civicNo := DecodeOptString(Get(fields, Attr.CivicNo));
    var securityMarking := DecodeOptBool(Get(fields, Attr.SecurityMarking));
    var userRelations := DecodeList(Get(fields, Attr.UserRelations), DecodeRelation);
    if enrolments.Failure? || civicNo.Failure? || securityMarking.Failure? || userRelations.Failure? then Failure
    else Success(Extension(enrolments.value, civicNo.value, securityMarking.value, userRelations.value))
  }

  function RequiredOf(kind: Kind): seq<Attr> {
    match kind
    case Users => [Attr.ExternalId, Attr.UserName, Attr.Name, Attr.DisplayName]
    case StudentGroups => [Attr.ExternalId, Attr.DisplayName, Attr.Owner]
    case Organisations => [Attr.ExternalId, Attr.DisplayName]
    case SchoolUnitGroups => [Attr.ExternalId, Attr.DisplayName]
    case SchoolUnits => [Attr.ExternalId, Attr.DisplayName, Attr.SchoolUnitCode]
    case Employments => [Attr.ExternalId, Attr.EmployedAt, Attr.User, Attr.EmploymentRole]
    case Activities => [Attr.ExternalId, Attr.DisplayName, Attr.Owner]
  }

  function UserOf(fields: map<Attr, Json>): Result<Object> {
    var id, displayName := DecodeString(Get(fields, Attr.ExternalId)), DecodeString(Get(fields, Attr.DisplayName));
    var userName := DecodeString(Get(fields, Attr.UserName));
    var name := DecodeName(Get(fields, Attr.Name));
    var emails := DecodeList(Get(fields, Attr.Emails), DecodeEmail);
    var extension := DecodeExtension(Get(fields, Attr.UserExtension));
    if id.Failure? || displayName.Failure? || userName.Failure? || name.Failure? || emails.Failure?
       || extension.Failure?
    then Failure
    else Success(Object.User(id.value, userName.value, name.value, displayName.value, emails.value, extension.value))
  }

  function StudentGroupOf(fields: map<Attr, Json>): Result<Object> {
    var id, displayName := DecodeString(Get(fields, Attr.ExternalId)), DecodeString(Get(fields, Attr.DisplayName));
    var owner := DecodeReference(Get(fields, Attr.Owner));
    var groupType := DecodeOptString(Get(fields, Attr.StudentGroupType));
    var memberships := DecodeList(Get(fields, Attr.StudentMemberships), DecodeReference);
    var schoolType := DecodeOptString(Get(fields, Attr.SchoolType));
    if id.Failure? || displayName.Failure? || owner.Failure? || groupType.Failure? || memberships.Failure?
       || schoolType.Failure?
    then Failure
    else Success(StudentGroup(id.value, displayName.value, owner.value, groupType.value, memberships.value,
                              schoolType.value))
  }

  function OrganisationOf(fields: map<Attr, Json>): Result<Object> {
    var id, displayName := DecodeString(Get(fields, Attr.ExternalId)), DecodeString(Get(fields, Attr.DisplayName));
    if id.Failure? || displayName.Failure? then Failure else Success(Object.Organisation(id.value, displayName.value))
  }

  function SchoolUnitGroupOf(fields: map<Attr, Json>): Result<Object> {
    var id, displayName := DecodeString(Get(fields, Attr.ExternalId)), DecodeString(Get(fields, Attr.DisplayName));
    if id.Failure? || displayName.Failure? then Failure
    else Success(Object.SchoolUnitGroup(id.value, displayName.value))
  }

  function SchoolUnitOf(fields: map<Attr, Json>): Result<Object> {
    var id, displayName := DecodeString(Get(fields, Attr.ExternalId)), DecodeString(Get(fields, Attr.DisplayName));
    var code := DecodeString(Get(fields, Attr.SchoolUnitCode));
    var organisation := DecodeOptReference(Get(fields, Attr.Organisation));
    var unitGroup := DecodeOptReference(Get(fields, Attr.SchoolUnitGroup));
    var types := DecodeList(Get(fields, Attr.SchoolTypes), DecodeString);
    var municipality := DecodeOptString(Get(fields, Attr.MunicipalityCode));
    if id.Failure? || displayName.Failure? || code.Failure? || organisation.Failure? || unitGroup.Failure?
       || types.Failure? || municipality.Failure?
    then Failure
    else Success(SchoolUnit(id.value, code.value, displayName.value, organisation.value, unitGroup.value, types.value,
                            municipality.value))
  }

  function EmploymentOf(fields: map<Attr, Json>): Result<Object> {
    var id := DecodeString(Get(fields, Attr.ExternalId));
    var employedAt, user := DecodeReference(Get(fields, Attr.EmployedAt)), DecodeReference(Get(fields, Attr.User));
    var role, signature := DecodeString(Get(fields, Attr.EmploymentRole)), DecodeString(Get(fields, Attr.Signature));
    if id.Failure? || employedAt.Failure? || user.Failure? || role.Failure? || signature.Failure? then Failure
    else Success(Employment(id.value, employedAt.value, user.value, role.value, signature.value))
  }

  /** A non-null `group` takes the place of whatever `groups` decoded to. */
  function ActivityOf(fields: map<Attr, Json>): Result<Object> {
    var id, displayName := DecodeString(Get(fields, Attr.ExternalId)), DecodeString(Get(fields, Attr.DisplayName));
    var owner := DecodeReference(Get(fields, Attr.Owner));
    var group := DecodeOptReference(Get(fields, Attr.Group));
    var groups := DecodeList(Get(fields, Attr.Groups), DecodeReference);
    var teachers := DecodeList(Get(fields, Attr.Teachers), DecodeReference);
    var parents := DecodeList(Get(fields, Attr.ParentActivity), DecodeReference);
    if id.Failure? || displayName.Failure? || owner.Failure? || group.Failure? || groups.Failure? || teachers.Failure?
       || parents.Failure?
    then Failure
    else Success(Activity(id.value, displayName.value, owner.value,
                          if group.value.Some? then Some([group.value.value]) else groups.value,
                          teachers.value, parents.value))
  }

  /** The struct decoded from attributes that include the required ones. */
  function ObjectOf(kind: Kind, fields: map<Attr, Json>): (r: Result<Object>)
    ensures r.Success? ==> KindOf(r.value) == kind
  {
    match kind
    case Users => UserOf(fields)
    case StudentGroups => StudentGroupOf(fields)
    case Organisations => OrganisationOf(fields)
    case SchoolUnitGroups => SchoolUnitGroupOf(fields)
    case SchoolUnits => SchoolUnitOf(fields)
    case Employments => EmploymentOf(fields)
    case Activities => ActivityOf(fields)
  }

  /** UnmarshalJSON of the kind's type: the required attributes first, then the fields. */
  function Decode(kind: Kind, j: Json): (r: Result<Object>)
    ensures r.Success? ==> KindOf(r.value) == kind
    ensures r.Success? ==> j.Obj? && forall a :: a in RequiredOf(kind) ==> a in j.fields
  {
    var fields :- EnsureRequired(RequiredOf(kind), j);
    ObjectOf(kind, fields)
  }

  /** ensureRequired, searching for the attributes one after the other. */
  method CheckRequired(required: seq<Attr>, j: Json) returns (ok: bool)
    ensures ok <==> EnsureRequired(required, j).Success?
  {
    var fields := StructFields(j);
    if fields.Failure? {
      return false;
    }
    for i := 0 to |required|
      invariant forall k :: 0 <= k < i ==> required[k] in fields.value
    {
      if required[i] !in fields.value {
        return false;
      }
    }
    return true;
  }

  /** The receiver of Activity's UnmarshalJSON, whose fields are assigned one by one. */
  class ActivityTarget {
    var externalId: string
    var displayName: string
    var owner: Reference
    var groups: Option<seq<Reference>>
    var teachers: Option<seq<Reference>>
    var parentActivity: Option<seq<Reference>>

    constructor ()
      ensures Value() == Activity("", "", Reference("", ""), None, None, None)
    {
      externalId, displayName, owner := "", "", Reference("", "");
      groups, teachers, parentActivity := None, None, None;
    }

    function Value(): Object
      reads this
    {
      Activity(externalId, displayName, owner, groups, teachers, parentActivity)
    }

    /** Whatever the receiver held, it becomes the decoded activity, or is left alone when decoding fails. */
    method UnmarshalJSON(j: Json) returns (ok: bool)
      modifies this
      ensures ok <==> Decode(Activities, j).Success?
      ensures Value() == if ok then Decode(Activities, j).value else old(Value())
    {
      ok := CheckRequired([Attr.ExternalId, Attr.DisplayName, Attr.Owner], j);
      if !ok {
        return;
      }
      var fields := StructFields(j).value;
      assert Decode(Activities, j) == ActivityOf(fields);
      var id, name := DecodeString(Get(fields, Attr.ExternalId)), DecodeString(Get(fields, Attr.DisplayName));
      var ownerRef, group := DecodeReference(Get(fields, Attr.Owner)), DecodeOptReference(Get(fields, Attr.Group));
      var groupRefs := DecodeList(Get(fields, Attr.Groups), DecodeReference);
      var teacherRefs := DecodeList(Get(fields, Attr.Teachers), DecodeReference);
      var parents := DecodeList(Get(fields, Attr.ParentActivity), DecodeReference);
      if id.Failure? || name.Failure? || ownerRef.Failure? || group.Failure? || groupRefs.Failure?
         || teacherRefs.Failure? || parents.Failure? {
        return false;
      }
      externalId := id.value;
      displayName := name.value;
      owner := ownerRef.value;
      if group.value.Some? {
        groups := Some([group.value.value]);
      } else {
        groups := groupRefs.value;
      }
      teachers := teacherRefs.value;
      parentActivity := parents.value;
    }
  }

  // ---------- encoding ----------

  /** A string field with omitempty. */
  function NonEmpty(s: string): Option<Json> {
    if s == "" then None else Some(Str(s))
  }

  /** A pointer or slice field with omitempty. */
  function Present<T>(o: Option<T>, encode: T -> Json): Option<Json> {
    if o.Some? then Some(encode(o.value)) else None
  }

  function EncodeReference(r: Reference): Json {
    Obj(map[Attr.Value := Str(r.value), Attr.Ref := Str(r.ref)])
  }

  function EncodeOptReference(r: Option<Reference>): Json {
    if r.Some? then EncodeReference(r.value) else Null
  }

  function EncodeName(n: PersonName): Json {
    Obj(With(With(map[], Attr.FamilyName, NonEmpty(n.familyName)), Attr.GivenName, NonEmpty(n.givenName)))
  }

  function EncodeEmail(e: Email): Json {
    Obj(With(With(map[], Attr.Value, NonEmpty(e.value)), Attr.Type, NonEmpty(e.typ)))
  }

  function EncodeEnrolment(e: Enrolment): Json {
    Obj(With(With(With(map[Attr.Value := Str(e.value), Attr.Ref := Str(e.ref)],
                       Attr.SchoolYear, Present(e.schoolYear, (n: Int64) => Int(n))),
                  Attr.SchoolType, Present(e.schoolType, (s: string) => Str(s))),
             Attr.ProgramCode, Present(e.programCode, (s: string) => Str(s))))
  }

  function EncodeRelation(r: UserRelation): Json {
    Obj(With(map[Attr.Value := Str(r.value), Attr.Ref := Str(r.ref), Attr.RelationType := Str(r.relationType)],
             Attr.DisplayName, Present(r.displayName, (s: string) => Str(s))))
  }

  /** A slice field with omitempty: an empty slice is left out whether or not it is nil. */
  function NonEmptyList<T>(list: Option<seq<T>>, encode: T -> Json): Option<Json> {
    if Elems(list) == [] then None else Some(Arr(Map(encode, list.value)))
  }

  function EncodeExtension(x: Extension): Json {
    Obj(With(With(With(With(map[], Attr.Enrolments, NonEmptyList(x.enrolments, EncodeEnrolment)),
                       Attr.CivicNo, Present(x.civicNo, (s: string) => Str(s))),
                  Attr.SecurityMarking, Present(x.securityMarking, (b: bool) => Bool(b))),
             Attr.UserRelations, NonEmptyList(x.userRelations, EncodeRelation)))
  }

  function UserFields(o: Object): map<Attr, Json>
    requires o.User?
  {
    map[Attr.ExternalId := Str(o.id), Attr.UserName := Str(o.userName), Attr.Name := EncodeName(o.name),
        Attr.DisplayName := Str(o.displayName), Attr.Emails := EncodeList(o.emails, EncodeEmail),
        Attr.UserExtension := EncodeExtension(o.extension)]
  }

  function StudentGroupFields(o: Object): map<Attr, Json>
    requires o.StudentGroup?
  {
    map[Attr.ExternalId := Str(o.id), Attr.DisplayName := Str(o.displayName), Attr.Owner := EncodeReference(o.owner),
        Attr.StudentGroupType := EncodeOptString(o.groupType),
        Attr.StudentMemberships := EncodeList(o.memberships, EncodeReference),
        Attr.SchoolType := EncodeOptString(o.schoolType)]
  }

  function SchoolUnitFields(o: Object): map<Attr, Json>
    requires o.SchoolUnit?
  {
    map[Attr.ExternalId := Str(o.id), Attr.SchoolUnitCode := Str(o.schoolUnitCode),
        Attr.DisplayName := Str(o.displayName),
        Attr.Organisation := EncodeOptReference(o.organisation),
        Attr.SchoolUnitGroup := EncodeOptReference(o.schoolUnitGroup),
        Attr.SchoolTypes := EncodeList(o.schoolTypes, (s: string) => Str(s)),
        Attr.MunicipalityCode := EncodeOptString(o.municipalityCode)]
  }

  function EmploymentFields(o: Object): map<Attr, Json>
    requires o.Employment?
  {
    map[Attr.ExternalId := Str(o.id), Attr.EmployedAt := EncodeReference(o.employedAt),
        Attr.User := EncodeReference(o.user),
        Attr.EmploymentRole := Str(o.role), Attr.Signature := Str(o.signature)]
  }

  function ActivityFields(o: Object): map<Attr, Json>
    requires o.Activity?
  {
    map[Attr.ExternalId := Str(o.id), Attr.DisplayName := Str(o.displayName), Attr.Owner := EncodeReference(o.owner),
        Attr.Groups := EncodeList(o.groups, EncodeReference), Attr.Teachers := EncodeList(o.teachers, EncodeReference),
        Attr.ParentActivity := EncodeList(o.parentActivity, EncodeReference)]
  }

  function FieldsOf(o: Object): (fields: map<Attr, Json>)
    ensures forall a :: a in RequiredOf(KindOf(o)) ==> a in fields
  {
    match KindOf(o)
    case Users => UserFields(o)
    case StudentGroups => StudentGroupFields(o)
    case SchoolUnits => SchoolUnitFields(o)
    case Employments => EmploymentFields(o)
    case Activities => ActivityFields(o)
    case _ => map[Attr.ExternalId := Str(o.id), Attr.DisplayName := Str(o.displayName)]
  }

  function Encode(o: Object): Json {
    Obj(FieldsOf(o))
  }

  // ---------- the round trip ----------

  /** A list whose emptiness omitempty does not distinguish from nil. */
  function NilIfEmpty<T>(list: Option<seq<T>>): Option<seq<T>> {
    if Elems(list) == [] then None else list
  }

  /** What encoding keeps of an object: everything but the difference between nil and empty omitempty lists. */
  function OmitEmpty(o: Object): Object {
    if o.User? then
      o.(extension := o.extension.(enrolments := NilIfEmpty(o.extension.enrolments),
                                   userRelations := NilIfEmpty(o.extension.userRelations)))
    else o
  }

  /** SCIMName leaves out empty parts that its own decoder demands. */
  predicate HasNames(o: Object) {
    o.User? ==> o.name.familyName != "" && o.name.givenName != ""
  }

  lemma ReferencesRoundTrip(list: Option<seq<Reference>>)
    ensures DecodeList(EncodeList(list, EncodeReference), DecodeReference) == Success(list)
  {
    DecodeListOfEncodeList(list, EncodeReference, DecodeReference);
  }

  lemma OptReferenceRoundTrip(r: Option<Reference>)
    ensures DecodeOptReference(EncodeOptReference(r)) == Success(r)
  {
  }

  lemma EnrolmentRoundTrip(e: Enrolment)
    ensures DecodeEnrolment(EncodeEnrolment(e)) == Success(e)
  {
  }

  lemma RelationRoundTrip(r: UserRelation)
    ensures DecodeRelation(EncodeRelation(r)) == Success(r)
  {
  }

  lemma EnrolmentsRoundTrip(list: Option<seq<Enrolment>>)
    ensures DecodeList(EncodeList(list, EncodeEnrolment), DecodeEnrolment) == Success(list)
  {
    forall e ensures DecodeEnrolment(EncodeEnrolment(e)) == Success(e) { EnrolmentRoundTrip(e); }
    DecodeListOfEncodeList(list, EncodeEnrolment, DecodeEnrolment);
  }

  lemma RelationsRoundTrip(list: Option<seq<UserRelation>>)
    ensures DecodeList(EncodeList(list, EncodeRelation), DecodeRelation) == Success(list)
  {
    forall r ensures DecodeRelation(EncodeRelation(r)) == Success(r) { RelationRoundTrip(r); }
    DecodeListOfEncodeList(list, EncodeRelation, DecodeRelation);
  }

  lemma ExtensionAttributes(x: Extension)
    ensures var fields := EncodeExtension(x).fields;
            && Get(fields, Attr.Enrolments) == EncodeList(NilIfEmpty(x.enrolments), EncodeEnrolment)
            && Get(fields, Attr.UserRelations) == EncodeList(NilIfEmpty(x.userRelations), EncodeRelation)
            && DecodeOptString(Get(fields, Attr.CivicNo)) == Success(x.civicNo)
            && DecodeOptBool(Get(fields, Attr.SecurityMarking)) == Success(x.securityMarking)
  {
  }

  lemma ExtensionRoundTrip(x: Extension)
    ensures DecodeExtension(EncodeExtension(x)) ==
            Success(x.(enrolments := NilIfEmpty(x.enrolments), userRelations := NilIfEmpty(x.userRelations)))
  {
    ExtensionAttributes(x);
    EnrolmentsRoundTrip(NilIfEmpty(x.enrolments));
    RelationsRoundTrip(NilIfEmpty(x.userRelations));
  }

  lemma NameRoundTrip(n: PersonName)
    ensures DecodeName(EncodeName(n)) == if n.familyName != "" && n.givenName != "" then Success(n) else Failure
  {
  }

  lemma EmailsRoundTrip(list: Option<seq<Email>>)
    ensures DecodeList(EncodeList(list, EncodeEmail), DecodeEmail) == Success(list)
  {
    DecodeListOfEncodeList(list, EncodeEmail, DecodeEmail);
  }

  lemma UserRoundTrip(o: Object)
    requires o.User?
    ensures UserOf(UserFields(o)) == if HasNames(o) then Success(OmitEmpty(o)) else Failure
  {
    var x := o.extension;
    var fields := UserFields(o);
    var name, extension, emails := EncodeName(o.name), EncodeExtension(x), EncodeList(o.emails, EncodeEmail);
    assert Get(fields, Attr.Name) == name;
    assert Get(fields, Attr.UserExtension) == extension;
    assert Get(fields, Attr.Emails) == emails;
    NameRoundTrip(o.name);
    EmailsRoundTrip(o.emails);
    ExtensionRoundTrip(x);
  }

  lemma StudentGroupRoundTrip(o: Object)
    requires o.StudentGroup?
    ensures StudentGroupOf(StudentGroupFields(o)) == Success(o)
  {
    ReferencesRoundTrip(o.memberships);
  }

  lemma SchoolUnitRoundTrip(o: Object)
    requires o.SchoolUnit?
    ensures SchoolUnitOf(SchoolUnitFields(o)) == Success(o)
  {
    OptReferenceRoundTrip(o.organisation);
    OptReferenceRoundTrip(o.schoolUnitGroup);
    var encode := (s: string) => Str(s);
    DecodeListOfEncodeList(o.schoolTypes, encode, DecodeString);
    assert Get(SchoolUnitFields(o), Attr.SchoolTypes) == EncodeList(o.schoolTypes, encode);
  }

  lemma ActivityRoundTrip(o: Object)
    requires o.Activity?
    ensures ActivityOf(ActivityFields(o)) == Success(o)
  {
    ReferencesRoundTrip(o.groups);
    ReferencesRoundTrip(o.teachers);
    ReferencesRoundTrip(o.parentActivity);
  }

  lemma EmploymentRoundTrip(o: Object)
    requires o.Employment?
    ensures EmploymentOf(EmploymentFields(o)) == Success(o)
  {
  }

  lemma ObjectOfFields(o: Object)
    ensures ObjectOf(KindOf(o), FieldsOf(o)) == if HasNames(o) then Success(OmitEmpty(o)) else Failure
  {
    match KindOf(o)
    case Users => UserRoundTrip(o);
    case StudentGroups => StudentGroupRoundTrip(o);
    case SchoolUnits => SchoolUnitRoundTrip(o);
    case Employments => EmploymentRoundTrip(o);
    case Activities => ActivityRoundTrip(o);
    case _ =>
  }

  /** Decoding what was encoded gives the object back, except users with an empty family or given name. */
  lemma DecodeOfEncode(o: Object)
    ensures Decode(KindOf(o), Encode(o)) == if HasNames(o) then Success(OmitEmpty(o)) else Failure
  {
    ObjectOfFields(o);
  }

  lemma UserIgnoresId(f: map<Attr, Json>, id: Json)
    ensures UserOf(f[Attr.Id := id]) == UserOf(f)
  {
  }

  lemma StudentGroupIgnoresId(f: map<Attr, Json>, id: Json)
    ensures StudentGroupOf(f[Attr.Id := id]) == StudentGroupOf(f)
  {
  }

  lemma SchoolUnitIgnoresId(f: map<Attr, Json>, id: Json)
    ensures SchoolUnitOf(f[Attr.Id := id]) == SchoolUnitOf(f)
  {
  }

  lemma EmploymentIgnoresId(f: map<Attr, Json>, id: Json)
    ensures EmploymentOf(f[Attr.Id := id]) == EmploymentOf(f)
  {
  }

  lemma ActivityIgnoresId(f: map<Attr, Json>, id: Json)
    ensures ActivityOf(f[Attr.Id := id]) == ActivityOf(f)
  {
  }

  lemma ObjectOfIgnoresId(kind: Kind, f: map<Attr, Json>, id: Json)
    ensures ObjectOf(kind, f[Attr.Id := id]) == ObjectOf(kind, f)
  {
    match kind
    case Users => UserIgnoresId(f, id);
    case StudentGroups => StudentGroupIgnoresId(f, id);
    case SchoolUnits => SchoolUnitIgnoresId(f, id);
    case Employments => EmploymentIgnoresId(f, id);
    case Activities => ActivityIgnoresId(f, id);
    case _ =>
  }

  lemma NoIdRequired(kind: Kind)
    ensures Attr.Id !in RequiredOf(kind)
  {
  }

  lemma RequiredIgnoresId(required: seq<Attr>, f: map<Attr, Json>, id: Json)
    requires Attr.Id !in required
    ensures EnsureRequired(required, Obj(f[Attr.Id := id])) ==
            if EnsureRequired(required, Obj(f)).Success? then Success(f[Attr.Id := id]) else Failure
  {
  }

  /** An attribute `id`, as a query response adds to each resource, is ignored by every decoder. */
  lemma DecodeIgnoresId(kind: Kind, f: map<Attr, Json>, id: Json)
    ensures Decode(kind, Obj(f[Attr.Id := id])) == Decode(kind, Obj(f))
  {
    ObjectOfIgnoresId(kind, f, id);
    NoIdRequired(kind);
    RequiredIgnoresId(RequiredOf(kind), f, id);
  }

  /**
   A non-null `group` means the same as the one-element `groups`, provided the `groups` it
   displaces would have decoded; otherwise the whole activity is refused.
   */
  lemma GroupIsSingletonGroups(fields: map<Attr, Json>)
    requires Get(fields, Attr.Group) != Null
    ensures ActivityOf(fields) ==
            if DecodeList(Get(fields, Attr.Groups), DecodeReference).Failure? then Failure
            else ActivityOf((fields - {Attr.Group})[Attr.Groups := Arr([fields[Attr.Group]])])
  {
    var group := fields[Attr.Group];
    var fields' := (fields - {Attr.Group})[Attr.Groups := Arr([group])];
    SingletonList(group);
    assert Get(fields', Attr.Groups) == Arr([group]) && Get(fields', Attr.Group) == Null;
    assert Get(fields', Attr.ExternalId) == Get(fields, Attr.ExternalId);
    assert Get(fields', Attr.DisplayName) == Get(fields, Attr.DisplayName);
    assert Get(fields', Attr.Owner) == Get(fields, Attr.Owner);
    assert Get(fields', Attr.Teachers) == Get(fields, Attr.Teachers);
    assert Get(fields', Attr.ParentActivity) == Get(fields, Attr.ParentActivity);
  }

  lemma SingletonList(j: Json)
    ensures DecodeList(Arr([j]), DecodeReference) ==
            if DecodeReference(j).Failure? then Failure else Success(Some([DecodeReference(j).value]))
  {
    var elems := [j];
    assert elems[1..] == [];
    assert DecodeAll(elems[1..], DecodeReference) == Success([]);
    if DecodeReference(elems[0]).Success? {
      assert [DecodeReference(j).value] + [] == [DecodeReference(j).value];
    }
  }
}
