/**
 What the JSON documents of the SS12000 objects look like, attribute by attribute, said without
 encoding or decoding anything: the tags and types in ss12000v1/types.go.
 */
module Documents {
  import opened Wrappers
  import opened JsonTrees
  import opened Objects

  // ---------- documents that are written ----------

  predicate Exactly(j: Json, attributes: set<Attr>) {
    j.Obj? && j.fields.Keys == attributes
  }

  /** An attribute that is left out under some condition. */
  function Only(present: bool, a: Attr): set<Attr> {
    if present then {a} else {}
  }

  predicate ReferenceDoc(j: Json, r: Reference) {
    && Exactly(j, {Attr.Value, Attr.Ref})
    && j.fields[Attr.Value] == Str(r.value)
    && j.fields[Attr.Ref] == Str(r.ref)
  }

  predicate OptReferenceDoc(j: Json, r: Option<Reference>) {
    if r.None? then j == Null else ReferenceDoc(j, r.value)
  }

  predicate OptStringDoc(j: Json, s: Option<string>) {
    j == if s.None? then Null else Str(s.value)
  }

  predicate StringDoc(j: Json, s: string) {
    j == Str(s)
  }

  predicate NameDoc(j: Json, n: PersonName) {
    && Exactly(j, Only(n.familyName != "", Attr.FamilyName) + Only(n.givenName != "", Attr.GivenName))
    && (n.familyName != "" ==> j.fields[Attr.FamilyName] == Str(n.familyName))
    && (n.givenName != "" ==> j.fields[Attr.GivenName] == Str(n.givenName))
  }

  predicate EmailDoc(j: Json, e: Email) {
    && Exactly(j, Only(e.value != "", Attr.Value) + Only(e.typ != "", Attr.Type))
    && (e.value != "" ==> j.fields[Attr.Value] == Str(e.value))
    && (e.typ != "" ==> j.fields[Attr.Type] == Str(e.typ))
  }

  predicate EnrolmentDoc(j: Json, e: Enrolment) {
    && Exactly(j, {Attr.Value, Attr.Ref} + Only(e.schoolYear.Some?, Attr.SchoolYear)
                  + Only(e.schoolType.Some?, Attr.SchoolType) + Only(e.programCode.Some?, Attr.ProgramCode))
    && j.fields[Attr.Value] == Str(e.value)
    && j.fields[Attr.Ref] == Str(e.ref)
    && (e.schoolYear.Some? ==> j.fields[Attr.SchoolYear] == Int(e.schoolYear.value))
    && (e.schoolType.Some? ==> j.fields[Attr.SchoolType] == Str(e.schoolType.value))
    && (e.programCode.Some? ==> j.fields[Attr.ProgramCode] == Str(e.programCode.value))
  }

  predicate RelationDoc(j: Json, r: UserRelation) {
    && Exactly(j, {Attr.Value, Attr.Ref, Attr.RelationType} + Only(r.displayName.Some?, Attr.DisplayName))
    && j.fields[Attr.Value] == Str(r.value)
    && j.fields[Attr.Ref] == Str(r.ref)
    && j.fields[Attr.RelationType] == Str(r.relationType)
    && (r.displayName.Some? ==> j.fields[Attr.DisplayName] == Str(r.displayName.value))
  }

  /** A list is null when it is nil, and otherwise an array of its elements in order. */
  predicate ListDoc<T>(j: Json, list: Option<seq<T>>, doc: (Json, T) -> bool) {
    if list.None? then j == Null
    else j.Arr? && |j.elems| == |list.value| && forall i :: 0 <= i < |j.elems| ==> doc(j.elems[i], list.value[i])
  }

  predicate ExtensionDoc(j: Json, x: Extension) {
    && Exactly(j, Only(Elems(x.enrolments) != [], Attr.Enrolments) + Only(x.civicNo.Some?, Attr.CivicNo)
                  + Only(x.securityMarking.Some?, Attr.SecurityMarking)
                  + Only(Elems(x.userRelations) != [], Attr.UserRelations))
    && (Elems(x.enrolments) != [] ==> ListDoc(j.fields[Attr.Enrolments], x.enrolments, EnrolmentDoc))
    && (x.civicNo.Some? ==> j.fields[Attr.CivicNo] == Str(x.civicNo.value))
    && (x.securityMarking.Some? ==> j.fields[Attr.SecurityMarking] == Bool(x.securityMarking.value))
    && (Elems(x.userRelations) != [] ==> ListDoc(j.fields[Attr.UserRelations], x.userRelations, RelationDoc))
  }

  predicate UserDoc(j: Json, o: Object)
    requires o.User?
  {
    && Exactly(j, {Attr.ExternalId, Attr.UserName, Attr.Name, Attr.DisplayName, Attr.Emails, Attr.UserExtension})
    && j.fields[Attr.ExternalId] == Str(o.id)
    && j.fields[Attr.UserName] == Str(o.userName)
    && NameDoc(j.fields[Attr.Name], o.name)
    && j.fields[Attr.DisplayName] == Str(o.displayName)
    && ListDoc(j.fields[Attr.Emails], o.emails, EmailDoc)
    && ExtensionDoc(j.fields[Attr.UserExtension], o.extension)
  }

  predicate StudentGroupDoc(j: Json, o: Object)
    requires o.StudentGroup?
  {
    && Exactly(j, {Attr.ExternalId, Attr.DisplayName, Attr.Owner, Attr.StudentGroupType, Attr.StudentMemberships,
                   Attr.SchoolType})
    && j.fields[Attr.ExternalId] == Str(o.id)
    && j.fields[Attr.DisplayName] == Str(o.displayName)
    && ReferenceDoc(j.fields[Attr.Owner], o.owner)
    && OptStringDoc(j.fields[Attr.StudentGroupType], o.groupType)
    && ListDoc(j.fields[Attr.StudentMemberships], o.memberships, ReferenceDoc)
    && OptStringDoc(j.fields[Attr.SchoolType], o.schoolType)
  }

  predicate SchoolUnitDoc(j: Json, o: Object)
    requires o.SchoolUnit?
  {
    && Exactly(j, {Attr.ExternalId, Attr.SchoolUnitCode, Attr.DisplayName, Attr.Organisation, Attr.SchoolUnitGroup,
                   Attr.SchoolTypes, Attr.MunicipalityCode})
    && j.fields[Attr.ExternalId] == Str(o.id)
    && j.fields[Attr.SchoolUnitCode] == Str(o.schoolUnitCode)
    && j.fields[Attr.DisplayName] == Str(o.displayName)
    && OptReferenceDoc(j.fields[Attr.Organisation], o.organisation)
    && OptReferenceDoc(j.fields[Attr.SchoolUnitGroup], o.schoolUnitGroup)
    && ListDoc(j.fields[Attr.SchoolTypes], o.schoolTypes, StringDoc)
    && OptStringDoc(j.fields[Attr.MunicipalityCode], o.municipalityCode)
  }

  predicate EmploymentDoc(j: Json, o: Object)
    requires o.Employment?
  {
    && Exactly(j, {Attr.ExternalId, Attr.EmployedAt, Attr.User, Attr.EmploymentRole, Attr.Signature})
    && j.fields[Attr.ExternalId] == Str(o.id)
    && ReferenceDoc(j.fields[Attr.EmployedAt], o.employedAt)
    && ReferenceDoc(j.fields[Attr.User], o.user)
    && j.fields[Attr.EmploymentRole] == Str(o.role)
    && j.fields[Attr.Signature] == Str(o.signature)
  }

  predicate ActivityDoc(j: Json, o: Object)
    requires o.Activity?
  {
    && Exactly(j, {Attr.ExternalId, Attr.DisplayName, Attr.Owner, Attr.Groups, Attr.Teachers, Attr.ParentActivity})
    && j.fields[Attr.ExternalId] == Str(o.id)
    && j.fields[Attr.DisplayName] == Str(o.displayName)
    && ReferenceDoc(j.fields[Attr.Owner], o.owner)
    && ListDoc(j.fields[Attr.Groups], o.groups, ReferenceDoc)
    && ListDoc(j.fields[Attr.Teachers], o.teachers, ReferenceDoc)
    && ListDoc(j.fields[Attr.ParentActivity], o.parentActivity, ReferenceDoc)
  }

  predicate NamedDoc(j: Json, o: Object)
    requires o.Organisation? || o.SchoolUnitGroup?
  {
    && Exactly(j, {Attr.ExternalId, Attr.DisplayName})
    && j.fields[Attr.ExternalId] == Str(o.id)
    && j.fields[Attr.DisplayName] == Str(o.displayName)
  }

  predicate Document(j: Json, o: Object) {
    match KindOf(o)
    case Users => UserDoc(j, o)
    case StudentGroups => StudentGroupDoc(j, o)
    case SchoolUnits => SchoolUnitDoc(j, o)
    case Employments => EmploymentDoc(j, o)
    case Activities => ActivityDoc(j, o)
    case _ => NamedDoc(j, o)
  }

  // ---------- encoding writes them ----------

  lemma ReferenceIs(j: Json, r: Reference)
    ensures j == EncodeReference(r) <==> ReferenceDoc(j, r)
  {
    if ReferenceDoc(j, r) {
      SameMaps(j.fields, EncodeReference(r).fields);
    }
  }

  lemma NameIs(j: Json, n: PersonName)
    ensures j == EncodeName(n) <==> NameDoc(j, n)
  {
    assert NameDoc(EncodeName(n), n);
    if NameDoc(j, n) {
      SameMaps(j.fields, EncodeName(n).fields);
    }
  }

  lemma EmailIs(j: Json, e: Email)
    ensures j == EncodeEmail(e) <==> EmailDoc(j, e)
  {
    assert EmailDoc(EncodeEmail(e), e);
    if EmailDoc(j, e) {
      SameMaps(j.fields, EncodeEmail(e).fields);
    }
  }

  lemma EnrolmentIs(j: Json, e: Enrolment)
    ensures j == EncodeEnrolment(e) <==> EnrolmentDoc(j, e)
  {
    assert EnrolmentDoc(EncodeEnrolment(e), e);
    if EnrolmentDoc(j, e) {
      SameMaps(j.fields, EncodeEnrolment(e).fields);
    }
  }

  lemma RelationIs(j: Json, r: UserRelation)
    ensures j == EncodeRelation(r) <==> RelationDoc(j, r)
  {
    assert RelationDoc(EncodeRelation(r), r);
    if RelationDoc(j, r) {
      SameMaps(j.fields, EncodeRelation(r).fields);
    }
  }

  lemma ListIs<T>(j: Json, list: Option<seq<T>>, encode: T -> Json, doc: (Json, T) -> bool)
    requires forall k, x :: doc(k, x) <==> k == encode(x)
    ensures j == EncodeList(list, encode) <==> ListDoc(j, list, doc)
  {
    if ListDoc(j, list, doc) && list.Some? {
      assert j.elems == Map(encode, list.value);
    }
  }

  lemma ReferencesAre(j: Json, list: Option<seq<Reference>>)
    ensures j == EncodeList(list, EncodeReference) <==> ListDoc(j, list, ReferenceDoc)
  {
    forall k, r ensures ReferenceDoc(k, r) <==> k == EncodeReference(r) { ReferenceIs(k, r); }
    ListIs(j, list, EncodeReference, ReferenceDoc);
  }

  lemma EmailsAre(j: Json, list: Option<seq<Email>>)
    ensures j == EncodeList(list, EncodeEmail) <==> ListDoc(j, list, EmailDoc)
  {
    forall k, e ensures EmailDoc(k, e) <==> k == EncodeEmail(e) { EmailIs(k, e); }
    ListIs(j, list, EncodeEmail, EmailDoc);
  }

  lemma EnrolmentsAre(j: Json, list: Option<seq<Enrolment>>)
    ensures j == EncodeList(list, EncodeEnrolment) <==> ListDoc(j, list, EnrolmentDoc)
  {
    forall k, e ensures EnrolmentDoc(k, e) <==> k == EncodeEnrolment(e) { EnrolmentIs(k, e); }
    ListIs(j, list, EncodeEnrolment, EnrolmentDoc);
  }

  lemma RelationsAre(j: Json, list: Option<seq<UserRelation>>)
    ensures j == EncodeList(list, EncodeRelation) <==> ListDoc(j, list, RelationDoc)
  {
    forall k, r ensures RelationDoc(k, r) <==> k == EncodeRelation(r) { RelationIs(k, r); }
    ListIs(j, list, EncodeRelation, RelationDoc);
  }

  lemma StringsAre(j: Json, list: Option<seq<string>>, encode: string -> Json)
    requires forall s :: encode(s) == Str(s)
    ensures j == EncodeList(list, encode) <==> ListDoc(j, list, StringDoc)
  {
    forall k, s ensures StringDoc(k, s) <==> k == encode(s) {}
    ListIs(j, list, encode, StringDoc);
  }

  /** The attributes of the encoded extension, one by one. */
  lemma ExtensionIsDoc(x: Extension)
    ensures ExtensionDoc(EncodeExtension(x), x)
  {
    EnrolmentsAre(EncodeList(x.enrolments, EncodeEnrolment), x.enrolments);
    RelationsAre(EncodeList(x.userRelations, EncodeRelation), x.userRelations);
  }

  lemma ExtensionIs(j: Json, x: Extension)
    ensures j == EncodeExtension(x) <==> ExtensionDoc(j, x)
  {
    ExtensionIsDoc(x);
    if ExtensionDoc(j, x) {
      var f, g := j.fields, EncodeExtension(x).fields;
      if Elems(x.enrolments) != [] {
        EnrolmentsAre(f[Attr.Enrolments], x.enrolments);
        EnrolmentsAre(g[Attr.Enrolments], x.enrolments);
      }
      if Elems(x.userRelations) != [] {
        RelationsAre(f[Attr.UserRelations], x.userRelations);
        RelationsAre(g[Attr.UserRelations], x.userRelations);
      }
      SameMaps(f, g);
    }
  }

  lemma UserIsDoc(o: Object)
    requires o.User?
    ensures UserDoc(Obj(UserFields(o)), o)
  {
    var g := UserFields(o);
    NameIs(g[Attr.Name], o.name);
    EmailsAre(g[Attr.Emails], o.emails);
    ExtensionIs(g[Attr.UserExtension], o.extension);
  }

  lemma UserIs(j: Json, o: Object)
    requires o.User?
    ensures j == Obj(UserFields(o)) <==> UserDoc(j, o)
  {
    UserIsDoc(o);
    if UserDoc(j, o) {
      NameIs(j.fields[Attr.Name], o.name);
      EmailsAre(j.fields[Attr.Emails], o.emails);
      ExtensionIs(j.fields[Attr.UserExtension], o.extension);
      SameMaps(j.fields, UserFields(o));
    }
  }

  lemma StudentGroupIs(j: Json, o: Object)
    requires o.StudentGroup?
    ensures j == Obj(StudentGroupFields(o)) <==> StudentGroupDoc(j, o)
  {
    var g := StudentGroupFields(o);
    ReferenceIs(g[Attr.Owner], o.owner);
    ReferencesAre(g[Attr.StudentMemberships], o.memberships);
    if StudentGroupDoc(j, o) {
      ReferenceIs(j.fields[Attr.Owner], o.owner);
      ReferencesAre(j.fields[Attr.StudentMemberships], o.memberships);
      SameMaps(j.fields, g);
    }
  }

  lemma OptReferenceIs(j: Json, r: Option<Reference>)
    ensures j == EncodeOptReference(r) <==> OptReferenceDoc(j, r)
  {
    if r.Some? {
      ReferenceIs(j, r.value);
    }
  }

  lemma SchoolUnitIs(j: Json, o: Object)
    requires o.SchoolUnit?
    ensures j == Obj(SchoolUnitFields(o)) <==> SchoolUnitDoc(j, o)
  {
    var g := SchoolUnitFields(o);
    var encode := (s: string) => Str(s);
    assert g[Attr.SchoolTypes] == EncodeList(o.schoolTypes, encode);
    OptReferenceIs(g[Attr.Organisation], o.organisation);
    OptReferenceIs(g[Attr.SchoolUnitGroup], o.schoolUnitGroup);
    StringsAre(g[Attr.SchoolTypes], o.schoolTypes, encode);
    if SchoolUnitDoc(j, o) {
      OptReferenceIs(j.fields[Attr.Organisation], o.organisation);
      OptReferenceIs(j.fields[Attr.SchoolUnitGroup], o.schoolUnitGroup);
      StringsAre(j.fields[Attr.SchoolTypes], o.schoolTypes, encode);
      SameMaps(j.fields, g);
    }
  }

  lemma EmploymentIs(j: Json, o: Object)
    requires o.Employment?
    ensures j == Obj(EmploymentFields(o)) <==> EmploymentDoc(j, o)
  {
    var g := EmploymentFields(o);
    ReferenceIs(g[Attr.EmployedAt], o.employedAt);
    ReferenceIs(g[Attr.User], o.user);
    if EmploymentDoc(j, o) {
      ReferenceIs(j.fields[Attr.EmployedAt], o.employedAt);
      ReferenceIs(j.fields[Attr.User], o.user);
      SameMaps(j.fields, g);
    }
  }

  lemma ActivityIs(j: Json, o: Object)
    requires o.Activity?
    ensures j == Obj(ActivityFields(o)) <==> ActivityDoc(j, o)
  {
    var g := ActivityFields(o);
    ReferenceIs(g[Attr.Owner], o.owner);
    ReferencesAre(g[Attr.Groups], o.groups);
    ReferencesAre(g[Attr.Teachers], o.teachers);
    ReferencesAre(g[Attr.ParentActivity], o.parentActivity);
    if ActivityDoc(j, o) {
      ReferenceIs(j.fields[Attr.Owner], o.owner);
      ReferencesAre(j.fields[Attr.Groups], o.groups);
      ReferencesAre(j.fields[Attr.Teachers], o.teachers);
      ReferencesAre(j.fields[Attr.ParentActivity], o.parentActivity);
      SameMaps(j.fields, g);
    }
  }

  lemma NamedIs(j: Json, o: Object)
    requires o.Organisation? || o.SchoolUnitGroup?
    ensures j == Encode(o) <==> NamedDoc(j, o)
  {
    if NamedDoc(j, o) {
      SameMaps(j.fields, Encode(o).fields);
    }
  }

  /**
   Main result on what is sent: the encoding of an object is the one document that has exactly the
   attributes its type is tagged with, those tagged omitempty only where they are not empty, and under
   each of them the value of its own field.
   */
  lemma EncodeIs(j: Json, o: Object)
    ensures j == Encode(o) <==> Document(j, o)
  {
    match KindOf(o)
    case Users => UserIs(j, o);
    case StudentGroups => StudentGroupIs(j, o);
    case SchoolUnits => SchoolUnitIs(j, o);
    case Employments => EmploymentIs(j, o);
    case Activities => ActivityIs(j, o);
    case _ => NamedIs(j, o);
  }

  // ---------- documents that are read ----------

  /** The attributes of an object; null has none. */
  function Inside(j: Json): map<Attr, Json> {
    if j.Obj? then j.fields else map[]
  }

  predicate Has(f: map<Attr, Json>, required: set<Attr>) {
    required <= f.Keys
  }

  // Which values a field of each type takes: in every case null, and so absence, too.

  predicate TakesString(j: Json) {
    j.Null? || j.Str?
  }

  predicate TakesBool(j: Json) {
    j.Null? || j.Bool?
  }

  predicate TakesInt(j: Json) {
    j.Null? || (j.Int? && -0x8000_0000_0000_0000 <= j.n <= 0x7FFF_FFFF_FFFF_FFFF)
  }

  predicate TakesReference(j: Json) {
    (j.Null? || j.Obj?) && TakesString(Get(Inside(j), Attr.Value)) && TakesString(Get(Inside(j), Attr.Ref))
  }

  predicate TakesName(j: Json) {
    && j.Obj? && Has(j.fields, {Attr.FamilyName, Attr.GivenName})
    && TakesString(Get(j.fields, Attr.FamilyName)) && TakesString(Get(j.fields, Attr.GivenName))
  }

  predicate TakesEmail(j: Json) {
    (j.Null? || j.Obj?) && TakesString(Get(Inside(j), Attr.Value)) && TakesString(Get(Inside(j), Attr.Type))
  }

  predicate TakesEnrolment(j: Json) {
    && j.Obj? && Has(j.fields, {Attr.Value})
    && TakesString(Get(j.fields, Attr.Value)) && TakesString(Get(j.fields, Attr.Ref))
    && TakesInt(Get(j.fields, Attr.SchoolYear))
    && TakesString(Get(j.fields, Attr.SchoolType)) && TakesString(Get(j.fields, Attr.ProgramCode))
  }

  predicate TakesRelation(j: Json) {
    && j.Obj? && Has(j.fields, {Attr.Value, Attr.RelationType})
    && TakesString(Get(j.fields, Attr.Value)) && TakesString(Get(j.fields, Attr.Ref))
    && TakesString(Get(j.fields, Attr.RelationType)) && TakesString(Get(j.fields, Attr.DisplayName))
  }

  predicate TakesList(j: Json, takes: Json -> bool) {
    j.Null? || (j.Arr? && forall i :: 0 <= i < |j.elems| ==> takes(j.elems[i]))
  }

  predicate TakesExtension(j: Json) {
    && (j.Null? || j.Obj?)
    && TakesList(Get(Inside(j), Attr.Enrolments), TakesEnrolment)
    && TakesString(Get(Inside(j), Attr.CivicNo))
    && TakesBool(Get(Inside(j), Attr.SecurityMarking))
    && TakesList(Get(Inside(j), Attr.UserRelations), TakesRelation)
  }

  /** Which attributes make an object of a kind: the required ones present, and every value of the right type. */
  predicate Takes(kind: Kind, f: map<Attr, Json>) {
    match kind
    case Users =>
      && Has(f, {Attr.ExternalId, Attr.UserName, Attr.Name, Attr.DisplayName})
      && TakesString(Get(f, Attr.ExternalId)) && TakesString(Get(f, Attr.UserName))
      && TakesName(Get(f, Attr.Name)) && TakesString(Get(f, Attr.DisplayName))
      && TakesList(Get(f, Attr.Emails), TakesEmail) && TakesExtension(Get(f, Attr.UserExtension))
    case StudentGroups =>
      && Has(f, {Attr.ExternalId, Attr.DisplayName, Attr.Owner})
      && TakesString(Get(f, Attr.ExternalId)) && TakesString(Get(f, Attr.DisplayName))
      && TakesReference(Get(f, Attr.Owner)) && TakesString(Get(f, Attr.StudentGroupType))
      && TakesList(Get(f, Attr.StudentMemberships), TakesReference) && TakesString(Get(f, Attr.SchoolType))
    case SchoolUnits =>
      && Has(f, {Attr.ExternalId, Attr.DisplayName, Attr.SchoolUnitCode})
      && TakesString(Get(f, Attr.ExternalId)) && TakesString(Get(f, Attr.SchoolUnitCode))
      && TakesString(Get(f, Attr.DisplayName)) && TakesReference(Get(f, Attr.Organisation))
      && TakesReference(Get(f, Attr.SchoolUnitGroup)) && TakesList(Get(f, Attr.SchoolTypes), TakesString)
      && TakesString(Get(f, Attr.MunicipalityCode))
    case Employments =>
      && Has(f, {Attr.ExternalId, Attr.EmployedAt, Attr.User, Attr.EmploymentRole})
      && TakesString(Get(f, Attr.ExternalId)) && TakesReference(Get(f, Attr.EmployedAt))
      && TakesReference(Get(f, Attr.User)) && TakesString(Get(f, Attr.EmploymentRole))
      && TakesString(Get(f, Attr.Signature))
    case Activities =>
      && Has(f, {Attr.ExternalId, Attr.DisplayName, Attr.Owner})
      && TakesString(Get(f, Attr.ExternalId)) && TakesString(Get(f, Attr.DisplayName))
      && TakesReference(Get(f, Attr.Owner)) && TakesReference(Get(f, Attr.Group))
      && TakesList(Get(f, Attr.Groups), TakesReference) && TakesList(Get(f, Attr.Teachers), TakesReference)
      && TakesList(Get(f, Attr.ParentActivity), TakesReference)
    case _ =>
      && Has(f, {Attr.ExternalId, Attr.DisplayName})
      && TakesString(Get(f, Attr.ExternalId)) && TakesString(Get(f, Attr.DisplayName))
  }

  lemma {:induction false} AllTaken<T>(elems: seq<Json>, decode: Json -> Result<T>, takes: Json -> bool)
    requires forall j :: takes(j) <==> decode(j).Success?
    ensures DecodeAll(elems, decode).Success? <==> forall i :: 0 <= i < |elems| ==> takes(elems[i])
  {
    if elems != [] {
      AllTaken(elems[1..], decode, takes);
      assert (forall i :: 0 <= i < |elems| ==> takes(elems[i])) <==>
             takes(elems[0]) && forall i :: 0 <= i < |elems[1..]| ==> takes(elems[1..][i]) by {
        assert forall i :: 0 < i < |elems| ==> elems[1..][i - 1] == elems[i];
      }
    }
  }

  lemma ListTaken<T>(j: Json, decode: Json -> Result<T>, takes: Json -> bool)
    requires forall k :: takes(k) <==> decode(k).Success?
    ensures DecodeList(j, decode).Success? <==> TakesList(j, takes)
  {
    if j.Arr? {
      AllTaken(j.elems, decode, takes);
    }
  }

  lemma ReferenceTaken(j: Json)
    ensures TakesReference(j) <==> DecodeReference(j).Success?
    ensures TakesReference(j) <==> DecodeOptReference(j).Success?
  {
  }

  lemma ReferencesTaken(j: Json)
    ensures DecodeList(j, DecodeReference).Success? <==> TakesList(j, TakesReference)
  {
    forall k ensures TakesReference(k) <==> DecodeReference(k).Success? { ReferenceTaken(k); }
    ListTaken(j, DecodeReference, TakesReference);
  }

  lemma NameTaken(j: Json)
    ensures TakesName(j) <==> DecodeName(j).Success?
  {
  }

  lemma EmailsTaken(j: Json)
    ensures DecodeList(j, DecodeEmail).Success? <==> TakesList(j, TakesEmail)
  {
    forall k ensures TakesEmail(k) <==> DecodeEmail(k).Success? {}
    ListTaken(j, DecodeEmail, TakesEmail);
  }

  lemma EnrolmentsTaken(j: Json)
    ensures DecodeList(j, DecodeEnrolment).Success? <==> TakesList(j, TakesEnrolment)
  {
    forall k ensures TakesEnrolment(k) <==> DecodeEnrolment(k).Success? {}
    ListTaken(j, DecodeEnrolment, TakesEnrolment);
  }

  lemma RelationsTaken(j: Json)
    ensures DecodeList(j, DecodeRelation).Success? <==> TakesList(j, TakesRelation)
  {
    forall k ensures TakesRelation(k) <==> DecodeRelation(k).Success? {}
    ListTaken(j, DecodeRelation, TakesRelation);
  }

  lemma ExtensionTaken(j: Json)
    ensures TakesExtension(j) <==> DecodeExtension(j).Success?
  {
    EnrolmentsTaken(Get(Inside(j), Attr.Enrolments));
    RelationsTaken(Get(Inside(j), Attr.UserRelations));
  }

  lemma UserTaken(f: map<Attr, Json>)
    ensures Decode(Users, Obj(f)).Success? <==> Takes(Users, f)
  {
    NameTaken(Get(f, Attr.Name));
    EmailsTaken(Get(f, Attr.Emails));
    ExtensionTaken(Get(f, Attr.UserExtension));
  }

  lemma StudentGroupTaken(f: map<Attr, Json>)
    ensures Decode(StudentGroups, Obj(f)).Success? <==> Takes(StudentGroups, f)
  {
    ReferenceTaken(Get(f, Attr.Owner));
    ReferencesTaken(Get(f, Attr.StudentMemberships));
  }

  lemma SchoolUnitTaken(f: map<Attr, Json>)
    ensures Decode(SchoolUnits, Obj(f)).Success? <==> Takes(SchoolUnits, f)
  {
    ReferenceTaken(Get(f, Attr.Organisation));
    ReferenceTaken(Get(f, Attr.SchoolUnitGroup));
    forall k ensures TakesString(k) <==> DecodeString(k).Success? {}
    ListTaken(Get(f, Attr.SchoolTypes), DecodeString, TakesString);
  }

  lemma EmploymentTaken(f: map<Attr, Json>)
    ensures Decode(Employments, Obj(f)).Success? <==> Takes(Employments, f)
  {
    ReferenceTaken(Get(f, Attr.EmployedAt));
    ReferenceTaken(Get(f, Attr.User));
  }

  lemma ActivityTaken(f: map<Attr, Json>)
    ensures Decode(Activities, Obj(f)).Success? <==> Takes(Activities, f)
  {
    ReferenceTaken(Get(f, Attr.Owner));
    ReferenceTaken(Get(f, Attr.Group));
    ReferencesTaken(Get(f, Attr.Groups));
    ReferencesTaken(Get(f, Attr.Teachers));
    ReferencesTaken(Get(f, Attr.ParentActivity));
  }

  /** Main result on acceptance: a body decodes exactly when it has its type's required attributes and right values. */
  lemma DecodeTakes(kind: Kind, j: Json)
    ensures Decode(kind, j).Success? <==> j.Obj? && Takes(kind, j.fields)
  {
    if j.Obj? {
      match kind {
        case Users => UserTaken(j.fields);
        case StudentGroups => StudentGroupTaken(j.fields);
        case SchoolUnits => SchoolUnitTaken(j.fields);
        case Employments => EmploymentTaken(j.fields);
        case Activities => ActivityTaken(j.fields);
        case _ =>
      }
    }
  }

  // Which value a field gets from each: null and absence leave the zero value.

  predicate GivesString(j: Json, s: string) {
    s == if j.Str? then j.s else ""
  }

  predicate GivesOptString(j: Json, s: Option<string>) {
    s == if j.Str? then Some(j.s) else None
  }

  predicate GivesBool(j: Json, b: Option<bool>) {
    b == if j.Bool? then Some(j.b) else None
  }

  predicate GivesInt(j: Json, n: Option<Int64>) {
    if j.Int? then n.Some? && n.value == j.n else n == None
  }

  predicate GivesReference(j: Json, r: Reference) {
    GivesString(Get(Inside(j), Attr.Value), r.value) && GivesString(Get(Inside(j), Attr.Ref), r.ref)
  }

  predicate GivesOptReference(j: Json, r: Option<Reference>) {
    if j.Null? then r == None else r.Some? && GivesReference(j, r.value)
  }

  predicate GivesName(j: Json, n: PersonName) {
    && GivesString(Get(Inside(j), Attr.FamilyName), n.familyName)
    && GivesString(Get(Inside(j), Attr.GivenName), n.givenName)
  }

  predicate GivesEmail(j: Json, e: Email) {
    GivesString(Get(Inside(j), Attr.Value), e.value) && GivesString(Get(Inside(j), Attr.Type), e.typ)
  }

  predicate GivesEnrolment(j: Json, e: Enrolment) {
    && GivesString(Get(Inside(j), Attr.Value), e.value)
    && GivesString(Get(Inside(j), Attr.Ref), e.ref)
    && GivesInt(Get(Inside(j), Attr.SchoolYear), e.schoolYear)
    && GivesOptString(Get(Inside(j), Attr.SchoolType), e.schoolType)
    && GivesOptString(Get(Inside(j), Attr.ProgramCode), e.programCode)
  }

  predicate GivesRelation(j: Json, r: UserRelation) {
    && GivesString(Get(Inside(j), Attr.Value), r.value)
    && GivesString(Get(Inside(j), Attr.Ref), r.ref)
    && GivesString(Get(Inside(j), Attr.RelationType), r.relationType)
    && GivesOptString(Get(Inside(j), Attr.DisplayName), r.displayName)
  }

  predicate GivesList<T(==)>(j: Json, list: Option<seq<T>>, gives: (Json, T) -> bool) {
    if j.Arr? then
      list.Some? && |list.value| == |j.elems| && forall i :: 0 <= i < |j.elems| ==> gives(j.elems[i], list.value[i])
    else list == None
  }

  predicate GivesExtension(j: Json, x: Extension) {
    && GivesList(Get(Inside(j), Attr.Enrolments), x.enrolments, GivesEnrolment)
    && GivesOptString(Get(Inside(j), Attr.CivicNo), x.civicNo)
    && GivesBool(Get(Inside(j), Attr.SecurityMarking), x.securityMarking)
    && GivesList(Get(Inside(j), Attr.UserRelations), x.userRelations, GivesRelation)
  }

  /** Which object the attributes make: each field from its own, but groups from a `group` that is not null. */
  predicate Gives(f: map<Attr, Json>, o: Object) {
    match o
    case User(id, userName, name, displayName, emails, extension) =>
      && GivesString(Get(f, Attr.ExternalId), id) && GivesString(Get(f, Attr.UserName), userName)
      && GivesName(Get(f, Attr.Name), name) && GivesString(Get(f, Attr.DisplayName), displayName)
      && GivesList(Get(f, Attr.Emails), emails, GivesEmail) && GivesExtension(Get(f, Attr.UserExtension), extension)
    case StudentGroup(id, displayName, owner, groupType, memberships, schoolType) =>
      && GivesString(Get(f, Attr.ExternalId), id) && GivesString(Get(f, Attr.DisplayName), displayName)
      && GivesReference(Get(f, Attr.Owner), owner) && GivesOptString(Get(f, Attr.StudentGroupType), groupType)
      && GivesList(Get(f, Attr.StudentMemberships), memberships, GivesReference)
      && GivesOptString(Get(f, Attr.SchoolType), schoolType)
    case SchoolUnit(id, code, displayName, organisation, schoolUnitGroup, schoolTypes, municipalityCode) =>
      && GivesString(Get(f, Attr.ExternalId), id) && GivesString(Get(f, Attr.SchoolUnitCode), code)
      && GivesString(Get(f, Attr.DisplayName), displayName)
      && GivesOptReference(Get(f, Attr.Organisation), organisation)
      && GivesOptReference(Get(f, Attr.SchoolUnitGroup), schoolUnitGroup)
      && GivesList(Get(f, Attr.SchoolTypes), schoolTypes, GivesString)
      && GivesOptString(Get(f, Attr.MunicipalityCode), municipalityCode)
    case Employment(id, employedAt, user, role, signature) =>
      && GivesString(Get(f, Attr.ExternalId), id) && GivesReference(Get(f, Attr.EmployedAt), employedAt)
      && GivesReference(Get(f, Attr.User), user) && GivesString(Get(f, Attr.EmploymentRole), role)
      && GivesString(Get(f, Attr.Signature), signature)
    case Activity(id, displayName, owner, groups, teachers, parentActivity) =>
      && GivesString(Get(f, Attr.ExternalId), id) && GivesString(Get(f, Attr.DisplayName), displayName)
      && GivesReference(Get(f, Attr.Owner), owner)
      && (if Get(f, Attr.Group).Null? then GivesList(Get(f, Attr.Groups), groups, GivesReference)
          else groups.Some? && |groups.value| == 1 && GivesReference(Get(f, Attr.Group), groups.value[0]))
      && GivesList(Get(f, Attr.Teachers), teachers, GivesReference)
      && GivesList(Get(f, Attr.ParentActivity), parentActivity, GivesReference)
    case _ => GivesString(Get(f, Attr.ExternalId), o.id) && GivesString(Get(f, Attr.DisplayName), o.displayName)
  }

  lemma {:induction false} AllGiven<T>(elems: seq<Json>, list: seq<T>, decode: Json -> Result<T>,
                                      gives: (Json, T) -> bool)
    requires forall j, x :: decode(j).Success? ==> (gives(j, x) <==> x == decode(j).value)
    requires DecodeAll(elems, decode).Success?
    ensures DecodeAll(elems, decode).value == list <==>
            |list| == |elems| && forall i :: 0 <= i < |elems| ==> gives(elems[i], list[i])
  {
    if elems != [] && list != [] {
      AllGiven(elems[1..], list[1..], decode, gives);
      assert forall i :: 0 < i < |elems| ==> elems[1..][i - 1] == elems[i];
      assert forall i :: 0 < i < |list| ==> list[1..][i - 1] == list[i];
      assert list == [list[0]] + list[1..];
    }
  }

  lemma ListGiven<T>(j: Json, list: Option<seq<T>>, decode: Json -> Result<T>, gives: (Json, T) -> bool)
    requires forall k, x :: decode(k).Success? ==> (gives(k, x) <==> x == decode(k).value)
    requires DecodeList(j, decode).Success?
    ensures DecodeList(j, decode).value == list <==> GivesList(j, list, gives)
  {
    if j.Arr? && list.Some? {
      AllGiven(j.elems, list.value, decode, gives);
    }
  }

  lemma ReferenceGiven(j: Json, r: Reference)
    ensures DecodeReference(j).Success? ==> (GivesReference(j, r) <==> r == DecodeReference(j).value)
  {
  }

  lemma OptReferenceGiven(j: Json, r: Option<Reference>)
    ensures DecodeOptReference(j).Success? ==> (GivesOptReference(j, r) <==> r == DecodeOptReference(j).value)
  {
    if r.Some? {
      ReferenceGiven(j, r.value);
    }
  }

  lemma ReferencesGiven(j: Json, list: Option<seq<Reference>>)
    requires DecodeList(j, DecodeReference).Success?
    ensures DecodeList(j, DecodeReference).value == list <==> GivesList(j, list, GivesReference)
  {
    forall k, r ensures DecodeReference(k).Success? ==> (GivesReference(k, r) <==> r == DecodeReference(k).value) {
      ReferenceGiven(k, r);
    }
    ListGiven(j, list, DecodeReference, GivesReference);
  }

  lemma NameGiven(j: Json, n: PersonName)
    ensures DecodeName(j).Success? ==> (GivesName(j, n) <==> n == DecodeName(j).value)
  {
  }

  lemma EmailsGiven(j: Json, list: Option<seq<Email>>)
    requires DecodeList(j, DecodeEmail).Success?
    ensures DecodeList(j, DecodeEmail).value == list <==> GivesList(j, list, GivesEmail)
  {
    forall k, e ensures DecodeEmail(k).Success? ==> (GivesEmail(k, e) <==> e == DecodeEmail(k).value) {}
    ListGiven(j, list, DecodeEmail, GivesEmail);
  }

  lemma EnrolmentsGiven(j: Json, list: Option<seq<Enrolment>>)
    requires DecodeList(j, DecodeEnrolment).Success?
    ensures DecodeList(j, DecodeEnrolment).value == list <==> GivesList(j, list, GivesEnrolment)
  {
    forall k, e ensures DecodeEnrolment(k).Success? ==> (GivesEnrolment(k, e) <==> e == DecodeEnrolment(k).value) {}
    ListGiven(j, list, DecodeEnrolment, GivesEnrolment);
  }

  lemma RelationsGiven(j: Json, list: Option<seq<UserRelation>>)
    requires DecodeList(j, DecodeRelation).Success?
    ensures DecodeList(j, DecodeRelation).value == list <==> GivesList(j, list, GivesRelation)
  {
    forall k, r ensures DecodeRelation(k).Success? ==> (GivesRelation(k, r) <==> r == DecodeRelation(k).value) {}
    ListGiven(j, list, DecodeRelation, GivesRelation);
  }

  lemma ExtensionGiven(j: Json, x: Extension)
    ensures DecodeExtension(j).Success? ==> (GivesExtension(j, x) <==> x == DecodeExtension(j).value)
  {
    if DecodeExtension(j).Success? {
      EnrolmentsGiven(Get(Inside(j), Attr.Enrolments), x.enrolments);
      RelationsGiven(Get(Inside(j), Attr.UserRelations), x.userRelations);
    }
  }

  lemma UserGiven(f: map<Attr, Json>, o: Object)
    requires UserOf(f).Success? && o.User?
    ensures UserOf(f).value == o <==> Gives(f, o)
  {
    NameGiven(Get(f, Attr.Name), o.name);
    EmailsGiven(Get(f, Attr.Emails), o.emails);
    ExtensionGiven(Get(f, Attr.UserExtension), o.extension);
  }

  lemma StudentGroupGiven(f: map<Attr, Json>, o: Object)
    requires StudentGroupOf(f).Success? && o.StudentGroup?
    ensures StudentGroupOf(f).value == o <==> Gives(f, o)
  {
    ReferenceGiven(Get(f, Attr.Owner), o.owner);
    ReferencesGiven(Get(f, Attr.StudentMemberships), o.memberships);
  }

  lemma SchoolUnitGiven(f: map<Attr, Json>, o: Object)
    requires SchoolUnitOf(f).Success? && o.SchoolUnit?
    ensures SchoolUnitOf(f).value == o <==> Gives(f, o)
  {
    OptReferenceGiven(Get(f, Attr.Organisation), o.organisation);
    OptReferenceGiven(Get(f, Attr.SchoolUnitGroup), o.schoolUnitGroup);
    forall k, s ensures DecodeString(k).Success? ==> (GivesString(k, s) <==> s == DecodeString(k).value) {}
    ListGiven(Get(f, Attr.SchoolTypes), o.schoolTypes, DecodeString, GivesString);
  }

  lemma EmploymentGiven(f: map<Attr, Json>, o: Object)
    requires EmploymentOf(f).Success? && o.Employment?
    ensures EmploymentOf(f).value == o <==> Gives(f, o)
  {
    ReferenceGiven(Get(f, Attr.EmployedAt), o.employedAt);
    ReferenceGiven(Get(f, Attr.User), o.user);
  }

  lemma ActivityGiven(f: map<Attr, Json>, o: Object)
    requires ActivityOf(f).Success? && o.Activity?
    ensures ActivityOf(f).value == o <==> Gives(f, o)
  {
    ReferenceGiven(Get(f, Attr.Owner), o.owner);
    ReferencesGiven(Get(f, Attr.Groups), o.groups);
    ReferencesGiven(Get(f, Attr.Teachers), o.teachers);
    ReferencesGiven(Get(f, Attr.ParentActivity), o.parentActivity);
    if o.groups.Some? && |o.groups.value| == 1 {
      ReferenceGiven(Get(f, Attr.Group), o.groups.value[0]);
      assert o.groups.value == [o.groups.value[0]];
    }
  }

  lemma ObjectGiven(kind: Kind, f: map<Attr, Json>, o: Object)
    requires ObjectOf(kind, f).Success? && KindOf(o) == kind
    ensures ObjectOf(kind, f).value == o <==> Gives(f, o)
  {
    match kind
    case Users => UserGiven(f, o);
    case StudentGroups => StudentGroupGiven(f, o);
    case SchoolUnits => SchoolUnitGiven(f, o);
    case Employments => EmploymentGiven(f, o);
    case Activities => ActivityGiven(f, o);
    case _ =>
  }

  /** Main result on decoding: which bodies make which objects, both ways. */
  lemma DecodeIs(kind: Kind, j: Json, o: Object)
    ensures Decode(kind, j) == Success(o) <==>
            j.Obj? && Takes(kind, j.fields) && KindOf(o) == kind && Gives(j.fields, o)
  {
    DecodeTakes(kind, j);
    if Decode(kind, j).Success? && KindOf(o) == kind {
      ObjectGiven(kind, j.fields, o);
    }
  }

  // ---------- consequences ----------

  /** A body that lacks a required attribute is refused, whatever else it has. */
  lemma LackingIsRefused(kind: Kind, f: map<Attr, Json>, a: Attr)
    requires a !in f
    requires match kind
             case Users => a in {Attr.ExternalId, Attr.UserName, Attr.Name, Attr.DisplayName}
             case StudentGroups => a in {Attr.ExternalId, Attr.DisplayName, Attr.Owner}
             case SchoolUnits => a in {Attr.ExternalId, Attr.DisplayName, Attr.SchoolUnitCode}
             case Employments => a in {Attr.ExternalId, Attr.EmployedAt, Attr.User, Attr.EmploymentRole}
             case Activities => a in {Attr.ExternalId, Attr.DisplayName, Attr.Owner}
             case _ => a in {Attr.ExternalId, Attr.DisplayName}
    ensures Decode(kind, Obj(f)).Failure?
  {
    DecodeTakes(kind, Obj(f));
  }

  /** The attributes that a type's decoder looks at. */
  function Known(kind: Kind): set<Attr> {
    match kind
    case Users =>
      {Attr.ExternalId, Attr.UserName, Attr.Name, Attr.DisplayName, Attr.Emails, Attr.UserExtension}
    case StudentGroups =>
      {Attr.ExternalId, Attr.DisplayName, Attr.Owner, Attr.StudentGroupType, Attr.StudentMemberships, Attr.SchoolType}
    case SchoolUnits =>
      {Attr.ExternalId, Attr.SchoolUnitCode, Attr.DisplayName, Attr.Organisation, Attr.SchoolUnitGroup,
       Attr.SchoolTypes, Attr.MunicipalityCode}
    case Employments => {Attr.ExternalId, Attr.EmployedAt, Attr.User, Attr.EmploymentRole, Attr.Signature}
    case Activities =>
      {Attr.ExternalId, Attr.DisplayName, Attr.Owner, Attr.Group, Attr.Groups, Attr.Teachers, Attr.ParentActivity}
    case _ => {Attr.ExternalId, Attr.DisplayName}
  }

  /** Bodies that agree on those attributes decode alike: any others, such as schemas, change nothing. */
  lemma OthersChangeNothing(kind: Kind, f: map<Attr, Json>, g: map<Attr, Json>)
    requires forall a :: a in Known(kind) ==> (a in f <==> a in g) && Get(f, a) == Get(g, a)
    ensures Decode(kind, Obj(f)) == Decode(kind, Obj(g))
  {
    DecodeTakes(kind, Obj(f));
    DecodeTakes(kind, Obj(g));
    if Takes(kind, f) {
      var o := Decode(kind, Obj(f)).value;
      DecodeIs(kind, Obj(f), o);
      DecodeIs(kind, Obj(g), o);
    }
  }
}
