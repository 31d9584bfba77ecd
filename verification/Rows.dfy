/**
 How an object is split over one main row and its child rows, and rebuilt from them
 (the row types and conversions in windermere/sqluser.go, sqlactivity.go, sqlschoolunit.go,
 sqlstudentgroup.go, sqlemployment.go, sqlorganisation.go and sqlschoolunitgroup.go).
 */
module Rows {
  import opened Wrappers
  import JsonTrees
  import opened Objects
  import opened Validation

  /** The columns of a main row other than tenant and id. NULL is `None`. */
  datatype Cols =
    | UserCols(userName: string, familyName: string, givenName: string, displayName: string)
    | StudentGroupCols(displayName: string, owner: string, groupType: Option<string>)
    | OrganisationCols(displayName: string)
    | SchoolUnitGroupCols(displayName: string)
    | SchoolUnitCols(displayName: string, schoolUnitCode: string, organisation: Option<string>,
                     schoolUnitGroup: Option<string>, municipalityCode: Option<string>)
    | EmploymentCols(employedAt: string, userId: string, role: string, signature: Option<string>)
    | ActivityCols(displayName: string, owner: string)

  datatype ChildTable = Emails | Enrolments | StudentMemberships | SchoolTypes | ActivityTeachers | ActivityGroups

  /** The columns of a child row other than its foreign key. */
  datatype Item =
    | EmailItem(value: string, typ: Option<string>)
    | EnrolmentItem(value: string, schoolYear: Option<JsonTrees.Int64>)
    | MembershipItem(userId: string)
    | SchoolTypeItem(schoolType: string)
    | TeacherItem(employmentId: string)
    | GroupItem(groupId: string)

  function ColsKind(cols: Cols): Kind {
    match cols
    case UserCols(_, _, _, _) => Users
    case StudentGroupCols(_, _, _) => StudentGroups
    case OrganisationCols(_) => Organisations
    case SchoolUnitGroupCols(_) => SchoolUnitGroups
    case SchoolUnitCols(_, _, _, _, _) => SchoolUnits
    case EmploymentCols(_, _, _, _) => Employments
    case ActivityCols(_, _) => Activities
  }

  function TableOf(item: Item): ChildTable {
    match item
    case EmailItem(_, _) => Emails
    case EnrolmentItem(_, _) => Enrolments
    case MembershipItem(_) => StudentMemberships
    case SchoolTypeItem(_) => SchoolTypes
    case TeacherItem(_) => ActivityTeachers
    case GroupItem(_) => ActivityGroups
  }

  /** The main table a child table's foreign key refers to. */
  function Parent(c: ChildTable): Kind {
    match c
    case Emails => Users
    case Enrolments => Users
    case StudentMemberships => StudentGroups
    case SchoolTypes => SchoolUnits
    case ActivityTeachers => Activities
    case ActivityGroups => Activities
  }

  /** The child tables of a main table, in the order its creator and mutator treat them. */
  function ChildTables(kind: Kind): (cs: seq<ChildTable>)
    ensures forall c :: c in cs <==> Parent(c) == kind
    ensures forall i, j :: 0 <= i < j < |cs| ==> cs[i] != cs[j]
  {
    match kind
    case Users => [Emails, Enrolments]
    case StudentGroups => [StudentMemberships]
    case SchoolUnits => [SchoolTypes]
    case Activities => [ActivityTeachers, ActivityGroups]
    case _ => []
  }

  function NullIfEmpty(s: string): Option<string> {
    if s == "" then None else Some(s)
  }

  function EmptyIfNull(s: Option<string>): string {
    if s.Some? then s.value else ""
  }

  // ---------- splitting ----------

  function ValueOf(r: Option<Reference>): Option<string> {
    if r.Some? then Some(r.value.value) else None
  }

  /** NewUserRow, NewStudentGroupRow and so on. */
  function ColsOf(o: Object): Cols {
    match o
    case User(_, userName, name, displayName, _, _) => UserCols(userName, name.familyName, name.givenName, displayName)
    case StudentGroup(_, displayName, owner, groupType, _, _) => StudentGroupCols(displayName, owner.value, groupType)
    case Organisation(_, displayName) => OrganisationCols(displayName)
    case SchoolUnitGroup(_, displayName) => SchoolUnitGroupCols(displayName)
    case SchoolUnit(_, code, displayName, organisation, schoolUnitGroup, _, municipalityCode) =>
      SchoolUnitCols(displayName, code, ValueOf(organisation), ValueOf(schoolUnitGroup), municipalityCode)
    case Employment(_, employedAt, user, role, signature) =>
      EmploymentCols(employedAt.value, user.value, role, NullIfEmpty(signature))
    case Activity(_, displayName, owner, _, _, _) => ActivityCols(displayName, owner.value)
  }

  function ToEmailItem(e: Email): Item {
    EmailItem(e.value, NullIfEmpty(e.typ))
  }

  function ToEnrolmentItem(e: Enrolment): Item {
    EnrolmentItem(e.value, e.schoolYear)
  }

  function ToMembershipItem(r: Reference): Item {
    MembershipItem(r.value)
  }

  function ToSchoolTypeItem(s: string): Item {
    SchoolTypeItem(s)
  }

  function ToTeacherItem(r: Reference): Item {
    TeacherItem(r.value)
  }

  function ToGroupItem(r: Reference): Item {
    GroupItem(r.value)
  }

  /** What an object contributes to child table `c`, in list order. */
  function Items(o: Object, c: ChildTable): seq<Item> {
    match c
    case Emails => if o.User? then Map(ToEmailItem, Elems(o.emails)) else []
    case Enrolments => if o.User? then Map(ToEnrolmentItem, Elems(o.extension.enrolments)) else []
    case StudentMemberships => if o.StudentGroup? then Map(ToMembershipItem, Elems(o.memberships)) else []
    case SchoolTypes => if o.SchoolUnit? then Map(ToSchoolTypeItem, Elems(o.schoolTypes)) else []
    case ActivityTeachers => if o.Activity? then Map(ToTeacherItem, Elems(o.teachers)) else []
    case ActivityGroups => if o.Activity? then Map(ToGroupItem, Elems(o.groups)) else []
  }

  ghost function ItemsIn(o: Object, cs: seq<ChildTable>): multiset<Item> {
    if cs == [] then multiset{} else multiset(Items(o, cs[0])) + ItemsIn(o, cs[1..])
  }

  ghost function AllItems(o: Object): multiset<Item> {
    ItemsIn(o, ChildTables(KindOf(o)))
  }

  /** Everything the tables keep about an object, apart from its key. */
  datatype Stored = Stored(cols: Cols, items: multiset<Item>)

  ghost function Split(o: Object): Stored {
    Stored(ColsOf(o), AllItems(o))
  }

  /** Rows only ever hold NULL, never "", in an email's type and an employment's signature. */
  predicate CanonicalCols(cols: Cols) {
    cols.EmploymentCols? ==> cols.signature != Some("")
  }

  predicate CanonicalItem(item: Item) {
    item.EmailItem? ==> item.typ != Some("")
  }

  lemma ColsOfTyped(o: Object)
    ensures ColsKind(ColsOf(o)) == KindOf(o) && CanonicalCols(ColsOf(o))
  {
  }

  lemma ItemsTyped(o: Object, c: ChildTable)
    ensures forall i :: i in Items(o, c) ==> TableOf(i) == c && CanonicalItem(i)
    ensures Items(o, c) != [] ==> Parent(c) == KindOf(o)
  {
  }

  /** The bag of an object's child items, written out per child table. */
  lemma AllItemsAt(o: Object, i: Item)
    ensures AllItems(o)[i] == multiset(Items(o, TableOf(i)))[i]
  {
    var cs := ChildTables(KindOf(o));
    ItemsInAt(o, cs, i);
    ItemsTyped(o, TableOf(i));
  }

  lemma {:induction false} ItemsInAt(o: Object, cs: seq<ChildTable>, i: Item)
    requires forall a, b :: 0 <= a < b < |cs| ==> cs[a] != cs[b]
    ensures ItemsIn(o, cs)[i] == if TableOf(i) in cs then multiset(Items(o, TableOf(i)))[i] else 0
  {
    if cs != [] {
      ItemsInAt(o, cs[1..], i);
      ItemsTyped(o, cs[0]);
      assert cs == [cs[0]] + cs[1..];
      if TableOf(i) != cs[0] {
        assert i !in Items(o, cs[0]);
      }
    }
  }

  // ---------- rebuilding ----------

  function Ref(value: string): Reference {
    Reference(value, "")
  }

  function OptRef(value: Option<string>): Option<Reference> {
    if value.Some? then Some(Ref(value.value)) else None
  }

  /** The object a reader builds from a main row, before any child row is attached. */
  function FromRow(id: string, cols: Cols): (o: Object)
    ensures o.id == id && KindOf(o) == ColsKind(cols)
  {
    match cols
    case UserCols(userName, familyName, givenName, displayName) =>
      Object.User(id, userName, PersonName(familyName, givenName), displayName, None, Extension(None, None, None, None))
    case StudentGroupCols(displayName, owner, groupType) =>
      StudentGroup(id, displayName, Ref(owner), groupType, None, None)
    case OrganisationCols(displayName) => Object.Organisation(id, displayName)
    case SchoolUnitGroupCols(displayName) => Object.SchoolUnitGroup(id, displayName)
    case SchoolUnitCols(displayName, code, organisation, schoolUnitGroup, municipalityCode) =>
      SchoolUnit(id, code, displayName, OptRef(organisation), OptRef(schoolUnitGroup), None, municipalityCode)
    case EmploymentCols(employedAt, userId, role, signature) =>
      Employment(id, Ref(employedAt), Ref(userId), role, EmptyIfNull(signature))
    case ActivityCols(displayName, owner) => Activity(id, displayName, Ref(owner), None, None, None)
  }

  function Push<T>(list: Option<seq<T>>, x: T): Option<seq<T>> {
    Some(Elems(list) + [x])
  }

  /** The object with one child row appended to the list its table feeds. */
  function Append(o: Object, item: Item): (r: Object)
    requires KindOf(o) == Parent(TableOf(item))
    ensures r.id == o.id && KindOf(r) == KindOf(o)
  {
    match item
    case EmailItem(value, typ) => o.(emails := Push(o.emails, Email(value, EmptyIfNull(typ))))
    case EnrolmentItem(value, schoolYear) =>
      var enrolments := Push(o.extension.enrolments, Enrolment(value, "", schoolYear, None, None));
      o.(extension := o.extension.(enrolments := enrolments))
    case MembershipItem(userId) => o.(memberships := Push(o.memberships, Ref(userId)))
    case SchoolTypeItem(schoolType) => o.(schoolTypes := Push(o.schoolTypes, schoolType))
    case TeacherItem(employmentId) => o.(teachers := Push(o.teachers, Ref(employmentId)))
    case GroupItem(groupId) => o.(groups := Push(o.groups, Ref(groupId)))
  }

  /** The object with several child rows appended, one after the other. */
  function AppendAll(o: Object, items: seq<Item>): (r: Object)
    ensures r.id == o.id && KindOf(r) == KindOf(o)
  {
    if items == [] then o
    else
      var n := |items| - 1;
      var before := AppendAll(o, items[..n]);
      if KindOf(o) == Parent(TableOf(items[n])) then Append(before, items[n]) else before
  }

  // ---------- the normal form ----------

  predicate NilOrFull<T>(list: Option<seq<T>>) {
    list != Some([])
  }

  predicate PlainRefs(list: Option<seq<Reference>>) {
    NilOrFull(list) && forall r :: r in Elems(list) ==> r.ref == ""
  }

  predicate PlainRef(r: Option<Reference>) {
    r.Some? ==> r.value.ref == ""
  }

  predicate PlainEnrolment(e: Enrolment) {
    e == Enrolment(e.value, "", e.schoolYear, None, None)
  }

  /** Objects carrying nothing that the tables do not keep. */
  predicate Normal(o: Object) {
    match o
    case User(_, _, _, _, emails, x) =>
      && NilOrFull(emails)
      && x == Extension(x.enrolments, None, None, None)
      && NilOrFull(x.enrolments)
      && forall e :: e in Elems(x.enrolments) ==> PlainEnrolment(e)
    case StudentGroup(_, _, owner, _, memberships, schoolType) =>
      owner.ref == "" && PlainRefs(memberships) && schoolType == None
    case SchoolUnit(_, _, _, organisation, schoolUnitGroup, schoolTypes, _) =>
      PlainRef(organisation) && PlainRef(schoolUnitGroup) && NilOrFull(schoolTypes)
    case Employment(_, employedAt, user, _, _) => employedAt.ref == "" && user.ref == ""
    case Activity(_, _, owner, groups, teachers, parentActivity) =>
      owner.ref == "" && PlainRefs(groups) && PlainRefs(teachers) && parentActivity == None
    case _ => true
  }

  function DropRef(r: Reference): Reference {
    Ref(r.value)
  }

  function DropOptRef(r: Option<Reference>): Option<Reference> {
    if r.Some? then Some(DropRef(r.value)) else None
  }

  function DropRefs(list: Option<seq<Reference>>): Option<seq<Reference>> {
    if Elems(list) == [] then None else Some(Map(DropRef, list.value))
  }

  function PlainPart(e: Enrolment): Enrolment {
    Enrolment(e.value, "", e.schoolYear, None, None)
  }

  /** What is left of an object once it has been through the tables. */
  function Norm(o: Object): (r: Object)
    ensures r.id == o.id && KindOf(r) == KindOf(o)
  {
    match o
    case User(id, userName, name, displayName, emails, x) =>
      var enrolments := if Elems(x.enrolments) == [] then None else Some(Map(PlainPart, x.enrolments.value));
      Object.User(id, userName, name, displayName, NilIfEmpty(emails), Extension(enrolments, None, None, None))
    case StudentGroup(id, displayName, owner, groupType, memberships, _) =>
      StudentGroup(id, displayName, DropRef(owner), groupType, DropRefs(memberships), None)
    case SchoolUnit(id, code, displayName, organisation, schoolUnitGroup, schoolTypes, municipalityCode) =>
      SchoolUnit(id, code, displayName, DropOptRef(organisation), DropOptRef(schoolUnitGroup), NilIfEmpty(schoolTypes),
                 municipalityCode)
    case Employment(id, employedAt, user, role, signature) =>
      Employment(id, DropRef(employedAt), DropRef(user), role, signature)
    case Activity(id, displayName, owner, groups, teachers, _) =>
      Activity(id, displayName, DropRef(owner), DropRefs(groups), DropRefs(teachers), None)
    case _ => o
  }

  lemma DropRefsPlain(list: Option<seq<Reference>>)
    ensures PlainRefs(DropRefs(list))
    ensures Map(ToMembershipItem, Elems(DropRefs(list))) == Map(ToMembershipItem, Elems(list))
    ensures Map(ToTeacherItem, Elems(DropRefs(list))) == Map(ToTeacherItem, Elems(list))
    ensures Map(ToGroupItem, Elems(DropRefs(list))) == Map(ToGroupItem, Elems(list))
    ensures PlainRefs(list) ==> DropRefs(list) == list
  {
    if PlainRefs(list) && list.Some? {
      assert forall i :: 0 <= i < |list.value| ==> list.value[i] in Elems(list);
      assert Map(DropRef, list.value) == list.value;
    }
  }

  lemma NormItems(o: Object, c: ChildTable)
    ensures Items(Norm(o), c) == Items(o, c)
  {
  }

  lemma {:induction false} SameItemsIn(a: Object, b: Object, cs: seq<ChildTable>)
    requires forall c :: c in cs ==> Items(a, c) == Items(b, c)
    ensures ItemsIn(a, cs) == ItemsIn(b, cs)
  {
    if cs != [] {
      SameItemsIn(a, b, cs[1..]);
    }
  }

  lemma NormIsNormal(o: Object)
    ensures Normal(Norm(o))
  {
  }

  lemma NormCols(o: Object)
    ensures ColsOf(Norm(o)) == ColsOf(o)
  {
  }

  lemma NormAllItems(o: Object)
    ensures AllItems(Norm(o)) == AllItems(o)
  {
    forall c ensures Items(Norm(o), c) == Items(o, c) { NormItems(o, c); }
    SameItemsIn(Norm(o), o, ChildTables(KindOf(o)));
  }

  lemma NormSplit(o: Object)
    ensures Split(Norm(o)) == Split(o)
  {
    NormCols(o);
    NormAllItems(o);
  }

  lemma NormIsAsValid(config: Config, o: Object)
    ensures Valid(config, Norm(o)) == Valid(config, o)
  {
    assert o.SchoolUnit? ==> Norm(o).schoolUnitCode == o.schoolUnitCode;
  }

  /** The normal form is normal, is stored as the same rows, and passes the same validators. */
  lemma NormKeeps(o: Object)
    ensures Normal(Norm(o))
    ensures Split(Norm(o)) == Split(o)
    ensures forall config :: Valid(config, Norm(o)) == Valid(config, o)
  {
    NormIsNormal(o);
    NormSplit(o);
    forall config { NormIsAsValid(config, o); }
  }

  predicate SameValues(a: Option<seq<Reference>>, b: Option<seq<Reference>>) {
    |Elems(a)| == |Elems(b)| && forall i :: 0 <= i < |Elems(a)| ==> Elems(a)[i].value == Elems(b)[i].value
  }

  predicate SameValue(a: Option<Reference>, b: Option<Reference>) {
    a.Some? == b.Some? && (a.Some? ==> a.value.value == b.value.value)
  }

  /** What the normal form keeps, field by field; `Normal` says what it lacks, and that is all of it. */
  lemma NormKeepsFields(o: Object)
    ensures var n := Norm(o);
            match o
            case User(id, userName, name, displayName, emails, x) =>
              && n.id == id && n.userName == userName && n.name == name && n.displayName == displayName
              && Elems(n.emails) == Elems(emails)
              && var kept, all := Elems(n.extension.enrolments), Elems(x.enrolments);
                 |kept| == |all| && forall i :: 0 <= i < |all| ==>
                   kept[i].value == all[i].value && kept[i].schoolYear == all[i].schoolYear
            case StudentGroup(id, displayName, owner, groupType, memberships, _) =>
              && n.id == id && n.displayName == displayName && n.owner.value == owner.value && n.groupType == groupType
              && SameValues(n.memberships, memberships)
            case SchoolUnit(id, code, displayName, organisation, schoolUnitGroup, schoolTypes, municipalityCode) =>
              && n.id == id && n.schoolUnitCode == code && n.displayName == displayName
              && SameValue(n.organisation, organisation) && SameValue(n.schoolUnitGroup, schoolUnitGroup)
              && Elems(n.schoolTypes) == Elems(schoolTypes) && n.municipalityCode == municipalityCode
            case Employment(id, employedAt, user, role, signature) =>
              && n.id == id && n.employedAt.value == employedAt.value && n.user.value == user.value
              && n.role == role && n.signature == signature
            case Activity(id, displayName, owner, groups, teachers, _) =>
              && n.id == id && n.displayName == displayName && n.owner.value == owner.value
              && SameValues(n.groups, groups) && SameValues(n.teachers, teachers)
            case _ => n == o
  {
  }

  lemma NormOfNormal(o: Object)
    requires Normal(o)
    ensures Norm(o) == o
  {
    match o
    case User(_, _, _, _, _, x) =>
      if x.enrolments.Some? {
        assert forall i :: 0 <= i < |x.enrolments.value| ==> x.enrolments.value[i] in Elems(x.enrolments);
        assert Map(PlainPart, x.enrolments.value) == x.enrolments.value;
      }
    case StudentGroup(_, _, _, _, memberships, _) => DropRefsPlain(memberships);
    case Activity(_, _, _, groups, teachers, _) =>
      DropRefsPlain(groups);
      DropRefsPlain(teachers);
    case _ =>
  }

  // ---------- reading back ----------

  lemma FromRowSplit(id: string, cols: Cols)
    requires CanonicalCols(cols)
    ensures Normal(FromRow(id, cols)) && Split(FromRow(id, cols)) == Stored(cols, multiset{})
  {
    var o := FromRow(id, cols);
    forall i ensures AllItems(o)[i] == 0 { AllItemsAt(o, i); }
    assert AllItems(o) == multiset{};
  }

  lemma AppendItems(o: Object, item: Item, c: ChildTable)
    requires KindOf(o) == Parent(TableOf(item)) && CanonicalItem(item)
    ensures Items(Append(o, item), c) == if c == TableOf(item) then Items(o, c) + [item] else Items(o, c)
  {
  }

  lemma AppendNormal(o: Object, item: Item)
    requires KindOf(o) == Parent(TableOf(item)) && Normal(o)
    ensures Normal(Append(o, item)) && ColsOf(Append(o, item)) == ColsOf(o)
  {
  }

  lemma AppendSplit(o: Object, item: Item)
    requires KindOf(o) == Parent(TableOf(item)) && CanonicalItem(item)
    ensures AllItems(Append(o, item)) == AllItems(o) + multiset{item}
  {
    var r := Append(o, item);
    forall i ensures AllItems(r)[i] == (AllItems(o) + multiset{item})[i] {
      AllItemsAt(r, i);
      AllItemsAt(o, i);
      AppendItems(o, item, TableOf(i));
    }
  }

  /** Two lists that are nil together and otherwise hold the same elements, in any order. */
  ghost predicate Permuted<T>(a: Option<seq<T>>, b: Option<seq<T>>) {
    a.Some? == b.Some? && multiset(Elems(a)) == multiset(Elems(b))
  }

  /** Equal up to the order of the lists that are kept in child tables. */
  ghost predicate Equivalent(a: Object, b: Object) {
    match a
    case User(_, _, _, _, emails, x) =>
      && b.User?
      && b == a.(emails := b.emails, extension := x.(enrolments := b.extension.enrolments))
      && Permuted(emails, b.emails)
      && Permuted(x.enrolments, b.extension.enrolments)
    case StudentGroup(_, _, _, _, memberships, _) =>
      b.StudentGroup? && b == a.(memberships := b.memberships) && Permuted(memberships, b.memberships)
    case SchoolUnit(_, _, _, _, _, schoolTypes, _) =>
      b.SchoolUnit? && b == a.(schoolTypes := b.schoolTypes) && Permuted(schoolTypes, b.schoolTypes)
    case Activity(_, _, _, groups, teachers, _) =>
      && b.Activity?
      && b == a.(groups := b.groups, teachers := b.teachers)
      && Permuted(groups, b.groups)
      && Permuted(teachers, b.teachers)
    case _ => b == a
  }

  lemma SameItems(a: Object, b: Object, c: ChildTable)
    requires AllItems(a) == AllItems(b)
    ensures multiset(Items(a, c)) == multiset(Items(b, c))
  {
    forall i ensures multiset(Items(a, c))[i] == multiset(Items(b, c))[i] {
      ItemsTyped(a, c);
      ItemsTyped(b, c);
      if TableOf(i) == c {
        AllItemsAt(a, i);
        AllItemsAt(b, i);
      } else {
        assert i !in Items(a, c) && i !in Items(b, c);
      }
    }
  }

  /** Lists are permutations of each other when their images under an injective conversion are. */
  lemma PermutedByItems<T(!new)>(f: T -> Item, a: Option<seq<T>>, b: Option<seq<T>>)
    requires NilOrFull(a) && NilOrFull(b)
    requires forall x, y :: x in Elems(a) + Elems(b) && y in Elems(a) + Elems(b) && f(x) == f(y) ==> x == y
    requires multiset(Map(f, Elems(a))) == multiset(Map(f, Elems(b)))
    ensures Permuted(a, b)
  {
    var s, t := Elems(a), Elems(b);
    forall e ensures multiset(s)[e] == multiset(t)[e] {
      if e in s || e in t {
        assert e in s + t;
        assert forall x :: x in s || x in t ==> x in s + t;
        MapCount(f, s, e);
        MapCount(f, t, e);
      }
    }
    assert multiset(s) == multiset(t);
    assert |multiset(s)| == |s| && |multiset(t)| == |t|;
  }

  lemma UserIsDetermined(a: Object, b: Object)
    requires a.User? && Normal(a) && Normal(b) && a.id == b.id && Split(a) == Split(b)
    ensures Equivalent(a, b)
  {
    SameItems(a, b, Emails);
    SameItems(a, b, Enrolments);
    ColsOfTyped(a);
    ColsOfTyped(b);
    PermutedByItems(ToEmailItem, a.emails, b.emails);
    PermutedByItems(ToEnrolmentItem, a.extension.enrolments, b.extension.enrolments);
  }

  lemma StudentGroupIsDetermined(a: Object, b: Object)
    requires a.StudentGroup? && Normal(a) && Normal(b) && a.id == b.id && Split(a) == Split(b)
    ensures Equivalent(a, b)
  {
    SameItems(a, b, StudentMemberships);
    ColsOfTyped(a);
    ColsOfTyped(b);
    PermutedByItems(ToMembershipItem, a.memberships, b.memberships);
  }

  lemma SchoolUnitIsDetermined(a: Object, b: Object)
    requires a.SchoolUnit? && Normal(a) && Normal(b) && a.id == b.id && Split(a) == Split(b)
    ensures Equivalent(a, b)
  {
    SameItems(a, b, SchoolTypes);
    ColsOfTyped(a);
    ColsOfTyped(b);
    PermutedByItems(ToSchoolTypeItem, a.schoolTypes, b.schoolTypes);
  }

  lemma TeachersPermuted(a: Object, b: Object)
    requires a.Activity? && b.Activity? && PlainRefs(a.teachers) && PlainRefs(b.teachers) && AllItems(a) == AllItems(b)
    ensures Permuted(a.teachers, b.teachers)
  {
    SameItems(a, b, ActivityTeachers);
    PermutedByItems(ToTeacherItem, a.teachers, b.teachers);
  }

  lemma GroupsPermuted(a: Object, b: Object)
    requires a.Activity? && b.Activity? && PlainRefs(a.groups) && PlainRefs(b.groups) && AllItems(a) == AllItems(b)
    ensures Permuted(a.groups, b.groups)
  {
    SameItems(a, b, ActivityGroups);
    PermutedByItems(ToGroupItem, a.groups, b.groups);
  }

  lemma ActivityIsDetermined(a: Object, b: Object)
    requires a.Activity? && Normal(a) && Normal(b) && a.id == b.id && Split(a) == Split(b)
    ensures Equivalent(a, b)
  {
    ColsOfTyped(a);
    ColsOfTyped(b);
    TeachersPermuted(a, b);
    GroupsPermuted(a, b);
  }

  /** Normal objects with the same key and the same rows are equal, up to the order of their child rows. */
  lemma NormalIsDetermined(a: Object, b: Object)
    requires Normal(a) && Normal(b) && a.id == b.id && Split(a) == Split(b)
    ensures Equivalent(a, b)
  {
    match KindOf(a)
    case Users => UserIsDetermined(a, b);
    case StudentGroups => StudentGroupIsDetermined(a, b);
    case SchoolUnits => SchoolUnitIsDetermined(a, b);
    case Activities => ActivityIsDetermined(a, b);
    case _ =>
      ColsOfTyped(a);
      ColsOfTyped(b);
  }

  function RemovedAt<T>(t: seq<T>, j: nat): seq<T>
    requires j < |t|
  {
    t[..j] + t[j + 1..]
  }

  lemma CountRemoved<T>(t: seq<T>, j: nat)
    requires j < |t|
    ensures multiset(t) == multiset(RemovedAt(t, j)) + multiset{t[j]}
  {
    assert t == t[..j] + ([t[j]] + t[j + 1..]);
  }

  lemma MapRemoved<T>(f: T -> Item, t: seq<T>, j: nat)
    requires j < |t|
    ensures Map(f, RemovedAt(t, j)) == RemovedAt(Map(f, t), j)
  {
  }

  lemma {:induction false} MapPermuted<T>(f: T -> Item, s: seq<T>, t: seq<T>)
    requires multiset(s) == multiset(t)
    ensures multiset(Map(f, s)) == multiset(Map(f, t))
  {
    assert |multiset(s)| == |s| && |multiset(t)| == |t|;
    if s != [] {
      assert s[0] in multiset(t);
      var j :| 0 <= j < |t| && t[j] == s[0];
      CountRemoved(s, 0);
      CountRemoved(t, j);
      assert multiset(RemovedAt(s, 0)) == multiset(s) - multiset{s[0]};
      assert multiset(RemovedAt(t, j)) == multiset(t) - multiset{s[0]};
      MapPermuted(f, RemovedAt(s, 0), RemovedAt(t, j));
      MapRemoved(f, s, 0);
      MapRemoved(f, t, j);
      CountRemoved(Map(f, s), 0);
      CountRemoved(Map(f, t), j);
    }
  }

  lemma EquivalentItems(a: Object, b: Object, c: ChildTable)
    requires Equivalent(a, b)
    ensures multiset(Items(a, c)) == multiset(Items(b, c))
  {
    match a
    case User(_, _, _, _, _, _) =>
      MapPermuted(ToEmailItem, Elems(a.emails), Elems(b.emails));
      MapPermuted(ToEnrolmentItem, Elems(a.extension.enrolments), Elems(b.extension.enrolments));
    case StudentGroup(_, _, _, _, _, _) => MapPermuted(ToMembershipItem, Elems(a.memberships), Elems(b.memberships));
    case SchoolUnit(_, _, _, _, _, _, _) => MapPermuted(ToSchoolTypeItem, Elems(a.schoolTypes), Elems(b.schoolTypes));
    case Activity(_, _, _, _, _, _) =>
      MapPermuted(ToTeacherItem, Elems(a.teachers), Elems(b.teachers));
      MapPermuted(ToGroupItem, Elems(a.groups), Elems(b.groups));
    case _ =>
  }

  lemma {:induction false} EquivalentItemsIn(a: Object, b: Object, cs: seq<ChildTable>)
    requires Equivalent(a, b)
    ensures ItemsIn(a, cs) == ItemsIn(b, cs)
  {
    if cs != [] {
      EquivalentItems(a, b, cs[0]);
      EquivalentItemsIn(a, b, cs[1..]);
    }
  }

  /** Objects that are equal up to child order are stored as the same rows under the same id. */
  lemma EquivalentAreStoredAlike(a: Object, b: Object)
    requires Equivalent(a, b)
    ensures a.id == b.id && KindOf(a) == KindOf(b) && Split(a) == Split(b)
  {
    EquivalentItemsIn(a, b, ChildTables(KindOf(a)));
  }

  /**
   Main result on reading: a normal object rebuilt from the rows of `original` is its normal
   form, up to the order of its child rows.
   */
  lemma ReadBackIsNorm(read: Object, original: Object)
    requires Normal(read) && read.id == original.id && Split(read) == Split(original)
    ensures Equivalent(read, Norm(original))
    ensures forall config :: Valid(config, read) == Valid(config, original)
  {
    NormKeeps(original);
    NormalIsDetermined(read, Norm(original));
  }
}
