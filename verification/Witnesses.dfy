/**
 Concrete inputs on which promises fail, one for each condition that the general results single
 out. All ids are ones the UUID validator accepts.
 */
module Witnesses {
  import opened Wrappers
  import opened JsonTrees
  import opened Objects
  import opened Validation
  import Rows
  import opened Tables
  import opened Operations
  import opened Transactions
  import opened SqlBackends
  import opened Runs
  import opened SavedDocuments
  import opened InMemory
  import opened Simulation
  import opened Paths
  import opened Http
  import opened Requests

  const ID_A := "00000000-0000-0000-0000-000000000000"
  const ID_B := "00000000-0000-0000-0000-000000000001"

  lemma IdsAreUuids()
    ensures IsUuid(ID_A) && IsUuid(ID_B) && ID_A != ID_B
  {
    UuidShape(ID_A);
    UuidShape(ID_B);
    assert ID_A[35] != ID_B[35];
  }

  // ---------- a user that cannot be put back ----------

  /** A user with empty names, and the request that creates it: both name parts are present, as "". */
  const NAMELESS := Object.User(ID_A, "", PersonName("", ""), "", None, Extension(None, None, None, None))

  function NamelessBody(): map<Attr, Json> {
    FieldsOf(NAMELESS)[Attr.Name := Obj(map[Attr.FamilyName := Str(""), Attr.GivenName := Str("")])]
  }

  lemma NamelessDecodes()
    ensures Decode(Users, Obj(NamelessBody())) == Success(NAMELESS)
  {
    var fields := NamelessBody();
    ExtensionRoundTrip(NAMELESS.extension);
    assert DecodeName(fields[Attr.Name]) == Success(NAMELESS.name);
    assert DecodeList(Get(fields, Attr.Emails), DecodeEmail) == Success(None);
    assert UserOf(fields) == Success(NAMELESS);
  }

  /** In every configuration one create stores a user whose encoding its own decoder refuses. */
  lemma NamelessUserIsReachable(config: Config, tenant: string)
    ensures !HasNames(NAMELESS)
    ensures var t := Run(config, [Event(Op.Create(tenant, NameOf(Users), Tree(Obj(NamelessBody()))), false)]).0;
            var key := KeyOf(tenant, NAMELESS);
            key in t.main && Rebuilt(NAMELESS, key, Abs(t)[key])
  {
    IdsAreUuids();
    NamelessDecodes();
    StoredByCreate(config, tenant, Obj(NamelessBody()), NAMELESS);
  }

  // ---------- an update of an object that is not stored ----------

  function GroupOf(id: string, members: Option<seq<Reference>>): Object {
    StudentGroup(id, "", Reference("", ""), None, members, None)
  }

  const MEMBERS: Option<seq<Reference>> := Some([Reference("m", "")])

  function CreateGroup(tenant: string): Op {
    Op.Create(tenant, NameOf(StudentGroups), Tree(Encode(GroupOf(ID_A, None))))
  }

  /** PUT under A with the body of B. */
  function PutOther(tenant: string, members: Option<seq<Reference>>): Op {
    Op.Update(tenant, NameOf(StudentGroups), ID_A, Tree(Encode(GroupOf(ID_B, members))))
  }

  lemma PutOtherBody(config: Config, tenant: string, members: Option<seq<Reference>>)
    ensures BodyOf(config, PutOther(tenant, members)) == Success(GroupOf(ID_B, members))
  {
    var b := GroupOf(ID_B, members);
    IdsAreUuids();
    KindOfName(StudentGroups);
    assert Valid(config, b) && HasNames(b) && OmitEmpty(b) == b;
    ParseOfEncode(config, b);
  }

  lemma GroupItems(members: Option<seq<Reference>>)
    ensures Rows.AllItems(GroupOf(ID_B, members)) == multiset(Map(Rows.ToMembershipItem, Elems(members)))
  {
    var b := GroupOf(ID_B, members);
    forall i
      ensures Rows.AllItems(b)[i] == multiset(Map(Rows.ToMembershipItem, Elems(members)))[i]
    {
      Rows.AllItemsAt(b, i);
      Rows.ItemsTyped(b, Rows.StudentMemberships);
      if Rows.TableOf(i) != Rows.StudentMemberships {
        assert i !in Rows.Items(b, Rows.StudentMemberships);
        Rows.ItemsTyped(b, Rows.TableOf(i));
      }
    }
  }

  lemma AfterCreate(config: Config, tenant: string)
    ensures var t := Run(config, [Event(CreateGroup(tenant), false)]).0;
            WellFormed(t) && KeyOf(tenant, GroupOf(ID_A, None)) in t.main && Key(tenant, StudentGroups, ID_B) !in t.main
  {
    var a := GroupOf(ID_A, None);
    IdsAreUuids();
    DecodeOfEncode(a);
    assert Valid(config, a) && Rows.Normal(a) && OmitEmpty(a) == a;
    StoredByCreate(config, tenant, Encode(a), a);
  }

  lemma PutOtherOutcome(config: Config, t: Tables, tenant: string, members: Option<seq<Reference>>)
    requires WellFormed(t) && Key(tenant, StudentGroups, ID_A) in t.main && Key(tenant, StudentGroups, ID_B) !in t.main
    ensures Outcome(config, t, PutOther(tenant, members)) ==
            (t, if Elems(members) == [] then Reply.Resource(Encode(GroupOf(ID_B, members))) else Rejected)
  {
    PutOtherBody(config, tenant, members);
    GroupItems(members);
    assert |multiset(Map(Rows.ToMembershipItem, Elems(members)))| == |Elems(members)|;
    UpdateOfUnstored(config, t, PutOther(tenant, members), GroupOf(ID_B, members));
  }

  /**
   After creating A: without members the update of B is answered 200 although nothing is stored,
   with a member 500.
   */
  lemma UpdateOfUnstoredIsReachable(config: Config, tenant: string)
    ensures var t := Run(config, [Event(CreateGroup(tenant), false)]).0;
            && Outcome(config, t, PutOther(tenant, None)) == (t, Reply.Resource(Encode(GroupOf(ID_B, None))))
            && Outcome(config, t, PutOther(tenant, MEMBERS)) == (t, Rejected)
            && Key(tenant, StudentGroups, ID_B) !in t.main
  {
    var t := Run(config, [Event(CreateGroup(tenant), false)]).0;
    AfterCreate(config, tenant);
    PutOtherOutcome(config, t, tenant, None);
    PutOtherOutcome(config, t, tenant, MEMBERS);
  }

  // ---------- a document that does not load ----------

  const VERSION_TYPE: seq<(string, Saved)> := [("Version", Members([]))]

  /** A legacy document with a resource type called Version is refused, though it decodes as resources. */
  lemma VersionTypeIsRefused()
    ensures IsLegacy(VERSION_TYPE) && DecodeByType(Members(VERSION_TYPE)).Success?
    ensures Loaded(Members(VERSION_TYPE)).Failure?
  {
    LegacyLoads(VERSION_TYPE);
    assert VERSION_TYPE[..0] == [];
  }

  // ---------- an id that names nothing ----------

  const DOTS := Tree(Obj(map[Attr.Id := Str("..")]))

  lemma UpFromUsers()
    ensures Join("/Users", "..") == "/"
  {
    NamesArePlain(Users);
    SplitOfRooted(["Users", ".."]);
    assert ["Users", ".."][1..] == [".."];
    assert "/" + Joined(["Users", ".."]) == "/Users" + "/" + "..";
    assert [""] + ["Users", ".."] == ["", "Users", ".."];
    assert ["", "Users", ".."][1..] == ["Users"] + [".."];
    KeepsPlain("Users", [".."], []);
    assert [".."][1..] == [] && [] + ["Users"] == ["Users"] && ["Users"][..0] == [];
  }

  lemma DotsOffered()
    ensures OfferedId(DOTS) == Success("..")
  {
  }

  /** A PUT on "/Users" whose body offers the id ".." is forwarded, as a PUT on "/", and refused there. */
  lemma DotsNameNothing(tenant: string, r: Request)
    requires PutsOnType(r, Users, DOTS)
    ensures Routed(r) == Forward(r.(path := "/"))
    ensures AskedBy(tenant, r.(path := "/")) == Invalid(400)
  {
    TypePutIsRouted(r, Users, DOTS);
    DotsOffered();
    assert r.path == "/Users";
    UpFromUsers();
    SplitOfRooted([""]);
    assert "/" + Joined([""]) == "/";
  }

  // ---------- a request without an id ----------

  const NULL_ID := Tree(Obj(map[Attr.ExternalId := Null, Attr.DisplayName := Str("")]))

  lemma NullIdBody(config: Config)
    ensures Parse(config, Organisations, NULL_ID) ==
            if config.uuid then Failure else Success(Object.Organisation("", ""))
  {
    UuidShape("");
    assert Decode(Organisations, NULL_ID.json) == Success(Object.Organisation("", ""));
  }

  lemma NullIdInMemory(config: Config, tenant: string)
    ensures var op := Op.Create(tenant, NameOf(Organisations), NULL_ID);
            MemStatus(op, MemOutcome(FileSetup(config), map[], op).1) == 500
  {
  }

  /**
   On empty backends a POST with a null externalId is answered 500 in memory; the SQL backend answers
   400, or 201 without the UUID validator.
   */
  lemma NullIdDiffers(config: Config, tenant: string)
    ensures var op := Op.Create(tenant, NameOf(Organisations), NULL_ID);
            && Related(config, map[], map[])
            && ResponseTo(op, Apply(config, map[], op).1).status == (if config.uuid then 400 else 201)
            && MemStatus(op, MemOutcome(FileSetup(config), map[], op).1) == 500
            && (Regular(config, map[], op) <==> config.uuid)
  {
    KindOfName(Organisations);
    NullIdBody(config);
    NullIdInMemory(config, tenant);
    ApplyBody(config, map[], Op.Create(tenant, NameOf(Organisations), NULL_ID));
  }
}
