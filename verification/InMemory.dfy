/**
 The in-memory backend (scimserverlite/inmemory.go): nested maps of resource texts, and beside
 them nested maps of what the parser made of each text.
 */
module InMemory {
  import opened Wrappers
  import opened JsonTrees
  import opened SavedDocuments
  import opened Operations

  /** The functions a backend is created with. A backend without a parser keeps nil for every resource. */
  datatype Setup<P> = Setup(idFactory: Text -> Result<string>, parser: Option<(string, Text) -> Result<P>>)

  datatype Slot = Slot(tenant: string, resourceType: string, id: string)

  datatype MemReply =
    | Kept(resource: Text)
    | Removed
    | NotFound        // typed MissingResourceError
    | Unparsable      // typed MalformedResourceError
    | NoIdentifier    // the id factory's error

  predicate MemAccepted(r: MemReply) {
    r.Kept? || r.Removed?
  }

  // ---------- nested maps ----------

  function Under<T>(s: ByTenant<T>, tenant: string): ByType<T> {
    if tenant in s then s[tenant] else map[]
  }

  /** GetResources and GetParsedResources: the resources of one type of one tenant. */
  function Slice<T>(s: ByTenant<T>, tenant: string, resourceType: string): map<string, T> {
    if resourceType in Under(s, tenant) then s[tenant][resourceType] else map[]
  }

  /** GetResource and GetParsedResource. */
  function Find<T>(s: ByTenant<T>, slot: Slot): Option<T> {
    var slice := Slice(s, slot.tenant, slot.resourceType);
    if slot.id in slice then Some(slice[slot.id]) else None
  }

  function SetSlice<T>(s: ByTenant<T>, tenant: string, resourceType: string, slice: map<string, T>): ByTenant<T> {
    s[tenant := Under(s, tenant)[resourceType := slice]]
  }

  /** Makes the inner maps that are still nil. */
  function Touch<T>(s: ByTenant<T>, tenant: string, resourceType: string): ByTenant<T> {
    SetSlice(s, tenant, resourceType, Slice(s, tenant, resourceType))
  }

  function Insert<T>(s: ByTenant<T>, slot: Slot, x: T): ByTenant<T> {
    SetSlice(s, slot.tenant, slot.resourceType, Slice(s, slot.tenant, slot.resourceType)[slot.id := x])
  }

  function Remove<T>(s: ByTenant<T>, slot: Slot): ByTenant<T> {
    SetSlice(s, slot.tenant, slot.resourceType, Slice(s, slot.tenant, slot.resourceType) - {slot.id})
  }

  /** Writing a slot changes what is found there and nowhere else; so does removing it. */
  lemma FindAfter<T>(s: ByTenant<T>, slot: Slot, x: T, other: Slot)
    ensures Find(Insert(s, slot, x), other) == if other == slot then Some(x) else Find(s, other)
    ensures Find(Remove(s, slot), other) == if other == slot then None else Find(s, other)
    ensures Find(s[slot.tenant := map[]], other) == if other.tenant == slot.tenant then None else Find(s, other)
    ensures Find(Touch(s, slot.tenant, slot.resourceType), other) == Find(s, other)
  {
  }

  // ---------- parsed beside raw ----------

  /** What is kept beside a text: the parser's value, or nil without a parser or when it fails. */
  function ParsedValue<P>(setup: Setup<P>, resourceType: string, text: Text): Option<P> {
    if setup.parser.None? || setup.parser.value(resourceType, text).Failure? then None
    else Some(setup.parser.value(resourceType, text).value)
  }

  predicate Refuses<P>(setup: Setup<P>, resourceType: string, text: Text) {
    setup.parser.Some? && setup.parser.value(resourceType, text).Failure?
  }

  ghost predicate MirrorSlice<P>(setup: Setup<P>, resourceType: string, texts: map<string, Text>,
                                 values: map<string, Option<P>>)
  {
    texts.Keys == values.Keys && forall id :: id in texts ==> values[id] == ParsedValue(setup, resourceType, texts[id])
  }

  ghost predicate MirrorTypes<P>(setup: Setup<P>, texts: ByType<Text>, values: ByType<Option<P>>) {
    texts.Keys == values.Keys && forall ty :: ty in texts ==> MirrorSlice(setup, ty, texts[ty], values[ty])
  }

  /** The two maps have the same tenants, types and ids, and every entry is the parser's value for the stored text. */
  ghost predicate Mirror<P>(setup: Setup<P>, texts: ByTenant<Text>, values: ByTenant<Option<P>>) {
    texts.Keys == values.Keys && forall t :: t in texts ==> MirrorTypes(setup, texts[t], values[t])
  }

  /** The raw map and the parser determine the parsed map. */
  lemma MirrorIsUnique<P>(setup: Setup<P>, texts: ByTenant<Text>, a: ByTenant<Option<P>>, b: ByTenant<Option<P>>)
    requires Mirror(setup, texts, a) && Mirror(setup, texts, b)
    ensures a == b
  {
    forall t | t in a ensures a[t] == b[t] {
      assert MirrorTypes(setup, texts[t], a[t]) && MirrorTypes(setup, texts[t], b[t]);
      forall ty | ty in a[t] ensures a[t][ty] == b[t][ty] {
        assert MirrorSlice(setup, ty, texts[t][ty], a[t][ty]) && MirrorSlice(setup, ty, texts[t][ty], b[t][ty]);
        SameMaps(a[t][ty], b[t][ty]);
      }
      SameMaps(a[t], b[t]);
    }
    SameMaps(a, b);
  }

  lemma MirrorOfSlice<P>(setup: Setup<P>, texts: ByTenant<Text>, values: ByTenant<Option<P>>,
                         tenant: string, resourceType: string)
    requires Mirror(setup, texts, values)
    ensures MirrorSlice(setup, resourceType, Slice(texts, tenant, resourceType), Slice(values, tenant, resourceType))
  {
  }

  /** Replacing one slice on both sides by slices that correspond keeps the maps in step. */
  lemma MirrorSet<P>(setup: Setup<P>, texts: ByTenant<Text>, values: ByTenant<Option<P>>,
                     tenant: string, resourceType: string, a: map<string, Text>, b: map<string, Option<P>>)
    requires Mirror(setup, texts, values) && MirrorSlice(setup, resourceType, a, b)
    ensures Mirror(setup, SetSlice(texts, tenant, resourceType, a), SetSlice(values, tenant, resourceType, b))
  {
  }

  // ---------- operations on the raw map ----------

  /** An operation's effect on the raw map, and its reply. */
  function MemOutcome<P>(setup: Setup<P>, s: ByTenant<Text>, op: Op): (ByTenant<Text>, MemReply) {
    match op
    case Create(tenant, resourceType, resource) =>
      var touched := Touch(s, tenant, resourceType);
      var id := setup.idFactory(resource);
      if id.Failure? then (touched, NoIdentifier)
      else if Refuses(setup, resourceType, resource) then (touched, Unparsable)
      else (Insert(s, Slot(tenant, resourceType, id.value), resource), Kept(resource))
    case Update(tenant, resourceType, id, resource) =>
      var slot := Slot(tenant, resourceType, id);
      if Refuses(setup, resourceType, resource) then (s, Unparsable)
      else if Find(s, slot).None? then (s, NotFound)
      else (Insert(s, slot, resource), Kept(resource))
    case Delete(tenant, resourceType, id) =>
      var slot := Slot(tenant, resourceType, id);
      if Find(s, slot).None? then (s, NotFound) else (Remove(s, slot), Removed)
    case Clear(tenant) => (s[tenant := map[]], Removed)
  }

  /** The slot an accepted operation writes. */
  function Target<P>(setup: Setup<P>, op: Op): Option<Slot> {
    match op
    case Create(tenant, resourceType, resource) =>
      var id := setup.idFactory(resource);
      if id.Success? then Some(Slot(tenant, resourceType, id.value)) else None
    case Update(tenant, resourceType, id, _) => Some(Slot(tenant, resourceType, id))
    case Delete(tenant, resourceType, id) => Some(Slot(tenant, resourceType, id))
    case Clear(_) => None
  }

  /**
   What every operation does to every slot: an accepted write puts its text in its target, an
   accepted delete or clear empties what it names, and all other slots, and all slots after a
   refused operation, keep what they had. A write is answered with the text it was given.
   */
  lemma MemOutcomeFinds<P>(setup: Setup<P>, s: ByTenant<Text>, op: Op, slot: Slot)
    ensures var (s', reply) := MemOutcome(setup, s, op);
            Find(s', slot) ==
            if !MemAccepted(reply) then Find(s, slot)
            else if op.Clear? then (if slot.tenant == op.tenant then None else Find(s, slot))
            else if Target(setup, op) != Some(slot) then Find(s, slot)
            else if op.Delete? then None
            else Some(op.resource)
    ensures var reply := MemOutcome(setup, s, op).1;
            MemAccepted(reply) ==> reply == if op.Create? || op.Update? then Kept(op.resource) else Removed
    ensures var accepted := MemAccepted(MemOutcome(setup, s, op).1);
            match op
            case Create(_, resourceType, text) =>
              accepted <==> setup.idFactory(text).Success? && !Refuses(setup, resourceType, text)
            case Update(tenant, resourceType, id, text) =>
              accepted <==> !Refuses(setup, resourceType, text) && Find(s, Slot(tenant, resourceType, id)).Some?
            case Delete(tenant, resourceType, id) => accepted <==> Find(s, Slot(tenant, resourceType, id)).Some?
            case Clear(_) => accepted
  {
    match op
    case Create(tenant, resourceType, resource) =>
      var id := if setup.idFactory(resource).Success? then setup.idFactory(resource).value else "";
      FindAfter(s, Slot(tenant, resourceType, id), resource, slot);
    case Update(tenant, resourceType, id, resource) => FindAfter(s, Slot(tenant, resourceType, id), resource, slot);
    case Delete(tenant, resourceType, id) => FindAfter(s, Slot(tenant, resourceType, id), NotJson, slot);
    case Clear(tenant) => FindAfter(s, Slot(tenant, "", ""), NotJson, slot);
  }

  /** A backend without a parser refuses no text. */
  lemma WithoutParser<P>(setup: Setup<P>, resourceType: string, text: Text)
    requires setup.parser.None?
    ensures !Refuses(setup, resourceType, text) && ParsedValue(setup, resourceType, text) == None
  {
  }

  /** A refused operation leaves every observable answer as it was, although it may make empty inner maps. */
  lemma RefusedIsUnobservable<P>(setup: Setup<P>, s: ByTenant<Text>, op: Op, tenant: string, resourceType: string)
    requires !MemAccepted(MemOutcome(setup, s, op).1)
    ensures Slice(MemOutcome(setup, s, op).0, tenant, resourceType) == Slice(s, tenant, resourceType)
  {
  }

  // ---------- sorting ----------

  /** Strings in byte order. */
  predicate Less(a: string, b: string) {
    b != "" && (a == "" || a[0] < b[0] || (a[0] == b[0] && Less(a[1..], b[1..])))
  }

  /** At position `n` the first difference is found, or `a` ends there: `a` comes before `b`. */
  predicate DiffersAt(a: string, b: string, n: nat) {
    n <= |a| && n < |b| && a[..n] == b[..n] && (n == |a| || a[n] < b[n])
  }

  ghost predicate ComesBefore(a: string, b: string) {
    exists n: nat :: DiffersAt(a, b, n)
  }

  /** The order is that of dictionaries. */
  lemma {:induction false} LessMeans(a: string, b: string)
    ensures Less(a, b) <==> ComesBefore(a, b)
  {
    if b != "" {
      if a == "" || a[0] < b[0] {
        assert DiffersAt(a, b, 0);
      } else if a[0] == b[0] {
        LessMeans(a[1..], b[1..]);
        if Less(a[1..], b[1..]) {
          var n: nat :| DiffersAt(a[1..], b[1..], n);
          assert a[..n + 1] == [a[0]] + a[1..][..n] && b[..n + 1] == [b[0]] + b[1..][..n];
          assert DiffersAt(a, b, n + 1);
        }
        forall n: nat | DiffersAt(a, b, n) ensures Less(a[1..], b[1..]) {
          assert n > 0 && a[..n][1..] == a[1..][..n - 1] && b[..n][1..] == b[1..][..n - 1];
          assert DiffersAt(a[1..], b[1..], n - 1);
        }
      } else {
        forall n: nat | 0 < n <= |a| && n < |b| ensures a[..n] != b[..n] {
          assert a[..n][0] == a[0] && b[..n][0] == b[0];
        }
      }
    }
  }

  lemma {:induction false} LessIsIrreflexive(a: string)
    ensures !Less(a, a)
  {
    if a != "" {
      LessIsIrreflexive(a[1..]);
    }
  }

  lemma {:induction false} LessIsTotal(a: string, b: string)
    ensures Less(a, b) || Less(b, a) || a == b
    ensures !(Less(a, b) && Less(b, a))
  {
    if a != "" && b != "" && a[0] == b[0] {
      LessIsTotal(a[1..], b[1..]);
      assert a == [a[0]] + a[1..] && b == [b[0]] + b[1..];
    }
  }

  lemma {:induction false} LessIsTransitive(a: string, b: string, c: string)
    requires Less(a, b) && Less(b, c)
    ensures Less(a, c)
  {
    if a != "" && a[0] == b[0] && b[0] == c[0] {
      LessIsTransitive(a[1..], b[1..], c[1..]);
    }
  }

  predicate Ascending(s: seq<string>) {
    forall i, j :: 0 <= i < j < |s| ==> Less(s[i], s[j])
  }

  lemma AscendingMeans(s: seq<string>)
    requires Ascending(s)
    ensures forall i, j :: 0 <= i < j < |s| ==> ComesBefore(s[i], s[j])
  {
    forall i, j | 0 <= i < j < |s|
      ensures ComesBefore(s[i], s[j])
    {
      LessMeans(s[i], s[j]);
    }
  }

  /** Inserts a string that is not there yet in its place. */
  method InsertSorted(s: seq<string>, x: string) returns (r: seq<string>)
    requires Ascending(s) && x !in s
    ensures Ascending(r) && forall y :: y in r <==> y in s || y == x
  {
    var n := 0;
    while n < |s| && Less(s[n], x)
      invariant n <= |s| && forall i :: 0 <= i < n ==> Less(s[i], x)
    {
      n := n + 1;
    }
    forall i | n <= i < |s| ensures Less(x, s[i]) {
      LessIsTotal(s[n], x);
      if i > n {
        LessIsTransitive(x, s[n], s[i]);
      }
    }
    r := s[..n] + [x] + s[n..];
  }

  // ---------- the backend ----------

  class InMemoryBackend<P> {
    const setup: Setup<P>
    var resources: ByTenant<Text>
    var parsed: ByTenant<Option<P>>

    constructor (setup: Setup<P>)
      ensures this.setup == setup && Valid() && resources == map[]
    {
      this.setup := setup;
      resources, parsed := map[], map[];
    }

    ghost predicate Valid()
      reads this
    {
      Mirror(setup, resources, parsed)
    }

    method Create(tenant: string, resourceType: string, resource: Text) returns (reply: MemReply)
      requires Valid()
      modifies this`resources, this`parsed
      ensures Valid()
      ensures (resources, reply) == MemOutcome(setup, old(resources), Op.Create(tenant, resourceType, resource))
    {
      ghost var before, beforeParsed := resources, parsed;
      MirrorOfSlice(setup, resources, parsed, tenant, resourceType);
      MirrorSet(setup, resources, parsed, tenant, resourceType,
                Slice(resources, tenant, resourceType), Slice(parsed, tenant, resourceType));
      resources := Touch(resources, tenant, resourceType);
      parsed := Touch(parsed, tenant, resourceType);
      var id := setup.idFactory(resource);
      if id.Failure? {
        return NoIdentifier;
      }
      if Refuses(setup, resourceType, resource) {
        return Unparsable;
      }
      var value := ParsedValue(setup, resourceType, resource);
      ghost var texts, values := Slice(before, tenant, resourceType), Slice(beforeParsed, tenant, resourceType);
      MirrorSet(setup, before, beforeParsed, tenant, resourceType,
                texts[id.value := resource], values[id.value := value]);
      var slice := resources[tenant][resourceType][id.value := resource];
      resources := resources[tenant := resources[tenant][resourceType := slice]];
      parsed := parsed[tenant := parsed[tenant][resourceType := parsed[tenant][resourceType][id.value := value]]];
      InsertAfterTouch(before, Slot(tenant, resourceType, id.value), resource);
      InsertAfterTouch(beforeParsed, Slot(tenant, resourceType, id.value), value);
      return Kept(resource);
    }

    method Update(tenant: string, resourceType: string, id: string, resource: Text) returns (reply: MemReply)
      requires Valid()
      modifies this`resources, this`parsed
      ensures Valid()
      ensures (resources, reply) == MemOutcome(setup, old(resources), Op.Update(tenant, resourceType, id, resource))
    {
      if Refuses(setup, resourceType, resource) {
        return Unparsable;
      }
      if Find(resources, Slot(tenant, resourceType, id)).None? {
        return NotFound;
      }
      var value := ParsedValue(setup, resourceType, resource);
      MirrorOfSlice(setup, resources, parsed, tenant, resourceType);
      assert MirrorTypes(setup, resources[tenant], parsed[tenant]);
      ghost var texts, values := Slice(resources, tenant, resourceType), Slice(parsed, tenant, resourceType);
      MirrorSet(setup, resources, parsed, tenant, resourceType, texts[id := resource], values[id := value]);
      var slice := resources[tenant][resourceType][id := resource];
      resources := resources[tenant := resources[tenant][resourceType := slice]];
      parsed := parsed[tenant := parsed[tenant][resourceType := parsed[tenant][resourceType][id := value]]];
      return Kept(resource);
    }

    method Delete(tenant: string, resourceType: string, id: string) returns (reply: MemReply)
      requires Valid()
      modifies this`resources, this`parsed
      ensures Valid()
      ensures (resources, reply) == MemOutcome(setup, old(resources), Op.Delete(tenant, resourceType, id))
    {
      if Find(resources, Slot(tenant, resourceType, id)).None? {
        return NotFound;
      }
      MirrorOfSlice(setup, resources, parsed, tenant, resourceType);
      assert MirrorTypes(setup, resources[tenant], parsed[tenant]);
      ghost var texts, values := Slice(resources, tenant, resourceType), Slice(parsed, tenant, resourceType);
      MirrorSet(setup, resources, parsed, tenant, resourceType, texts - {id}, values - {id});
      resources := resources[tenant := resources[tenant][resourceType := resources[tenant][resourceType] - {id}]];
      parsed := parsed[tenant := parsed[tenant][resourceType := parsed[tenant][resourceType] - {id}]];
      return Removed;
    }

    method Clear(tenant: string) returns (reply: MemReply)
      requires Valid()
      modifies this`resources, this`parsed
      ensures Valid()
      ensures (resources, reply) == MemOutcome(setup, old(resources), Op.Clear(tenant))
    {
      resources := resources[tenant := map[]];
      parsed := parsed[tenant := map[]];
      return Removed;
    }

    /** Serialize: whatever order the maps are walked in, loading the result gives the resources back. */
    method Serialize() returns (doc: Saved)
      ensures Loaded(doc) == Success(resources)
      ensures doc.Members? && Field(doc.members, "Version") == Number(1)
      ensures DecodeByTenant(Field(doc.members, "Resources")) == Success(resources)
    {
      doc := Save(resources);
    }

    /** Load: replaces everything by what the document holds, parsing anew; a bad document changes nothing. */
    method Load(doc: Saved) returns (ok: bool)
      requires Valid()
      modifies this`resources, this`parsed
      ensures Valid()
      ensures ok <==> Loaded(doc).Success?
      ensures resources == if ok then Loaded(doc).value else old(resources)
      ensures !ok ==> parsed == old(parsed)
    {
      var loaded := Loaded(doc);
      if loaded.Failure? {
        return false;
      }
      var values: ByTenant<Option<P>>, left := map[], loaded.value.Keys;
      while left != {}
        invariant left <= loaded.value.Keys && values.Keys == loaded.value.Keys - left
        invariant forall t :: t in values ==> MirrorTypes(setup, loaded.value[t], values[t])
      {
        var t :| t in left;
        left := left - {t};
        var byType := ParseTypes(loaded.value[t]);
        values := values[t := byType];
      }
      resources := loaded.value;
      parsed := values;
      return true;
    }

    method ParseTypes(texts: ByType<Text>) returns (values: ByType<Option<P>>)
      ensures MirrorTypes(setup, texts, values)
    {
      var left := texts.Keys;
      values := map[];
      while left != {}
        invariant left <= texts.Keys && values.Keys == texts.Keys - left
        invariant forall ty :: ty in values ==> MirrorSlice(setup, ty, texts[ty], values[ty])
      {
        var ty :| ty in left;
        left := left - {ty};
        var slice := ParseSlice(ty, texts[ty]);
        values := values[ty := slice];
      }
    }

    method ParseSlice(resourceType: string, texts: map<string, Text>) returns (values: map<string, Option<P>>)
      ensures MirrorSlice(setup, resourceType, texts, values)
    {
      var left := texts.Keys;
      values := map[];
      while left != {}
        invariant left <= texts.Keys && values.Keys == texts.Keys - left
        invariant forall id :: id in values ==> values[id] == ParsedValue(setup, resourceType, texts[id])
      {
        var id :| id in left;
        left := left - {id};
        values := values[id := ParsedValue(setup, resourceType, texts[id])];
      }
    }

    /** The types a tenant has resources of: sorted, each once, and exactly those with a positive count. */
    method GetResourceTypes(tenant: string) returns (types: seq<string>)
      ensures forall i, j :: 0 <= i < j < |types| ==> ComesBefore(types[i], types[j])
      ensures forall ty :: ty in types <==> |Slice(resources, tenant, ty)| > 0
    {
      types := [];
      var left := Under(resources, tenant).Keys;
      while left != {}
        invariant left <= Under(resources, tenant).Keys && Ascending(types)
        invariant forall ty :: ty in types <==>
            ty in Under(resources, tenant).Keys - left && |Slice(resources, tenant, ty)| > 0
      {
        var ty :| ty in left;
        left := left - {ty};
        if |Slice(resources, tenant, ty)| > 0 {
          types := InsertSorted(types, ty);
        }
      }
      AscendingMeans(types);
    }

    method CountResources(tenant: string, resourceType: string) returns (n: nat)
      ensures n == |Slice(resources, tenant, resourceType)|
    {
      if tenant !in resources || resourceType !in resources[tenant] {
        return 0;
      }
      n := |resources[tenant][resourceType]|;
    }
  }

  lemma SetSliceTwice<T>(s: ByTenant<T>, tenant: string, resourceType: string, a: map<string, T>, b: map<string, T>)
    ensures var t := SetSlice(s, tenant, resourceType, a);
            t[tenant := t[tenant][resourceType := b]] == SetSlice(s, tenant, resourceType, b)
  {
    assert Under(s, tenant)[resourceType := a][resourceType := b] == Under(s, tenant)[resourceType := b];
  }

  lemma InsertAfterTouch<T>(s: ByTenant<T>, slot: Slot, x: T)
    ensures var t := Touch(s, slot.tenant, slot.resourceType);
            && slot.tenant in t && slot.resourceType in t[slot.tenant]
            && var slice := t[slot.tenant][slot.resourceType];
               Insert(s, slot, x) == t[slot.tenant := t[slot.tenant][slot.resourceType := slice[slot.id := x]]]
  {
    var slice := Slice(s, slot.tenant, slot.resourceType);
    SetSliceTwice(s, slot.tenant, slot.resourceType, slice, slice[slot.id := x]);
  }

  /** Saving and loading into another backend with the same parser restores both maps exactly. */
  method SaveThenLoad<P>(a: InMemoryBackend<P>, b: InMemoryBackend<P>)
    requires a != b && a.Valid() && b.Valid() && a.setup == b.setup
    modifies b`resources, b`parsed
    ensures b.Valid() && b.resources == a.resources && b.parsed == a.parsed
  {
    var doc := a.Serialize();
    var ok := b.Load(doc);
    MirrorIsUnique(a.setup, a.resources, a.parsed, b.parsed);
  }
}
