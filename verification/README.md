# Windermere: a verified model

Windermere is a SCIM server that receives school data (SS12000 objects) from many tenants and keeps it
either in an SQL database or in memory. This project models both backends, the objects they
exchange, and the HTTP layer in front of them, and proves what a client may rely on.

The centre is the SQL backend. It splits each nested object into one row of a main table and rows of up to two child
tables, and rebuilds objects by joining the rows in program code. From outside it should be a plain map from
(tenant, type, id) to a normal form of the object. That is what is proved, for every operation, every
run of operations and every fault:

* `Tables` has the thirteen tables, the statements that change them, and the key constraints; `Engine`
  has transactions whose queries return rows in any order. Every call to the database is counted, and
  fails exactly when a schedule (`Faults`) says so.
* `Transactions` gives the outcome of each operation on the tables and the map operation it amounts to, and proves
  that the two correspond.
* `SqlBackends` has the backend's methods, statement by statement. Each is proved to give that outcome when no
  call fails, and to report a fault and change nothing exactly when one does. The readers are proved to
  return exactly what the map holds, which is where the global invariant (no orphans) is needed.
* `Runs` lifts this to whole runs: what is stored is decided by the history of requests and replies,
  what is read is the normal form of what was last written, and what was read can be put back.
* `Isolation` proves that after any run a tenant's rows and replies are those of its own operations alone;
  `InsertionOrder` that a database which answers in insertion order gives every list back in its order.
* `Rows` defines the normal form, that is, exactly what the tables keep of an object.

`InMemory` and `SavedDocuments` model the in-memory backend and the documents it is saved in. `Simulation` runs the two
backends side by side and proves on exactly which runs they agree. `Paths`, `Http` and `Requests` model requests,
PUT rewriting, statuses and listings. `Objects`, `JsonTrees` and `Validation` model decoding, encoding and
validating, and `Documents` says attribute by attribute what is sent and accepted. `SchemaTemplate` and
`Migrations` model how the schema is built.

Some promises do not hold of the code as it stands. They are stated with the exact condition under which they
hold, and `Witnesses` has inputs on which they fail:

* An object that was read cannot be put back if it is a user with an empty family or given name, because the
  encoding of a name leaves out empty parts that its decoder requires (`Runs.GetThenPut`). Such users are reachable
  in every configuration (`Witnesses.NamelessUserIsReachable`).
* The backends agree on a run exactly when every create has a new id and every update names its own body's object
  (`Simulation.InStepIffRegularRun`), and otherwise a client can tell (`Simulation.IrregularRunShows`). On a
  duplicate create one refuses and the other overwrites (`Simulation.DuplicateCreate`).
* On runs where they agree they still differ in one status (`Requests.StatusesAgree`, `Witnesses.NullIdDiffers`).
* An update whose body names an object that is not stored is accepted without effect, or refused by a foreign
  key, depending on whether the body has child rows (`Runs.UpdateOfUnstored`, `Witnesses.UpdateOfUnstoredIsReachable`).
* A saved document without a version is refused when one of its resource types is called `Version`, or a
  non-empty one `Resources` (`SavedDocuments.LegacyLoads`, `Witnesses.VersionTypeIsRefused`).
* A rewritten PUT names its object exactly when the id is a plain path segment (`Paths.JoinNames`,
  `Witnesses.DotsNameNothing`).

A release with two or more migrations would have one more: the version that the last step of an upgrade writes can be
lost unnoticed (`Migrations.LostUpdate`). With the single migration there is today it cannot do harm
(`Migrations.LostUpdateIsHarmless`).

Statuses follow sections 3.3, 3.5.1, 3.6 and 3.12 of RFC 7644.

## Model

| member | source | states |
|---|---|---|
| Objects.CheckRequired | ss12000v1/types.go:46-59 | the search accepts exactly the documents that have every required attribute, null values included |
| Objects.ActivityTarget.UnmarshalJSON | ss12000v1/types.go:165-189 | whatever the receiver held, it becomes the decoded activity; when decoding fails it is left alone |
| Objects.DecodeOfEncode | ss12000v1/types.go:191-317 | decoding an encoded object gives it back up to nil versus empty omitempty lists, and fails exactly for users with an empty family or given name |
| Objects.DecodeIgnoresId | ss12000v1/types.go:223-317 | an added attribute `id` changes no decoding, so a listed resource decodes as the stored one |
| Objects.GroupIsSingletonGroups | ss12000v1/types.go:138-189 | a non-null `group` gives the same activity as the one-element `groups`, unless the `groups` it displaces would not decode |
| Documents.EncodeIs | ss12000v1/types.go:66-347 | for each type, what is sent: exactly the tagged attributes, those with omitempty only where not empty, nested ones included, each with the value of its own field |
| Documents.DecodeTakes | ss12000v1/types.go:41-347 | a body decodes exactly when it is an object with its type's required attributes and every known attribute is null, absent or of its type |
| Documents.DecodeIs | ss12000v1/types.go:41-347 | and it decodes to exactly the object whose fields have the values of their own attributes |
| Documents.LackingIsRefused | ss12000v1/types.go:79-346 | a body without one of the attributes its type requires is refused, whatever else it has |
| Documents.OthersChangeNothing | ss12000v1/types.go:66-347 | attributes that a type does not know, such as schemas, change nothing |
| Validation.UuidShape | windermere/validation.go:32-40 | the pattern accepts exactly the 36-character strings with dashes at four places and hex digits elsewhere |
| Validation.EightDigitsMeans | windermere/validation.go:42-55 | a code is accepted exactly when some eight characters in a row are decimal digits |
| Validation.ValidMeans | windermere/validation.go:31-70 | what the configured validators accept, characters written out |
| Validation.CreateOptionalValidator | windermere/validation.go:58-70 | the validators collected accept an object together exactly when each configured rule holds |
| Validation.Validate | windermere/validation.go:20-29 | the early-exit loop accepts exactly when all validators do |
| Validation.Parse | windermere/windermere.go:176-229 | accepts exactly JSON that decodes as the requested type and passes the configured validators |
| Validation.ParseOfEncode | ss12000v1/types.go:223-317 | an encoded object is accepted exactly when it passes the validators and is not a user with an empty name part, and then as itself |
| Validation.KindOfName | windermere/sqlbackend.go:71-86 | each of the seven names leads to its own table, so no two types share one |
| Validation.TypeNames | windermere/sqlbackend.go:71-86 | the seven names and the table of each; no other name has one |
| Rows.AppendSplit | windermere/sqluser.go:192-225 | appending a child row to an object adds exactly that row to the rows the object would be stored as |
| Rows.NormKeeps | windermere/sqluser.go:38-47 | the normal form carries nothing the tables drop, is stored as the same rows, and passes the same validators |
| Rows.NormKeepsFields | windermere/sqluser.go:38-101 | field by field, what of each type survives the tables |
| Rows.NormOfNormal | windermere/sqluser.go:38-101 | normalising is idempotent: a normal object is its own normal form |
| Rows.NormalIsDetermined | windermere/sqlactivity.go:161-209 | two normal objects stored as the same rows are equal up to the order of their child rows |
| Rows.ReadBackIsNorm | windermere/sqlschoolunit.go:118-179 | an object rebuilt from another's rows is that other's normal form up to child order, and as valid |
| Rows.EquivalentAreStoredAlike | windermere/sqluser.go:192-225 | objects equal up to child order are stored as the same rows under the same id |
| Tables.ExecKeepsWellFormed | windermere/sqlbackend.go:102-228 | no statement leaves an orphan child row or a row in the wrong table |
| Tables.ExecRefines | windermere/sqlbackend.go:102-228 | each statement, rejections included, is one update of the plain map |
| Tables.ExecAllRefines | windermere/sqlbackend.go:407-426 | so is each sequence of statements |
| Tables.AbsInjective | windermere/sqlbackend.go:102-228 | the plain map determines the tables: nothing else is stored in any of them |
| Faults.SameFailures | windermere/sqlbackend.go:407-429 | the count of failures stays the same exactly while no call fails |
| Engine.Database.Begin | windermere/sqlbackend.go:407-413 | unless the call fails, a transaction on the committed tables |
| Engine.Transaction.NamedExec | windermere/sqlbackend.go:102-228 | unless its call fails, a statement is carried out in full or rejected by a key; the working copy is what the statements so far make of the committed tables |
| Engine.Transaction.SelectMain | windermere/sqluser.go:230-253 | unless its call fails, the matching main rows, each once, in any order |
| Engine.Transaction.SelectChildren | windermere/sqluser.go:230-253 | unless its call fails, the matching child rows as a multiset, in any order |
| Engine.Transaction.HasRecord | windermere/sqlbackend.go:491-520 | unless its call fails, says whether the key is in its main table |
| Engine.Transaction.Commit | windermere/sqlbackend.go:425-429 | all of the transaction's changes become visible, or none exactly when the call fails |
| Transactions.CreateIsNeverRejected | windermere/sqlbackend.go:407-426 | with a free key the order check, parent, children is never stopped by a primary or foreign key, and adds exactly the object's entry |
| Transactions.UpdateStored | windermere/sqluser.go:119-154 | updating a stored object replaces its whole entry, whatever it was |
| Transactions.UpdateMissing | windermere/sqlactivity.go:110-145 | updating an object that is not stored changes nothing, and is rejected exactly when it has child rows |
| Transactions.OutcomeKeepsWellFormed | windermere/sqlbackend.go:394-575 | every operation keeps the relational invariant |
| Transactions.OutcomeRefines | windermere/sqlbackend.go:394-575 | every operation on the tables is the map operation, with the same reply |
| Transactions.OutcomeIsolates | windermere/sqlbackend.go:394-575 | an operation for one tenant changes no row of another in any table |
| Transactions.ClearEmptiesTenant | windermere/sqlbackend.go:88-100 | after Clear none of the thirteen tables holds a row of the tenant, and all others are as before |
| Transactions.DeleteRemovesExactly | windermere/sqlbackend.go:522-553 | Delete removes one main row and, by cascade, exactly its child rows |
| SqlBackends.Build | windermere/sqluser.go:177-190 | the first reader loop gives one bare object per main row and an index that finds each |
| SqlBackends.ChildBelongs | windermere/sqluser.go:230-253 | because of the foreign key and the matching filters, every row of a child query belongs to one of the main rows read |
| SqlBackends.IndexFinds | windermere/sqluser.go:192-205 | for such a row the index has its id, so the default position 0 is never used |
| SqlBackends.AppendRows | windermere/sqluser.go:192-225 | for any row order, each object has gained exactly the multiset of its own child rows, in the order in which they came |
| SqlBackends.ById | windermere/sqlbackend.go:625-629 | the result is keyed by the objects' own ids and misses none |
| SqlBackends.SqlBackend.CreateItems | windermere/sqluser.go:63-101 | issues one insert of all the object's rows for a child table, or nothing when there are none; faults exactly when its call fails |
| SqlBackends.SqlBackend.ObjectCreator | windermere/sqlbackend.go:309-328 | issues the whole creating program, or stops at a rejection, or faults exactly when some call fails |
| SqlBackends.SqlBackend.ObjectMutator | windermere/sqlbackend.go:330-349 | the same for the updating program, which deletes and reinserts each child table's rows |
| SqlBackends.SqlBackend.Create | windermere/sqlbackend.go:394-440 | tables and reply are the operation's outcome when no call fails; when one does, and only then, a fault that leaves all tables as they were |
| SqlBackends.SqlBackend.Update | windermere/sqlbackend.go:442-489 | the same for Update |
| SqlBackends.SqlBackend.Delete | windermere/sqlbackend.go:522-553 | the same for Delete |
| SqlBackends.SqlBackend.ClearTables | windermere/sqlbackend.go:564-572 | the loop issues the deletes of all listed tables in order; it faults exactly when some call fails |
| SqlBackends.SqlBackend.Clear | windermere/sqlbackend.go:555-575 | the same for Clear |
| SqlBackends.SqlBackend.Attach | windermere/sqlactivity.go:180-209 | unless the query fails, every object has all its rows of that table, in the order in which they came |
| SqlBackends.SqlBackend.ObjectReader | windermere/sqlbackend.go:351-392 | unless a query fails, the matching main rows with all their child rows, row order included |
| SqlBackends.SqlBackend.ObjectReaderOne | windermere/sqluser.go:239-253 | unless a query fails, exactly one object is found for a stored key, and it is the one stored |
| SqlBackends.SqlBackend.GetParsedResources | windermere/sqlbackend.go:605-631 | exactly the map's slice for the tenant and type; refused exactly for an unknown type or when some call fails |
| SqlBackends.SqlBackend.GetParsedResource | windermere/sqlbackend.go:633-664 | the object the map holds; missing exactly when it holds none; a fault exactly when some call fails |
| SqlBackends.SqlBackend.GetResources | windermere/sqlbackend.go:577-591 | the same slice, each object encoded, and refused in the same cases |
| SqlBackends.SqlBackend.GetResource | windermere/sqlbackend.go:593-603 | the same object, encoded, and refused in the same cases |
| Runs.RunRefines | windermere/sqlbackend.go:394-575 | from the empty schema, every run with any faults is the same run on the plain map, reply by reply |
| Runs.HistoryDecides | windermere/sqlbackend.go:394-575 | what is stored under a key is what requests and replies say was last written there |
| Runs.StoredIffLive | windermere/sqlbackend.go:491-520 | an id is stored exactly when a successful create follows its last successful delete or clear |
| Runs.ReadIsLastWrite | windermere/sqlbackend.go:593-664 | after any run, what is read is the normal form of what was last written, and passes the validators |
| Runs.ReadersAgree | windermere/sqluser.go:230-253 | reading all and reading one give the same object up to child order |
| Isolation.Noninterference | windermere/sqlbackend.go:394-575 | after any run a tenant's rows in all tables, and its replies, are those of the run without the other tenants' operations |
| InsertionOrder.RunRowsAreChildren | windermere/sqlbackend.go:120-226 | the rows kept in insertion order are exactly the child rows of the tables |
| InsertionOrder.RunLists | windermere/sqluser.go:63-154 | after any run each child table holds an object's rows in the order of the list last written |
| InsertionOrder.RefilledIsNorm | windermere/sqluser.go:177-225 | an object taken apart and put together in order is its normal form, list order included |
| InsertionOrder.ReadInOrderIsNorm | windermere/sqluser.go:171-253 | when child queries are answered in insertion order, what is read is exactly the normal form of what was last written |
| Runs.UpdateReplaces | windermere/sqlbackend.go:463-474 | an update under its own id stores the body whatever was there before |
| Runs.UpdateUnderAnotherPath | windermere/sqlbackend.go:463-474 | an update under another stored id replaces the body's object and leaves the path's object alone |
| Runs.UpdateOfUnstored | windermere/sqlactivity.go:110-145 | when the body's object is not stored no table changes; the reply depends on whether it has child rows |
| Runs.GetThenPut | windermere/sqlbackend.go:442-489 | putting back what was read changes no table; it is refused exactly for users with an empty name part |
| Runs.GetThenPutAfterRun | windermere/sqlbackend.go:593-603 | the same after any run |
| Witnesses.NamelessUserIsReachable | ss12000v1/types.go:223-238 | in every configuration one create leads to a user that cannot be put back |
| Witnesses.UpdateOfUnstoredIsReachable | windermere/sqlstudentgroup.go:86-105 | after creating A, a PUT under A with the body of B is accepted without effect, or rejected when B has a member |
| Witnesses.VersionTypeIsRefused | scimserverlite/inmemory.go:193-210 | a legacy document with a resource type called Version does not load |
| Witnesses.DotsNameNothing | windermere/puthandler.go:42-57 | a PUT on "/Users" that offers the id ".." becomes a PUT on "/", which is refused |
| Witnesses.NullIdDiffers | scimserverlite/scimserverlite.go:235-258 | a POST with a null externalId is answered 500 in memory, and by the SQL backend 400, or 201 without the UUID validator |
| SavedDocuments.Save | scimserverlite/inmemory.go:175-187 | whatever the member order, loading what was saved gives the resources, by the branch for versions other than 0 |
| SavedDocuments.LegacyLoads | scimserverlite/inmemory.go:193-210 | a document without a version loads under tenant "" alone, unless a type is named like one of the document's own members |
| SavedDocuments.VersionDecides | scimserverlite/inmemory.go:193-210 | any version but 0 loads what is under Resources; none, null or 0 loads the whole document for tenant ""; anything else is refused |
| SavedDocuments.OtherShapes | scimserverlite/inmemory.go:191-210 | null stands for an empty map, for a text that cannot be parsed, and for a document without resources; numbers and texts in their place are refused |
| SavedDocuments.MembersDecode | scimserverlite/inmemory.go:191-206 | members decode exactly when each does; a map has the names of the members, and under each what its last member decodes to |
| SavedDocuments.LastMemberCounts | scimserverlite/inmemory.go:46-49 | of several members with one name the last counts |
| InMemory.FindAfter | scimserverlite/inmemory.go:121-122 | writing, removing or clearing changes exactly the slots it names |
| InMemory.MirrorIsUnique | scimserverlite/inmemory.go:36-42 | the raw map and the parser determine the parsed map |
| InMemory.MemOutcomeFinds | scimserverlite/inmemory.go:84-173 | what every operation leaves in every slot, when it is accepted, and that a write is answered with the text it was given |
| InMemory.RefusedIsUnobservable | scimserverlite/inmemory.go:89-119 | a refused operation changes no answer, although a create may leave empty inner maps |
| InMemory.WithoutParser | scimserverlite/inmemory.go:111-119 | a backend without a parser refuses no text and keeps nil beside it |
| InMemory.LessMeans | scimserverlite/inmemory.go:252 | the order of types: at the first difference the smaller character comes first, and a prefix before what it begins |
| InMemory.InMemoryBackend.Create | scimserverlite/inmemory.go:85-125 | new raw map and reply; raw and parsed map stay in step |
| InMemory.InMemoryBackend.Update | scimserverlite/inmemory.go:128-150 | the same for Update |
| InMemory.InMemoryBackend.Delete | scimserverlite/inmemory.go:153-164 | the same for Delete |
| InMemory.InMemoryBackend.Clear | scimserverlite/inmemory.go:167-173 | the same for Clear |
| InMemory.InMemoryBackend.Serialize | scimserverlite/inmemory.go:176-187 | the document loads as the resources held |
| InMemory.InMemoryBackend.Load | scimserverlite/inmemory.go:190-234 | both maps are replaced by what the document holds and stay in step; a bad document changes nothing |
| InMemory.InMemoryBackend.GetResourceTypes | scimserverlite/inmemory.go:237-254 | in dictionary order, each once, and exactly the types with a positive count |
| InMemory.InMemoryBackend.CountResources | scimserverlite/inmemory.go:257-270 | the number of resources listed for the type |
| InMemory.SaveThenLoad | scimserverlite/inmemory.go:175-234 | saving and loading into another backend with the same parser restores both maps |
| Simulation.IdFactoryAgrees | scimserverlite/scimserverlite.go:235-258 | on what the parser accepts the id factory gives GetID, unless externalId is null, which the UUID validator excludes |
| Simulation.IdOfEncoded | scimserverlite/scimserverlite.go:235-258 | on an encoded object the id factory gives the object's own id |
| Simulation.InStepIffRegular | scimserverlite/inmemory.go:84-173 | one operation keeps the backends related, accepting or refusing alike, exactly when it is regular |
| Simulation.DuplicateCreate | windermere/sqlbackend.go:510-520 | on a stored id the SQL backend reports a conflict while the in-memory one overwrites |
| Simulation.InStepIffRegularRun | scimserverlite/backend.go:66-75 | a run keeps the backends in step throughout exactly when all its operations are regular |
| Simulation.ViewsAgree | scimserverlite/inmemory.go:292-306 | at a tenant and type the backends are related exactly when their views are the same: the same ids, and the SQL view the normal form of the parsed one |
| Simulation.UnrelatedDiffer | scimserverlite/inmemory.go:292-306 | backends that are not related show different views at some tenant and type |
| Simulation.ViewsAgreeAfterRun | windermere/sqlbackend.go:605-631 | so they do after every regular run |
| Simulation.IrregularRunShows | scimserverlite/inmemory.go:84-173 | in an irregular run there is a point at which one backend accepts what the other refuses, or their views differ |
| Paths.SplitOfJoined | scimserverlite/scimserverlite.go:67-81 | splitting a path gives back the segments it was joined from |
| Paths.JoinNames | windermere/puthandler.go:54 | "/T" joined with an id names T and that id exactly when both are plain segments |
| Paths.UuidIsPlain | windermere/validation.go:32-40 | every id the UUID validator accepts is a plain segment |
| Paths.PutCompatibility | windermere/puthandler.go:18-62 | refuses an unreadable body with 500 and one that offers no id with 400; otherwise only the path changes, and it names the offered id exactly when the segments are plain |
| Paths.RewrittenNames | windermere/puthandler.go:42-57 | only the path changes, and it names the offered id exactly when the segments are plain |
| Paths.OthersAreNotRewritten | windermere/puthandler.go:20-22 | a request with another verb, or whose path has an id or no slash in front, is forwarded as it is |
| Paths.LastSegments | scimserverlite/scimserverlite.go:67-81 | a rooted path names its last segment as the type, or its last two as type and id; one segment names no id |
| Http.WriteQueryResponse | scimserverlite/scimserverlite.go:87-121 | one entry per resource, whatever the order, each the resource with its id added |
| Http.GetAsks | scimserverlite/scimserverlite.go:214-225 | a GET on any rooted path asks for the listing of the type named last |
| Http.PostAsks | scimserverlite/scimserverlite.go:178-189 | a POST with a readable body in one of the two media types asks to create in the type named last |
| Http.PutAsks | scimserverlite/scimserverlite.go:190-201 | a PUT asks to update the slot that the last two segments name, and is refused with 400 without two |
| Http.DeleteAsks | scimserverlite/scimserverlite.go:202-213 | a DELETE asks to delete that slot, and is refused with 400 without one |
| Http.NothingAsked | scimserverlite/scimserverlite.go:155-176 | another media type is refused with 415, an unreadable body with 500, and any other verb with 501 |
| Http.Server.Handle | scimserverlite/scimserverlite.go:150-229 | each kind of request: the operation's step with a fault exactly when some call fails, the listing, or the status that refuses it with no change; a GET changes nothing, and a DELETE of a stored object that meets no fault removes it |
| Http.Server.Query | scimserverlite/scimserverlite.go:214-225 | answers 500 exactly for an unknown type or when some call fails, and otherwise lists exactly the stored objects of the type, each once, with its id |
| Requests.HistoryDecidesStatus | scimserverlite/scimserverlite.go:123-139 | after any run POST answers 409 exactly when the object is live and else 201; PUT and DELETE answer 404 exactly when it is not; what is sent back on success is the body's object, encoded |
| Requests.BadBodyIs400 | windermere/sqlbackend.go:401-405 | a POST or PUT is answered 400 exactly when its body is not a valid object, and then changes nothing |
| Requests.OthersAre500 | windermere/sqlbackend.go:395-399 | a type that is not known is answered 500 with no change, and so is a fault |
| Requests.UpdateOfUnstoredStatus | windermere/sqlactivity.go:110-145 | an update of an object that is not stored is answered 500 when the body has child rows, and otherwise 200 |
| Requests.RewrittenPutIsDirectPut | windermere/puthandler.go:18-62 | PUT on "/T" with no other id than externalId is the PUT on "/T/externalId" exactly when the id is a plain segment, as it is under the UUID validator |
| Requests.RewrittenPutOfAnotherId | windermere/puthandler.go:42-47 | with another `id` in the body the update is looked up under that id |
| Requests.OfferedIs | windermere/puthandler.go:30-47 | the id a body offers is its `id`, or when that is missing, null or empty its externalId, and both must be strings |
| Requests.ListedCanBePutBack | scimserverlite/scimserverlite.go:101-111 | after any run, any entry of a listing sent back under its id changes no table, and is accepted unless it is a user with an empty name part |
| Requests.ListedEntry | scimserverlite/scimserverlite.go:101-111 | an entry of a listing is the object's own document with its id added and nothing else |
| Requests.StatusesAgree | scimserverlite/scimserverlite.go:123-139 | where the backends are in step their statuses are equal, except exactly for a POST without a string externalId |
| SchemaTemplate.CloseIsLeast | windermere/sqlbackend.go:246-250 | the non-greedy group ends at the first closing braces before any newline, and is found whenever one matches |
| SchemaTemplate.ExpandMeans | windermere/sqlbackend.go:246-262 | every template expands to its text with each marker replaced by its name, less a leading N on MySQL, and no brace is left |
| SchemaTemplate.SchemaTypes | windermere/sqlbackend.go:102-262 | the markers of the schema: TEXT and VARCHAR on MySQL, NTEXT and NVARCHAR on every other driver |
| Migrations.SchemaStore.InitSchema | windermere/sqlbackend.go:264-307 | succeeds exactly when no error that is noticed occurs; the schema is then the one that the migrations lead to, and the version row as every error that is noticed, taken for version 0, or ignored makes it |
| Migrations.RunLeads | windermere/sqlbackend.go:289-296 | the migrations from a version on succeed with a schema exactly when, each carried out on what the one before it made, they lead to it, and no version row is in the way of the first |
| Migrations.StartLeads | windermere/sqlbackend.go:276-306 | so does a start without faults, for versions that are not newer |
| Migrations.SchemaStore.Migrate | windermere/sqlbackend.go:289-296 | the loop gives what the migrations make of the database exactly when none of them and no call fails |
| Migrations.SchemaStore.Upgrade | windermere/sqlbackend.go:282-306 | the transaction succeeds exactly when its calls, but for the UPDATE, and its migrations do, and otherwise changes nothing |
| Migrations.PathIndependence | windermere/sqlbackend.go:289-299 | starting an older release first makes no difference |
| Migrations.SecondStartIsNoOp | windermere/sqlbackend.go:264-307 | a second start changes nothing |
| Migrations.StartSetsVersion | windermere/sqlbackend.go:298-299 | after a start the version is the number of migrations |
| Migrations.LostUpdate | windermere/sqlbackend.go:298-301 | when the last update fails unnoticed the version is right exactly when nothing was to be run or the first migration was the only one |
| Migrations.LostUpdateIsHarmless | windermere/sqlbackend.go:102-228 | with a single migration the database is the same whether or not the last update is lost |

## Left out

- JSON text: documents are trees with exact attribute names. Escaping, UTF-8, case-insensitive field matching and the merging of repeated members are not modelled, and encoding never fails.
- Objects: apart from ensureRequired and Activity, the UnmarshalJSON methods are functions on values, because the assignments to their receivers are made inside the JSON library. What a receiver holds after a failed decoding is not modelled.
- SqlBackends.SqlBackend.ObjectCreator: the creators, mutators and readers of the seven types are one member each, parametrised by the type and running over its child tables, where the original has one function per type with the same steps written out.
- Engine.Transaction.Commit: the database engine is assumed to check keys at once, cascade on every connection, give a transaction one snapshot, and commit atomically. Collations, column widths, the range of TINYINT, driver differences, DDL that commits on MySQL, connection pooling and the ping loop are not modelled.
- Simulation.IdFromExternalId: a body that is JSON but not an object makes the original panic; here it is refused. Resource types other than the seven are not compared between the backends.
- InMemory.InMemoryBackend.Load: a document with a version but no `Resources` leaves a nil map, on which the next Create panics; here a nil map is an empty one.
- Http.WriteQueryResponse: a stored `null` panics in the original and counts as undecodable here. What is written after an undecodable resource is not modelled; from the SQL backend there is none.
- InMemory.InMemoryBackend.GetResourceTypes: sorting is by insertion instead of sort.Slice.
- Concurrency: operations run one after the other. The mutex of the in-memory backend, reading its maps outside it, and the aliasing of the map GetResources returns are not modelled.
- Paths.Join: path.Join and strings.Split are written for rooted paths, on segments. RawPath, the cleaning redirects of http.ServeMux and the parsing of Content-Type are not modelled.
- Organisations and school unit groups: their tables take part in everything, but as flat two-field types they have no lemmas of their own.
- IsEnrolledAt, DefaultSendOrder, the dummy backend, GET of a single resource over HTTP, and reading and writing the save file.
- The program around the server: configuration, TLS, client lookup, rate limiting, access log and service installation.
