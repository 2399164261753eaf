# Caching service locator

A Dafny model of the service locator in `book/SpringReveal/ServiceLocatorTest.java`.
A client asks the locator for a service by name. The locator first scans its cache. On a
miss it asks a simulated naming directory (`InitialContext.lookup`) to build a new service
object, adds that object to the cache and returns it. Names are compared with
`String.equalsIgnoreCase`. The cache keeps at most one object per name, ignoring case,
and the first object stored under a name is never replaced.

Modules, leaf to root:

- `Wrappers` (`wrappers.dfy`): `Option`. `None` stands where the Java code returns `null`.
- `CaseFold` (`case_fold.dfy`): `equalsIgnoreCase`. It is defined as equality of the
  lower-case images. `EqualsIgnoreCaseCharwise` proves that this is the JDK's
  character-by-character test.
- `Services` (`services.dfy`): the two service classes. A `Service` value is a class
  (`Variant`) plus an object identity (`id`). Two objects built by separate `new`
  expressions get different ids, so "the same instance" can be stated.
- `Directory` (`directory.dfy`): `InitialContext.lookup`. The caller passes in the id that
  `new` gives the object, so the directory stays a pure function.
- `ServiceCache` (`cache.dfy`): the `Cache` class, as an immutable `seq<Service>` with pure
  lookup (`Get`) and insert (`Add`).
- `Locator` (`locator.dfy`): `ServiceLocator.getService` (`Resolve`), threading the state.
  The state is the cache, the next object id, and a count of directory consultations.
  `Run` chains calls.
- `Scenarios` (`scenarios.dfy`): the run documented in the source, and the
  case-variant and unknown-name sequences.
- `AsWritten` (`as_written.dfy`): the locator exactly as written when the directory
  returns `null` (see Findings).

Unknown names: when the directory does not know a name, `Locator.Resolve` returns `None`
and caches nothing. The Java code instead passes the `null` to `addService`. That behaviour
is modelled separately in `AsWritten` and reported under Findings. An unknown name could
also be reported as an explicit not-found error. The code has no such error, so `Locator`
answers with `None`, the value the Java code returns, and only drops the faulty insert.

## Model

| member | source | states |
|---|---|---|
| CaseFold.EqualsIgnoreCaseCharwise | book/SpringReveal/ServiceLocatorTest.java:82 | the contract of `EqualsIgnoreCase`: two names are equal ignoring case exactly when they have the same length and every character pair is equal, equal upper-cased, or equal upper- then lower-cased |
| CaseFold.DifferAt | book/SpringReveal/ServiceLocatorTest.java:59-62 | one position whose characters differ after lower-casing makes two names unequal ignoring case |
| Services.GetName | book/SpringReveal/ServiceLocatorTest.java:19-46 | the name an object reports equals, ignoring case, the name of its own class and of no other class |
| Services.NameDeterminesVariant | book/SpringReveal/ServiceLocatorTest.java:27-52 | the names "Service1" and "Service2" returned by `getName` are equal ignoring case only for the same class, so a name identifies the class |
| Directory.Lookup | book/SpringReveal/ServiceLocatorTest.java:58-67 | the directory returns a new object of a class exactly when the query equals that class's name ignoring case, returns nothing exactly for unknown names, and the returned object's name equals the query ignoring case |
| Directory.LookupAgreesWithNames | book/SpringReveal/ServiceLocatorTest.java:59-64 | matching the key "SERVICE1" (or "SERVICE2") ignoring case is the same as matching the name that class reports, and no query matches both |
| ServiceCache.FirstIndex | book/SpringReveal/ServiceLocatorTest.java:81-86 | the scan stops at the earliest entry whose name matches the query; it finds none only if no entry matches |
| ServiceCache.Get | book/SpringReveal/ServiceLocatorTest.java:80-88 | `getService` returns an entry exactly when some entry matches the query ignoring case, and then the first such entry in insertion order |
| ServiceCache.Exists | book/SpringReveal/ServiceLocatorTest.java:91-96 | the flag loop of `addService` ends true exactly when some entry's name matches the new service's name |
| ServiceCache.Add | book/SpringReveal/ServiceLocatorTest.java:90-100 | `addService` leaves the list unchanged when an entry with an equal name (ignoring case) is present, and otherwise appends the new service at the end |
| ServiceCache.GetRespectsCase | book/SpringReveal/ServiceLocatorTest.java:82 | queries equal ignoring case find the same entry |
| ServiceCache.GetInUnique | book/SpringReveal/ServiceLocatorTest.java:80-88 | in a cache without duplicate names, any entry matching the query is the one returned |
| ServiceCache.AddPreservesUnique | book/SpringReveal/ServiceLocatorTest.java:90-100 | insertion keeps the invariant that no two entries have names equal ignoring case |
| ServiceCache.AddExtends | book/SpringReveal/ServiceLocatorTest.java:97-99 | the cache only grows: every existing entry keeps its position and value, at most one entry is added, and the new service's name is present afterwards |
| ServiceCache.AddFirstWriterWins | book/SpringReveal/ServiceLocatorTest.java:90-100 | inserting a second service whose name equals the first's ignoring case changes nothing, and lookup still returns the first writer |
| ServiceCache.AddIdempotent | book/SpringReveal/ServiceLocatorTest.java:90-100 | adding the same service twice gives the same cache as adding it once |
| ServiceCache.GetAfterAdd | book/SpringReveal/ServiceLocatorTest.java:80-100 | after inserting a service, looking up its name returns the earlier entry if one existed, otherwise the inserted service |
| ServiceCache.GetStableUnderAdd | book/SpringReveal/ServiceLocatorTest.java:80-100 | a lookup that hits keeps returning the same entry after any insertion |
| ServiceCache.FirstIndexAppend | book/SpringReveal/ServiceLocatorTest.java:81-86 | an entry found in the cache is still the first match after more entries are appended |
| Locator.Init | book/SpringReveal/ServiceLocatorTest.java:107 | a new locator's cache is empty, satisfies the invariant and answers every lookup with a miss |
| Locator.Resolve | book/SpringReveal/ServiceLocatorTest.java:109-120 | any service `getService` returns has a name equal to the query ignoring case, and a call that returns nothing leaves the cache unchanged; its full case split is `Locator.ResolveSpec` |
| Locator.ResolveSpec | book/SpringReveal/ServiceLocatorTest.java:109-120 | on a hit, `getService` returns the cached entry and leaves the state unchanged, with no directory call; on a miss it returns the directory's result; for a known name it appends the new object to the cache; for an unknown name it caches nothing; the cache invariant is preserved |
| Locator.MissReturnsNewObject | book/SpringReveal/ServiceLocatorTest.java:116-118 | under the invariant, a miss on a known name returns an object that is not the same instance as any cached one |
| Locator.ResolveExtends | book/SpringReveal/ServiceLocatorTest.java:109-120 | one call keeps every cached entry in place and consults the directory at most once |
| Locator.RunInvariants | book/SpringReveal/ServiceLocatorTest.java:106-121 | over any series of calls the cache only grows, the invariant holds throughout, and the directory is consulted at most once per call |
| Locator.RunKeepsHits | book/SpringReveal/ServiceLocatorTest.java:109-114 | once a name hits in the cache, no later call changes which entry it finds |
| Locator.Pinned | book/SpringReveal/ServiceLocatorTest.java:109-119 | once a name resolves to an object, every later call for any case variant of that name, after any calls in between, returns that same object and changes nothing |
| Locator.UnknownNeverCached | book/SpringReveal/ServiceLocatorTest.java:116-119 | a name the directory does not know yields nothing and is never cached, so each call for it consults the directory again |
| Scenarios.AlternatingRun | book/SpringReveal/ServiceLocatorTest.java:122-131 | for two known names that differ ignoring case, requested a, b, a, b from a new locator, the 1st and 3rd calls return one object, the 2nd and 4th another, and the directory is consulted twice |
| Scenarios.DocumentedRun | book/SpringReveal/ServiceLocatorTest.java:133-141 | the documented run Service1, Service2, Service1, Service2 returns objects #0, #1, #0, #1 and leaves both cached |
| Scenarios.CaseVariantsRun | book/SpringReveal/ServiceLocatorTest.java:109-119 | three case variants of one known name from a new locator cost one directory call and all return the same object |
| Scenarios.Service1CaseVariants | book/SpringReveal/ServiceLocatorTest.java:109-119 | "service1", "SERVICE1" and "Service1" all return the object the first call cached |
| Scenarios.UnknownNameRun | book/SpringReveal/ServiceLocatorTest.java:116-119 | asking twice for "ServiceX" returns nothing both times, caches nothing and consults the directory twice |
| AsWritten.RawGet | book/SpringReveal/ServiceLocatorTest.java:80-88 | over a list that may hold null, the scan throws exactly when it reaches a null before any match, returns nothing exactly when every entry is non-null and none matches, and otherwise returns the first matching entry, with no null before it |
| AsWritten.RawExists | book/SpringReveal/ServiceLocatorTest.java:91-96 | the flag loop throws once it dereferences a null entry or a null new service; over non-null references it ends true exactly when some entry's name matches |
| AsWritten.RawAdd | book/SpringReveal/ServiceLocatorTest.java:90-100 | `addService(null)` appends the null reference to an empty list and throws on a non-empty one; a stored null makes every insert throw; a non-null service into a null-free list is appended only when no entry's name matches it |
| AsWritten.RawResolve | book/SpringReveal/ServiceLocatorTest.java:109-120 | as written, a returned service matches the query, the cache only grows by at most one entry, and a null result is only ever returned from an empty cache, which then holds that null |
| AsWritten.UnknownNamePoisonsCache | book/SpringReveal/ServiceLocatorTest.java:116-119 | as written, asking an empty locator for any unknown name, whatever its counters, caches null, and the next call, for any name, throws `NullPointerException` |
| AsWritten.ServiceXPoisonsCache | book/SpringReveal/ServiceLocatorTest.java:116-119 | as written, asking a new locator for "ServiceX" caches null, and the next call for "Service1" throws `NullPointerException` |
| AsWritten.UnknownNameThrowsOnNonEmptyCache | book/SpringReveal/ServiceLocatorTest.java:93 | as written, asking for an unknown name once anything is cached throws `NullPointerException` |
| AsWritten.AgreesOnKnownNames | book/SpringReveal/ServiceLocatorTest.java:109-120 | for names the directory knows, the code as written and the corrected locator return the same result and reach the same state |
| AsWritten.CorrectedUnknownNameIsHarmless | book/SpringReveal/ServiceLocatorTest.java:116-119 | the corrected locator answers "ServiceX" with nothing, keeps the cache empty, and then resolves "Service1" normally |

## Left out

- `Service.execute` and every `System.out.println` (lines 35, 50, 60, 63, 83): console output with no effect on state.
- The commented-out `main` (lines 133-142) and the printed object addresses: the call sequence is stated as `Scenarios.DocumentedRun`, and object identity is the `id` field.
- `book/SpringReveal/NextDayDateFactoryBean.java`: its only logic reads the wall clock, through a Spring interface that is not part of this model.
- A `null` query string: `Cache.getService(null)` would miss and `InitialContext.lookup(null)` would throw. Dafny strings are never null.
- CaseFold.EqualsIgnoreCase: case mapping covers the ASCII letters only. The JDK also folds other letters, for example the Kelvin sign and the long s. Because of those, some non-ASCII queries would match "SERVICE1" in Java but not in the model.
- Concurrency, timeouts and any directory failure other than "not found": the source is single-threaded and has none of them.
- The `Service` interface's dynamic dispatch is a closed datatype with two variants. No other service class exists in the source.

## Findings

| source | as written | input that shows it | evidently intended | confidence | as-written member | corrected member |
|---|---|---|---|---|---|---|
| book/SpringReveal/ServiceLocatorTest.java:117-118 | on a miss, the directory's result is passed to `addService` even when it is `null` | on a new locator, `getService("ServiceX")` stores `null` in the cache; then `getService("Service1")` throws `NullPointerException` when the cache scan calls `getName` on it (line 82). On a non-empty cache, `getService("ServiceX")` throws at line 93 | an unknown name returns nothing and leaves the cache unchanged | high; not executed | AsWritten.UnknownNamePoisonsCache | Locator.UnknownNeverCached |
