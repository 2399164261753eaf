/**
 * The locator exactly as the Java code behaves when the directory returns
 * `null`: the null reference is handed to `Cache.addService`, which stores it
 * when the cache is empty and dereferences it otherwise.  The cache here holds
 * possibly-null references, and every dereference of `null` ends the call
 * with a `NullPointerException`.
 */
module AsWritten {
  import opened Wrappers
  import opened CaseFold
  import opened Services
  import Directory
  import opened ServiceCache
  import Locator

  /** Either the call returns a value or it throws `NullPointerException`. */
  datatype Outcome<+T> = Returned(value: T) | NullPointer

  /** A list of references; `None` is `null`. */
  type RawCache = seq<Option<Service>>

  /** The locator's state as written: a cache that may hold `null`, the next id, the lookup count. */
  datatype RawState = RawState(cache: RawCache, nextId: nat, lookups: nat)

  /** The answer of one as-written `getService` call and the state after it. */
  datatype RawResolution = RawResolution(service: Option<Service>, after: RawState)

  /** Every entry before position `i` is a non-null reference whose name does not match. */
  ghost predicate ScannedPast(c: RawCache, name: string, i: int)
    requires 0 <= i <= |c|
  {
    forall j :: 0 <= j < i ==> c[j].Some? && !Matches(c[j].value, name)
  }

  /** `Cache.getService` over references: a `null` met before a match throws. */
  function RawGet(c: RawCache, name: string): (r: Outcome<Option<Service>>)
    ensures r.Returned? && r.value.Some? ==> Some(r.value.value) in c && Matches(r.value.value, name)
    ensures r == Returned(None) <==> forall i :: 0 <= i < |c| ==> c[i].Some? && !Matches(c[i].value, name)
    // the scan throws exactly when it reaches a null before any match
    ensures r == NullPointer <==> exists i :: 0 <= i < |c| && c[i].None? && ScannedPast(c, name, i)
    // a returned entry is the first match, with no null before it
    ensures r.Returned? && r.value.Some? ==>
              exists i :: 0 <= i < |c| && c[i] == r.value && ScannedPast(c, name, i)
  {
    if |c| == 0 then Returned(None)
    else if c[0].None? then
      assert ScannedPast(c, name, 0);
      NullPointer
    else if Matches(c[0].value, name) then
      assert ScannedPast(c, name, 0);
      RawGetHeadMatch(c, name);
      Returned(c[0])
    else
      var rest := RawGet(c[1..], name);
      assert forall j :: 1 <= j < |c| ==> c[j] == c[1..][j - 1];
      RawGetShift(c, name);
      rest
  }

  /** A matching head entry stops the scan before any null can be met. */
  lemma RawGetHeadMatch(c: RawCache, name: string)
    requires |c| > 0 && c[0].Some? && Matches(c[0].value, name)
    ensures !exists i :: 0 <= i < |c| && c[i].None? && ScannedPast(c, name, i)
  {
    forall i | 0 <= i < |c| && c[i].None?
      ensures !ScannedPast(c, name, i)
    {
      assert 0 < i;
    }
  }

  /** Past a non-null, non-matching head, scanning `c` from 1 is scanning the tail from 0. */
  lemma RawGetShift(c: RawCache, name: string)
    requires |c| > 0 && c[0].Some? && !Matches(c[0].value, name)
    ensures forall i :: 0 <= i < |c[1..]| ==> (ScannedPast(c[1..], name, i) <==> ScannedPast(c, name, i + 1))
  {
    forall i | 0 <= i < |c[1..]|
      ensures ScannedPast(c[1..], name, i) <==> ScannedPast(c, name, i + 1)
    {
      assert forall j :: 0 <= j < i ==> c[1..][j] == c[j + 1];
      if ScannedPast(c[1..], name, i) {
        forall j | 0 <= j < i + 1
          ensures c[j].Some? && !Matches(c[j].value, name)
        {
          if j > 0 {
            assert c[j] == c[1..][j - 1];
          }
        }
      }
    }
  }

  /**
   * `Cache.addService(newService)`: every entry is visited, and both the
   * entry and `newService` are dereferenced on each visit.
   */
  function RawAdd(c: RawCache, s: Option<Service>): (r: Outcome<RawCache>)
    ensures |c| == 0 ==> r == Returned([s])
    ensures |c| > 0 && s.None? ==> r == NullPointer
    ensures (exists i :: 0 <= i < |c| && c[i].None?) ==> r == NullPointer
    ensures s.Some? && (forall i :: 0 <= i < |c| ==> c[i].Some?) ==>
              r == Returned(if exists i :: 0 <= i < |c| && Matches(c[i].value, GetName(s.value)) then c else c + [s])
  {
    match RawExists(c, s)
    case NullPointer => NullPointer
    case Returned(b) =>
      if b then Returned(c)
      else
        assert |c| == 0 ==> c + [s] == [s];
        Returned(c + [s])
  }

  /** The flag loop of `addService`, throwing on the first `null` it dereferences. */
  function RawExists(c: RawCache, s: Option<Service>): (r: Outcome<bool>)
    ensures |c| > 0 && s.None? ==> r == NullPointer
    ensures |c| == 0 ==> r == Returned(false)
    ensures (exists i :: 0 <= i < |c| && c[i].None?) ==> r == NullPointer
    ensures s.Some? && (forall i :: 0 <= i < |c| ==> c[i].Some?) ==>
              r == Returned(exists i :: 0 <= i < |c| && Matches(c[i].value, GetName(s.value)))
  {
    if |c| == 0 then Returned(false)
    else if c[0].None? || s.None? then NullPointer
    else
      var rest := RawExists(c[1..], s);
      assert forall j :: 1 <= j < |c| ==> c[j] == c[1..][j - 1];
      match rest
      case NullPointer => NullPointer
      case Returned(b) => Returned(Matches(c[0].value, GetName(s.value)) || b)
  }

  /** `ServiceLocator.getService` as written: the directory's `null` goes into the cache. */
  function RawResolve(l: RawState, name: string): (r: Outcome<RawResolution>)
    ensures r.Returned? && r.value.service.Some? ==> Matches(r.value.service.value, name)
    // a null result is only ever returned from an empty cache, which then holds that null
    ensures r.Returned? && r.value.service.None? ==> l.cache == [] && r.value.after.cache == [None]
    ensures r.Returned? ==> |l.cache| <= |r.value.after.cache| <= |l.cache| + 1 &&
                            r.value.after.cache[..|l.cache|] == l.cache
  {
    match RawGet(l.cache, name)
    case NullPointer => NullPointer
    case Returned(Some(s)) => Returned(RawResolution(Some(s), l))
    case Returned(None) =>
      var found := Directory.Lookup(name, l.nextId);
      var nextId := if found.Some? then l.nextId + 1 else l.nextId;
      match RawAdd(l.cache, found)
      case NullPointer => NullPointer
      case Returned(c) => Returned(RawResolution(found, RawState(c, nextId, l.lookups + 1)))
  }

  /** The cache of the corrected locator, seen as a list of non-null references. */
  function Lift(c: Cache): (r: RawCache)
    ensures |r| == |c| && forall i :: 0 <= i < |c| ==> r[i] == Some(c[i])
  {
    seq(|c|, i requires 0 <= i < |c| => Some(c[i]))
  }

  /** A corrected locator state seen as an as-written one: the same entries, none of them `null`. */
  function LiftState(l: Locator.State): RawState
  {
    RawState(Lift(l.cache), l.nextId, l.lookups)
  }

  /**
   * The defect: asking a fresh locator for an unknown name caches `null`, and
   * the next call, even for a name the directory knows, throws.
   */
  lemma UnknownNamePoisonsCache(name: string, nextId: nat, lookups: nat, next: string)
    requires !Directory.Known(name)
    ensures RawResolve(RawState([], nextId, lookups), name) ==
            Returned(RawResolution(None, RawState([None], nextId, lookups + 1)))
    ensures RawResolve(RawState([None], nextId, lookups + 1), next) == NullPointer
  {
  }

  /** The same defect for the unknown name "ServiceX", followed by "Service1". */
  lemma ServiceXPoisonsCache()
    ensures RawResolve(RawState([], 0, 0), "ServiceX") ==
            Returned(RawResolution(None, RawState([None], 0, 1)))
    ensures RawResolve(RawState([None], 0, 1), "Service1") == NullPointer
  {
    DifferAt(Name(Service1), "ServiceX", 7);
    DifferAt(Name(Service2), "ServiceX", 7);
    UnknownNamePoisonsCache("ServiceX", 0, 0, "Service1");
  }

  /** Once anything is cached, asking for an unknown name throws at once. */
  lemma UnknownNameThrowsOnNonEmptyCache(l: Locator.State, name: string)
    requires |l.cache| > 0 && !Directory.Known(name)
    ensures RawResolve(LiftState(l), name) == NullPointer
  {
  }

  /**
   * For names the directory knows, the code as written and the corrected
   * locator agree call for call.
   */
  lemma AgreesOnKnownNames(l: Locator.State, name: string)
    requires Directory.Known(name)
    ensures var r := Locator.Resolve(l, name);
            RawResolve(LiftState(l), name) == Returned(RawResolution(r.service, LiftState(r.after)))
  {
    var c := l.cache;
    RawGetLifted(c, name);
    if !Contains(c, name) {
      var s := Directory.Lookup(name, l.nextId).value;
      RawExistsLifted(c, s);
      assert Lift(c) + [Some(s)] == Lift(c + [s]);
    }
  }

  /** Over a null-free list, the as-written scan is the corrected `Get`. */
  lemma {:induction false} RawGetLifted(c: Cache, name: string)
    ensures RawGet(Lift(c), name) == Returned(Get(c, name))
  {
    if |c| > 0 {
      RawGetLifted(c[1..], name);
      assert Lift(c)[1..] == Lift(c[1..]);
      if !Matches(c[0], name) {
        assert FirstIndex(c, name).None? <==> FirstIndex(c[1..], name).None?;
        if FirstIndex(c[1..], name).Some? {
          var k := FirstIndex(c[1..], name).value;
          assert FirstIndex(c, name) == Some(k + 1);
          assert c[k + 1] == c[1..][k];
        }
      }
    }
  }

  /** Over a null-free list and a non-null service, the as-written flag loop is `Exists`. */
  lemma {:induction false} RawExistsLifted(c: Cache, s: Service)
    ensures RawExists(Lift(c), Some(s)) == Returned(Exists(c, GetName(s)))
  {
    if |c| > 0 {
      assert Lift(c)[1..] == Lift(c[1..]);
      RawExistsLifted(c[1..], s);
    }
  }

  /**
   * The corrected locator on the same inputs: the unknown name yields `None`,
   * the cache stays empty, and the next call for "Service1" succeeds.
   */
  lemma CorrectedUnknownNameIsHarmless()
    ensures Locator.Resolve(Locator.Init(), "ServiceX") ==
            Locator.Resolution(None, Locator.State([], 0, 1))
    ensures Locator.Resolve(Locator.State([], 0, 1), "Service1") ==
            Locator.Resolution(Some(Service(Service1, 0)), Locator.State([Service(Service1, 0)], 1, 2))
  {
    DifferAt(Name(Service1), "ServiceX", 7);
    DifferAt(Name(Service2), "ServiceX", 7);
    assert !Directory.Known("ServiceX");
    assert EqualsIgnoreCase(Name(Service1), "Service1");
  }
}
