/**
 * `ServiceLocator.getService`: consult the cache, and on a miss ask the
 * directory and cache what it returns.  A name the directory does not know
 * yields `None` and leaves the cache as it was.
 */
module Locator {
  import opened Wrappers
  import opened CaseFold
  import opened Services
  import Directory
  import opened ServiceCache

  /**
   * The locator's state: its cache, the identity the next `new` will give,
   * and how many times the directory has been consulted.
   */
  datatype State = State(cache: Cache, nextId: nat, lookups: nat)

  /** The outcome of one `getService` call and the state it leaves. */
  datatype Resolution = Resolution(service: Option<Service>, after: State)

  /** The outcomes of a series of calls, in order, and the final state. */
  datatype Trace = Trace(results: seq<Option<Service>>, after: State)

  /** Unique names in the cache, and every cached object already allocated. */
  predicate Valid(l: State)
  {
    && Unique(l.cache)
    && forall i :: 0 <= i < |l.cache| ==> l.cache[i].id < l.nextId
  }

  /** A new locator: empty cache, nothing allocated, directory never asked. */
  function Init(): (l: State)
    ensures Valid(l)
    ensures forall name :: Get(l.cache, name).None?
  {
    State(Empty, 0, 0)
  }

  /** `ServiceLocator.getService`: the cache first, then the directory, caching what it finds. */
  function Resolve(l: State, name: string): (r: Resolution)
    ensures r.service.Some? ==> Matches(r.service.value, name)
    ensures r.service.None? ==> r.after.cache == l.cache
  {
    match Get(l.cache, name)
    case Some(s) => Resolution(Some(s), l)
    case None =>
      match Directory.Lookup(name, l.nextId)
      case None => Resolution(None, l.(lookups := l.lookups + 1))
      case Some(s) => Resolution(Some(s), State(Add(l.cache, s), l.nextId + 1, l.lookups + 1))
  }

  /** What one `getService` call returns and how it changes the locator. */
  lemma ResolveSpec(l: State, name: string)
    ensures var r := Resolve(l, name);
            // hit: the cached entry, with no directory call and no change of state
            && (Contains(l.cache, name) ==> r == Resolution(Get(l.cache, name), l))
            // miss on a known name: the directory's new object, appended to the cache
            && (!Contains(l.cache, name) && Directory.Known(name) ==>
                  && r.service == Directory.Lookup(name, l.nextId)
                  && r.after == State(l.cache + [r.service.value], l.nextId + 1, l.lookups + 1))
            // miss on an unknown name: nothing found and nothing cached
            && (!Contains(l.cache, name) && !Directory.Known(name) ==>
                  r == Resolution(None, l.(lookups := l.lookups + 1)))
            && (Valid(l) ==> Valid(r.after))
  {
    if !Contains(l.cache, name) && Directory.Known(name) {
      var s := Directory.Lookup(name, l.nextId).value;
      ResolveMissAppends(l.cache, s, name);
      CachingKeepsValid(l, s);
    }
  }

  /** Under the invariant, a miss returns an object distinct from every cached one. */
  lemma MissReturnsNewObject(l: State, name: string)
    requires Valid(l) && !Contains(l.cache, name) && Directory.Known(name)
    ensures Resolve(l, name).service.Some?
    ensures forall i :: 0 <= i < |l.cache| ==> l.cache[i] != Resolve(l, name).service.value
  {
    ResolveSpec(l, name);
  }

  /** On a miss, the directory's object cannot collide with a cached name. */
  lemma ResolveMissAppends(c: Cache, s: Service, name: string)
    requires !Contains(c, name) && Matches(s, name)
    ensures Add(c, s) == c + [s]
  {
  }

  /** Caching the object built with the next id keeps names unique and ids below the counter. */
  lemma CachingKeepsValid(l: State, s: Service)
    requires s.id == l.nextId
    ensures Valid(l) ==> Valid(State(Add(l.cache, s), l.nextId + 1, l.lookups + 1))
  {
    if Valid(l) {
      AddPreservesUnique(l.cache, s);
    }
  }

  /** One call keeps every cached entry in place and consults the directory at most once. */
  lemma ResolveExtends(l: State, name: string)
    ensures var r := Resolve(l, name);
            |l.cache| <= |r.after.cache| && r.after.cache[..|l.cache|] == l.cache &&
            l.lookups <= r.after.lookups <= l.lookups + 1
  {
    ResolveSpec(l, name);
  }

  /** A series of `getService` calls, each starting from the state the previous left. */
  function Run(l: State, names: seq<string>): (t: Trace)
    ensures |t.results| == |names|
    decreases |names|
  {
    if |names| == 0 then Trace([], l)
    else
      var first := Resolve(l, names[0]);
      var rest := Run(first.after, names[1..]);
      Trace([first.service] + rest.results, rest.after)
  }

  /**
   * Over any series of calls the invariant holds throughout, cached entries
   * keep their positions, and each call consults the directory at most once.
   */
  lemma {:induction false} RunInvariants(l: State, names: seq<string>)
    ensures var t := Run(l, names);
            && |l.cache| <= |t.after.cache| && t.after.cache[..|l.cache|] == l.cache
            && l.lookups <= t.after.lookups <= l.lookups + |names|
            && (Valid(l) ==> Valid(t.after))
    decreases |names|
  {
    if |names| > 0 {
      var first := Resolve(l, names[0]);
      ResolveExtends(l, names[0]);
      ResolveSpec(l, names[0]);
      RunInvariants(first.after, names[1..]);
    }
  }

  /** Once `Get` hits, further calls never change what it finds. */
  lemma {:induction false} RunKeepsHits(l: State, names: seq<string>, name: string)
    requires Contains(l.cache, name)
    ensures Get(Run(l, names).after.cache, name) == Get(l.cache, name)
    decreases |names|
  {
    if |names| > 0 {
      var first := Resolve(l, names[0]);
      ResolveSpec(l, names[0]);
      if !Contains(l.cache, names[0]) {
        if Directory.Known(names[0]) {
          GetStableUnderAdd(l.cache, first.service.value, name);
          assert Add(l.cache, first.service.value) == first.after.cache;
        }
      }
      assert Contains(first.after.cache, name) by {
        var i :| 0 <= i < |l.cache| && Matches(l.cache[i], name);
        assert first.after.cache[i] == l.cache[i];
      }
      RunKeepsHits(first.after, names[1..], name);
    }
  }

  /**
   * Pinning: once a name resolves to an object, every later call for any
   * case variant of that name, after any calls in between, returns that
   * same object and leaves the state unchanged.
   */
  lemma Pinned(l: State, name: string, between: seq<string>, again: string)
    requires Resolve(l, name).service.Some?
    requires EqualsIgnoreCase(name, again)
    ensures var later := Run(Resolve(l, name).after, between).after;
            Resolve(later, again) == Resolution(Resolve(l, name).service, later)
  {
    var first := Resolve(l, name);
    ResolveSpec(l, name);
    var s := first.service.value;
    assert Get(first.after.cache, name) == Some(s) by {
      if !Contains(l.cache, name) {
        GetAfterAdd(l.cache, s, name);
        ResolveMissAppends(l.cache, s, name);
      }
    }
    RunKeepsHits(first.after, between, name);
    var later := Run(first.after, between).after;
    GetRespectsCase(later.cache, name, again);
    ResolveSpec(later, again);
  }

  /** An unknown name is looked up afresh on every call and never cached. */
  lemma UnknownNeverCached(l: State, name: string)
    requires !Directory.Known(name)
    ensures Resolve(l, name).service.None?
    ensures Resolve(Resolve(l, name).after, name) ==
            Resolution(None, l.(lookups := l.lookups + 2))
  {
    ResolveSpec(l, name);
    ResolveSpec(Resolve(l, name).after, name);
  }
}
