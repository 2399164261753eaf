/**
 * The locator's cache: services in insertion order, looked up by a linear
 * scan that compares names ignoring case, and extended only by names it
 * does not hold yet.
 */
module ServiceCache {
  import opened Wrappers
  import opened CaseFold
  import opened Services

  type Cache = seq<Service>

  /** The cache starts empty. */
  const Empty: Cache := []

  /** The entry's name equals the query ignoring case: the test at line 82. */
  predicate Matches(s: Service, name: string)
  {
    EqualsIgnoreCase(GetName(s), name)
  }

  /** Some entry of the cache matches the query. */
  predicate Contains(c: Cache, name: string)
  {
    exists i :: 0 <= i < |c| && Matches(c[i], name)
  }

  /** The cache invariant: no two entries have names equal ignoring case. */
  predicate Unique(c: Cache)
  {
    forall i, j :: 0 <= i < j < |c| ==> !EqualsIgnoreCase(GetName(c[i]), GetName(c[j]))
  }

  /** Position of the first entry, in insertion order, whose name matches `name`. */
  function FirstIndex(c: Cache, name: string): (r: Option<nat>)
    ensures r.Some? ==> r.value < |c| && Matches(c[r.value], name)
    ensures r.Some? ==> forall j :: 0 <= j < r.value ==> !Matches(c[j], name)
    ensures r.None? <==> !Contains(c, name)
  {
    if |c| == 0 then None
    else if Matches(c[0], name) then Some(0)
    else
      match FirstIndex(c[1..], name)
      case None =>
        assert forall j :: 1 <= j < |c| ==> c[j] == c[1..][j - 1];
        None
      case Some(k) =>
        assert forall j :: 1 <= j <= k ==> c[j] == c[1..][j - 1];
        Some(k + 1)
  }

  /** `Cache.getService`: the first matching entry, or nothing on a miss. */
  function Get(c: Cache, name: string): (r: Option<Service>)
    ensures r.Some? <==> Contains(c, name)
    ensures r.Some? ==> exists i :: 0 <= i < |c| && c[i] == r.value && Matches(c[i], name) &&
                                    forall j :: 0 <= j < i ==> !Matches(c[j], name)
  {
    match FirstIndex(c, name)
    case None => None
    case Some(i) => Some(c[i])
  }

  /**
   * The scan of `Cache.addService`: every entry is compared and a flag
   * records whether any matched (the loop does not stop early).
   */
  function Exists(c: Cache, name: string): (b: bool)
    ensures b <==> Contains(c, name)
  {
    if |c| == 0 then false
    else
      var rest := Exists(c[1..], name);
      assert forall j :: 1 <= j < |c| ==> c[j] == c[1..][j - 1];
      Matches(c[0], name) || rest
  }

  /** `Cache.addService`: append `s` unless an entry with its name is present. */
  function Add(c: Cache, s: Service): (r: Cache)
    ensures Contains(c, GetName(s)) ==> r == c
    ensures !Contains(c, GetName(s)) ==> r == c + [s]
  {
    if Exists(c, GetName(s)) then c else c + [s]
  }

  // Properties of lookup

  /** Queries equal ignoring case find the same entry. */
  lemma GetRespectsCase(c: Cache, a: string, b: string)
    requires EqualsIgnoreCase(a, b)
    ensures Get(c, a) == Get(c, b)
  {
    FirstIndexRespectsMatches(c, a, b);
  }

  /** Queries that every service matches alike stop the scan at the same index. */
  lemma {:induction false} FirstIndexRespectsMatches(c: Cache, a: string, b: string)
    requires forall s: Service :: Matches(s, a) <==> Matches(s, b)
    ensures FirstIndex(c, a) == FirstIndex(c, b)
  {
    if |c| > 0 {
      FirstIndexRespectsMatches(c[1..], a, b);
    }
  }

  /** A hit is unaffected by anything appended after it. */
  lemma {:induction false} FirstIndexAppend(c: Cache, t: Cache, name: string)
    requires Contains(c, name)
    ensures FirstIndex(c + t, name) == FirstIndex(c, name)
  {
    if !Matches(c[0], name) {
      assert (c + t)[1..] == c[1..] + t;
      assert exists i :: 0 <= i < |c[1..]| && Matches(c[1..][i], name) by {
        var i :| 0 <= i < |c| && Matches(c[i], name);
        assert i != 0 && c[1..][i - 1] == c[i];
      }
      FirstIndexAppend(c[1..], t, name);
    }
  }

  /** In a cache without duplicate names, any entry matching `name` is the one lookup finds. */
  lemma GetInUnique(c: Cache, i: nat, name: string)
    requires Unique(c) && i < |c| && Matches(c[i], name)
    ensures Get(c, name) == Some(c[i])
  {
    var k := FirstIndex(c, name).value;
    assert !(k < i);
  }

  // Properties of insertion

  /** Insertion keeps names unique. */
  lemma AddPreservesUnique(c: Cache, s: Service)
    requires Unique(c)
    ensures Unique(Add(c, s))
  {
    if !Contains(c, GetName(s)) {
      var r := c + [s];
      forall i, j | 0 <= i < j < |r|
        ensures !EqualsIgnoreCase(GetName(r[i]), GetName(r[j]))
      {
        if j == |c| {
          assert !Matches(c[i], GetName(s));
        }
      }
    }
  }

  /** Entries already cached keep their position and value: the cache only grows. */
  lemma AddExtends(c: Cache, s: Service)
    ensures |c| <= |Add(c, s)| <= |c| + 1
    ensures Add(c, s)[..|c|] == c
    ensures Contains(Add(c, s), GetName(s))
  {
    assert Matches(s, GetName(s));
    if !Contains(c, GetName(s)) {
      assert Add(c, s)[|c|] == s;
    }
  }

  /** First writer wins: a second insert of a same-named service changes nothing. */
  lemma AddFirstWriterWins(c: Cache, s: Service, t: Service)
    requires EqualsIgnoreCase(GetName(s), GetName(t))
    ensures Add(Add(c, s), t) == Add(c, s)
    ensures Get(Add(Add(c, s), t), GetName(t)) == Get(Add(c, s), GetName(s))
  {
    AddExtends(c, s);
    var c1 := Add(c, s);
    GetRespectsCase(c1, GetName(s), GetName(t));
  }

  /** Insertion is idempotent in the resulting state. */
  lemma AddIdempotent(c: Cache, s: Service)
    ensures Add(Add(c, s), s) == Add(c, s)
  {
    AddFirstWriterWins(c, s, s);
  }

  /** After an insert, looking up the service's name finds the earlier entry, or `s` itself. */
  lemma GetAfterAdd(c: Cache, s: Service, name: string)
    requires EqualsIgnoreCase(GetName(s), name)
    ensures Contains(c, name) ==> Get(Add(c, s), name) == Get(c, name)
    ensures !Contains(c, name) ==> Get(Add(c, s), name) == Some(s)
  {
    GetRespectsCase(c, GetName(s), name);
    if !Contains(c, name) {
      assert !Contains(c, GetName(s));
      FirstIndexAfterMiss(c, s, name);
    }
  }

  /** A name absent from the cache is found at the end once a matching service is appended. */
  lemma FirstIndexAfterMiss(c: Cache, s: Service, name: string)
    requires !Contains(c, name) && Matches(s, name)
    ensures FirstIndex(c + [s], name) == Some(|c|)
  {
    assert (c + [s])[|c|] == s;
    assert forall j :: 0 <= j < |c| ==> (c + [s])[j] == c[j];
  }

  /** Lookups that hit before an insert still hit the same entry after it. */
  lemma GetStableUnderAdd(c: Cache, s: Service, name: string)
    requires Contains(c, name)
    ensures Get(Add(c, s), name) == Get(c, name)
  {
    if !Contains(c, GetName(s)) {
      FirstIndexAppend(c, [s], name);
      assert (c + [s])[..|c|] == c;
    }
  }
}
