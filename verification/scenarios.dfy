/**
 * The run documented at lines 122-142 of `ServiceLocatorTest.java`, plus runs
 * with case variants of one name and with an unknown name, from a fresh locator.
 */
module Scenarios {
  import opened Wrappers
  import opened CaseFold
  import opened Services
  import Directory
  import opened ServiceCache
  import opened Locator

  /**
   * Two known names requested alternately (a, b, a, b): the directory builds
   * one object per name, and the third and fourth calls return the objects
   * the first two built.
   */
  lemma AlternatingRun(a: string, b: string)
    requires Directory.Known(a) && Directory.Known(b) && !EqualsIgnoreCase(a, b)
    ensures var s1, s2 := Directory.Lookup(a, 0).value, Directory.Lookup(b, 1).value;
            Run(Init(), [a, b, a, b]) ==
            Trace([Some(s1), Some(s2), Some(s1), Some(s2)], State([s1, s2], 2, 2))
  {
    var s1, s2 := Directory.Lookup(a, 0).value, Directory.Lookup(b, 1).value;
    var tail := Trace([Some(s2), Some(s1), Some(s2)], State([s1, s2], 2, 2));
    assert Run(Init(), [a] + [b, a, b]) == Trace([Some(s1)] + tail.results, tail.after) by {
      AlternatingMisses(a, b);
      AlternatingFromSecondCall(a, b);
      RunStep(Init(), a, [b, a, b], Resolution(Some(s1), State([s1], 1, 1)), tail);
    }
    assert [a, b, a, b] == [a] + [b, a, b];
  }

  /** Calls two to four of the alternating run, after the first call cached its object. */
  lemma AlternatingFromSecondCall(a: string, b: string)
    requires Directory.Known(a) && Directory.Known(b) && !EqualsIgnoreCase(a, b)
    ensures var s1, s2 := Directory.Lookup(a, 0).value, Directory.Lookup(b, 1).value;
            Run(State([s1], 1, 1), [b, a, b]) ==
            Trace([Some(s2), Some(s1), Some(s2)], State([s1, s2], 2, 2))
  {
    var s1, s2 := Directory.Lookup(a, 0).value, Directory.Lookup(b, 1).value;
    var l1, l2 := State([s1], 1, 1), State([s1, s2], 2, 2);
    assert Run(l2, [a, b]) == Trace([Some(s1), Some(s2)], l2) by {
      AlternatingHits(a, b);
      RunStep(l2, b, [], Resolution(Some(s2), l2), Trace([], l2));
      RunStep(l2, a, [b], Resolution(Some(s1), l2), Trace([Some(s2)], l2));
    }
    AlternatingMisses(a, b);
    RunStep(l1, b, [a, b], Resolution(Some(s2), l2), Trace([Some(s1), Some(s2)], l2));
  }

  /** The first two calls of the alternating run miss, and each builds an object. */
  lemma AlternatingMisses(a: string, b: string)
    requires Directory.Known(a) && Directory.Known(b) && !EqualsIgnoreCase(a, b)
    ensures var s1, s2 := Directory.Lookup(a, 0).value, Directory.Lookup(b, 1).value;
            && Resolve(Init(), a) == Resolution(Some(s1), State([s1], 1, 1))
            && Resolve(State([s1], 1, 1), b) == Resolution(Some(s2), State([s1, s2], 2, 2))
  {
    var s1 := Directory.Lookup(a, 0).value;
    assert Resolve(Init(), a) == Resolution(Some(s1), State([s1], 1, 1)) by {
      ResolveSpec(Init(), a);
    }
    assert !Contains([s1], b) by {
      assert Matches(s1, a);
    }
    ResolveSpec(State([s1], 1, 1), b);
  }

  /** The last two calls of the alternating run hit the objects the first two cached. */
  lemma AlternatingHits(a: string, b: string)
    requires Directory.Known(a) && Directory.Known(b) && !EqualsIgnoreCase(a, b)
    ensures var s1, s2 := Directory.Lookup(a, 0).value, Directory.Lookup(b, 1).value;
            var l2 := State([s1, s2], 2, 2);
            && Resolve(l2, a) == Resolution(Some(s1), l2)
            && Resolve(l2, b) == Resolution(Some(s2), l2)
  {
    var s1, s2 := Directory.Lookup(a, 0).value, Directory.Lookup(b, 1).value;
    // s1's name equals a ignoring case, and a does not equal b
    assert Matches(s1, a) && !Matches(s1, b);
    assert FirstIndex([s1, s2], a) == Some(0);
    assert FirstIndex([s1, s2], b) == Some(1) by {
      assert [s1, s2][1..] == [s2];
    }
  }

  /**
   * The documented run Service1, Service2, Service1, Service2: the 1st and
   * 3rd calls share one object, the 2nd and 4th another, and the directory
   * is consulted twice.
   */
  lemma DocumentedRun()
    ensures Run(Init(), ["Service1", "Service2", "Service1", "Service2"]) ==
            Trace([Some(Service(Service1, 0)), Some(Service(Service2, 1)),
                   Some(Service(Service1, 0)), Some(Service(Service2, 1))],
                  State([Service(Service1, 0), Service(Service2, 1)], 2, 2))
  {
    assert EqualsIgnoreCase(Name(Service1), "Service1");
    assert EqualsIgnoreCase(Name(Service2), "Service2");
    DifferAt("Service1", "Service2", 7);
    AlternatingRun("Service1", "Service2");
  }

  /** Three names equal ignoring case: one directory call, and every call returns its object. */
  lemma CaseVariantsRun(a: string, b: string, c: string)
    requires Directory.Known(a) && EqualsIgnoreCase(a, b) && EqualsIgnoreCase(a, c)
    ensures var s := Directory.Lookup(a, 0).value;
            Run(Init(), [a, b, c]) == Trace([Some(s), Some(s), Some(s)], State([s], 1, 1))
  {
    var s := Directory.Lookup(a, 0).value;
    var l1 := State([s], 1, 1);
    assert Run(l1, [b] + [c]) == Trace([Some(s), Some(s)], l1) by {
      VariantHits(a, b);
      VariantHits(a, c);
      RunStep(l1, c, [], Resolution(Some(s), l1), Trace([], l1));
      RunStep(l1, b, [c], Resolution(Some(s), l1), Trace([Some(s)], l1));
    }
    assert Run(Init(), [a] + [b, c]) == Trace([Some(s), Some(s), Some(s)], l1) by {
      assert [b] + [c] == [b, c];
      assert Resolve(Init(), a) == Resolution(Some(s), l1);
      RunStep(Init(), a, [b, c], Resolution(Some(s), l1), Trace([Some(s), Some(s)], l1));
    }
    assert [a, b, c] == [a] + [b, c];
  }

  /** After `a` has been cached, any case variant of `a` hits that entry. */
  lemma VariantHits(a: string, x: string)
    requires Directory.Known(a) && EqualsIgnoreCase(a, x)
    ensures var s := Directory.Lookup(a, 0).value;
            Resolve(State([s], 1, 1), x) == Resolution(Some(s), State([s], 1, 1))
  {
    var s := Directory.Lookup(a, 0).value;
    assert FirstIndex([s], x) == Some(0);
  }

  /** "service1", "SERVICE1" and "Service1" all return the one object the first call cached. */
  lemma Service1CaseVariants()
    ensures Run(Init(), ["service1", "SERVICE1", "Service1"]) ==
            Trace([Some(Service(Service1, 0)), Some(Service(Service1, 0)), Some(Service(Service1, 0))],
                  State([Service(Service1, 0)], 1, 1))
  {
    assert EqualsIgnoreCase(Name(Service1), "service1");
    assert EqualsIgnoreCase("service1", "SERVICE1");
    assert EqualsIgnoreCase("service1", "Service1");
    CaseVariantsRun("service1", "SERVICE1", "Service1");
  }

  /** A name the directory does not know is never cached and costs a lookup every time. */
  lemma UnknownNameRun()
    ensures Run(Init(), ["ServiceX", "ServiceX"]) == Trace([None, None], State([], 0, 2))
  {
    DifferAt(Name(Service1), "ServiceX", 7);
    DifferAt(Name(Service2), "ServiceX", 7);
    assert !Directory.Known("ServiceX");
    var l1 := State([], 0, 1);
    UnknownNeverCached(Init(), "ServiceX");
    RunStep(l1, "ServiceX", [], Resolution(None, State([], 0, 2)), Trace([], State([], 0, 2)));
    RunStep(Init(), "ServiceX", ["ServiceX"], Resolution(None, l1), Trace([None], State([], 0, 2)));
    assert ["ServiceX", "ServiceX"] == ["ServiceX"] + ["ServiceX"];
  }

  /** One call of a run whose outcome and remainder are already known. */
  lemma RunStep(l: State, name: string, rest: seq<string>, r: Resolution, t: Trace)
    requires Resolve(l, name) == r && Run(r.after, rest) == t
    ensures Run(l, [name] + rest) == Trace([r.service] + t.results, t.after)
  {
    assert ([name] + rest)[1..] == rest;
  }
}
