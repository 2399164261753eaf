/** The simulated naming directory (`InitialContext.lookup`). */
module Directory {
  import opened Wrappers
  import opened CaseFold
  import opened Services

  /** A name the directory knows: one that equals some service's name ignoring case. */
  predicate Known(name: string)
  {
    exists v: Variant :: EqualsIgnoreCase(Name(v), name)
  }

  /**
   * Looks `name` up, building a new object with identity `newId` on success.
   * The queries are compared against "SERVICE1" and then "SERVICE2".
   */
  function Lookup(name: string, newId: nat): (r: Option<Service>)
    ensures forall v: Variant :: r == Some(Service(v, newId)) <==> EqualsIgnoreCase(Name(v), name)
    ensures r.None? <==> !Known(name)
    ensures r.Some? ==> r.value.id == newId && EqualsIgnoreCase(GetName(r.value), name)
  {
    LookupAgreesWithNames(name);
    if EqualsIgnoreCase(name, "SERVICE1") then Some(Service(Service1, newId))
    else if EqualsIgnoreCase(name, "SERVICE2") then Some(Service(Service2, newId))
    else None
  }

  /** Matching a key ignoring case is the same as matching the class's own name. */
  lemma LookupAgreesWithNames(name: string)
    ensures EqualsIgnoreCase(name, "SERVICE1") <==> EqualsIgnoreCase(Name(Service1), name)
    ensures EqualsIgnoreCase(name, "SERVICE2") <==> EqualsIgnoreCase(Name(Service2), name)
    ensures !(EqualsIgnoreCase(Name(Service1), name) && EqualsIgnoreCase(Name(Service2), name))
  {
    if EqualsIgnoreCase(Name(Service1), name) && EqualsIgnoreCase(Name(Service2), name) {
      NameDeterminesVariant(Service1, Service2);
    }
    assert EqualsIgnoreCase(Name(Service1), "SERVICE1");
    assert EqualsIgnoreCase(Name(Service2), "SERVICE2");
  }
}
