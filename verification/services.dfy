/** The two concrete services and the name each one reports. */
module Services {
  import opened CaseFold

  datatype Variant = Service1 | Service2

  /**
   * A service object.  `id` stands for the object's identity: two objects
   * built by separate `new` expressions differ in `id` even when they are of
   * the same class.
   */
  datatype Service = Service(variant: Variant, id: nat)

  /** The constant each class returns from `getName`. */
  function Name(v: Variant): string
  {
    match v
    case Service1 => "Service1"
    case Service2 => "Service2"
  }

  /** `Service.getName`, dispatched on the object's class: the name identifies that class. */
  function GetName(s: Service): (r: string)
    ensures forall v: Variant :: EqualsIgnoreCase(r, Name(v)) <==> s.variant == v
  {
    NameDeterminesVariant(s.variant, Service1);
    NameDeterminesVariant(s.variant, Service2);
    Name(s.variant)
  }

  /** The two names differ even ignoring case, so a name identifies its class. */
  lemma NameDeterminesVariant(v: Variant, w: Variant)
    ensures EqualsIgnoreCase(Name(v), Name(w)) <==> v == w
  {
    if v != w {
      DifferAt(Name(v), Name(w), 7);
    }
  }
}
