// The component-properties registry: a map from a component's name to the
// properties registered for it (struct, size, alignment and an optional
// registration function), with a delegate told of every registration.

module ComponentProperties {
  import opened Wrappers

  /** `uint32` and `uint16`, the widths of the stored size and alignment. */
  newtype u32 = x: int | 0 <= x < 0x1_0000_0000
  newtype u16 = x: int | 0 <= x < 0x1_0000

  /** A registration function: empty, or some callable, identified by a number. */
  datatype RegistrationFunction = EmptyFunction | Callable(id: nat)

  /** `FFlecsComponentProperties`; `scriptStruct` is `None` for a non-reflected type. */
  datatype Properties = Properties(
    name: string,
    scriptStruct: Option<nat>,
    size: u32,
    alignment: u16,
    registrationFunction: RegistrationFunction)

  /**
   * The entry `RegisterComponentProperties` stores: the given fields, and the
   * registration function a non-null argument names, or the empty function otherwise.
   */
  function MakeProperties(name: string, scriptStruct: Option<nat>, size: u32, alignment: u16,
                          registrationFunction: Option<RegistrationFunction>): (r: Properties)
    ensures r.name == name && r.scriptStruct == scriptStruct && r.size == size && r.alignment == alignment
    ensures registrationFunction.None? ==> r.registrationFunction == EmptyFunction
    ensures registrationFunction.Some? ==> r.registrationFunction == registrationFunction.value
  {
    Properties(name, scriptStruct, size, alignment, registrationFunction.GetOr(EmptyFunction))
  }

  /** The registry's map after registering `name`. */
  function Registered(m: map<string, Properties>, name: string, scriptStruct: Option<nat>, size: u32, alignment: u16,
                      registrationFunction: Option<RegistrationFunction>): map<string, Properties>
  {
    m[name := MakeProperties(name, scriptStruct, size, alignment, registrationFunction)]
  }

  /** `FFlecsComponentPropertiesRegistry`. */
  class Registry {
    var componentProperties: map<string, Properties>
    /** Whether a handler is bound to `OnComponentPropertiesRegistered`. */
    var delegateBound: bool
    /** What the bound handler has been given, oldest first. */
    var notified: seq<Properties>

    constructor(delegateBound: bool)
      ensures componentProperties == map[] && this.delegateBound == delegateBound && notified == []
    {
      componentProperties := map[];
      this.delegateBound := delegateBound;
      notified := [];
    }

    /**
     * `RegisterComponentProperties`: the entry under `name` is (over)written,
     * other names keep theirs, and a bound delegate is told of the new entry.
     */
    method RegisterComponentProperties(name: string, scriptStruct: Option<nat>, size: u32, alignment: u16,
                                       registrationFunction: Option<RegistrationFunction>)
      modifies this
      ensures componentProperties == Registered(old(componentProperties), name, scriptStruct, size, alignment, registrationFunction)
      ensures ContainsComponentProperties(name)
      ensures forall n :: n != name ==> (ContainsComponentProperties(n) <==> old(ContainsComponentProperties(n)))
      ensures delegateBound == old(delegateBound)
      ensures notified == old(notified) + (if delegateBound then [componentProperties[name]] else [])
    {
      componentProperties := componentProperties[name := MakeProperties(name, scriptStruct, size, alignment, registrationFunction)];
      if delegateBound {
        notified := notified + [componentProperties[name]];
      }
    }

    /** `ContainsComponentProperties`. */
    predicate ContainsComponentProperties(name: string)
      reads this
    {
      name in componentProperties
    }

    /** `GetComponentProperties`: the name must be non-empty and registered. */
    function GetComponentProperties(name: string): (r: Properties)
      reads this
      requires name != "" && ContainsComponentProperties(name)
      ensures r in componentProperties.Values
    {
      componentProperties[name]
    }
  }

  /**
   * After a registration the name is present and its entry carries the given
   * fields; every other name is present exactly as before, with its entry.
   */
  lemma RegisteredIsFound(m: map<string, Properties>, name: string, scriptStruct: Option<nat>, size: u32, alignment: u16,
                          registrationFunction: Option<RegistrationFunction>, other: string)
    requires other != name
    ensures var r := Registered(m, name, scriptStruct, size, alignment, registrationFunction);
      name in r && r[name].name == name && r[name].size == size && r[name].alignment == alignment
      && r[name].scriptStruct == scriptStruct
      && (other in r <==> other in m) && (other in m ==> r[other] == m[other])
  {
  }

  /** Registering a name twice keeps only the second registration. */
  lemma LastRegistrationWins(m: map<string, Properties>, name: string, s1: Option<nat>, z1: u32, a1: u16,
                             f1: Option<RegistrationFunction>, s2: Option<nat>, z2: u32, a2: u16,
                             f2: Option<RegistrationFunction>)
    ensures Registered(Registered(m, name, s1, z1, a1, f1), name, s2, z2, a2, f2) == Registered(m, name, s2, z2, a2, f2)
  {
  }
}
