// The registration decisions of `UFlecsWorld`: how a script struct or enum
// becomes a Flecs component (register once, then hand back the same
// entity), which structs are tags, which lifecycle hooks a struct gets,
// which enum constants are kept and at what width, which member each
// reflected property becomes, which classes get a registration object, and
// whether a module class is imported. Unreal's reflection data is given as
// values; the Flecs world is the set of live ids, the two type maps and the
// component records registration writes.
//
// `PreallocateEntities` as written returns early exactly when the count is
// valid, so a positive count never preallocates and a non-positive one is
// passed on to the world. `DimAsWritten` models the code, `Dim` the guard as
// evidently intended.

module FlecsWorlds {
  import opened Wrappers
  import opened CollectionCalls

  /** The struct operations Unreal reports for a script struct. */
  datatype StructOps = StructOps(
    hasNoopConstructor: bool,
    hasZeroConstructor: bool,
    hasDestructor: bool,
    hasIdentical: bool,
    isPlainOldData: bool)

  /** The reflected property classes the member dispatch tests for, in its order; any other class is `OtherProp`. */
  datatype PropertyKind =
    | BoolProp | ByteProp | Int16Prop | UInt16Prop | IntProp | UInt32Prop | Int64Prop | UInt64Prop
    | FloatProp | DoubleProp | StrProp | NameProp | TextProp
    | ObjectProp | WeakObjectProp | SoftObjectProp | ClassProp
    | StructProp(structName: string)
    | OtherProp

  /** A reflected property: its name, class and byte offset. */
  datatype Property = Property(name: string, kind: PropertyKind, offset: int)

  /** A script struct: its C++ name, size, minimum alignment, properties (its own and inherited) and struct operations. */
  datatype ScriptStruct = ScriptStruct(
    name: string, size: nat, minAlignment: nat, properties: seq<Property>, ops: StructOps)

  /** One `(name, value)` entry of a script enum, in index order. */
  datatype EnumEntry = EnumEntry(name: string, value: int)

  /** A script enum: its name, whether it is a bitflags enum, its entries and its greatest value. */
  datatype ScriptEnum = ScriptEnum(name: string, isFlags: bool, entries: seq<EnumEntry>, maxValue: int)

  /** The member types `AddMember` is called with; a struct member names the struct's component. */
  datatype MemberType =
    | BoolMember | U8Member | I16Member | U16Member | I32Member | U32Member | I64Member | U64Member
    | F32Member | F64Member | StringMember | NameMember | TextMember
    | ObjectPtrMember | WeakObjectPtrMember | SoftObjectPtrMember | SubclassMember
    | StructMember(component: EntityId)

  /** A member registered on a component: name, type, element count and offset. */
  datatype Member = Member(name: string, memberType: MemberType, count: nat, offset: int)

  /** A component's size and alignment. */
  datatype Layout = Layout(size: nat, alignment: nat)

  /** Which lifecycle hooks are installed (`true`) or left null (`false`). */
  datatype Hooks = Hooks(ctor: bool, dtor: bool, copy: bool, move: bool, equals: bool)

  /** The width enum constants are added with. */
  datatype ConstantWidth = U8 | U64

  /** An enum constant registered on the enum's component. */
  datatype EnumConstant = EnumConstant(name: string, value: int, width: ConstantWidth)

  /** What registration writes on a component entity. */
  datatype ComponentRecord =
    | StructComponent(structName: string, layout: Option<Layout>, hooks: Option<Hooks>, members: seq<Member>)
    | EnumComponent(enumName: string, enumLayout: Layout, constants: seq<EnumConstant>)

  /** An entry of Flecs's global per-type-name data: component index, size, alignment, tag permission. */
  datatype ImplData = ImplData(index: nat, size: nat, alignment: nat, allowTag: bool)

  /** A struct is a tag when it is at most one byte and has no properties. */
  predicate IsTag(s: ScriptStruct)
  {
    s.size <= 1 && s.properties == []
  }

  /** The layout a struct component gets: zero size and alignment for a tag, the struct's own otherwise. */
  function StructLayout(s: ScriptStruct): (l: Layout)
    ensures IsTag(s) ==> l == Layout(0, 0)
    ensures !IsTag(s) ==> l == Layout(s.size, s.minAlignment)
  {
    if IsTag(s) then Layout(0, 0) else Layout(s.size, s.minAlignment)
  }

  /**
   * The hooks a component struct gets; tags and non-component registrations
   * get none.
   */
  function StructHooks(s: ScriptStruct, asComponent: bool): (h: Option<Hooks>)
    ensures h.Some? <==> asComponent && !IsTag(s)
  {
    if asComponent && !IsTag(s) then
      Some(Hooks(
        ctor := !s.ops.hasZeroConstructor,
        dtor := s.ops.hasDestructor,
        copy := !s.ops.isPlainOldData,
        move := !s.ops.isPlainOldData,
        equals := s.ops.hasIdentical))
    else None
  }

  /**
   * The hook rules: the constructor is left null exactly for zero-constructible
   * structs, the destructor is installed exactly with one, equality exactly
   * with an identical-comparison, and copy and move come together, missing
   * exactly for plain old data.
   */
  lemma HookRules(s: ScriptStruct)
    requires !IsTag(s)
    ensures var h := StructHooks(s, true).value;
      && (!h.ctor <==> s.ops.hasZeroConstructor)
      && (h.dtor <==> s.ops.hasDestructor)
      && (h.equals <==> s.ops.hasIdentical)
      && h.copy == h.move
      && (h.copy <==> !s.ops.isPlainOldData)
  {
  }

  /**
   * The member a property becomes, given the components of registered
   * structs; `None` for a struct property whose struct is not registered
   * and for unsupported classes. Unreal's `FClassProperty` derives from
   * `FObjectProperty`, so the object test, which comes first, takes class
   * properties too.
   */
  function PropertyMember(p: Property, registered: map<string, EntityId>): (r: Option<Member>)
    ensures r.Some? ==> r.value.name == p.name && r.value.offset == p.offset
    ensures r.Some? && r.value.memberType.StructMember? <==> p.kind.StructProp? && p.kind.structName in registered
    ensures r.Some? ==> (r.value.count == 1 <==> r.value.memberType.StructMember?)
    ensures r.None? <==> p.kind.OtherProp? || (p.kind.StructProp? && p.kind.structName !in registered)
  {
    match p.kind
    case BoolProp => Some(Member(p.name, BoolMember, 0, p.offset))
    case ByteProp => Some(Member(p.name, U8Member, 0, p.offset))
    case Int16Prop => Some(Member(p.name, I16Member, 0, p.offset))
    case UInt16Prop => Some(Member(p.name, U16Member, 0, p.offset))
    case IntProp => Some(Member(p.name, I32Member, 0, p.offset))
    case UInt32Prop => Some(Member(p.name, U32Member, 0, p.offset))
    case Int64Prop => Some(Member(p.name, I64Member, 0, p.offset))
    case UInt64Prop => Some(Member(p.name, U64Member, 0, p.offset))
    case FloatProp => Some(Member(p.name, F32Member, 0, p.offset))
    case DoubleProp => Some(Member(p.name, F64Member, 0, p.offset))
    case StrProp => Some(Member(p.name, StringMember, 0, p.offset))
    case NameProp => Some(Member(p.name, NameMember, 0, p.offset))
    case TextProp => Some(Member(p.name, TextMember, 0, p.offset))
    case ObjectProp => Some(Member(p.name, ObjectPtrMember, 0, p.offset))
    case ClassProp => Some(Member(p.name, ObjectPtrMember, 0, p.offset))
    case WeakObjectProp => Some(Member(p.name, WeakObjectPtrMember, 0, p.offset))
    case SoftObjectProp => Some(Member(p.name, SoftObjectPtrMember, 0, p.offset))
    case StructProp(sn) =>
      if sn in registered then Some(Member(p.name, StructMember(registered[sn]), 1, p.offset)) else None
    case OtherProp => None
  }

  /** The members of a property list, in property order, skipping the properties that make none. */
  function MembersOf(props: seq<Property>, registered: map<string, EntityId>): seq<Member>
  {
    if props == [] then []
    else
      var m := PropertyMember(props[|props| - 1], registered);
      MembersOf(props[..|props| - 1], registered) + (if m.Some? then [m.value] else [])
  }

  /**
   * At most one member per property; every member comes from a property of
   * the same name and offset; when every property is supported and every
   * struct it names is registered, there is exactly one per property.
   */
  lemma {:induction false} MembersFromProperties(props: seq<Property>, registered: map<string, EntityId>)
    ensures |MembersOf(props, registered)| <= |props|
    ensures forall m :: m in MembersOf(props, registered) ==>
      exists p :: p in props && PropertyMember(p, registered) == Some(m)
    ensures (forall p :: p in props ==> PropertyMember(p, registered).Some?) ==> |MembersOf(props, registered)| == |props|
  {
    if props != [] {
      var init := props[..|props| - 1];
      MembersFromProperties(init, registered);
      forall m | m in MembersOf(props, registered)
        ensures exists p :: p in props && PropertyMember(p, registered) == Some(m)
      {
        if m in MembersOf(init, registered) {
          var p :| p in init && PropertyMember(p, registered) == Some(m);
          assert p in props;
        } else {
          assert PropertyMember(props[|props| - 1], registered) == Some(m);
        }
      }
      if forall p :: p in props ==> PropertyMember(p, registered).Some? {
        assert forall p :: p in init ==> p in props;
      }
    }
  }

  /** The constant width: bytes when the greatest value is below 255, 64 bits otherwise. */
  function WidthFor(maxValue: int): (w: ConstantWidth)
    ensures w == U8 <==> maxValue < 255
  {
    if maxValue < 255 then U8 else U64
  }

  /** `static_cast<uint8>` and `static_cast<uint64>` of a non-negative value. */
  function CastTo(width: ConstantWidth, v: nat): (r: nat)
    ensures width == U8 ==> r < 256
    ensures width == U8 && v < 256 ==> r == v
  {
    match width
    case U8 => v % 256
    case U64 => v % 0x1_0000_0000_0000_0000
  }

  /** The constants the enum loop adds, in index order: every entry but those equal to the greatest value. */
  function EnumConstantsOf(entries: seq<EnumEntry>, maxValue: int): seq<EnumConstant>
    requires forall k :: 0 <= k < |entries| ==> entries[k].value >= 0
  {
    if entries == [] then []
    else
      var e := entries[|entries| - 1];
      var w := WidthFor(maxValue);
      EnumConstantsOf(entries[..|entries| - 1], maxValue)
        + (if e.value == maxValue then [] else [EnumConstant(e.name, CastTo(w, e.value), w)])
  }

  /**
   * The constants are exactly the entries whose value is not the greatest,
   * in order, all of one width; and when every value is at most the
   * greatest and that is below 255, each keeps its value through the byte
   * cast.
   */
  lemma {:induction false} EnumConstantsSkipMax(entries: seq<EnumEntry>, maxValue: int)
    requires forall k :: 0 <= k < |entries| ==> entries[k].value >= 0
    ensures forall c :: c in EnumConstantsOf(entries, maxValue) ==> c.width == WidthFor(maxValue)
    ensures forall c :: c in EnumConstantsOf(entries, maxValue) ==>
      exists e :: e in entries && e.name == c.name && e.value != maxValue && c.value == CastTo(WidthFor(maxValue), e.value)
    ensures (forall k :: 0 <= k < |entries| ==> entries[k].value != maxValue) ==> |EnumConstantsOf(entries, maxValue)| == |entries|
    ensures maxValue < 255 && (forall k :: 0 <= k < |entries| ==> entries[k].value <= maxValue) ==>
      forall c :: c in EnumConstantsOf(entries, maxValue) ==> c.value < 255
  {
    if entries != [] {
      var init := entries[..|entries| - 1];
      EnumConstantsSkipMax(init, maxValue);
      forall c | c in EnumConstantsOf(entries, maxValue)
        ensures exists e :: e in entries && e.name == c.name && e.value != maxValue && c.value == CastTo(WidthFor(maxValue), e.value)
      {
        if c in EnumConstantsOf(init, maxValue) {
          var e :| e in init && e.name == c.name && e.value != maxValue && c.value == CastTo(WidthFor(maxValue), e.value);
          assert e in entries;
        } else {
          assert entries[|entries| - 1] in entries;
        }
      }
      if maxValue < 255 && (forall k :: 0 <= k < |entries| ==> entries[k].value <= maxValue) {
        forall c | c in EnumConstantsOf(entries, maxValue)
          ensures c.value < 255
        {
          var e :| e in entries && e.name == c.name && e.value != maxValue && c.value == CastTo(WidthFor(maxValue), e.value);
          var k :| 0 <= k < |entries| && entries[k] == e;
        }
      }
    }
  }

  /** A class seen by the registration-object pass. */
  datatype ClassInfo = ClassInfo(
    name: string, implementsRegistration: bool, isAbstract: bool, isDeprecated: bool, newerVersionExists: bool)

  /** A class that implements the registration interface and is neither abstract, deprecated nor superseded. */
  predicate Eligible(c: ClassInfo)
  {
    c.implementsRegistration && !c.isAbstract && !c.isDeprecated && !c.newerVersionExists
  }

  /** The classes that get a registration object, in iteration order, given the class names already registered. */
  function Registrations(classes: seq<ClassInfo>, known: set<string>): seq<string>
    decreases |classes|
  {
    if classes == [] then []
    else if Eligible(classes[0]) && classes[0].name !in known then
      [classes[0].name] + Registrations(classes[1..], known + {classes[0].name})
    else Registrations(classes[1..], known)
  }

  /** The registered class names after the pass. */
  function KnownAfter(classes: seq<ClassInfo>, known: set<string>): set<string>
    decreases |classes|
  {
    if classes == [] then known
    else if Eligible(classes[0]) && classes[0].name !in known then KnownAfter(classes[1..], known + {classes[0].name})
    else KnownAfter(classes[1..], known)
  }

  /**
   * Each registered class is eligible, was not registered before and is
   * registered once; afterwards every eligible class is registered, and the
   * registered names are the earlier ones plus the new registrations.
   */
  lemma {:induction false} RegistrationsSound(classes: seq<ClassInfo>, known: set<string>)
    ensures forall x :: x in Registrations(classes, known) ==> x !in known
    ensures forall x :: x in Registrations(classes, known) ==> exists c :: c in classes && c.name == x && Eligible(c)
    ensures forall i, j :: 0 <= i < j < |Registrations(classes, known)| ==> Registrations(classes, known)[i] != Registrations(classes, known)[j]
    ensures forall c :: c in classes && Eligible(c) ==> c.name in KnownAfter(classes, known)
    ensures KnownAfter(classes, known) == known + set x | x in Registrations(classes, known)
    decreases |classes|
  {
    if classes != [] {
      var c := classes[0];
      var rest := classes[1..];
      if Eligible(c) && c.name !in known {
        var k2 := known + {c.name};
        RegistrationsSound(rest, k2);
        var r := Registrations(classes, known);
        assert r == [c.name] + Registrations(rest, k2);
        forall x | x in r
          ensures exists d :: d in classes && d.name == x && Eligible(d)
        {
          if x != c.name {
            var d :| d in rest && d.name == x && Eligible(d);
            assert d in classes;
          }
        }
        forall i, j | 0 <= i < j < |r|
          ensures r[i] != r[j]
        {
          if i == 0 {
            assert r[j] in Registrations(rest, k2);
          } else {
            assert r[i] == Registrations(rest, k2)[i - 1];
          }
        }
        forall d | d in classes && Eligible(d)
          ensures d.name in KnownAfter(classes, known)
        {
          if d != c {
            assert d in rest;
          }
          KnownGrows(rest, k2);
        }
      } else {
        RegistrationsSound(rest, known);
        forall d | d in classes && Eligible(d)
          ensures d.name in KnownAfter(classes, known)
        {
          if d == c {
            KnownGrows(rest, known);
          } else {
            assert d in rest;
          }
        }
      }
    }
  }

  /** The pass only adds names. */
  lemma {:induction false} KnownGrows(classes: seq<ClassInfo>, known: set<string>)
    ensures known <= KnownAfter(classes, known)
    decreases |classes|
  {
    if classes != [] {
      if Eligible(classes[0]) && classes[0].name !in known {
        KnownGrows(classes[1..], known + {classes[0].name});
      } else {
        KnownGrows(classes[1..], known);
      }
    }
  }

  /** Some imported module's class is the target or, when children are allowed, a child class of it. */
  predicate ModuleImported(modules: seq<string>, target: string, allowChildren: bool, isChildOf: (string, string) -> bool)
  {
    exists i :: 0 <= i < |modules| && (modules[i] == target || (allowChildren && isChildOf(modules[i], target)))
  }

  /** Allowing children only widens the test, and an exact match is found either way. */
  lemma ModuleImportedMonotone(modules: seq<string>, target: string, isChildOf: (string, string) -> bool)
    ensures ModuleImported(modules, target, false, isChildOf) ==> ModuleImported(modules, target, true, isChildOf)
    ensures ModuleImported(modules, target, false, isChildOf) <==> target in modules
  {
    if target in modules {
      var i :| 0 <= i < |modules| && modules[i] == target;
    }
  }

  /** The count `PreallocateEntities` as written passes to `dim`: it returns early on every positive count. */
  function DimAsWritten(count: int): (r: Option<int>)
  {
    if count > 0 then None else Some(count)
  }

  /** `PreallocateEntities` with the guard as intended: only a positive count is passed to `dim`. */
  function Dim(count: int): (r: Option<int>)
    ensures r.Some? <==> count > 0
    ensures r.Some? ==> r.value == count
  {
    if count > 0 then Some(count) else None
  }

  /**
   * As written, `dim` runs exactly for the counts the guard reports as
   * invalid, always with that count: preallocating 100 entities does
   * nothing, preallocating 0 passes 0 on.
   */
  lemma PreallocateInvertedAsWritten(count: int)
    ensures DimAsWritten(count).Some? <==> count <= 0
    ensures DimAsWritten(count).Some? <==> Dim(count).None?
    ensures DimAsWritten(100).None? && Dim(100) == Some(100)
    ensures DimAsWritten(0) == Some(0) && Dim(0).None?
  {
  }

  /** The part of `UFlecsWorld` that registration reads and writes. */
  class FlecsWorld {
    var structMap: map<string, EntityId>
    var enumMap: map<string, EntityId>
    var alive: set<EntityId>
    var nextId: EntityId
    var components: map<EntityId, ComponentRecord>
    var implData: map<string, ImplData>
    var nextImplIndex: nat
    var importedModules: seq<string>
    var registeredObjectTypes: set<string>
    var registeredObjects: seq<string>

    /**
     * Ids are handed out in creation order: every live id is below the next
     * one, and 0 is never used; every mapped struct or enum has a component
     * record.
     */
    predicate Valid()
      reads this
    {
      && nextId > 0
      && (forall e :: e in alive ==> 0 < e < nextId)
      && (forall n :: n in structMap ==> structMap[n] in components)
      && (forall n :: n in enumMap ==> enumMap[n] in components)
    }

    constructor()
      ensures Valid() && structMap == map[] && enumMap == map[] && alive == {}
      ensures registeredObjects == [] && registeredObjectTypes == {} && importedModules == []
    {
      structMap := map[];
      enumMap := map[];
      alive := {};
      nextId := 1;
      components := map[];
      implData := map[];
      nextImplIndex := 0;
      importedModules := [];
      registeredObjectTypes := {};
      registeredObjects := [];
    }

    /** `HasScriptStruct`: mapped, and the mapped id is a live entity. */
    predicate HasScriptStruct(name: string)
      reads this
    {
      name in structMap && structMap[name] in alive
    }

    /** `HasScriptEnum`: mapped, and the mapped id is a live entity. */
    predicate HasScriptEnum(name: string)
      reads this
    {
      name in enumMap && enumMap[name] in alive
    }

    /** `RegisterMemberProperties`: one member per supported property, in order. */
    method RegisterMemberProperties(props: seq<Property>) returns (members: seq<Member>)
      ensures members == MembersOf(props, RegisteredIn(structMap, alive))
    {
      members := [];
      var i := 0;
      while i < |props|
        invariant 0 <= i <= |props|
        invariant members == MembersOf(props[..i], RegisteredIn(structMap, alive))
      {
        assert props[..i + 1][..i] == props[..i];
        var p := props[i];
        var m: Option<Member>;
        match p.kind {
          case StructProp(sn) =>
            if !HasScriptStruct(sn) {
              m := None;
            } else {
              m := Some(Member(p.name, StructMember(structMap[sn]), 1, p.offset));
              assert m == PropertyMember(p, RegisteredIn(structMap, alive));
            }
          case _ =>
            m := PropertyMember(p, RegisteredIn(structMap, alive));
        }
        if m.Some? {
          members := members + [m.value];
        }
        i := i + 1;
      }
      assert props[..|props|] == props;
    }

    /** A new entity: the next id, now alive; nothing else changes. */
    method NewEntity() returns (e: EntityId)
      requires Valid()
      modifies this
      ensures Valid() && e == old(nextId) && e !in old(alive)
      ensures alive == old(alive) + {e} && nextId == old(nextId) + 1
      ensures structMap == old(structMap) && enumMap == old(enumMap) && components == old(components)
      ensures implData == old(implData) && nextImplIndex == old(nextImplIndex) && importedModules == old(importedModules)
      ensures registeredObjects == old(registeredObjects) && registeredObjectTypes == old(registeredObjectTypes)
    {
      e := nextId;
      nextId := nextId + 1;
      alive := alive + {e};
    }

    /**
     * The global type data for a type name: added, with the next component
     * index, only when the name has none; nothing else changes.
     */
    method AddImplData(name: string, size: nat, alignment: nat, allowTag: bool)
      modifies this
      ensures name in old(implData) ==> implData == old(implData) && nextImplIndex == old(nextImplIndex)
      ensures name !in old(implData) ==>
        && implData == old(implData)[name := ImplData(old(nextImplIndex), size, alignment, allowTag)]
        && nextImplIndex == old(nextImplIndex) + 1
      ensures structMap == old(structMap) && enumMap == old(enumMap) && alive == old(alive) && nextId == old(nextId)
      ensures components == old(components) && importedModules == old(importedModules)
      ensures registeredObjects == old(registeredObjects) && registeredObjectTypes == old(registeredObjectTypes)
    {
      if name !in implData {
        implData := implData[name := ImplData(nextImplIndex, size, alignment, allowTag)];
        nextImplIndex := nextImplIndex + 1;
      }
    }

    /**
     * `RegisterScriptStruct`: checked not to be mapped yet; a new component
     * entity is mapped to the struct, gets the layout and hooks when
     * registered as a component, and gets its members (looked up with the
     * struct itself already mapped); the global type data is added for a
     * name that has none.
     */
    method RegisterScriptStruct(s: ScriptStruct, asComponent: bool) returns (e: EntityId)
      requires Valid() && s.name !in structMap
      modifies this
      ensures Valid() && e == old(nextId) && e !in old(alive)
      ensures alive == old(alive) + {e} && nextId == old(nextId) + 1
      ensures structMap == old(structMap)[s.name := e] && enumMap == old(enumMap)
      ensures components == old(components)[e := StructComponent(
        s.name, if asComponent then Some(StructLayout(s)) else None, StructHooks(s, asComponent),
        MembersOf(s.properties, RegisteredIn(structMap, alive)))]
      ensures s.name in old(implData) ==> implData == old(implData) && nextImplIndex == old(nextImplIndex)
      ensures s.name !in old(implData) ==>
        && implData == old(implData)[s.name := ImplData(old(nextImplIndex), StructLayout(s).size, StructLayout(s).alignment, IsTag(s))]
        && nextImplIndex == old(nextImplIndex) + 1
      ensures importedModules == old(importedModules) && registeredObjects == old(registeredObjects)
      ensures registeredObjectTypes == old(registeredObjectTypes)
    {
      e := NewEntity();
      var layout := StructLayout(s);
      AddImplData(s.name, layout.size, layout.alignment, IsTag(s));
      structMap := structMap[s.name := e];
      var members := RegisterMemberProperties(s.properties);
      var record := StructComponent(
        s.name, if asComponent then Some(StructLayout(s)) else None, StructHooks(s, asComponent), members);
      components := components[e := record];
    }

    /**
     * `RegisterComponentType` for a struct: a registered struct's entity is
     * returned and nothing changes; otherwise the struct is registered as a
     * component (its map entry, if any, must not be stale: that fails the
     * registration check).
     */
    method RegisterComponentStruct(s: ScriptStruct) returns (e: EntityId)
      requires Valid()
      requires s.name in structMap ==> structMap[s.name] in alive
      modifies this
      ensures Valid() && HasScriptStruct(s.name) && e == structMap[s.name]
      ensures old(HasScriptStruct(s.name)) ==> e == old(structMap[s.name]) && unchanged(this)
      ensures !old(HasScriptStruct(s.name)) ==>
        && e == old(nextId) && e !in old(alive)
        && structMap == old(structMap)[s.name := e] && alive == old(alive) + {e}
        && nextId == old(nextId) + 1
        && components == old(components)[e := StructComponent(
             s.name, Some(StructLayout(s)), StructHooks(s, true), MembersOf(s.properties, RegisteredIn(structMap, alive)))]
        && (s.name in old(implData) ==> implData == old(implData) && nextImplIndex == old(nextImplIndex))
        && (s.name !in old(implData) ==>
             && implData == old(implData)[s.name := ImplData(old(nextImplIndex), StructLayout(s).size, StructLayout(s).alignment, IsTag(s))]
             && nextImplIndex == old(nextImplIndex) + 1)
      ensures enumMap == old(enumMap) && importedModules == old(importedModules)
      ensures registeredObjects == old(registeredObjects) && registeredObjectTypes == old(registeredObjectTypes)
    {
      if HasScriptStruct(s.name) {
        e := structMap[s.name];
        return;
      }
      e := RegisterScriptStruct(s, true);
    }

    /**
     * Registering a struct twice gives the same entity, and the two calls
     * together create at most the one entity the first call needs.
     */
    method RegisterStructTwice(s: ScriptStruct) returns (e1: EntityId, e2: EntityId)
      requires Valid()
      requires s.name in structMap ==> structMap[s.name] in alive
      modifies this
      ensures e1 == e2 && HasScriptStruct(s.name)
      ensures structMap == old(structMap)[s.name := e1] && alive == old(alive) + {e1}
      ensures nextId == old(nextId) + (if old(HasScriptStruct(s.name)) then 0 else 1)
    {
      e1 := RegisterComponentStruct(s);
      e2 := RegisterComponentStruct(s);
    }

    /** The enum loop: the kept constants, in index order. */
    method AddEnumConstants(en: ScriptEnum) returns (constants: seq<EnumConstant>)
      requires forall k :: 0 <= k < |en.entries| ==> en.entries[k].value >= 0
      ensures constants == EnumConstantsOf(en.entries, en.maxValue)
    {
      constants := [];
      var width := WidthFor(en.maxValue);
      var i := 0;
      while i < |en.entries|
        invariant 0 <= i <= |en.entries|
        invariant constants == EnumConstantsOf(en.entries[..i], en.maxValue)
      {
        assert en.entries[..i + 1][..i] == en.entries[..i];
        var entry := en.entries[i];
        if entry.value != en.maxValue {
          constants := constants + [EnumConstant(entry.name, CastTo(width, entry.value), width)];
        }
        i := i + 1;
      }
      assert en.entries[..|en.entries|] == en.entries;
    }

    /**
     * `RegisterComponentType` for an enum: a registered enum's entity is
     * returned and nothing changes; otherwise (checked not to be a bitflags
     * enum and not to be mapped) a new one-byte component holds the kept
     * constants.
     */
    method RegisterComponentEnum(en: ScriptEnum) returns (e: EntityId)
      requires Valid()
      requires forall k :: 0 <= k < |en.entries| ==> en.entries[k].value >= 0
      requires !HasScriptEnum(en.name) ==> !en.isFlags && en.name !in enumMap
      modifies this
      ensures Valid() && HasScriptEnum(en.name) && e == enumMap[en.name]
      ensures old(HasScriptEnum(en.name)) ==> e == old(enumMap[en.name]) && unchanged(this)
      ensures !old(HasScriptEnum(en.name)) ==>
        && e == old(nextId) && e !in old(alive)
        && enumMap == old(enumMap)[en.name := e] && alive == old(alive) + {e}
        && nextId == old(nextId) + 1
        && components == old(components)[e := EnumComponent(en.name, Layout(1, 1), EnumConstantsOf(en.entries, en.maxValue))]
        && (en.name in old(implData) ==> implData == old(implData) && nextImplIndex == old(nextImplIndex))
        && (en.name !in old(implData) ==>
             && implData == old(implData)[en.name := ImplData(old(nextImplIndex), 1, 1, false)]
             && nextImplIndex == old(nextImplIndex) + 1)
      ensures structMap == old(structMap) && importedModules == old(importedModules)
      ensures registeredObjects == old(registeredObjects) && registeredObjectTypes == old(registeredObjectTypes)
    {
      if HasScriptEnum(en.name) {
        e := enumMap[en.name];
        return;
      }
      e := NewEntity();
      var constants := AddEnumConstants(en);
      AddImplData(en.name, 1, 1, false);
      enumMap := enumMap[en.name := e];
      components := components[e := EnumComponent(en.name, Layout(1, 1), constants)];
    }

    /** `IsModuleImported`: the imported modules scanned in order for the class or, if allowed, a child class. */
    method IsModuleImported(target: string, allowChildren: bool, isChildOf: (string, string) -> bool) returns (found: bool)
      ensures found <==> ModuleImported(importedModules, target, allowChildren, isChildOf)
    {
      var i := 0;
      while i < |importedModules|
        invariant 0 <= i <= |importedModules|
        invariant forall j :: 0 <= j < i ==> importedModules[j] != target && !(allowChildren && isChildOf(importedModules[j], target))
      {
        if importedModules[i] == target {
          return true;
        } else if allowChildren && isChildOf(importedModules[i], target) {
          return true;
        }
        i := i + 1;
      }
      return false;
    }

    /**
     * `InitializeFlecsRegistrationObjects`: every eligible class not yet
     * registered gets one registration object, in iteration order.
     */
    method InitializeFlecsRegistrationObjects(classes: seq<ClassInfo>)
      modifies this
      ensures registeredObjects == old(registeredObjects) + Registrations(classes, old(registeredObjectTypes))
      ensures registeredObjectTypes == KnownAfter(classes, old(registeredObjectTypes))
      ensures structMap == old(structMap) && enumMap == old(enumMap) && alive == old(alive)
      ensures nextId == old(nextId) && components == old(components) && importedModules == old(importedModules)
      ensures implData == old(implData) && nextImplIndex == old(nextImplIndex)
    {
      var i := 0;
      while i < |classes|
        invariant 0 <= i <= |classes|
        invariant registeredObjects + Registrations(classes[i..], registeredObjectTypes)
          == old(registeredObjects) + Registrations(classes, old(registeredObjectTypes))
        invariant KnownAfter(classes[i..], registeredObjectTypes) == KnownAfter(classes, old(registeredObjectTypes))
        invariant structMap == old(structMap) && enumMap == old(enumMap) && alive == old(alive)
        invariant nextId == old(nextId) && components == old(components) && importedModules == old(importedModules)
        invariant implData == old(implData) && nextImplIndex == old(nextImplIndex)
      {
        var c := classes[i];
        assert classes[i..][1..] == classes[i + 1..];
        if !c.implementsRegistration {
        } else if c.isAbstract {
        } else if c.isDeprecated || c.newerVersionExists {
        } else if c.name in registeredObjectTypes {
        } else {
          ghost var rest := Registrations(classes[i + 1..], registeredObjectTypes + {c.name});
          assert (registeredObjects + [c.name]) + rest == registeredObjects + ([c.name] + rest);
          registeredObjects := registeredObjects + [c.name];
          registeredObjectTypes := registeredObjectTypes + {c.name};
        }
        i := i + 1;
      }
    }
  }

  /** The components of the registered structs (mapped and alive), as the member dispatch looks them up. */
  function RegisteredIn(structMap: map<string, EntityId>, alive: set<EntityId>): (r: map<string, EntityId>)
    ensures forall name :: name in r <==> name in structMap && structMap[name] in alive
    ensures forall name :: name in r ==> r[name] == structMap[name]
  {
    map name | name in structMap && structMap[name] in alive :: structMap[name]
  }

  /** The registered objects after the pass are the earlier ones plus eligible, previously unregistered classes, each once. */
  lemma RegistrationPassSound(before: seq<string>, known: set<string>, classes: seq<ClassInfo>)
    requires forall x :: x in before ==> x in known
    ensures forall x :: x in Registrations(classes, known) ==> x !in before
    ensures forall x :: x in before + Registrations(classes, known) ==> x in KnownAfter(classes, known)
  {
    RegistrationsSound(classes, known);
  }
}
