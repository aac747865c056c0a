// `UFlecsModuleObject`'s dependency bookkeeping: the list of hard module
// dependencies (kept duplicate-free), and the guard in front of soft
// dependency registration.
//
// Both `AddHardDependency` and `RegisterSoftDependency` guard with
// `ensureAlwaysMsgf(!IsValid(ModuleClass), "ModuleClass is not valid!")`.
// An `ensure` reports when its condition is FALSE and yields the condition,
// so the early return is taken for an invalid class (as intended) while the
// report fires for every VALID class and never for an invalid one.

module ModuleObject {

  /** A `TSubclassOf<UFlecsModuleInterface>`: no class, or a class named by its path. */
  datatype ModuleClass = NoClass | ModuleClass(path: string)
  {
    predicate IsValid() { ModuleClass? }
  }

  /** Whether the guard's `ensureAlways` reports, as written: its condition `!IsValid` is false. */
  predicate GuardReportsAsWritten(c: ModuleClass)
  {
    !(!c.IsValid())
  }

  /** Whether the guard reports, as evidently intended: for an invalid class, the case it refuses. */
  predicate GuardReports(c: ModuleClass)
  {
    !c.IsValid()
  }

  /** Whether the guard returns early: in both readings, exactly for an invalid class. */
  predicate GuardRefuses(c: ModuleClass)
  {
    !c.IsValid()
  }

  /** As written, the report fires on a valid class that is then accepted, and stays silent on a refused one. */
  lemma GuardReportsValidClassAsWritten()
    ensures GuardReportsAsWritten(ModuleClass("/Script/Game.MyModule"))
    ensures !GuardRefuses(ModuleClass("/Script/Game.MyModule"))
    ensures !GuardReportsAsWritten(NoClass) && GuardRefuses(NoClass)
  {
  }

  /** Corrected, the guard reports exactly the calls it refuses. */
  lemma GuardReportsOnlyRefusals(c: ModuleClass)
    ensures GuardReports(c) <==> GuardRefuses(c)
    ensures GuardReports(c) != GuardReportsAsWritten(c)
  {
  }

  /** A soft dependency the world was asked to register. */
  datatype SoftDependency = SoftDependency(dependent: string, dependency: ModuleClass, callback: nat)

  /** `AddUnique`: appended only when absent. */
  function AddUnique(s: seq<ModuleClass>, c: ModuleClass): (r: seq<ModuleClass>)
    ensures c in r
    ensures forall x :: x in r <==> x in s || x == c
    ensures c in s ==> r == s
    ensures c !in s ==> r == s + [c]
  {
    if c in s then s else s + [c]
  }

  predicate NoDuplicates(s: seq<ModuleClass>)
  {
    forall i, j :: 0 <= i < j < |s| ==> s[i] != s[j]
  }

  /** `AddUnique` keeps a duplicate-free list duplicate-free. */
  lemma AddUniqueKeepsDistinct(s: seq<ModuleClass>, c: ModuleClass)
    requires NoDuplicates(s)
    ensures NoDuplicates(AddUnique(s, c))
  {
    if c !in s {
      var r := s + [c];
      forall i, j | 0 <= i < j < |r|
        ensures r[i] != r[j]
      {
        if j == |s| {
          assert r[i] == s[i];
        }
      }
    }
  }

  /** `UFlecsModuleObject`: its path, its hard dependencies, and what it has asked of the world and reported. */
  class ModuleObjectState {
    const path: string
    var hardModuleDependencies: seq<ModuleClass>
    /** Soft dependencies passed to the world's `RegisterModuleDependency`, oldest first. */
    var worldCalls: seq<SoftDependency>
    /** How many times a guard has reported. */
    var reports: nat

    constructor(path: string)
      ensures this.path == path && hardModuleDependencies == [] && worldCalls == [] && reports == 0
    {
      this.path := path;
      hardModuleDependencies := [];
      worldCalls := [];
      reports := 0;
    }

    predicate Valid()
      reads this
    {
      NoDuplicates(hardModuleDependencies) && forall c :: c in hardModuleDependencies ==> c.IsValid()
    }

    /** `HasHardDependency`: the class is in the list. */
    predicate HasHardDependency(c: ModuleClass)
      reads this
    {
      c in hardModuleDependencies
    }

    /**
     * `AddHardDependency`: an invalid class changes nothing in the list; a
     * valid one is added unless already present. The report follows the
     * corrected guard.
     */
    method AddHardDependency(c: ModuleClass)
      modifies this
      ensures old(Valid()) ==> Valid()
      ensures !c.IsValid() ==> hardModuleDependencies == old(hardModuleDependencies)
      ensures c.IsValid() ==> hardModuleDependencies == AddUnique(old(hardModuleDependencies), c)
      ensures forall x :: HasHardDependency(x) <==> old(HasHardDependency(x)) || (x == c && c.IsValid())
      ensures reports == old(reports) + (if GuardReports(c) then 1 else 0)
      ensures worldCalls == old(worldCalls)
    {
      if GuardReports(c) {
        reports := reports + 1;
      }
      if GuardRefuses(c) {
        return;
      }
      if Valid() {
        AddUniqueKeepsDistinct(hardModuleDependencies, c);
      }
      hardModuleDependencies := AddUnique(hardModuleDependencies, c);
    }

    /** `RegisterSoftDependency`: an invalid class never reaches the world; a valid one is passed on. */
    method RegisterSoftDependency(c: ModuleClass, callback: nat)
      modifies this
      ensures !c.IsValid() ==> worldCalls == old(worldCalls)
      ensures c.IsValid() ==> worldCalls == old(worldCalls) + [SoftDependency(path, c, callback)]
      ensures reports == old(reports) + (if GuardReports(c) then 1 else 0)
      ensures hardModuleDependencies == old(hardModuleDependencies)
    {
      if GuardReports(c) {
        reports := reports + 1;
      }
      if GuardRefuses(c) {
        return;
      }
      worldCalls := worldCalls + [SoftDependency(path, c, callback)];
    }

    /** `GetHardDependentModuleClasses`: the stored list. */
    function GetHardDependentModuleClasses(): (r: seq<ModuleClass>)
      reads this
      ensures forall x :: x in r <==> HasHardDependency(x)
    {
      hardModuleDependencies
    }
  }
}
