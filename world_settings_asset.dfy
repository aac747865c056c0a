// The world-settings asset's editor validation: the game loops must be
// present and valid, module sets must be valid, the modules gathered from
// all sources must not repeat a class, and every hard dependency a module
// declares must be met by some gathered module.
//
// Objects are modelled by their class and the hard dependencies they report;
// the class hierarchy (`IsA`) is a parameter. Each reported error is kept,
// in order, in an error list standing for the validation context.

module WorldSettingsAsset {
  import opened DataValidation

  type ClassId = nat

  /** The class hierarchy: `IsA(child, parent)`. */
  type Hierarchy = (ClassId, ClassId) -> bool

  /** A module or game-loop reference: null, or an object of a class with its declared hard dependencies. */
  datatype ModuleObject = NullObject | ModuleObject(name: string, cls: ClassId, hardDependencies: seq<ClassId>)
  {
    predicate IsValid() { ModuleObject? }
  }

  /** A module-set asset reference: null, or a set of modules. */
  datatype ModuleSet = NullSet | ModuleSet(modules: seq<ModuleObject>)
  {
    predicate IsValid() { ModuleSet? }
  }

  /** The parts of `FFlecsWorldSettingsInfo` the validator reads. */
  datatype WorldSettings = WorldSettings(
    gameLoops: seq<ModuleObject>,
    modules: seq<ModuleObject>,
    editorModules: seq<ModuleObject>,
    moduleSets: seq<ModuleSet>,
    editorModuleSets: seq<ModuleSet>)

  /** The errors the validator adds to the context. */
  datatype ValidationError =
    | NoGameLoops
    | InvalidGameLoop
    | InvalidModuleSet
    | InvalidEditorModuleSet
    | DuplicateModule(cls: ClassId)
    | InvalidModule
    | MissingHardDependency(dependency: ClassId, requiredBy: string)

  // ---- Specification ----------------------------------------------------------

  /** One error per null game loop. */
  function InvalidLoopErrors(loops: seq<ModuleObject>): seq<ValidationError>
  {
    if loops == [] then []
    else InvalidLoopErrors(loops[..|loops| - 1]) + (if loops[|loops| - 1].IsValid() then [] else [InvalidGameLoop])
  }

  /** The game-loop errors: one for an empty list, otherwise one per null entry. */
  function GameLoopErrors(loops: seq<ModuleObject>): seq<ValidationError>
  {
    if loops == [] then [NoGameLoops] else InvalidLoopErrors(loops)
  }

  /** The modules of the valid sets, in order. */
  function SetModules(sets: seq<ModuleSet>): seq<ModuleObject>
  {
    if sets == [] then []
    else
      var last := sets[|sets| - 1];
      SetModules(sets[..|sets| - 1]) + (if last.IsValid() then last.modules else [])
  }

  /** One error per null set. */
  function SetErrors(sets: seq<ModuleSet>, err: ValidationError): seq<ValidationError>
  {
    if sets == [] then []
    else SetErrors(sets[..|sets| - 1], err) + (if sets[|sets| - 1].IsValid() then [] else [err])
  }

  /** The modules gathered for the two cross-checks, in the order they are appended. */
  function ImportedModules(w: WorldSettings): seq<ModuleObject>
  {
    w.modules + w.editorModules + w.gameLoops + SetModules(w.moduleSets) + SetModules(w.editorModuleSets)
  }

  /** The classes of the non-null modules. */
  function ClassesOf(mods: seq<ModuleObject>): set<ClassId>
  {
    if mods == [] then {}
    else
      var last := mods[|mods| - 1];
      ClassesOf(mods[..|mods| - 1]) + (if last.IsValid() then {last.cls} else {})
  }

  /** One error per non-null module whose class an earlier non-null module already has. */
  function DuplicateErrors(mods: seq<ModuleObject>): seq<ValidationError>
  {
    if mods == [] then []
    else
      var init := mods[..|mods| - 1];
      var last := mods[|mods| - 1];
      DuplicateErrors(init) + (if last.IsValid() && last.cls in ClassesOf(init) then [DuplicateModule(last.cls)] else [])
  }

  /** Some non-null module in `all` is a `dep`. */
  predicate Provided(all: seq<ModuleObject>, dep: ClassId, isA: Hierarchy)
  {
    exists i :: 0 <= i < |all| && all[i].IsValid() && isA(all[i].cls, dep)
  }

  /** One error per dependency in `deps` that nothing in `all` provides. */
  function MissingErrors(all: seq<ModuleObject>, name: string, deps: seq<ClassId>, isA: Hierarchy): seq<ValidationError>
  {
    if deps == [] then []
    else
      var d := deps[|deps| - 1];
      MissingErrors(all, name, deps[..|deps| - 1], isA) + (if Provided(all, d, isA) then [] else [MissingHardDependency(d, name)])
  }

  /** For each module in turn: an error if it is null, else one per unmet hard dependency. */
  function HardDependencyErrors(mods: seq<ModuleObject>, all: seq<ModuleObject>, isA: Hierarchy): seq<ValidationError>
  {
    if mods == [] then []
    else
      var last := mods[|mods| - 1];
      HardDependencyErrors(mods[..|mods| - 1], all, isA)
        + (if last.IsValid() then MissingErrors(all, last.name, last.hardDependencies, isA) else [InvalidModule])
  }

  /** Every error `IsDataValid` reports, in order. */
  function AllErrors(w: WorldSettings, isA: Hierarchy): seq<ValidationError>
  {
    GameLoopErrors(w.gameLoops)
      + SetErrors(w.moduleSets, InvalidModuleSet) + SetErrors(w.editorModuleSets, InvalidEditorModuleSet)
      + DuplicateErrors(ImportedModules(w)) + HardDependencyErrors(ImportedModules(w), ImportedModules(w), isA)
  }

  // ---- What the specification means -------------------------------------------

  lemma {:induction false} InvalidLoopErrorsEmpty(loops: seq<ModuleObject>)
    ensures InvalidLoopErrors(loops) == [] <==> forall i :: 0 <= i < |loops| ==> loops[i].IsValid()
  {
    if loops != [] {
      var init := loops[..|loops| - 1];
      InvalidLoopErrorsEmpty(init);
      assert forall i :: 0 <= i < |init| ==> init[i] == loops[i];
    }
  }

  lemma {:induction false} SetErrorsEmpty(sets: seq<ModuleSet>, err: ValidationError)
    ensures SetErrors(sets, err) == [] <==> forall i :: 0 <= i < |sets| ==> sets[i].IsValid()
  {
    if sets != [] {
      var init := sets[..|sets| - 1];
      SetErrorsEmpty(init, err);
      assert forall i :: 0 <= i < |init| ==> init[i] == sets[i];
    }
  }

  lemma {:induction false} ClassesOfMembers(mods: seq<ModuleObject>, c: ClassId)
    ensures c in ClassesOf(mods) <==> exists i :: 0 <= i < |mods| && mods[i].IsValid() && mods[i].cls == c
  {
    if mods != [] {
      var init := mods[..|mods| - 1];
      ClassesOfMembers(init, c);
      if c in ClassesOf(init) {
        var i :| 0 <= i < |init| && init[i].IsValid() && init[i].cls == c;
        assert mods[i] == init[i];
      }
    }
  }

  /** Two non-null modules of one class. */
  predicate HasDuplicateClass(mods: seq<ModuleObject>)
  {
    exists i, j :: 0 <= i < j < |mods| && mods[i].IsValid() && mods[j].IsValid() && mods[i].cls == mods[j].cls
  }

  /**
   * The duplicate check reports nothing exactly when no two non-null modules
   * share a class; null modules never count.
   */
  lemma {:induction false} DuplicateErrorsEmpty(mods: seq<ModuleObject>)
    ensures DuplicateErrors(mods) == [] <==> !HasDuplicateClass(mods)
  {
    if mods != [] {
      DuplicateErrorsEmpty(mods[..|mods| - 1]);
      DuplicateStep(mods);
    }
  }

  /** A list has a duplicate exactly when its front does or its last non-null module repeats a class of the front. */
  lemma DuplicateStep(mods: seq<ModuleObject>)
    requires mods != []
    ensures var init, last := mods[..|mods| - 1], mods[|mods| - 1];
      HasDuplicateClass(mods) <==> HasDuplicateClass(init) || (last.IsValid() && last.cls in ClassesOf(init))
  {
    var n := |mods| - 1;
    var init, last := mods[..n], mods[n];
    if last.IsValid() {
      ClassesOfMembers(init, last.cls);
    }
    if HasDuplicateClass(init) {
      var i, j :| 0 <= i < j < |init| && init[i].IsValid() && init[j].IsValid() && init[i].cls == init[j].cls;
      assert mods[i] == init[i] && mods[j] == init[j];
    }
    if last.IsValid() && last.cls in ClassesOf(init) {
      var i :| 0 <= i < |init| && init[i].IsValid() && init[i].cls == last.cls;
      assert mods[i] == init[i];
    }
    if HasDuplicateClass(mods) {
      var i, j :| 0 <= i < j < |mods| && mods[i].IsValid() && mods[j].IsValid() && mods[i].cls == mods[j].cls;
      assert init[i] == mods[i];
      if j < n {
        assert init[j] == mods[j];
      }
    }
  }

  /** Every dependency in `deps` is provided by `all`. */
  predicate AllProvided(all: seq<ModuleObject>, deps: seq<ClassId>, isA: Hierarchy)
  {
    forall k :: 0 <= k < |deps| ==> Provided(all, deps[k], isA)
  }

  lemma {:induction false} MissingErrorsEmpty(all: seq<ModuleObject>, name: string, deps: seq<ClassId>, isA: Hierarchy)
    ensures MissingErrors(all, name, deps, isA) == [] <==> AllProvided(all, deps, isA)
  {
    if deps != [] {
      MissingErrorsEmpty(all, name, deps[..|deps| - 1], isA);
      assert forall k :: 0 <= k < |deps| - 1 ==> deps[..|deps| - 1][k] == deps[k];
    }
  }

  /**
   * The hard-dependency check reports nothing exactly when every module is
   * non-null and each of its hard dependencies is met by a non-null module.
   */
  lemma {:induction false} HardDependencyErrorsEmpty(mods: seq<ModuleObject>, all: seq<ModuleObject>, isA: Hierarchy)
    ensures HardDependencyErrors(mods, all, isA) == []
      <==> forall i :: 0 <= i < |mods| ==> mods[i].IsValid() && AllProvided(all, mods[i].hardDependencies, isA)
  {
    if mods != [] {
      var init := mods[..|mods| - 1];
      var last := mods[|mods| - 1];
      HardDependencyErrorsEmpty(init, all, isA);
      if last.IsValid() {
        MissingErrorsEmpty(all, last.name, last.hardDependencies, isA);
      }
      assert forall i :: 0 <= i < |init| ==> init[i] == mods[i];
    }
  }

  /**
   * The asset is reported Invalid exactly when the base check said so or some
   * rule is broken: no game loop, a null game loop, a null module set, a
   * repeated module class, or a null module or unmet hard dependency among
   * the gathered modules. Otherwise it is Valid.
   */
  lemma ValidationVerdict(base: ValidationResult, w: WorldSettings, isA: Hierarchy)
    ensures AllErrors(w, isA) == [] <==>
      (|w.gameLoops| > 0 && (forall i :: 0 <= i < |w.gameLoops| ==> w.gameLoops[i].IsValid())
       && (forall i :: 0 <= i < |w.moduleSets| ==> w.moduleSets[i].IsValid())
       && (forall i :: 0 <= i < |w.editorModuleSets| ==> w.editorModuleSets[i].IsValid())
       && !HasDuplicateClass(ImportedModules(w))
       && (forall i :: 0 <= i < |ImportedModules(w)| ==>
             ImportedModules(w)[i].IsValid() && AllProvided(ImportedModules(w), ImportedModules(w)[i].hardDependencies, isA)))
  {
    InvalidLoopErrorsEmpty(w.gameLoops);
    SetErrorsEmpty(w.moduleSets, InvalidModuleSet);
    SetErrorsEmpty(w.editorModuleSets, InvalidEditorModuleSet);
    DuplicateErrorsEmpty(ImportedModules(w));
    HardDependencyErrorsEmpty(ImportedModules(w), ImportedModules(w), isA);
  }

  /** A null game loop is reported twice: once as a game loop and once as a gathered module. */
  lemma NullGameLoopReportedTwice(isA: Hierarchy)
    ensures var w := WorldSettings([NullObject], [], [], [], []);
      AllErrors(w, isA) == [InvalidGameLoop, InvalidModule]
  {
    var w := WorldSettings([NullObject], [], [], [], []);
    assert ImportedModules(w) == [NullObject];
    assert InvalidLoopErrors([NullObject]) == [InvalidGameLoop] by {
      assert [NullObject][..0] == [];
    }
    assert DuplicateErrors([NullObject]) == [] by {
      assert [NullObject][..0] == [];
    }
    assert HardDependencyErrors([NullObject], [NullObject], isA) == [InvalidModule] by {
      assert [NullObject][..0] == [];
    }
  }

  // ---- The validator -----------------------------------------------------------

  /** `CheckForDuplicateModules`: classes seen so far in a set; a repeat is reported. */
  method CheckForDuplicateModules(mods: seq<ModuleObject>) returns (result: ValidationResult, errors: seq<ValidationError>)
    ensures errors == DuplicateErrors(mods)
    ensures result == (if errors == [] then Valid else Invalid)
  {
    result := Valid;
    errors := [];
    var seen: set<ClassId> := {};
    var i := 0;
    while i < |mods|
      invariant 0 <= i <= |mods|
      invariant seen == ClassesOf(mods[..i])
      invariant errors == DuplicateErrors(mods[..i])
      invariant result == (if errors == [] then Valid else Invalid)
    {
      assert mods[..i + 1][..i] == mods[..i];
      var m := mods[i];
      if m.IsValid() {
        if m.cls in seen {
          errors := errors + [DuplicateModule(m.cls)];
          result := Invalid;
        } else {
          seen := seen + {m.cls};
        }
      }
      i := i + 1;
    }
    assert mods[..|mods|] == mods;
  }

  /** The inner search: stops at the first non-null module that is a `dep`. */
  method FindProvider(all: seq<ModuleObject>, dep: ClassId, isA: Hierarchy) returns (found: bool)
    ensures found <==> Provided(all, dep, isA)
  {
    found := false;
    var j := 0;
    while j < |all|
      invariant 0 <= j <= |all|
      invariant !found
      invariant forall k :: 0 <= k < j ==> !(all[k].IsValid() && isA(all[k].cls, dep))
    {
      if all[j].IsValid() && isA(all[j].cls, dep) {
        found := true;
        return;
      }
      j := j + 1;
    }
  }

  /** One module's hard dependencies, each looked up among all gathered modules. */
  method CheckModuleDependencies(all: seq<ModuleObject>, m: ModuleObject, isA: Hierarchy) returns (errors: seq<ValidationError>)
    requires m.IsValid()
    ensures errors == MissingErrors(all, m.name, m.hardDependencies, isA)
  {
    errors := [];
    var deps := m.hardDependencies;
    var k := 0;
    while k < |deps|
      invariant 0 <= k <= |deps|
      invariant errors == MissingErrors(all, m.name, deps[..k], isA)
    {
      assert deps[..k + 1][..k] == deps[..k];
      var found := FindProvider(all, deps[k], isA);
      if !found {
        errors := errors + [MissingHardDependency(deps[k], m.name)];
      }
      k := k + 1;
    }
    assert deps[..|deps|] == deps;
  }

  /** `CheckForHardDependencies`: a null module is reported, and each unmet dependency of the others. */
  method CheckForHardDependencies(mods: seq<ModuleObject>, isA: Hierarchy) returns (result: ValidationResult, errors: seq<ValidationError>)
    ensures errors == HardDependencyErrors(mods, mods, isA)
    ensures result == (if errors == [] then Valid else Invalid)
  {
    result := Valid;
    errors := [];
    var i := 0;
    while i < |mods|
      invariant 0 <= i <= |mods|
      invariant errors == HardDependencyErrors(mods[..i], mods, isA)
      invariant result == (if errors == [] then Valid else Invalid)
    {
      assert mods[..i + 1][..i] == mods[..i];
      var m := mods[i];
      if !m.IsValid() {
        errors := errors + [InvalidModule];
        result := Invalid;
      } else {
        var missing := CheckModuleDependencies(mods, m, isA);
        errors := errors + missing;
        if missing != [] {
          result := Invalid;
        }
      }
      i := i + 1;
    }
    assert mods[..|mods|] == mods;
  }

  /** The modules of the valid sets, appended in order; each null set is reported. */
  method GatherModuleSets(sets: seq<ModuleSet>, err: ValidationError) returns (modules: seq<ModuleObject>, errors: seq<ValidationError>)
    ensures modules == SetModules(sets)
    ensures errors == SetErrors(sets, err)
  {
    modules := [];
    errors := [];
    var i := 0;
    while i < |sets|
      invariant 0 <= i <= |sets|
      invariant modules == SetModules(sets[..i])
      invariant errors == SetErrors(sets[..i], err)
    {
      assert sets[..i + 1][..i] == sets[..i];
      if !sets[i].IsValid() {
        errors := errors + [err];
      } else {
        modules := modules + sets[i].modules;
      }
      i := i + 1;
    }
    assert sets[..|sets|] == sets;
  }

  /** The game-loop check: an empty list is reported once, otherwise each null entry. */
  method CheckGameLoops(loops: seq<ModuleObject>) returns (errors: seq<ValidationError>)
    ensures errors == GameLoopErrors(loops)
  {
    if |loops| == 0 {
      return [NoGameLoops];
    }
    errors := [];
    var i := 0;
    while i < |loops|
      invariant 0 <= i <= |loops|
      invariant errors == InvalidLoopErrors(loops[..i])
    {
      assert loops[..i + 1][..i] == loops[..i];
      if !loops[i].IsValid() {
        errors := errors + [InvalidGameLoop];
      }
      i := i + 1;
    }
    assert loops[..|loops|] == loops;
  }

  /**
   * `UFlecsWorldSettingsAsset::IsDataValid`, starting from the base class's
   * verdict `base`: every error is reported, and the verdict is Invalid
   * exactly when the base said so or an error was reported.
   */
  method IsDataValid(base: ValidationResult, w: WorldSettings, isA: Hierarchy) returns (result: ValidationResult, errors: seq<ValidationError>)
    ensures errors == AllErrors(w, isA)
    ensures result == (if base == Invalid || errors != [] then Invalid else Valid)
  {
    result := base;
    errors := CheckGameLoops(w.gameLoops);
    if errors != [] {
      result := Invalid;
    }
    var imported := w.modules + w.editorModules + w.gameLoops;
    var setModules, setErrors := GatherModuleSets(w.moduleSets, InvalidModuleSet);
    var editorSetModules, editorSetErrors := GatherModuleSets(w.editorModuleSets, InvalidEditorModuleSet);
    imported := imported + setModules + editorSetModules;
    errors := errors + setErrors + editorSetErrors;
    if setErrors != [] || editorSetErrors != [] {
      result := Invalid;
    }
    var duplicateResult, duplicateErrors := CheckForDuplicateModules(imported);
    result := Combine(result, duplicateResult);
    var hardResult, hardErrors := CheckForHardDependencies(imported, isA);
    result := Combine(result, hardResult);
    errors := errors + duplicateErrors + hardErrors;
  }
}
