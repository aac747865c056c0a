// Unit validation in the meta addon: `flecs_unit_validate`.
//
// A unit may name a base unit, a unit it is divided by ("over") and a
// prefix. "over" and a prefix need a base. A prefix fixes the unit's
// translation (factor and power), which must agree with one given
// explicitly. The symbol derived from the prefix, base and over symbols,
// as in "k" + "m" + "/" + "s", replaces a missing symbol when a prefix or
// "over" is involved, and must equal a given symbol whenever a prefix or
// "over" symbol contributed to it.

module MetaUnits {
  import opened Wrappers
  import opened MetaTypes

  /** `ecs_unit_translation_t`. */
  datatype Translation = Translation(factor: int, power: int)

  /** The `EcsUnit` component; a missing symbol is a NULL string. */
  datatype UnitData = UnitData(symbol: Option<string>, prefix: Entity, base: Entity, over: Entity, translation: Translation)

  /** The `EcsUnitPrefix` component. */
  datatype PrefixData = PrefixData(symbol: Option<string>, translation: Translation)

  /** The units (with their symbols) and prefixes of the world. */
  datatype UnitWorld = UnitWorld(units: map<Entity, Option<string>>, prefixes: map<Entity, PrefixData>)

  function SymbolText(s: Option<string>): string
  {
    if s.Some? then s.value else ""
  }

  /** Whether the rules on base, over and prefix hold, before any symbol is looked at. */
  predicate RefsValid(w: UnitWorld, d: UnitData)
  {
    (d.base != 0 ==> d.base in w.units) &&
    (d.over != 0 ==> d.base != 0 && d.over in w.units) &&
    (d.prefix != 0 ==> (d.base != 0 && d.prefix in w.prefixes &&
                        (d.translation == Translation(0, 0) || w.prefixes[d.prefix].translation == d.translation)))
  }

  /** The prefix symbol, the base symbol, then "/" and the over symbol when it has one. */
  function DerivedText(w: UnitWorld, d: UnitData): string
    requires RefsValid(w, d) && d.base != 0
  {
    (if d.prefix != 0 then SymbolText(w.prefixes[d.prefix].symbol) else "") +
    SymbolText(w.units[d.base]) +
    (if d.over != 0 && w.units[d.over].Some? then "/" + w.units[d.over].value else "")
  }

  /** The derived symbol; an empty one counts as none. */
  function Derived(w: UnitWorld, d: UnitData): (r: Option<string>)
    requires RefsValid(w, d) && d.base != 0
    ensures r.Some? ==> |r.value| > 0
  {
    var s := DerivedText(w, d);
    if |s| == 0 then None else Some(s)
  }

  /** Whether a prefix or an over symbol contributed to the derived symbol. */
  predicate MustMatch(w: UnitWorld, d: UnitData)
    requires RefsValid(w, d)
  {
    (d.prefix != 0 && w.prefixes[d.prefix].symbol.Some?) ||
    (d.over != 0 && w.units[d.over].Some?)
  }

  /** `flecs_unit_validate(world, t, data)`: the updated data, or None when the unit is invalid. */
  function UnitValidate(w: UnitWorld, d: UnitData): (r: Option<UnitData>)
    ensures r.Some? ==> RefsValid(w, d)
    ensures r.Some? ==> r.value.base == d.base && r.value.over == d.over && r.value.prefix == d.prefix
  {
    if !RefsValid(w, d) then None
    else
      var translation := if d.prefix != 0 && d.translation == Translation(0, 0) then w.prefixes[d.prefix].translation else d.translation;
      if d.base == 0 then Some(d.(translation := translation))
      else
        var derived := Derived(w, d);
        if derived.Some? && d.symbol.Some? && d.symbol.value != derived.value && MustMatch(w, d) then None
        else
          var symbol := if d.symbol.None? && derived.Some? && (d.prefix != 0 || d.over != 0) then derived else d.symbol;
          Some(d.(symbol := symbol, translation := translation))
  }

  /** "over" or a prefix without a base, or a base or over that is not a unit, is invalid. */
  lemma UnitValidateRefs(w: UnitWorld, d: UnitData)
    ensures (d.over != 0 || d.prefix != 0) && d.base == 0 ==> UnitValidate(w, d).None?
    ensures d.base != 0 && d.base !in w.units ==> UnitValidate(w, d).None?
    ensures d.over != 0 && d.over !in w.units ==> UnitValidate(w, d).None?
    ensures d.prefix != 0 && d.prefix !in w.prefixes ==> UnitValidate(w, d).None?
  {
  }

  /**
   * The symbol after validation: the derived one when none was given and a
   * prefix or "over" is involved, the given one otherwise; a given symbol
   * that differs from a derived one is an error exactly when a prefix or an
   * over symbol contributed.
   */
  lemma UnitValidateSymbol(w: UnitWorld, d: UnitData)
    requires RefsValid(w, d) && d.base != 0
    ensures var r := UnitValidate(w, d);
      var derived := Derived(w, d);
      (r.None? <==> derived.Some? && d.symbol.Some? && d.symbol.value != derived.value && MustMatch(w, d)) &&
      (r.Some? && d.symbol.None? && (d.prefix != 0 || d.over != 0) ==> r.value.symbol == derived) &&
      (r.Some? && (d.symbol.Some? || (d.prefix == 0 && d.over == 0)) ==> r.value.symbol == d.symbol)
  {
  }

  /** A prefix supplies the translation when none is given, and a given one must equal the prefix's. */
  lemma UnitValidateTranslation(w: UnitWorld, d: UnitData)
    requires d.prefix != 0 && d.prefix in w.prefixes
    ensures var r := UnitValidate(w, d);
      var pt := w.prefixes[d.prefix].translation;
      (d.translation != Translation(0, 0) && d.translation != pt ==> r.None?) &&
      (r.Some? ==> r.value.translation == pt)
  {
  }

  /** Validating a validated unit again accepts it and changes nothing. */
  lemma UnitValidateIdempotent(w: UnitWorld, d: UnitData)
    requires UnitValidate(w, d).Some?
    ensures UnitValidate(w, UnitValidate(w, d).value) == UnitValidate(w, d)
  {
    var r := UnitValidate(w, d).value;
    assert RefsValid(w, r);
    if d.base != 0 {
      assert DerivedText(w, r) == DerivedText(w, d);
    }
  }
}
