// The editor's data-validation outcome and the engine's rule for combining
// two outcomes, shared by the settings and phase-tree validators.

module DataValidation {

  /** `EDataValidationResult`. */
  datatype ValidationResult = Invalid | Valid | NotValidated

  /**
   * `CombineDataValidationResults` (an engine function): Invalid wins, then
   * Valid, and two unvalidated outcomes stay unvalidated.
   */
  function Combine(a: ValidationResult, b: ValidationResult): (r: ValidationResult)
    ensures r == Invalid <==> a == Invalid || b == Invalid
    ensures r == NotValidated <==> a == NotValidated && b == NotValidated
  {
    if a.Invalid? || b.Invalid? then Invalid
    else if a.Valid? || b.Valid? then Valid
    else NotValidated
  }
}
