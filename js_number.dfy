/**
 * JavaScript's number coercions, kept abstract: the catalog parsers only
 * branch on their outcome, so each is a parameter of the functions that use it.
 */
module JsNumber {
  import opened Wrappers

  /** parseFloat on a cell's text: Some(value), or None where JavaScript yields NaN. */
  type FloatParser = string -> Option<real>

  /**
   * `!isNaN(s)`: whether the Number coercion of s is not NaN. This is not
   * "s is a decimal literal": an empty or blank string coerces to 0 and passes.
   */
  type NumericTest = string -> bool
}
