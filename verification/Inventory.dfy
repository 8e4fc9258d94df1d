/** Canonical units of a variant, and the marks a transcription may carry between them. */
module Inventory {
  const PRIMARY_STRESS: char := 'ˈ'
  const SECONDARY_STRESS: char := 'ˌ'
  const SEPARATOR: char := '.'

  predicate IsStressMark(c: char) {
    c == PRIMARY_STRESS || c == SECONDARY_STRESS
  }

  /** The non-clickable marks: stress and the syllable separator. */
  predicate IsPermittedMark(c: char) {
    IsStressMark(c) || c == SEPARATOR
  }

  /** Characters the source profile resolves away; none may reach a canonical symbol. */
  predicate IsSourceNotation(c: char) {
    c == '(' || c == ')' || c == 'g' || c == 'r' || c == 'ː' ||
    c == '\U{0361}' || c == '\U{032F}' || c == '\U{0329}'
  }

  /** What `trim` removes at either end of a string. */
  predicate IsBlank(c: char) {
    var n := c as int;
    9 <= n <= 13 || n == 32 || n == 0xA0 || n == 0x1680 || 0x2000 <= n <= 0x200A ||
    n == 0x2028 || n == 0x2029 || n == 0x202F || n == 0x205F || n == 0x3000 || n == 0xFEFF
  }

  predicate IsSymbolChar(c: char) {
    !IsPermittedMark(c) && !IsSourceNotation(c) && !IsBlank(c)
  }

  predicate IsSymbol(s: string) {
    s != "" && forall i :: 0 <= i < |s| ==> IsSymbolChar(s[i])
  }

  predicate AllSymbols(symbols: seq<string>) {
    forall i :: 0 <= i < |symbols| ==> IsSymbol(symbols[i])
  }

  datatype Category = Consonant | Vowel | CentralRhotic | Diphthong

  datatype Unit = Unit(symbol: string, category: Category)

  /** The unit's category can be a syllable nucleus. */
  predicate IsNucleus(unit: Unit) {
    unit.category != Consonant
  }

  function Symbols(units: seq<Unit>): (r: seq<string>)
    ensures |r| == |units|
    ensures forall i :: 0 <= i < |r| ==> r[i] == units[i].symbol
  {
    seq(|units|, i requires 0 <= i < |units| => units[i].symbol)
  }

  /** A loaded inventory: its symbols, and how far longest match must look ahead. */
  datatype Inventory = Inventory(symbols: seq<string>, maxLength: nat)

  predicate WellFormed(inventory: Inventory) {
    AllSymbols(inventory.symbols) &&
    forall i :: 0 <= i < |inventory.symbols| ==> |inventory.symbols[i]| <= inventory.maxLength
  }
}
