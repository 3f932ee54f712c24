/**
 The cells of a parsed spreadsheet as JavaScript values, and the ECMAScript
 coercions the previewer applies to them: `parseFloat`, `Number`, the global
 `isFinite` and `String`.

 Only the parts of these coercions that depend on floating-point text
 conversion are left open; they are fields of `Host`. Everything the
 previewer relies on about `undefined`, `null`, booleans and numbers is
 defined here outright.
 */
module JsValues {
  import opened Basics
  import opened JsObjects

  /** A JavaScript number. Finite doubles are modelled by the real they denote; rounding is not modelled. */
  datatype JsNumber = Finite(value: real) | PosInfinity | NegInfinity | NaN

  /** One value read from a row: `undefined`, `null`, a boolean, a string or a number. */
  datatype Cell = Absent | Null | Bool(b: bool) | Str(s: string) | Num(n: JsNumber)

  /** A parsed row: an object from column name to cell, keys in the parser's insertion order. */
  type Row = JsObject<Cell>

  /**
   The engine's text-to-number and number-to-text conversions, which the
   model does not define:
   - `parseFloatText(s)` is `parseFloat(s)`: the longest decimal prefix of `s` after leading white space;
   - `stringToNumber(s)` is `Number(s)`: the whole trimmed string as a numeric literal;
   - `finiteToString(x)` is `String(x)` for a finite number `x`.
   */
  datatype Host = Host(
    parseFloatText: string -> JsNumber,
    stringToNumber: string -> JsNumber,
    finiteToString: real -> string)

  /** `row[column]`: the cell under a column, `undefined` when the row has no such key. */
  function CellAt(row: Row, column: string): (c: Cell)
    ensures column !in row.props ==> c.Absent?
    ensures column in row.props ==> c == row.props[column]
  {
    match row.Get(column)
    case Some(c) => c
    case None => Absent
  }

  /**
   `parseFloat(v)`. The argument is first converted to text, so `undefined`,
   `null` and booleans become "undefined", "null", "true" or "false", none of
   which starts with a decimal literal; a number's text parses back to the
   number itself (including "Infinity" and "NaN").
   */
  function ParseFloat(h: Host, c: Cell): JsNumber {
    match c
    case Absent => NaN
    case Null => NaN
    case Bool(_) => NaN
    case Str(s) => h.parseFloatText(s)
    case Num(n) => n
  }

  /** `Number(v)`, the ECMAScript ToNumber conversion. */
  function ToNumber(h: Host, c: Cell): JsNumber {
    match c
    case Absent => NaN
    case Null => Finite(0.0)
    case Bool(b) => Finite(if b then 1.0 else 0.0)
    case Str(s) => h.stringToNumber(s)
    case Num(n) => n
  }

  /** The global `isFinite(v)`: ToNumber, then reject NaN and both infinities. */
  predicate IsFinite(h: Host, c: Cell) {
    ToNumber(h, c).Finite?
  }

  /** `String(v)`, the ECMAScript ToString conversion. */
  function ToText(h: Host, c: Cell): string {
    match c
    case Absent => "undefined"
    case Null => "null"
    case Bool(b) => if b then "true" else "false"
    case Str(s) => s
    case Num(n) =>
      match n
      case Finite(x) => h.finiteToString(x)
      case PosInfinity => "Infinity"
      case NegInfinity => "-Infinity"
      case NaN => "NaN"
  }
}
