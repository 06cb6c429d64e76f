/**
 * The shape of the rows that a WMI `raw_query` hands back: one map per
 * `Win32_Process` instance, from property name to a COM `VARIANT`.
 */
module Wmi {
  import opened Prelude

  /**
   * The `wmi::Variant` cases the process matcher looks at. `Empty`, `Null`,
   * `String` and `UI4` are the crate's own cases; `I4`, `UI8` and `Bool` are
   * kept because a property of another type must be told apart from `UI4`;
   * `Other` stands for the remaining cases (floats, arrays, COM objects),
   * which the matcher never inspects.
   */
  datatype Variant =
    | Empty
    | Null
    | String(text: string)
    | I4(signed: int)
    | UI4(unsigned: Uint32)
    | UI8(wide: nat)
    | Bool(flag: bool)
    | Other

  /** One result row: property name to value (`HashMap<String, Variant>`). */
  type Row = map<string, Variant>
}
