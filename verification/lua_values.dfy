/** The script values that cross the boundary between the bot and its
    embedded interpreter, with the interpreter itself abstracted away. */
module LuaValues {

  /** Identity of a script function; a function value rebuilt from the same
      prototype in another interpreter keeps the same identity. */
  type FuncId = nat

  /** A script value. A table has an array part (its entries 1..n, in
      order) and a hash part keyed by strings. Numbers are integers here. */
  datatype LValue =
    | LNil
    | LBool(b: bool)
    | LNumber(n: int)
    | LString(s: string)
    | LTable(arr: seq<LValue>, hash: map<string, LValue>)
    | LFunction(id: FuncId)

  /** The script's string view of a value: a string is itself, anything
      else is the empty string (number formatting is not modelled). */
  function AsString(v: LValue): (r: string)
    ensures v.LString? ==> r == v.s
    ensures r != [] ==> v == LString(r)
  {
    if v.LString? then v.s else ""
  }

  /** Raw read of a string key from a table; a missing key reads as nil. */
  function Field(t: LValue, key: string): (r: LValue)
    requires t.LTable?
    ensures key !in t.hash ==> r == LNil
  {
    if key in t.hash then t.hash[key] else LNil
  }

  /** The interpreter's integer view of an argument: a number is itself,
      anything else is 0 (parsing of numeric strings is not modelled). */
  function ToInt(v: LValue): (r: int)
    ensures v.LNumber? ==> r == v.n
    ensures r != 0 ==> v == LNumber(r)
  {
    if v.LNumber? then v.n else 0
  }
}
