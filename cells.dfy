/** The value of one spreadsheet cell, as the back end sees it after the
    file has been read into a table. */
module Cells {

  /** A cell holds a Python `str`, or some other value (a number, a missing
      value) whose `str()` rendering is `shown`. Two cells are equal only
      when they are the same kind and hold the same text. */
  datatype Cell = Str(s: string) | Other(shown: string)

  /** Python's `str(value)`. */
  function Show(c: Cell): string
  {
    match c
    case Str(s) => s
    case Other(shown) => shown
  }
}
