/** A date column as the pages see it after `new Date(value)`. */
module Dates {

  /** `getMonth() + 1`. */
  type Month = m: int | 1 <= m <= 12 witness 1

  /**
   * `Missing`: null, undefined or "" (falsy); `Unparsable`: `new Date` gives an
   * invalid date; `Parsed`: the local year and month of a valid date.
   */
  datatype RawDate = Missing | Unparsable | Parsed(year: int, month: Month)
}
