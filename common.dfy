/** Values shared by every part of the watchlist engine. */
module Common {

  datatype Option<+T> = None | Some(value: T)

  datatype Result<+T, +E> = Ok(value: T) | Err(error: E)

  /** Pass, or the exception the Python code would raise. */
  datatype Outcome<+E> = Pass | Fail(error: E)

  /** One value of a quote record, of a watchlist record or of a sheet cell:
      the JSON strings and numbers the quote service sends, the floats pandas
      holds, and the missing value (`None` / NaN) pandas pads with. */
  datatype Cell = Null | Text(s: string) | Num(x: real)
}
