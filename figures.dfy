/** The figure record that the editor loads, edits and saves. */
module Figures {
  import opened Wrappers

  /** A figure: a free-form name and two floating-point dimensions. The number type `Num` stands
      for C#'s `double`, whose arithmetic plays no part in this program. */
  datatype Figure<Num> = Figure(name: string, width: Num, height: Num)

  /** The platform's conversions between numbers and text: `parse` is `double.Parse` and
      `double.TryParse` (`None` where `Parse` throws a format error and `TryParse` returns false),
      `format` is the default double-to-string conversion used by string interpolation. */
  datatype Numerals<!Num> = Numerals(parse: string -> Option<Num>, format: Num -> string)
}
