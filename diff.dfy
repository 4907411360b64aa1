/** The records the `diff_parse` crate hands to the formatter. Only the fields
    the formatter reads are kept: a side's file, first line and line count. */
module Diff {

  /** One side of a hunk (`diff_parse::File`). */
  datatype File = File(file: string, line: nat, count: nat)

  /** A hunk as the parser yields it: its source side and its destination
      side, `(File, File)`. */
  datatype Hunk = Hunk(src: File, dst: File)
}
