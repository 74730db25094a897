/** Facts about strings that the text-processing components share. */
module Strings {
  /** The end-of-line anchor also matches before one newline at the end. */
  function DropNewline(s: string): string {
    if s != [] && s[|s| - 1] == '\n' then s[..|s| - 1] else s
  }
}
