/** ASCII case. */
module Ascii {
  function Fold(c: char): char {
    if 'A' <= c <= 'Z' then c + ('a' - 'A') else c
  }
}
