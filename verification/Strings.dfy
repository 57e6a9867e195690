/** Code units, bytes, and splitting strings. */
module Strings {

  /** A UTF-16 code unit. */
  newtype Unit = u: int | 0 <= u < 0x1_0000
  newtype Byte = b: int | 0 <= b < 0x100

  /** String.prototype.split with a one-character separator: all pieces, empty ones included. */
  function Split(s: string, separator: char): (r: seq<string>)
    ensures |r| >= 1
  {
    if s == "" then [""]
    else if s[0] == separator then [""] + Split(s[1..], separator)
    else
      var rest := Split(s[1..], separator);
      [[s[0]] + rest[0]] + rest[1..]
  }

  lemma {:induction false} SplitFirst(piece: string, rest: string, separator: char)
    requires separator !in piece
    ensures Split(piece, separator) == [piece]
    ensures Split(piece + [separator] + rest, separator) == [piece] + Split(rest, separator)
  {
    if piece == "" {
      assert piece + [separator] + rest == [separator] + rest && ([separator] + rest)[1..] == rest;
    } else {
      SplitFirst(piece[1..], rest, separator);
      assert (piece + [separator] + rest)[1..] == piece[1..] + [separator] + rest;
      assert piece == [piece[0]] + piece[1..];
    }
  }
}
