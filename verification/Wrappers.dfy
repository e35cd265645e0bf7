/** What several of the models share. */
module Wrappers {

  datatype Option<T> = None | Some(value: T)

  type Byte = x: nat | x < 256

  function Reversed<T>(s: seq<T>): (r: seq<T>)
    ensures |r| == |s| && forall i :: 0 <= i < |s| ==> r[i] == s[|s| - 1 - i]
  {
    seq(|s|, i requires 0 <= i < |s| => s[|s| - 1 - i])
  }

  /** The next character, as shgetc gives it: -1 at the end of the input. */
  function CharAt(s: string, i: nat): int {
    if i < |s| then s[i] as int else -1
  }
}
