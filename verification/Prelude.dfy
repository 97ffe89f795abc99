/** Vocabulary shared by the other modules. */
module Prelude {

  datatype Option<+T> = None | Some(value: T)

  /** A C++ `char`, read as an unsigned 8-bit value. */
  type byte = c: char | c as int < 256

  const NUL: byte := 0 as char
  const CR: byte := '\r'
  const LF: byte := '\n'
  const CRLF: seq<byte> := [CR, LF]

  function Min(a: int, b: int): (m: int)
    ensures m <= a && m <= b && (m == a || m == b)
  {
    if a < b then a else b
  }

  lemma Assoc<T>(a: seq<T>, b: seq<T>, c: seq<T>)
    ensures a + (b + c) == (a + b) + c
  {
  }

  lemma Glue<T>(s: seq<T>, a: nat, b: nat, c: nat)
    requires a <= b <= c <= |s|
    ensures s[a..b] + s[b..c] == s[a..c]
  {
    forall i | 0 <= i < c - a
      ensures (s[a..b] + s[b..c])[i] == s[a..c][i]
    {
    }
  }

  function Concat<T>(chunks: seq<seq<T>>): seq<T> {
    if chunks == [] then [] else chunks[0] + Concat(chunks[1..])
  }

  lemma {:induction false} ConcatSnoc<T>(chunks: seq<seq<T>>, last: seq<T>)
    ensures Concat(chunks + [last]) == Concat(chunks) + last
  {
    if chunks == [] {
      assert chunks + [last] == [last];
    } else {
      assert (chunks + [last])[1..] == chunks[1..] + [last];
      ConcatSnoc(chunks[1..], last);
    }
  }
}
