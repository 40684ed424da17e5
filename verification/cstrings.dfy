/**
 Byte strings as the C library sees them: a buffer holds the bytes before its first NUL.
 */
module CStrings {

  newtype Byte = x: int | 0 <= x < 256

  type Text = seq<Byte>

  const NUL: Byte := 0
  const NEWLINE: Byte := 10
  const DIGIT_ZERO: Byte := 48

  /** strlen: the bytes before the first NUL, or the whole buffer when it has none. */
  function StrLen(buffer: Text): (n: nat)
    ensures n <= |buffer|
    ensures n < |buffer| ==> buffer[n] == NUL
    ensures forall i :: 0 <= i < n ==> buffer[i] != NUL
  {
    if buffer == [] || buffer[0] == NUL then 0 else 1 + StrLen(buffer[1..])
  }

  /** The string a buffer holds. */
  function CString(buffer: Text): (s: Text)
    ensures NUL !in s
  {
    buffer[..StrLen(buffer)]
  }

  /** The n bytes written by strncpy: the string, cut at n bytes, then padding with NUL. */
  function Strncpy(source: Text, n: nat): (buffer: Text)
    ensures |buffer| == n
  {
    seq(n, i requires 0 <= i < n => if i < StrLen(source) then source[i] else NUL)
  }

  // A string without NUL is its own C string.
  lemma CStringOfText(s: Text)
    requires NUL !in s
    ensures CString(s) == s
  {
    assert StrLen(s) == |s|;
  }

  // Nothing is lost when the destination has room for the terminator.
  lemma StrncpyKeepsString(source: Text, n: nat)
    requires StrLen(source) < n
    ensures CString(Strncpy(source, n)) == CString(source)
  {
    var buffer := Strncpy(source, n);
    var k := StrLen(source);
    assert buffer[k] == NUL;
    assert forall i :: 0 <= i < k ==> buffer[i] == source[i] != NUL;
    assert StrLen(buffer) == k;
  }
}
