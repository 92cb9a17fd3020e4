// What several modules share about characters and C strings.

module Texts {
  predicate IsDigit(c: char) {
    '0' <= c <= '9'
  }

  // What printf %d and buffer_copy_int write.
  function Decimal(n: nat): (s: string)
    ensures s != "" && forall i :: 0 <= i < |s| ==> IsDigit(s[i])
  {
    var last := [(n % 10) as char + '0'];
    if n < 10 then last else Decimal(n / 10) + last
  }

  // The lower-case hexadecimal digits.
  function HexChar(v: nat): char
    requires v < 16
  {
    if v < 10 then v as char + '0' else (v - 10) as char + 'a'
  }

  lemma HexCharTable(v: nat)
    requires v < 16
    ensures HexChar(v) == "0123456789abcdef"[v]
  {
  }

  // The value of a hexadecimal digit, by its character code; 16 for any other character.
  function DigitValue(c: char): (v: nat)
    ensures v <= 16
  {
    var code := c as int;
    if 48 <= code <= 57 then code - 48
    else if 65 <= code <= 70 then code - 55
    else if 97 <= code <= 102 then code - 87
    else 16
  }

  // The digits in their order, in both cases, and nothing else.
  lemma DigitTable(c: char, v: nat)
    requires v < 16
    ensures DigitValue(c) == v <==> c == "0123456789abcdef"[v] || c == "0123456789ABCDEF"[v]
  {
  }

  // The character k of a C string; the terminating zero can be read too.
  function At(s: string, k: nat): char {
    if k < |s| then s[k] else '\0'
  }

  // From k on the array a still holds the string s and its terminating zero.
  ghost predicate Unread(a: string, s: string, k: nat) {
    |s| < |a| && forall i: nat :: k <= i <= |s| ==> a[i] == At(s, i)
  }

  lemma Associate<T>(a: seq<T>, b: seq<T>, c: seq<T>)
    ensures (a + b) + c == a + (b + c)
  {
  }
}
