/** Message signatures: one letter an argument, `?` before one that may be null,
    and a version number in front. */
module Signatures {

  /** The letters of argument types. */
  predicate IsArgLetter(c: char) {
    c in "iufsonah"
  }

  datatype Detail = Detail(letter: char, nullable: bool)

  /** The arguments of a signature, when a `?` is already pending. */
  function ParseFrom(s: string, nullable: bool): seq<Detail> {
    if s == [] then []
    else if IsArgLetter(s[0]) then [Detail(s[0], nullable)] + ParseFrom(s[1..], false)
    else ParseFrom(s[1..], nullable || s[0] == '?')
  }

  function Parse(s: string): seq<Detail> {
    ParseFrom(s, false)
  }

  /** Reads one argument; at the end of the signature the letter is NUL. */
  method GetNextArgument(s: string) returns (d: Detail, rest: string)
    ensures if Parse(s) == [] then d.letter == '\0' && rest == []
            else IsArgLetter(d.letter) && Parse(s) == [d] + Parse(rest) && |rest| < |s|
  {
    var i, nullable := 0, false;
    assert s[0..] == s;
    while i < |s|
      invariant 0 <= i <= |s|
      invariant ParseFrom(s[i..], nullable) == Parse(s)
    {
      assert s[i..][1..] == s[i + 1..];
      if IsArgLetter(s[i]) {
        return Detail(s[i], nullable), s[i + 1..];
      }
      if s[i] == '?' {
        nullable := true;
      }
      i := i + 1;
    }
    return Detail('\0', nullable), [];
  }

  method ArgCountForSignature(s: string) returns (count: nat)
    ensures count == |Parse(s)|
  {
    count := 0;
    var i := 0;
    assert s[0..] == s;
    ghost var pending := false;
    while i < |s|
      invariant 0 <= i <= |s|
      invariant count + |ParseFrom(s[i..], pending)| == |Parse(s)|
    {
      assert s[i..][1..] == s[i + 1..];
      if IsArgLetter(s[i]) {
        count := count + 1;
        pending := false;
      } else {
        pending := pending || s[i] == '?';
      }
      i := i + 1;
    }
  }

  // ---------- Versions ----------

  predicate IsDigit(c: char) {
    '0' <= c <= '9'
  }

  function DigitValue(c: char): nat
    requires IsDigit(c)
  {
    c as int - '0' as int
  }

  /** `atoi` on a string that does not start with blanks or a sign. */
  function Atoi(s: string, acc: nat): nat {
    if s != [] && IsDigit(s[0]) then Atoi(s[1..], acc * 10 + DigitValue(s[0])) else acc
  }

  function GetSince(signature: string): nat {
    var since := Atoi(signature, 0);
    if since == 0 then 1 else since
  }
}
