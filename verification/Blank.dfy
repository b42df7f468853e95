/** White space around strings, and strings that are empty once it is trimmed. */
module Blank {

  /** The characters with the Unicode property White_Space. */
  predicate IsWhiteSpace(c: char) {
    var n := c as int;
    || 0x9 <= n <= 0xD || n == 0x20 || n == 0x85 || n == 0xA0 || n == 0x1680
    || 0x2000 <= n <= 0x200A || n == 0x2028 || n == 0x2029 || n == 0x202F || n == 0x205F || n == 0x3000
  }

  predicate IsBlank(s: string) {
    forall i | 0 <= i < |s| :: IsWhiteSpace(s[i])
  }

  function Trimmed(s: string): string
    decreases |s|
  {
    if s == [] then []
    else if IsWhiteSpace(s[0]) then Trimmed(s[1..])
    else if IsWhiteSpace(s[|s| - 1]) then Trimmed(s[..|s| - 1])
    else s
  }

  /** Among the printable and control characters of ASCII, these six are white space. */
  lemma AsciiWhiteSpace(c: char)
    requires c as int < 128
    ensures IsWhiteSpace(c) <==> c == ' ' || c == '\t' || c == '\n' || c == '\r' || c as int == 11 || c as int == 12
  {}

  /** Trimming takes white space off both ends and stops at what is not. */
  lemma {:induction false} TrimmedIsCore(s: string) returns (from: nat, to: nat)
    ensures from <= to <= |s| && Trimmed(s) == s[from..to]
    ensures forall i | 0 <= i < from || to <= i < |s| :: IsWhiteSpace(s[i])
    ensures from < to ==> !IsWhiteSpace(s[from]) && !IsWhiteSpace(s[to - 1])
    decreases |s|
  {
    hide IsWhiteSpace;
    if s == [] {
      from, to := 0, 0;
    } else if IsWhiteSpace(s[0]) {
      from, to := TrimmedIsCore(s[1..]);
      from, to := from + 1, to + 1;
    } else if IsWhiteSpace(s[|s| - 1]) {
      from, to := TrimmedIsCore(s[..|s| - 1]);
    } else {
      from, to := 0, |s|;
    }
  }

  /** Nothing is left exactly of a string that is white space throughout. */
  lemma TrimmedEmptyExactly(s: string)
    ensures Trimmed(s) == [] <==> IsBlank(s)
  {
    hide IsWhiteSpace;
    var from, to := TrimmedIsCore(s);
  }
}
