/** The string operations of Python that several modules rely on. */
module Text {
  /** The characters `str.strip` removes and `\s` matches (`str.isspace`). */
  predicate IsSpace(c: char) {
    var code := c as int;
    || 9 <= code <= 13 || 28 <= code <= 32 || code == 0x85 || code == 0xA0 || code == 0x1680
    || 0x2000 <= code <= 0x200A || code == 0x2028 || code == 0x2029 || code == 0x202F || code == 0x205F
    || code == 0x3000
  }

  function StripLeft(s: string): string {
    if s != [] && IsSpace(s[0]) then StripLeft(s[1..]) else s
  }

  function StripRight(s: string): string {
    if s != [] && IsSpace(s[|s| - 1]) then StripRight(s[..|s| - 1]) else s
  }

  function Strip(s: string): string {
    StripRight(StripLeft(s))
  }

  predicate AllSpace(s: string) {
    forall i :: 0 <= i < |s| ==> IsSpace(s[i])
  }

  /** Nothing to strip at either end. */
  predicate Trimmed(s: string) {
    s != [] ==> !IsSpace(s[0]) && !IsSpace(s[|s| - 1])
  }

  lemma {:induction false} StripLeftExactly(s: string) returns (before: string)
    ensures s == before + StripLeft(s) && AllSpace(before)
    ensures StripLeft(s) != [] ==> !IsSpace(StripLeft(s)[0])
  {
    before := [];
    if s != [] && IsSpace(s[0]) {
      before := StripLeftExactly(s[1..]);
      before := [s[0]] + before;
    }
  }

  lemma {:induction false} StripRightExactly(s: string) returns (after: string)
    ensures s == StripRight(s) + after && AllSpace(after)
    ensures StripRight(s) != [] ==> !IsSpace(StripRight(s)[|StripRight(s)| - 1])
  {
    after := [];
    if s != [] && IsSpace(s[|s| - 1]) {
      after := StripRightExactly(s[..|s| - 1]);
      after := after + [s[|s| - 1]];
    }
  }

  /** Stripping removes white space from both ends, all of it and nothing else. */
  lemma StripExactly(s: string) returns (before: string, after: string)
    ensures s == before + Strip(s) + after
    ensures AllSpace(before) && AllSpace(after) && Trimmed(Strip(s))
  {
    before := StripLeftExactly(s);
    after := StripRightExactly(StripLeft(s));
    assert Strip(s) != [] ==> Strip(s)[0] == StripLeft(s)[0];
  }

  /** Text without white space at its ends stays as it is. */
  lemma TrimmedIsKept(s: string)
    requires Trimmed(s)
    ensures Strip(s) == s
  {
  }
}
