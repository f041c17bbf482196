// The parts of Python's `str` the source relies on.
module PyStr {
  // `str.isspace` for one character, which is also what `\s` matches in a str pattern.
  predicate IsSpace(c: char) {
    var v := c as int;
    || 9 <= v <= 13
    || 28 <= v <= 32
    || v == 0x85
    || v == 0xA0
    || v == 0x1680
    || 0x2000 <= v <= 0x200A
    || v == 0x2028
    || v == 0x2029
    || v == 0x202F
    || v == 0x205F
    || v == 0x3000
  }

  function StripLeft(s: string): (t: string)
    ensures t != "" ==> !IsSpace(t[0])
    ensures |t| <= |s| && t == s[|s| - |t|..]
    ensures forall i :: 0 <= i < |s| - |t| ==> IsSpace(s[i])
  {
    if s != "" && IsSpace(s[0]) then StripLeft(s[1..]) else s
  }

  function StripRight(s: string): (t: string)
    ensures t != "" ==> !IsSpace(t[|t| - 1])
    ensures t <= s
    ensures forall i :: |t| <= i < |s| ==> IsSpace(s[i])
  {
    if s != "" && IsSpace(s[|s| - 1]) then StripRight(s[..|s| - 1]) else s
  }

  function Strip(s: string): (t: string)
    ensures t != "" ==> !IsSpace(t[0]) && !IsSpace(t[|t| - 1])
    ensures |t| <= |s|
  {
    StripRight(StripLeft(s))
  }

  // Stripping takes off the spaces at both ends, all of them and nothing else.
  lemma StripExactly(s: string) returns (a: nat, b: nat)
    ensures a <= b <= |s| && Strip(s) == s[a..b]
    ensures forall i :: 0 <= i < a || b <= i < |s| ==> IsSpace(s[i])
    ensures a < b ==> !IsSpace(s[a]) && !IsSpace(s[b - 1])
  {
    hide IsSpace, StripLeft, StripRight;
    var left := StripLeft(s);
    a := |s| - |left|;
    b := a + |Strip(s)|;
    assert Strip(s) == left[..b - a] == s[a..b];
    forall i | b <= i < |s| ensures IsSpace(s[i]) {
      assert s[i] == left[i - a];
    }
  }

  // Nothing is left exactly when there is nothing else.
  lemma BlankStrips(line: string)
    ensures (forall i :: 0 <= i < |line| ==> IsSpace(line[i])) <==> Strip(line) == ""
  {
    hide Strip;
    var a, b := StripExactly(line);
    assert a < b ==> !IsSpace(line[a]);
  }
}
