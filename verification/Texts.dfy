/** Removing the white space around a text. */
module Texts {

  // The characters that Python counts as white space.
  predicate IsBlank(c: char) {
    var n := c as int;
    || 0x09 <= n <= 0x0D || 0x1C <= n <= 0x20 || n == 0x85 || n == 0xA0 || n == 0x1680
    || 0x2000 <= n <= 0x200A || n == 0x2028 || n == 0x2029 || n == 0x202F || n == 0x205F || n == 0x3000
  }

  function StripLeft(s: string): (r: string)
    ensures r != "" ==> !IsBlank(r[0])
  {
    if s != "" && IsBlank(s[0]) then StripLeft(s[1..]) else s
  }

  function StripRight(s: string): (r: string)
    ensures r <= s
    ensures r != "" ==> !IsBlank(r[|r| - 1])
  {
    if s != "" && IsBlank(s[|s| - 1]) then StripRight(s[..|s| - 1]) else s
  }

  // The result starts and ends with no white space.
  function Strip(s: string): (r: string)
    ensures r != "" ==> !IsBlank(r[0]) && !IsBlank(r[|r| - 1])
  {
    StripRight(StripLeft(s))
  }

  /** Only a text that is all white space is stripped to nothing. */
  lemma {:induction false} StripsToNothing(s: string)
    ensures Strip(s) == "" <==> forall i :: 0 <= i < |s| ==> IsBlank(s[i])
  {
    LeftToNothing(s);
    var t := StripLeft(s);
    if t != "" {
      RightKeepsFirst(t);
    }
  }

  lemma {:induction false} LeftToNothing(s: string)
    ensures StripLeft(s) == "" <==> forall i :: 0 <= i < |s| ==> IsBlank(s[i])
  {
    if s != "" && IsBlank(s[0]) {
      LeftToNothing(s[1..]);
      assert forall i :: 0 < i < |s| ==> s[i] == s[1..][i - 1];
      assert forall i :: 0 <= i < |s[1..]| ==> s[1..][i] == s[i + 1];
    }
  }

  lemma {:induction false} RightKeepsFirst(s: string)
    requires s != "" && !IsBlank(s[0])
    ensures StripRight(s) != ""
  {
    if IsBlank(s[|s| - 1]) {
      RightKeepsFirst(s[..|s| - 1]);
    }
  }

  ghost predicate AllBlank(s: string) {
    forall i :: 0 <= i < |s| ==> IsBlank(s[i])
  }

  /** Only white space is taken off, and only at the ends. */
  lemma {:induction false} StripKeepsMiddle(s: string) returns (left: string, right: string)
    ensures s == left + Strip(s) + right && AllBlank(left) && AllBlank(right)
  {
    left := LeftIsBlank(s);
    right := RightIsBlank(StripLeft(s));
  }

  lemma {:induction false} LeftIsBlank(s: string) returns (left: string)
    ensures s == left + StripLeft(s) && AllBlank(left)
  {
    left := "";
    if s != "" && IsBlank(s[0]) {
      left := LeftIsBlank(s[1..]);
      assert s == [s[0]] + s[1..];
      left := [s[0]] + left;
    }
  }

  lemma {:induction false} RightIsBlank(s: string) returns (right: string)
    ensures s == StripRight(s) + right && AllBlank(right)
  {
    right := "";
    if s != "" && IsBlank(s[|s| - 1]) {
      right := RightIsBlank(s[..|s| - 1]);
      assert s == s[..|s| - 1] + [s[|s| - 1]];
      right := right + [s[|s| - 1]];
    }
  }
}
