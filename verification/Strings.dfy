/** Python's string operations, for ASCII text: every other character is its own lower and upper case. */
module Strings {
  predicate IsUpper(c: char) { 'A' <= c <= 'Z' }

  predicate IsLower(c: char) { 'a' <= c <= 'z' }

  predicate IsLowerOrDigit(c: char) { IsLower(c) || '0' <= c <= '9' }

  function LowerChar(c: char): (r: char)
    ensures !IsUpper(r) && (r == '_' <==> c == '_') && (!IsUpper(c) ==> r == c)
  {
    if IsUpper(c) then (c as int + 32) as char else c
  }

  function UpperChar(c: char): (r: char)
    ensures !IsLower(r) && (r == '_' <==> c == '_') && (IsUpper(r) <==> IsUpper(c) || IsLower(c))
    ensures !IsUpper(c) ==> LowerChar(r) == c
  {
    if IsLower(c) then (c as int - 32) as char else c
  }

  /** Changing case keeps the place in the alphabet. */
  lemma SamePlace(c: char)
    ensures IsUpper(c) ==> LowerChar(c) as int - 'a' as int == c as int - 'A' as int
    ensures IsLower(c) ==> UpperChar(c) as int - 'A' as int == c as int - 'a' as int
    ensures !IsLower(c) ==> UpperChar(c) == c
  {
  }

  function Lower(s: string): string {
    seq(|s|, i requires 0 <= i < |s| => LowerChar(s[i]))
  }

  function Upper(s: string): string {
    seq(|s|, i requires 0 <= i < |s| => UpperChar(s[i]))
  }

  predicate NoUpper(s: string) {
    forall c :: c in s ==> !IsUpper(c)
  }

  /** The ASCII characters that count as white space. */
  predicate IsSpace(c: char) {
    c == ' ' || 9 <= c as int <= 13 || 28 <= c as int <= 31
  }

  function Strip(s: string): string {
    if s != "" && IsSpace(s[0]) then Strip(s[1..])
    else if s != "" && IsSpace(s[|s| - 1]) then Strip(s[..|s| - 1])
    else s
  }

  predicate OccursAt(s: string, sub: string, i: int) {
    0 <= i <= |s| - |sub| && s[i..i + |sub|] == sub
  }

  /** sub occurs somewhere in s. */
  predicate Contains(s: string, sub: string) {
    exists i :: 0 <= i <= |s| && OccursAt(s, sub, i)
  }

  lemma ContainsExact(s: string, sub: string)
    ensures Contains(s, sub) <==> exists a, b :: s == a + sub + b
  {
    if i :| 0 <= i <= |s| && OccursAt(s, sub, i) {
      assert s == s[..i] + sub + s[i + |sub|..];
    }
    if a, b :| s == a + sub + b {
      assert OccursAt(s, sub, |a|);
    }
  }

  lemma ContainsThrough(s: string, mid: string, sub: string)
    requires Contains(s, mid) && Contains(mid, sub)
    ensures Contains(s, sub)
  {
    var i :| 0 <= i <= |s| && OccursAt(s, mid, i);
    var j :| 0 <= j <= |mid| && OccursAt(mid, sub, j);
    assert forall k :: 0 <= k < |mid| ==> s[i + k] == s[i..i + |mid|][k] == mid[k];
    assert forall k :: 0 <= k < |sub| ==> mid[j + k] == mid[j..j + |sub|][k] == sub[k];
    assert forall k :: 0 <= k < |sub| ==> s[i + (j + k)] == sub[k];
    assert s[i + j..i + j + |sub|] == sub;
    assert OccursAt(s, sub, i + j);
  }

  predicate Blank(s: string) {
    forall c :: c in s ==> IsSpace(c)
  }

  predicate Trimmed(s: string) {
    s == "" || (!IsSpace(s[0]) && !IsSpace(s[|s| - 1]))
  }

  lemma {:induction false} StripParts(s: string) returns (a: string, b: string)
    ensures Blank(a) && Blank(b) && s == a + Strip(s) + b
    decreases |s|
  {
    if s != "" && IsSpace(s[0]) {
      a, b := StripParts(s[1..]);
      a := [s[0]] + a;
    } else if s != "" && IsSpace(s[|s| - 1]) {
      a, b := StripParts(s[..|s| - 1]);
      b := b + [s[|s| - 1]];
    } else {
      a, b := "", "";
    }
  }

  lemma {:induction false} StripTrims(s: string)
    ensures Trimmed(Strip(s))
    decreases |s|
  {
    if s != "" && IsSpace(s[0]) {
      StripTrims(s[1..]);
    } else if s != "" && IsSpace(s[|s| - 1]) {
      StripTrims(s[..|s| - 1]);
    }
  }

  /** Stripping takes blanks from both ends, and all of them. */
  lemma StripExact(s: string)
    ensures Trimmed(Strip(s)) && exists a, b :: Blank(a) && Blank(b) && s == a + Strip(s) + b
  {
    StripTrims(s);
    var a, b := StripParts(s);
  }

  /** Blanks around a text do not matter. */
  lemma {:induction false} StripIgnores(a: string, s: string, b: string)
    requires Blank(a) && Blank(b)
    ensures Strip(a + s + b) == Strip(s)
    decreases |a| + |b| + |s|
  {
    if a != "" {
      assert a[0] in a && Blank(a[1..]) by {
        assert forall c :: c in a[1..] ==> c in a;
      }
      assert (a + s + b)[0] == a[0] && (a + s + b)[1..] == a[1..] + s + b;
      StripIgnores(a[1..], s, b);
    } else if b == "" {
      assert a + s + b == s;
    } else if s == "" {
      assert b[0] in b && Blank(b[1..]) by {
        assert forall c :: c in b[1..] ==> c in b;
      }
      assert a + s + b == b && a + s + b[1..] == b[1..];
      StripIgnores(a, s, b[1..]);
    } else if IsSpace(s[0]) {
      assert (a + s + b)[0] == s[0] && (a + s + b)[1..] == a + s[1..] + b;
      StripIgnores(a, s[1..], b);
    } else {
      var n := |b| - 1;
      assert b[n] in b && Blank(b[..n]) by {
        assert forall c :: c in b[..n] ==> c in b;
      }
      var t := a + s + b;
      assert t[0] == s[0] && t[|t| - 1] == b[n] && t[..|t| - 1] == a + s + b[..n];
      StripIgnores(a, s, b[..n]);
    }
  }
}
