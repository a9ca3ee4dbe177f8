/** Well-formed UTF-8 byte sequences and their character boundaries (RFC 3629, sections 3 and 4). */
module Utf8 {
  import opened Operations

  predicate Tail(b: byte) { 0x80 <= b <= 0xBF }

  /** Number of bytes of the character at the front of s; 0 when no character starts there. */
  function CharLength(s: Text): (n: nat)
    ensures n <= 4 && n <= |s|
  {
    if |s| >= 1 && s[0] <= 0x7F then 1
    else if |s| >= 2 && 0xC2 <= s[0] <= 0xDF && Tail(s[1]) then 2
    else if |s| >= 3 && 0xE0 <= s[0] <= 0xEF && SecondOfThree(s[0], s[1]) && Tail(s[2]) then 3
    else if |s| >= 4 && 0xF0 <= s[0] <= 0xF4 && SecondOfFour(s[0], s[1]) && Tail(s[2]) && Tail(s[3]) then 4
    else 0
  }

  /** No overlong form (E0) and no surrogate (ED). */
  predicate SecondOfThree(lead: byte, b: byte) {
    Tail(b) && (lead == 0xE0 ==> b >= 0xA0) && (lead == 0xED ==> b <= 0x9F)
  }

  /** No overlong form (F0) and nothing above U+10FFFF (F4). */
  predicate SecondOfFour(lead: byte, b: byte) {
    Tail(b) && (lead == 0xF0 ==> b >= 0x90) && (lead == 0xF4 ==> b <= 0x8F)
  }

  predicate IsUtf8(s: Text)
    decreases |s|
  {
    s == [] || (CharLength(s) > 0 && IsUtf8(s[CharLength(s)..]))
  }

  /** Cutting s at i splits no character. */
  predicate Boundary(s: Text, i: int) {
    0 <= i <= |s| && IsUtf8(s[..i]) && IsUtf8(s[i..])
  }

  lemma CharLengthOfPrefix(a: Text, b: Text)
    requires CharLength(a) > 0
    ensures CharLength(a + b) == CharLength(a)
  {
  }

  lemma {:induction false} Concat(a: Text, b: Text)
    requires IsUtf8(a) && IsUtf8(b)
    ensures IsUtf8(a + b)
    decreases |a|
  {
    hide CharLength;
    if a == [] {
      assert a + b == b;
    } else {
      var n := CharLength(a);
      CharLengthOfPrefix(a, b);
      Concat(a[n..], b);
      assert (a + b)[n..] == a[n..] + b;
    }
  }

  /** What follows a well-formed prefix of a well-formed text is well formed. */
  lemma {:induction false} Cancel(a: Text, b: Text)
    requires IsUtf8(a) && IsUtf8(a + b)
    ensures IsUtf8(b)
    decreases |a|
  {
    hide CharLength;
    if a == [] {
      assert a + b == b;
    } else {
      var n := CharLength(a);
      CharLengthOfPrefix(a, b);
      assert (a + b)[n..] == a[n..] + b;
      Cancel(a[n..], b);
    }
  }

  lemma BoundaryParts(s: Text, i: int)
    requires Boundary(s, i)
    ensures 0 <= i <= |s| && IsUtf8(s[..i]) && IsUtf8(s[i..])
  {
  }

  lemma PrefixGivesBoundary(s: Text, i: nat)
    requires IsUtf8(s) && i <= |s| && IsUtf8(s[..i])
    ensures Boundary(s, i)
  {
    assert s == s[..i] + s[i..];
    Cancel(s[..i], s[i..]);
  }

  lemma Between(s: Text, i: nat, j: nat)
    requires Boundary(s, i) && Boundary(s, j) && i <= j
    ensures IsUtf8(s[i..j])
  {
    assert s[..j] == s[..i] + s[i..j];
    Cancel(s[..i], s[i..j]);
  }

  lemma NoCharacterInside(s: Text, i: nat)
    requires 0 < i < CharLength(s)
    ensures Tail(s[i]) && !IsUtf8(s[..i])
  {
  }

  /** In well-formed text the boundaries are the two ends and the positions of bytes that are not
      continuation bytes. */
  lemma {:induction false} BoundaryIsNotTail(s: Text, i: nat)
    requires IsUtf8(s) && i <= |s|
    ensures Boundary(s, i) <==> (i == |s| || !Tail(s[i]))
    decreases |s|
  {
    if i == |s| {
      assert s[..i] == s;
    } else {
      var n := CharLength(s);
      if i == 0 {
        PrefixGivesBoundary(s, 0);
      } else if i < n {
        NoCharacterInside(s, i);
      } else {
        BoundaryIsNotTail(s[n..], i - n);
        BoundaryBehindFirst(s, i);
      }
    }
  }

  /** Behind the first character the boundaries are those of the rest. */
  lemma BoundaryBehindFirst(s: Text, i: nat)
    requires IsUtf8(s) && s != [] && CharLength(s) <= i <= |s|
    ensures Boundary(s, i) <==> Boundary(s[CharLength(s)..], i - CharLength(s))
  {
    hide CharLength, IsUtf8;
    StartsWithCharacter(s);
    assert s[CharLength(s)..][i - CharLength(s)..] == s[i..];
    PrefixBehindFirst(s, i);
  }

  lemma StartsWithCharacter(s: Text)
    requires IsUtf8(s) && s != []
    ensures CharLength(s) > 0
  {
  }

  lemma PrefixBehindFirst(s: Text, i: nat)
    requires CharLength(s) > 0 && CharLength(s) <= i <= |s|
    ensures IsUtf8(s[..i]) <==> IsUtf8(s[CharLength(s)..][..i - CharLength(s)])
  {
    hide CharLength;
    var front := s[..i];
    FirstIsWhole(s, front);
    assert s[CharLength(s)..][..i - CharLength(s)] == front[CharLength(front)..];
  }

  /** Any prefix that holds the first character starts with it. */
  lemma FirstIsWhole(s: Text, front: Text)
    requires CharLength(s) > 0 && front <= s && |front| >= CharLength(s)
    ensures CharLength(front) == CharLength(s)
  {
  }
}
