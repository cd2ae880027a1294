/** The string functions of the Go and Rust libraries that the model needs. */
module Text {

  /** Unicode White_Space, as both libraries trim it. */
  predicate IsSpace(c: char) {
    || '\t' <= c <= '\r' || c == ' ' || c == '\U{85}' || c == '\U{A0}' || c == '\U{1680}'
    || '\U{2000}' <= c <= '\U{200A}' || c == '\U{2028}' || c == '\U{2029}' || c == '\U{202F}'
    || c == '\U{205F}' || c == '\U{3000}'
  }

  function TrimLeft(s: string): string {
    if s != "" && IsSpace(s[0]) then TrimLeft(s[1..]) else s
  }

  function TrimRight(s: string): string {
    if s != "" && IsSpace(s[|s| - 1]) then TrimRight(s[..|s| - 1]) else s
  }

  function TrimSpace(s: string): string {
    TrimRight(TrimLeft(s))
  }

  predicate IsBlank(s: string) {
    TrimSpace(s) == ""
  }

  /** Without its trailing slashes. */
  function TrimSlashes(s: string): string {
    if s != "" && s[|s| - 1] == '/' then TrimSlashes(s[..|s| - 1]) else s
  }

  /** Neither end is white space. */
  predicate IsTrimmed(s: string) {
    s == "" || (!IsSpace(s[0]) && !IsSpace(s[|s| - 1]))
  }

  lemma {:induction false} TrimLeftStarts(s: string)
    ensures TrimLeft(s) == "" || !IsSpace(TrimLeft(s)[0])
    ensures forall c :: c in TrimLeft(s) ==> c in s
  {
    if s != "" && IsSpace(s[0]) {
      TrimLeftStarts(s[1..]);
    }
  }

  lemma {:induction false} TrimRightEnds(s: string)
    ensures TrimRight(s) <= s
    ensures TrimRight(s) == "" || !IsSpace(TrimRight(s)[|TrimRight(s)| - 1])
  {
    if s != "" && IsSpace(s[|s| - 1]) {
      TrimRightEnds(s[..|s| - 1]);
    }
  }

  /** Trimming leaves a trimmed string made of characters of the original. */
  lemma TrimSpaceTrims(s: string)
    ensures IsTrimmed(TrimSpace(s)) && forall c :: c in TrimSpace(s) ==> c in s
  {
    TrimLeftStarts(s);
    TrimRightEnds(TrimLeft(s));
    var t := TrimSpace(s);
    assert t != "" ==> t[0] == TrimLeft(s)[0];
    assert forall c :: c in t ==> c in TrimLeft(s);
  }

  /** The 25 white-space code points of Unicode. */
  lemma SpacesAre(c: char)
    ensures IsSpace(c) <==> c as int in [
      0x09, 0x0a, 0x0b, 0x0c, 0x0d, 0x20, 0x85, 0xa0, 0x1680, 0x2000, 0x2001, 0x2002, 0x2003, 0x2004, 0x2005, 0x2006,
      0x2007, 0x2008, 0x2009, 0x200a, 0x2028, 0x2029, 0x202f, 0x205f, 0x3000]
  {
  }

  /** Positions i to j of s are white space. */
  predicate SpaceIn(s: string, i: nat, j: nat)
    requires j <= |s|
  {
    forall k :: i <= k < j ==> IsSpace(s[k])
  }

  lemma {:induction false} TrimLeftExactly(s: string) returns (i: nat)
    ensures i <= |s| && TrimLeft(s) == s[i..] && SpaceIn(s, 0, i)
  {
    i := 0;
    if s != "" && IsSpace(s[0]) {
      var tail := s[1..];
      i := TrimLeftExactly(tail);
      assert forall k :: 1 <= k < i + 1 ==> s[k] == tail[k - 1];
      i := i + 1;
    }
  }

  lemma {:induction false} TrimRightExactly(s: string) returns (j: nat)
    ensures j <= |s| && TrimRight(s) == s[..j] && SpaceIn(s, j, |s|)
  {
    j := |s|;
    if s != "" && IsSpace(s[|s| - 1]) {
      var init := s[..|s| - 1];
      j := TrimRightExactly(init);
      assert forall k :: j <= k < |init| ==> IsSpace(init[k]);
    }
  }

  lemma CutTwice(s: string, i: nat, k: nat)
    requires i + k <= |s| && SpaceIn(s[i..], k, |s| - i)
    ensures s[i..][..k] == s[i..i + k] && SpaceIn(s, i + k, |s|)
  {
    hide IsSpace;
    assert forall m :: k <= m < |s| - i ==> IsSpace(s[i..][m]) && s[i..][m] == s[i + m];
    forall n | i + k <= n < |s| ensures IsSpace(s[n]) {
      assert IsSpace(s[i..][n - i]);
    }
  }

  /** Trimming takes white space away at both ends, and nothing else. */
  lemma TrimSpaceExactly(s: string) returns (i: nat, j: nat)
    ensures i <= j <= |s| && TrimSpace(s) == s[i..j] && SpaceIn(s, 0, i) && SpaceIn(s, j, |s|)
  {
    hide IsSpace, TrimLeft, TrimRight, SpaceIn;
    i := TrimLeftExactly(s);
    var k := TrimRightExactly(s[i..]);
    CutTwice(s, i, k);
    j := i + k;
  }

  /** A trimmed string is left alone. */
  lemma TrimmedStays(s: string)
    requires IsTrimmed(s)
    ensures TrimSpace(s) == s
  {
  }

  lemma {:induction false} TrimSlashesEnds(s: string)
    ensures TrimSlashes(s) <= s
    ensures TrimSlashes(s) == "" || TrimSlashes(s)[|TrimSlashes(s)| - 1] != '/'
  {
    if s != "" && s[|s| - 1] == '/' {
      TrimSlashesEnds(s[..|s| - 1]);
    }
  }

  lemma {:induction false} TrimSlashesExactly(s: string)
    ensures TrimSlashes(s) <= s && forall c :: c in s[|TrimSlashes(s)|..] ==> c == '/'
  {
    TrimSlashesEnds(s);
    if s != "" && s[|s| - 1] == '/' {
      var init := s[..|s| - 1];
      TrimSlashesExactly(init);
      TrimSlashesEnds(init);
      assert s[|TrimSlashes(s)|..] == init[|TrimSlashes(s)|..] + "/";
    }
  }

  /** s has "/t/" at position i. */
  predicate MarkerAt(s: string, i: nat) {
    i + 3 <= |s| && s[i] == '/' && s[i + 1] == 't' && s[i + 2] == '/'
  }

  /** strings.LastIndex(s, "/t/"), looking no further than position i; -1 if there is none. */
  function LastMarker(s: string, i: nat): (r: int)
    ensures -1 <= r <= i
    ensures r >= 0 ==> MarkerAt(s, r)
    ensures forall j: nat :: r < j <= i ==> !MarkerAt(s, j)
  {
    if MarkerAt(s, i) then i
    else if i == 0 then -1
    else LastMarker(s, i - 1)
  }
}
