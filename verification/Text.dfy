/** Searching and trimming strings. */
module Text {

  /** The first position of c in s at or after i, or the length if there is none. */
  function Next(s: string, c: char, i: nat): (p: nat)
    requires i <= |s|
    ensures i <= p <= |s|
    ensures p < |s| ==> s[p] == c
    ensures forall k :: i <= k < p ==> s[k] != c
    decreases |s| - i
  {
    if i == |s| || s[i] == c then i else Next(s, c, i + 1)
  }

  /** The last position of c in s, or the length if there is none. */
  function Last(s: string, c: char): (p: nat)
    ensures p <= |s| && (p < |s| ==> s[p] == c)
    ensures p < |s| ==> forall k :: p < k < |s| ==> s[k] != c
    ensures p == |s| ==> c !in s
  {
    if s == "" then 0
    else if s[|s| - 1] == c then |s| - 1
    else
      var p := Last(s[..|s| - 1], c);
      if p == |s| - 1 then |s| else p
  }

  /** The characters with the Unicode property White_Space. */
  predicate IsWhitespace(c: char) {
    var n := c as int;
    0x9 <= n <= 0xD || n == 0x20 || n == 0x85 || n == 0xA0 || n == 0x1680 || 0x2000 <= n <= 0x200A
    || n == 0x2028 || n == 0x2029 || n == 0x202F || n == 0x205F || n == 0x3000
  }

  /** The same characters one by one. */
  const SPACES: string :=
    "\t\n\U{B}\U{C}\r \U{85}\U{A0}\U{1680}\U{2000}\U{2001}\U{2002}\U{2003}\U{2004}\U{2005}\U{2006}"
    + "\U{2007}\U{2008}\U{2009}\U{200A}\U{2028}\U{2029}\U{202F}\U{205F}\U{3000}"

  lemma WhitespaceIs(c: char)
    ensures IsWhitespace(c) <==> c in SPACES
  {
  }

  function TrimStart(s: string): (t: string)
    ensures |t| <= |s| && (t != "" ==> !IsWhitespace(t[0]))
  {
    if s != "" && IsWhitespace(s[0]) then TrimStart(s[1..]) else s
  }

  function TrimEnd(s: string): (t: string)
    ensures t <= s && (t != "" ==> !IsWhitespace(t[|t| - 1]))
  {
    if s != "" && IsWhitespace(s[|s| - 1]) then TrimEnd(s[..|s| - 1]) else s
  }

  function Trim(s: string): (t: string)
    ensures t != "" ==> !IsWhitespace(t[0]) && !IsWhitespace(t[|t| - 1])
    ensures |t| <= |s|
  {
    TrimEnd(TrimStart(s))
  }

  /** Trimming changes nothing exactly if neither end is white space. */
  lemma TrimmedAlready(s: string)
    ensures Trim(s) == s <==> s == "" || (!IsWhitespace(s[0]) && !IsWhitespace(s[|s| - 1]))
  {
  }

  predicate AllWhitespace(s: string) {
    forall k :: 0 <= k < |s| ==> IsWhitespace(s[k])
  }

  lemma {:induction false} TrimStartStrips(left: string, s: string)
    requires AllWhitespace(left) && (s == "" || !IsWhitespace(s[0]))
    ensures TrimStart(left + s) == s
  {
    if left == "" {
      assert left + s == s;
    } else {
      TrimStartStrips(left[1..], s);
      assert (left + s)[1..] == left[1..] + s;
    }
  }

  lemma {:induction false} TrimEndStrips(s: string, right: string)
    requires AllWhitespace(right) && (s == "" || !IsWhitespace(s[|s| - 1]))
    ensures TrimEnd(s + right) == s
  {
    if right == "" {
      assert s + right == s;
    } else {
      var n := |right| - 1;
      TrimEndStrips(s, right[..n]);
      assert (s + right)[..|s + right| - 1] == s + right[..n];
    }
  }

  /** Trimming takes off the white space around a text, all of it and nothing else. */
  lemma TrimStrips(left: string, s: string, right: string)
    requires AllWhitespace(left) && AllWhitespace(right)
    requires s != "" && !IsWhitespace(s[0]) && !IsWhitespace(s[|s| - 1])
    ensures Trim(left + s + right) == s
  {
    hide IsWhitespace, TrimStart, TrimEnd;
    assert left + s + right == left + (s + right);
    TrimStartStrips(left, s + right);
    TrimEndStrips(s, right);
  }
}
