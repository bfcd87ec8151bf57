/** The PHP string built-ins the importer relies on: trim(), strtolower() and
    implode(). Strings are sequences of single-byte characters; only the ASCII
    behaviour of these functions is modelled. */
module PhpStrings {

  /** The characters trim() strips when no character list is given: space,
      tab, line feed, carriage return, NUL and vertical tab. */
  predicate IsTrimmable(c: char) {
    c == ' ' || c == '\t' || c == '\n' || c == '\r' || c as int == 0 || c as int == 0x0B
  }

  /** How many trimmable characters s starts with. */
  function LeadingTrimmable(s: string): (n: nat)
    ensures n <= |s|
    ensures forall k :: 0 <= k < n ==> IsTrimmable(s[k])
    ensures n == |s| || !IsTrimmable(s[n])
    decreases |s|
  {
    if s != [] && IsTrimmable(s[0]) then 1 + LeadingTrimmable(s[1..]) else 0
  }

  /** The length of s once its trailing trimmable characters are dropped. */
  function KeptLength(s: string): (m: nat)
    ensures m <= |s|
    ensures forall k :: m <= k < |s| ==> IsTrimmable(s[k])
    ensures m == 0 || !IsTrimmable(s[m - 1])
    decreases |s|
  {
    if s != [] && IsTrimmable(s[|s| - 1]) then KeptLength(s[..|s| - 1]) else |s|
  }

  /** trim(): the result is the middle slice s[a..a+|r|] of s, everything cut
      off on either side is trimmable, and neither end of the result is. */
  function Trim(s: string): (r: string)
    ensures var a := LeadingTrimmable(s);
      && a + |r| <= |s|
      && r == s[a..a + |r|]
      && (forall k :: 0 <= k < a ==> IsTrimmable(s[k]))
      && (forall k :: a + |r| <= k < |s| ==> IsTrimmable(s[k]))
    ensures r == [] || (!IsTrimmable(r[0]) && !IsTrimmable(r[|r| - 1]))
  {
    var a := LeadingTrimmable(s);
    var l := s[a..];
    var m := KeptLength(l);
    assert forall k :: a + m <= k < |s| ==> IsTrimmable(s[k]) by {
      forall k | a + m <= k < |s| ensures IsTrimmable(s[k]) {
        assert s[k] == l[k - a];
      }
    }
    assert m == 0 || l[0] == s[a];
    s[a..a + m]
  }

  /** A string that neither starts nor ends with a trimmable character is
      left alone by trim(). */
  lemma TrimKeeps(s: string)
    requires s == [] || (!IsTrimmable(s[0]) && !IsTrimmable(s[|s| - 1]))
    ensures Trim(s) == s
  {
  }

  /** trim() is idempotent. */
  lemma TrimIdempotent(s: string)
    ensures Trim(Trim(s)) == Trim(s)
  {
    TrimKeeps(Trim(s));
  }

  /** An independent description of trimming: t is a slice of s that
      starts and ends with a non-trimmable character (or is empty), and
      everything around it is trimmable. */
  predicate IsTrimmingOf(t: string, s: string) {
    exists a :: 0 <= a <= |s| - |t| && IsTrimmingAt(t, s, a)
  }

  predicate IsTrimmingAt(t: string, s: string, a: nat)
    requires a + |t| <= |s|
  {
    && t == s[a..a + |t|]
    && (forall k :: 0 <= k < a ==> IsTrimmable(s[k]))
    && (forall k :: a + |t| <= k < |s| ==> IsTrimmable(s[k]))
    && (t == [] || (!IsTrimmable(t[0]) && !IsTrimmable(t[|t| - 1])))
  }

  /** trim() computes that trimming. */
  lemma TrimIsATrimming(s: string)
    ensures IsTrimmingOf(Trim(s), s)
  {
    assert IsTrimmingAt(Trim(s), s, LeadingTrimmable(s));
  }

  /** Any trimming of s is the one trim() computes. */
  lemma TrimmingIsUnique(t: string, s: string, a: nat)
    requires a + |t| <= |s| && IsTrimmingAt(t, s, a)
    ensures t == Trim(s)
  {
    var r := Trim(s);
    var a0 := LeadingTrimmable(s);
    if t != [] && r != [] {
      assert s[a] == t[0] && s[a0] == r[0];
      assert a == a0;
      assert s[a + |t| - 1] == t[|t| - 1] && s[a0 + |r| - 1] == r[|r| - 1];
      assert |t| == |r|;
    }
  }

  /** strtolower() on one ASCII character. */
  function LowerChar(c: char): (r: char)
    ensures 'A' <= c <= 'Z' ==> r as int == c as int + 32
    ensures !('A' <= c <= 'Z') ==> r == c
  {
    if 'A' <= c <= 'Z' then (c as int + 32) as char else c
  }

  /** strtolower(): ASCII upper-case letters become lower-case, every other
      character is kept, position by position. */
  function Lower(s: string): (r: string)
    ensures |r| == |s|
    ensures forall k :: 0 <= k < |s| ==> r[k] == LowerChar(s[k])
  {
    seq(|s|, k requires 0 <= k < |s| => LowerChar(s[k]))
  }

  /** implode(): the parts with the separator between each neighbouring
      pair. */
  function Join(sep: string, parts: seq<string>): string
  {
    if parts == [] then "" else if |parts| == 1 then parts[0] else parts[0] + sep + Join(sep, parts[1..])
  }
}
