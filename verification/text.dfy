/** The few Python `str` operations the system relies on: `isspace`,
    `strip`/`rstrip`, `lower`, `isalnum` and the substring test `in`. */
module Text {

  /** The whitespace characters of Latin-1, listed one by one. */
  const Latin1Spaces: string := "\t\n\U{000B}\U{000C}\r\U{001C}\U{001D}\U{001E}\U{001F} \U{0085}\U{00A0}"

  /** Python's `str.isspace` for one character: the code points CPython
      treats as whitespace. */
  predicate IsSpace(c: char)
    ensures c <= '\U{00FF}' ==> (IsSpace(c) <==> c in Latin1Spaces)
  {
    ('\t' <= c <= '\r') || ('\U{001C}' <= c <= ' ') || c == '\U{0085}' || c == '\U{00A0}'
    || c == '\U{1680}' || ('\U{2000}' <= c <= '\U{200A}') || c == '\U{2028}' || c == '\U{2029}'
    || c == '\U{202F}' || c == '\U{205F}' || c == '\U{3000}'
  }

  /** Python's `str.isalnum` for one character, exact on ASCII and Latin-1;
      characters above U+00FF count as not alphanumeric. */
  predicate IsAlnum(c: char) {
    ('0' <= c <= '9') || ('A' <= c <= 'Z') || ('a' <= c <= 'z') || c == '\U{00AA}'
    || ('\U{00B2}' <= c <= '\U{00B3}') || c == '\U{00B5}' || ('\U{00B9}' <= c <= '\U{00BA}')
    || ('\U{00BC}' <= c <= '\U{00BE}') || ('\U{00C0}' <= c <= '\U{00D6}')
    || ('\U{00D8}' <= c <= '\U{00F6}') || ('\U{00F8}' <= c <= '\U{00FF}')
  }

  /** All whitespace lies in the two ranges below, which hold no letter or
      digit of Latin-1. */
  lemma SpaceBounds(c: char)
    requires IsSpace(c)
    ensures c <= ' ' || c == '\U{0085}' || c == '\U{00A0}' || c >= '\U{1680}'
  {
  }

  lemma AlnumIsNotSpace(c: char)
    requires IsAlnum(c)
    ensures !IsSpace(c)
  {
    if IsSpace(c) {
      SpaceBounds(c);
    }
  }

  /** ASCII letters are not whitespace. */
  lemma LetterIsNotSpace(c: char)
    requires 'a' <= c <= 'z' || 'A' <= c <= 'Z'
    ensures !IsSpace(c)
  {
    if IsSpace(c) {
      SpaceBounds(c);
    }
  }

  /** Python's `str.lower` for one character: ASCII and Latin-1 capitals
      (other than the multiplication sign) map to their small letters. */
  function LowerChar(c: char): char {
    if ('A' <= c <= 'Z') || ('\U{00C0}' <= c <= '\U{00DE}' && c != '\U{00D7}')
    then (c as int + 32) as char
    else c
  }

  function Lower(s: string): (r: string)
    ensures |r| == |s|
    ensures forall i :: 0 <= i < |s| ==> r[i] == LowerChar(s[i])
  {
    seq(|s|, i requires 0 <= i < |s| => LowerChar(s[i]))
  }

  lemma LowerIdempotent(s: string)
    ensures Lower(Lower(s)) == Lower(s)
  {
  }

  /** Every character of `s` is in the class `p`. */
  predicate All(s: string, p: char -> bool) {
    forall i :: 0 <= i < |s| ==> p(s[i])
  }

  lemma AllAppend(a: string, b: string, sp: char -> bool)
    requires All(a, sp) && All(b, sp)
    ensures All(a + b, sp)
  {
    assert forall i :: |a| <= i < |a| + |b| ==> (a + b)[i] == b[i - |a|];
  }

  /** How many members of the class `sp` (whitespace, by default, in Python)
      `s` starts with. */
  function LeadingCount(s: string, sp: char -> bool): (n: nat)
    ensures n <= |s|
    ensures forall i :: 0 <= i < n ==> sp(s[i])
    ensures n == |s| || !sp(s[n])
  {
    if s != [] && sp(s[0]) then 1 + LeadingCount(s[1..], sp) else 0
  }

  /** How many members of `sp` `s` ends with. */
  function TrailingCount(s: string, sp: char -> bool): (n: nat)
    ensures n <= |s|
    ensures forall i :: |s| - n <= i < |s| ==> sp(s[i])
    ensures n == |s| || !sp(s[|s| - n - 1])
  {
    if s != [] && sp(s[|s| - 1]) then 1 + TrailingCount(s[..|s| - 1], sp) else 0
  }

  /** `s.lstrip()` for the class `sp`: the longest suffix of `s` that does not
      start with a member. */
  function LStrip(s: string, sp: char -> bool): (r: string)
    ensures |r| <= |s| && r == s[|s| - |r|..]
    ensures All(s[..|s| - |r|], sp)
    ensures r == [] || !sp(r[0])
  {
    s[LeadingCount(s, sp)..]
  }

  /** `s.rstrip()` for the class `sp`: the longest prefix of `s` that does not
      end with a member. */
  function RStrip(s: string, sp: char -> bool): (r: string)
    ensures |r| <= |s| && r == s[..|r|]
    ensures All(s[|r|..], sp)
    ensures r == [] || !sp(r[|r| - 1])
  {
    s[..|s| - TrailingCount(s, sp)]
  }

  /** `s.strip()` for the class `sp`: the middle of `s` once leading and
      trailing members are gone. */
  function Strip(s: string, sp: char -> bool): (r: string)
    ensures LeadingCount(s, sp) + |r| <= |s|
    ensures r == s[LeadingCount(s, sp)..LeadingCount(s, sp) + |r|]
    ensures All(s[..LeadingCount(s, sp)], sp) && All(s[LeadingCount(s, sp) + |r|..], sp)
    ensures r == [] || (!sp(r[0]) && !sp(r[|r| - 1]))
  {
    var a := LeadingCount(s, sp);
    var l := LStrip(s, sp);
    var r := RStrip(l, sp);
    assert s[a + |r|..] == l[|r|..];
    assert r != [] ==> r[0] == l[0];
    r
  }

  /** What `strip` keeps is the span between the leading and the trailing
      members. */
  lemma StripSpan(s: string, sp: char -> bool)
    ensures var a := LeadingCount(s, sp);
            var b := a + |Strip(s, sp)|;
            a <= b <= |s| && All(s[..a], sp) && All(s[b..], sp) && s[a..b] == Strip(s, sp)
  {
    var a := LeadingCount(s, sp);
    var r := Strip(s, sp);
    assert s[a..a + |r|] == r;
  }

  /** Members in front of a string that does not start with one are exactly
      the leading ones. */
  lemma LeadingOfPadded(pad: string, t: string, sp: char -> bool)
    requires All(pad, sp)
    requires t == [] || !sp(t[0])
    ensures LeadingCount(pad + t, sp) == |pad|
  {
    var s := pad + t;
    assert forall i :: 0 <= i < |pad| ==> s[i] == pad[i];
    assert t != [] ==> s[|pad|] == t[0];
  }

  /** Members after a string that does not end with one are exactly the
      trailing ones. */
  lemma TrailingOfPadded(t: string, pad: string, sp: char -> bool)
    requires All(pad, sp)
    requires t == [] || !sp(t[|t| - 1])
    ensures TrailingCount(t + pad, sp) == |pad|
  {
    var s := t + pad;
    assert forall i :: |t| <= i < |s| ==> s[i] == pad[i - |t|];
    assert t != [] ==> s[|t| - 1] == t[|t| - 1];
  }

  lemma LStripPadded(pad: string, t: string, sp: char -> bool)
    requires All(pad, sp)
    requires t == [] || !sp(t[0])
    ensures LStrip(pad + t, sp) == t
  {
    LeadingOfPadded(pad, t, sp);
    assert (pad + t)[|pad|..] == t;
  }

  lemma RStripPadded(t: string, pad: string, sp: char -> bool)
    requires All(pad, sp)
    requires t == [] || !sp(t[|t| - 1])
    ensures RStrip(t + pad, sp) == t
  {
    TrailingOfPadded(t, pad, sp);
    assert (t + pad)[..|t|] == t;
  }

  /** Trailing members added to any string are stripped with the rest. */
  lemma RStripIgnoresTrailingSpace(s: string, pad: string, sp: char -> bool)
    requires All(pad, sp)
    ensures RStrip(s + pad, sp) == RStrip(s, sp)
  {
    var t := RStrip(s, sp);
    var rest := s[|t|..] + pad;
    assert s + pad == t + rest;
    AllAppend(s[|t|..], pad, sp);
    RStripPadded(t, rest, sp);
  }

  /** Members around a core that neither starts nor ends with one are exactly
      what `strip` removes. */
  lemma StripPadded(lead: string, core: string, trail: string, sp: char -> bool)
    requires All(lead, sp) && All(trail, sp)
    requires core != [] && !sp(core[0]) && !sp(core[|core| - 1])
    ensures Strip(lead + core + trail, sp) == core
  {
    var s := lead + core + trail;
    assert s == lead + (core + trail);
    LeadingOfPadded(lead, core + trail, sp);
    assert s[|lead|..] == core + trail;
    TrailingOfPadded(core, trail, sp);
    assert (core + trail)[..|core|] == core;
  }

  /** The same, for a slice of `s` with only members on either side. */
  lemma StripSlice(s: string, a: nat, b: nat, sp: char -> bool)
    requires a < b <= |s| && All(s[..a], sp) && All(s[b..], sp)
    requires !sp(s[a]) && !sp(s[b - 1])
    ensures Strip(s, sp) == s[a..b]
  {
    assert s == s[..a] + s[a..b] + s[b..];
    StripPadded(s[..a], s[a..b], s[b..], sp);
  }

  /** `needle` occurs in `hay` starting at position `i`. */
  predicate OccursAt(needle: string, hay: string, i: nat) {
    i + |needle| <= |hay| && hay[i..i + |needle|] == needle
  }

  /** Python's `needle in hay` on strings: `needle` occurs contiguously. */
  ghost predicate IsSubstring(needle: string, hay: string) {
    exists i: nat :: OccursAt(needle, hay, i)
  }

  function Contains(hay: string, needle: string): (b: bool)
    ensures b <==> IsSubstring(needle, hay)
    decreases |hay|
  {
    if needle <= hay then
      assert OccursAt(needle, hay, 0);
      true
    else if hay == [] then
      false
    else
      var rest := Contains(hay[1..], needle);
      assert rest ==> IsSubstring(needle, hay) by {
        if rest {
          var i: nat :| OccursAt(needle, hay[1..], i);
          assert OccursAt(needle, hay, i + 1);
        }
      }
      assert IsSubstring(needle, hay) ==> rest by {
        if IsSubstring(needle, hay) {
          var i: nat :| OccursAt(needle, hay, i);
          if i > 0 {
            assert OccursAt(needle, hay[1..], i - 1);
          }
        }
      }
      rest
  }
}
