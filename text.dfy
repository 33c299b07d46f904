/** Case-insensitive substring search, as find_food uses it. Case folding covers the Latin
    letters A-Z and the basic Cyrillic capitals А-Я and Ё; every other character folds to
    itself. */
module Text {

  predicate IsUpper(c: char) {
    ('A' <= c <= 'Z') || ('А' <= c <= 'Я') || c == 'Ё'
  }

  function LowerChar(c: char): (d: char)
    ensures !IsUpper(c) ==> d == c
    ensures IsUpper(c) ==> d != c && !IsUpper(d)
    ensures !IsUpper(d)
  {
    if 'A' <= c <= 'Z' then (c as int + 32) as char
    else if 'А' <= c <= 'Я' then (c as int + 32) as char
    else if c == 'Ё' then 'ё'
    else c
  }

  function Lower(s: string): (r: string)
    ensures |r| == |s|
    ensures forall i :: 0 <= i < |s| ==> r[i] == LowerChar(s[i])
  {
    seq(|s|, i requires 0 <= i < |s| => LowerChar(s[i]))
  }

  /** Folding twice is folding once. */
  lemma LowerIdempotent(s: string)
    ensures Lower(Lower(s)) == Lower(s)
  {
  }

  predicate IsPrefix(p: string, s: string) {
    |p| <= |s| && s[..|p|] == p
  }

  /** p occurs in s at position i. */
  predicate OccursAt(s: string, p: string, i: int) {
    0 <= i && i + |p| <= |s| && s[i..i + |p|] == p
  }

  /** Substring search: try each start position from the left. */
  function Contains(s: string, p: string): (r: bool)
    ensures r <==> exists i :: OccursAt(s, p, i)
    decreases |s|
  {
    if IsPrefix(p, s) then
      assert OccursAt(s, p, 0);
      true
    else if |s| == 0 then
      false
    else
      var r := Contains(s[1..], p);
      ShiftOccurrence(s, p);
      r
  }

  lemma ShiftOccurrence(s: string, p: string)
    requires |s| > 0 && !IsPrefix(p, s)
    ensures (exists i :: OccursAt(s[1..], p, i)) <==> (exists i :: OccursAt(s, p, i))
  {
    if exists i :: OccursAt(s[1..], p, i) {
      var i :| OccursAt(s[1..], p, i);
      assert s[1..][i..i + |p|] == s[i + 1..i + 1 + |p|];
      assert OccursAt(s, p, i + 1);
    }
    if exists i :: OccursAt(s, p, i) {
      var i :| OccursAt(s, p, i);
      if i == 0 {
        assert false;
      }
      assert s[1..][i - 1..i - 1 + |p|] == s[i..i + |p|];
      assert OccursAt(s[1..], p, i - 1);
    }
  }

  /** Case-insensitive containment: the folded pattern occurs in the folded text. */
  predicate MatchesIgnoringCase(s: string, p: string) {
    Contains(Lower(s), Lower(p))
  }

  /** Patterns that differ only in case match the same texts. */
  lemma MatchIgnoresPatternCase(s: string, p: string, q: string)
    requires Lower(p) == Lower(q)
    ensures MatchesIgnoringCase(s, p) == MatchesIgnoringCase(s, q)
  {
  }

  /** The empty pattern matches every text, and every text matches itself in any case. */
  lemma MatchBasics(s: string, t: string)
    ensures MatchesIgnoringCase(s, "")
    ensures Lower(s) == Lower(t) ==> MatchesIgnoringCase(s, t)
  {
    assert OccursAt(Lower(s), Lower(""), 0);
    if Lower(s) == Lower(t) {
      assert Lower(s)[0..|Lower(t)|] == Lower(s);
      assert OccursAt(Lower(s), Lower(t), 0);
    }
  }
}
