/**
 Shell-style pattern matching as performed by Python's `fnmatch.fnmatch` on a
 POSIX system (where case normalisation is the identity):

 - `*` matches any run of characters, separators included;
 - `?` matches any single character;
 - `[...]` matches one character of a class: `!` first negates it, a `]` right
   after the opening bracket (or after `!`) is a member, `a-z` is a range,
   a leading or trailing `-` is a member;
 - a `[` without a closing `]` is an ordinary character;
 - every other character matches itself; the whole name must be consumed.
 */
module Glob {
  import opened Seqs


  /** A pattern character with special meaning. */
  predicate IsMeta(c: char) {
    c == '*' || c == '?' || c == '['
  }

  /** A pattern that contains no special character at all. */
  predicate IsLiteral(p: string) {
    forall i :: 0 <= i < |p| ==> !IsMeta(p[i])
  }

  /** First index `j >= from` with `p[j] == ']'`, if any. */
  function FindClose(p: string, from: nat): (r: Option<nat>)
    ensures r.Some? ==> from <= r.value < |p| && p[r.value] == ']'
    ensures r.Some? ==> forall k :: from <= k < r.value ==> p[k] != ']'
    ensures r.None? ==> forall k :: from <= k < |p| ==> p[k] != ']'
    decreases |p| - from
  {
    if from >= |p| then None
    else if p[from] == ']' then Some(from)
    else FindClose(p, from + 1)
  }

  /** For a pattern starting with `[`, the index of the bracket that closes the
      class: the scan for `]` starts after an optional `!` and an optional `]`. */
  function ClassEnd(p: string): (r: Option<nat>)
    requires |p| > 0 && p[0] == '['
    ensures r.Some? ==> 1 <= r.value < |p| && p[r.value] == ']'
  {
    var j0 := 1;
    var j1 := if j0 < |p| && p[j0] == '!' then j0 + 1 else j0;
    var j2 := if j1 < |p| && p[j1] == ']' then j1 + 1 else j1;
    FindClose(p, j2)
  }

  /** `c` is one of the members listed in `items`, read left to right: a character
      followed by `-` and another character is an inclusive range, any other
      character stands for itself. */
  predicate InItems(c: char, items: string)
    decreases |items|
  {
    if items == [] then false
    else if |items| >= 3 && items[1] == '-' then
      (items[0] <= c <= items[2]) || InItems(c, items[3..])
    else c == items[0] || InItems(c, items[1..])
  }

  /** Membership in the class whose text between the brackets is `body`. */
  predicate InClass(c: char, body: string) {
    if |body| > 0 && body[0] == '!' then !InItems(c, body[1..]) else InItems(c, body)
  }

  /** `fnmatch.fnmatch(name, pat)`. A pattern without special characters
      matches exactly itself, and without `*` a pattern matches no name longer
      than itself, since every other element consumes exactly one character. */
  function FnMatch(name: string, pat: string): (r: bool)
    ensures IsLiteral(pat) ==> (r <==> name == pat)
    ensures r && '*' !in pat ==> |name| <= |pat|
    decreases |pat|, |name|
  {
    if pat == [] then name == []
    else if pat[0] == '*' then
      FnMatch(name, pat[1..]) || (name != [] && FnMatch(name[1..], pat))
    else if pat[0] == '?' then
      name != [] && FnMatch(name[1..], pat[1..])
    else if pat[0] == '[' && ClassEnd(pat).Some? then
      var j := ClassEnd(pat).value;
      name != [] && InClass(name[0], pat[1..j]) && FnMatch(name[1..], pat[j + 1..])
    else
      assert IsLiteral(pat) ==> IsLiteral(pat[1..]);
      assert name != [] && name[0] == pat[0] && name[1..] == pat[1..] ==> name == pat;
      name != [] && name[0] == pat[0] && FnMatch(name[1..], pat[1..])
  }

  /** `any(fnmatch(name, p) for p in patterns)`: no pattern excludes nothing,
      `*` excludes everything, and literal patterns exclude exactly the names
      listed. */
  function MatchesAny(name: string, patterns: seq<string>): (r: bool)
    ensures patterns == [] ==> !r
    ensures "*" in patterns ==> r
    ensures (forall i :: 0 <= i < |patterns| ==> IsLiteral(patterns[i])) ==> (r <==> name in patterns)
  {
    StarMatchesAll(name);
    exists i :: 0 <= i < |patterns| && FnMatch(name, patterns[i])
  }

  // ---------------------------------------------------------------------------
  // What the matcher means for the common pattern shapes.

  /** `*` matches every name, including ones that contain separators. */
  lemma {:induction false} StarMatchesAll(name: string)
    ensures FnMatch(name, "*")
    decreases |name|
  {
    if name != [] {
      StarMatchesAll(name[1..]);
    }
  }

  /** `*` followed by a literal matches exactly the names that end with that
      literal (the shape of `*_test.py`). */
  lemma {:induction false} StarSuffixMatchesEndsWith(name: string, lit: string)
    requires IsLiteral(lit)
    ensures FnMatch(name, "*" + lit) <==> EndsWith(name, lit)
    decreases |name|
  {
    assert ("*" + lit)[1..] == lit;
    EndsWithStep(name, lit);
    if name != [] {
      StarSuffixMatchesEndsWith(name[1..], lit);
    }
  }

  /** A `?` consumes exactly one character, whatever it is. */
  lemma QuestionMatchesOneChar(name: string)
    ensures FnMatch(name, "?") <==> |name| == 1
  {
  }

  /** A range class `[lo-hi]` matches exactly the characters from `lo` to `hi`
      inclusive; when `hi < lo` it matches nothing. */
  lemma RangeClass(c: char, lo: char, hi: char)
    requires lo != '!' && lo != ']' && hi != ']'
    ensures FnMatch([c], ['[', lo, '-', hi, ']']) <==> lo <= c <= hi
  {
    var p := ['[', lo, '-', hi, ']'];
    assert FindClose(p, 1) == FindClose(p, 2) == FindClose(p, 3) == FindClose(p, 4) == Some(4);
    assert p[1..4] == [lo, '-', hi] && p[5..] == [];
    assert InItems(c, [lo, '-', hi]) == (lo <= c <= hi || InItems(c, []));
  }

  /** `[!lo-hi]` matches exactly the characters outside the range. */
  lemma NegatedRangeClass(c: char, lo: char, hi: char)
    requires lo != ']' && hi != ']'
    ensures FnMatch([c], ['[', '!', lo, '-', hi, ']']) <==> !(lo <= c <= hi)
  {
    var p := ['[', '!', lo, '-', hi, ']'];
    assert FindClose(p, 2) == FindClose(p, 3) == FindClose(p, 4) == FindClose(p, 5) == Some(5);
    assert p[1..5] == ['!', lo, '-', hi] && p[6..] == [];
    assert p[1..5][1..] == [lo, '-', hi];
    assert InItems(c, [lo, '-', hi]) == (lo <= c <= hi || InItems(c, []));
  }

  /** A `]` right after the opening bracket is a member, not the end: `[]]`
      matches exactly `]`. */
  lemma BracketFirstClass(c: char)
    ensures FnMatch([c], "[]]") <==> c == ']'
  {
    assert FindClose("[]]", 2) == Some(2);
    assert "[]]"[1..2] == "]" && "[]]"[3..] == [];
    assert InItems(c, "]") == (c == ']' || InItems(c, []));
  }

  /** A `[` that is never closed is an ordinary character. */
  lemma UnclosedBracket(name: string)
    ensures FnMatch(name, "[") <==> name == "["
  {
  }
}
