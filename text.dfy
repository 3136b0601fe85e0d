/**
 * String helpers the exporter relies on: `array_search` on a list of names,
 * `str_replace_first` for the table prefix, and `implode(',', ...)` for id
 * filters, together with the store's reading of such a comma-joined list.
 */
module Text {
  import opened Wrappers

  /** `array_search(x, s)`: the first index holding `x`, or None (PHP's `false`). */
  function FirstIndex(s: seq<string>, x: string): (r: Option<nat>)
    ensures r.Some? ==> r.value < |s| && s[r.value] == x
    ensures r.Some? ==> forall j :: 0 <= j < r.value ==> s[j] != x
    ensures r.None? <==> x !in s
  {
    if s == [] then None
    else if s[0] == x then Some(0)
    else match FirstIndex(s[1..], x)
      case None => None
      case Some(k) => Some(k + 1)
  }

  /** `sub` occurs in `s` starting at position `j`. */
  predicate OccursAt(s: string, sub: string, j: nat)
  {
    j + |sub| <= |s| && s[j..j + |sub|] == sub
  }

  lemma OccursAtShift(s: string, sub: string, j: nat)
    requires 0 < j && 0 < |s|
    ensures OccursAt(s, sub, j) <==> OccursAt(s[1..], sub, j - 1)
  {
    if j + |sub| <= |s| {
      assert s[j..j + |sub|] == s[1..][j - 1..j - 1 + |sub|];
    }
  }

  /** `strpos(s, sub)`: the position of the first occurrence of `sub` in `s`. */
  function Find(s: string, sub: string): (r: Option<nat>)
    ensures r.Some? ==> OccursAt(s, sub, r.value)
    ensures r.Some? ==> forall j: nat :: j < r.value ==> !OccursAt(s, sub, j)
    ensures r.None? ==> forall j: nat :: !OccursAt(s, sub, j)
    decreases |s|
  {
    if |sub| > |s| then None
    else if s[..|sub|] == sub then Some(0)
    else
      assert !OccursAt(s, sub, 0);
      var rest := Find(s[1..], sub);
      forall j: nat | 0 < j { OccursAtShift(s, sub, j); }
      match rest
      case None => None
      case Some(k) => Some(k + 1)
  }

  /** A pattern whose first character `s` lacks occurs nowhere in `s`. */
  lemma FindMissingHead(s: string, sub: string)
    requires |sub| > 0 && sub[0] !in s
    ensures Find(s, sub) == None
  {
    forall j: nat ensures !OccursAt(s, sub, j) {
      if j + |sub| <= |s| {
        assert s[j..j + |sub|][0] == s[j];
      }
    }
  }

  /**
   * `str_replace_first(sub, '', s)`: cut the first occurrence of `sub`,
   * wherever it stands in `s`; `s` is returned unchanged when `sub` does not occur.
   */
  function RemoveFirst(s: string, sub: string): (r: string)
    ensures Find(s, sub).None? ==> r == s
    ensures Find(s, sub).Some? ==>
      var i := Find(s, sub).value; r == s[..i] + s[i + |sub|..]
    ensures |sub| <= |s| && s[..|sub|] == sub ==> r == s[|sub|..]
  {
    match Find(s, sub)
    case None => s
    case Some(i) => s[..i] + s[i + |sub|..]
  }

  /** `implode(sep, parts)`. */
  function Join(parts: seq<string>, sep: char): string
  {
    if |parts| == 0 then ""
    else if |parts| == 1 then parts[0]
    else parts[0] + [sep] + Join(parts[1..], sep)
  }

  /** `explode(sep, s)`: how the row store reads a joined id list back. */
  function Split(s: string, sep: char): (r: seq<string>)
    ensures |r| > 0
  {
    if |s| == 0 then [""]
    else if s[0] == sep then [""] + Split(s[1..], sep)
    else
      var rest := Split(s[1..], sep);
      [[s[0]] + rest[0]] + rest[1..]
  }

  lemma {:induction false} SplitWithoutSeparator(p: string, sep: char)
    requires sep !in p
    ensures Split(p, sep) == [p]
    decreases |p|
  {
    if |p| > 0 {
      SplitWithoutSeparator(p[1..], sep);
      assert [p[0]] + p[1..] == p;
    }
  }

  lemma {:induction false} SplitAfterFirstPart(p: string, sep: char, rest: string)
    requires sep !in p
    ensures Split(p + [sep] + rest, sep) == [p] + Split(rest, sep)
    decreases |p|
  {
    var s := p + [sep] + rest;
    if |p| == 0 {
      assert s[0] == sep && s[1..] == rest;
    } else {
      assert s[0] == p[0] && s[1..] == p[1..] + [sep] + rest;
      SplitAfterFirstPart(p[1..], sep, rest);
      assert [p[0]] + p[1..] == p;
    }
  }

  /**
   * Joining a non-empty list of ids that contain no separator and splitting
   * the result gives the ids back: the comma-joined filter loses nothing.
   */
  lemma {:induction false} SplitJoin(parts: seq<string>, sep: char)
    requires |parts| > 0
    requires forall i :: 0 <= i < |parts| ==> sep !in parts[i]
    ensures Split(Join(parts, sep), sep) == parts
    decreases |parts|
  {
    if |parts| == 1 {
      SplitWithoutSeparator(parts[0], sep);
    } else {
      SplitJoin(parts[1..], sep);
      SplitAfterFirstPart(parts[0], sep, Join(parts[1..], sep));
      assert [parts[0]] + parts[1..] == parts;
    }
  }
}
