/** The scanner for `\.collection\(["'](?<name>[\w-]+)["']\)` (global flag), written by hand
    with ASCII character classes, and the set of names it collects across files. */
module CollectionPattern {
  import opened Wrappers
  import opened Text

  /** `\w`, read as ASCII. */
  predicate IsWordChar(c: char)
  {
    ('A' <= c <= 'Z') || ('a' <= c <= 'z') || ('0' <= c <= '9') || c == '_'
  }

  /** The class `[\w-]` of a collection name. */
  predicate IsNameChar(c: char)
  {
    IsWordChar(c) || c == '-'
  }

  /** The class `["']`: the opening and the closing quote are chosen independently. */
  predicate IsQuote(c: char)
  {
    c == '"' || c == '\''
  }

  /** A string the group `[\w-]+` matches as a whole. */
  predicate IsCollectionName(name: string)
  {
    |name| > 0 && forall k :: 0 <= k < |name| ==> IsNameChar(name[k])
  }

  const Call := ".collection("

  /** Reference reading of the pattern: at offset `p` of `s` stand `.collection(`, a quote,
      the name, a quote and `)`. */
  predicate IsOccurrence(s: string, p: nat, name: string)
  {
    && IsCollectionName(name)
    && LiteralAt(s, p, Call)
    && p + |name| + 15 <= |s|
    && IsQuote(s[p + 12])
    && LiteralAt(s, p + 13, name)
    && IsQuote(s[p + 13 + |name|])
    && s[p + 14 + |name|] == ')'
  }

  /** One result of `exec`: where the match starts, the captured name, and where it ends
      (the new `lastIndex`). */
  datatype Match = Match(start: nat, name: string, end: nat)

  /** End of the greedy run of name characters starting at `i`. */
  function NameRunEnd(s: string, i: nat): (e: nat)
    requires i <= |s|
    decreases |s| - i
    ensures i <= e <= |s|
    ensures forall k :: i <= k < e ==> IsNameChar(s[k])
    ensures e < |s| ==> !IsNameChar(s[e])
  {
    if i < |s| && IsNameChar(s[i]) then NameRunEnd(s, i + 1) else i
  }

  /** The pattern anchored at offset `p`. Backtracking cannot shorten the greedy name run,
      since the character given back would be a name character and not a quote. */
  function MatchAt(s: string, p: nat): (m: Option<Match>)
    ensures m.Some? ==> m.value.start == p && m.value.end == p + |m.value.name| + 15
  {
    if p + 13 <= |s| && LiteralAt(s, p, Call) && IsQuote(s[p + 12]) then
      var e := NameRunEnd(s, p + 13);
      if p + 13 < e && e + 2 <= |s| && IsQuote(s[e]) && s[e + 1] == ')' then
        Some(Match(p, s[p + 13..e], e + 2))
      else None
    else None
  }

  /** Whatever the scanner matches at `p` is an occurrence in the reference sense. */
  lemma {:induction false} MatchAtSound(s: string, p: nat)
    requires MatchAt(s, p).Some?
    ensures IsOccurrence(s, p, MatchAt(s, p).value.name)
  {
  }

  /** `exec` with `lastIndex == from`: the leftmost match starting at or after `from`. */
  function NextMatch(s: string, from: nat): (r: Option<Match>)
    requires from <= |s|
    decreases |s| - from
    ensures r.Some? ==> from <= r.value.start && MatchAt(s, r.value.start) == r
    ensures r.Some? ==> forall q :: from <= q < r.value.start ==> MatchAt(s, q).None?
    ensures r.None? ==> forall q :: from <= q ==> MatchAt(s, q).None?
  {
    if MatchAt(s, from).Some? then MatchAt(s, from)
    else if from == |s| then None
    else NextMatch(s, from + 1)
  }

  /** Every match `exec` returns when called repeatedly from `lastIndex == from`. */
  function MatchesFrom(s: string, from: nat): seq<Match>
    requires from <= |s|
    decreases |s| - from
  {
    match NextMatch(s, from)
    case None => []
    case Some(m) => [m] + MatchesFrom(s, m.end)
  }

  /** Each reported match is the scanner's match at its own start, at or after `from`. */
  lemma {:induction false} MatchesFromSound(s: string, from: nat, i: nat)
    requires from <= |s| && i < |MatchesFrom(s, from)|
    decreases |s| - from
    ensures from <= MatchesFrom(s, from)[i].start
    ensures MatchAt(s, MatchesFrom(s, from)[i].start) == Some(MatchesFrom(s, from)[i])
  {
    MatchesFromStep(s, from);
    var m := NextMatch(s, from).value;
    var j := ConsAt(MatchesFrom(s, from), m, MatchesFrom(s, m.end), i - 1);
    if i > 0 {
      MatchesFromSound(s, m.end, i - 1);
    }
  }

  lemma {:induction false} NotBeforeLeftmost(s: string, from: nat, q: nat)
    requires from <= q && from <= |s|
    requires MatchAt(s, q).Some?
    ensures NextMatch(s, from).Some? && NextMatch(s, from).value.start <= q
  {
  }

  /** A match the loop does not report starts inside one it does: `exec` only skips
      offsets that precede its leftmost match or lie within a reported match. */
  lemma {:induction false} MatchesFromCover(s: string, from: nat, q: nat) returns (i: nat)
    requires from <= q && from <= |s|
    requires MatchAt(s, q).Some?
    ensures i < |MatchesFrom(s, from)| && MatchesFrom(s, from)[i].start <= q < MatchesFrom(s, from)[i].end
    decreases |s| - from
  {
    NotBeforeLeftmost(s, from, q);
    MatchesFromStep(s, from);
    var m := NextMatch(s, from).value;
    if m.end <= q {
      var k := MatchesFromCover(s, m.end, q);
      i := ConsAt(MatchesFrom(s, from), m, MatchesFrom(s, m.end), k);
    } else {
      i := ConsAt(MatchesFrom(s, from), m, MatchesFrom(s, m.end), -1);
    }
  }

  /** Non-empty matches, disjoint and in increasing order. */
  predicate Ordered(ms: seq<Match>)
  {
    && (forall i :: 0 <= i < |ms| ==> ms[i].start < ms[i].end)
    && (forall i, j :: 0 <= i < j < |ms| ==> ms[i].end <= ms[j].start)
  }

  lemma {:induction false} OrderedCons(m: Match, rest: seq<Match>)
    requires m.start < m.end && Ordered(rest)
    requires |rest| > 0 ==> m.end <= rest[0].start
    ensures Ordered([m] + rest)
  {
    var ms := [m] + rest;
    forall i, j | 0 <= i < j < |ms|
      ensures ms[i].end <= ms[j].start
    {
      assert ms[j] == rest[j - 1];
      if i > 0 {
        assert ms[i] == rest[i - 1];
      }
    }
  }

  /** The matches the loop reports are non-empty, disjoint and in increasing order. */
  lemma {:induction false} MatchesFromOrdered(s: string, from: nat)
    requires from <= |s|
    decreases |s| - from
    ensures Ordered(MatchesFrom(s, from))
  {
    MatchesFromStep(s, from);
    if NextMatch(s, from).Some? {
      var m := NextMatch(s, from).value;
      MatchesFromOrdered(s, m.end);
      OrderedCons(m, MatchesFrom(s, m.end));
    }
  }

  /** The names captured in order, one per match. */
  function NamesOf(ms: seq<Match>): (names: seq<string>)
    ensures |names| == |ms| && forall i :: 0 <= i < |ms| ==> names[i] == ms[i].name
  {
    if ms == [] then [] else NamesOf(ms[..|ms| - 1]) + [ms[|ms| - 1].name]
  }

  /** The names one file contributes: a fresh scan, since a failing `exec` resets `lastIndex`. */
  function FileNames(content: string): seq<string>
  {
    NamesOf(MatchesFrom(content, 0))
  }

  /** The names of all files, file after file. */
  function AllNames(files: seq<string>): seq<string>
  {
    if files == [] then [] else AllNames(files[..|files| - 1]) + FileNames(files[|files| - 1])
  }

  predicate NoDuplicates(xs: seq<string>)
  {
    forall i, j :: 0 <= i < j < |xs| ==> xs[i] != xs[j]
  }

  /** A `Set` filled by `add` and read back with `Array.from`: insertion order, each value once. */
  function Dedup(xs: seq<string>): (d: seq<string>)
    ensures NoDuplicates(d)
    ensures forall x :: x in d <==> x in xs
  {
    if xs == [] then []
    else
      var d := Dedup(xs[..|xs| - 1]);
      var x := xs[|xs| - 1];
      assert forall y :: y in xs <==> y in xs[..|xs| - 1] || y == x;
      if x in d then d else d + [x]
  }

  /** Where `x` first occurs in `xs`. */
  function FirstIndex(xs: seq<string>, x: string): (r: nat)
    requires x in xs
    ensures r < |xs| && xs[r] == x && forall k :: 0 <= k < r ==> xs[k] != x
  {
    if xs[0] == x then 0 else 1 + FirstIndex(xs[1..], x)
  }

  /** Appending to `xs` does not move where a value already in it first occurs. */
  lemma {:induction false} FirstIndexPrefix(xs: seq<string>, n: nat, x: string)
    requires n <= |xs| && x in xs[..n]
    ensures FirstIndex(xs, x) == FirstIndex(xs[..n], x)
  {
    var a, b := FirstIndex(xs, x), FirstIndex(xs[..n], x);
    assert xs[..n][b] == xs[b];
  }

  /** The `Set` keeps its values in the order of their first `add`. */
  lemma {:induction false} DedupOrder(xs: seq<string>, i: nat, j: nat)
    requires i < j < |Dedup(xs)|
    decreases |xs|
    ensures FirstIndex(xs, Dedup(xs)[i]) < FirstIndex(xs, Dedup(xs)[j])
  {
    var n := |xs| - 1;
    var init := xs[..n];
    var d := Dedup(init);
    var x := xs[n];
    assert xs == init + [x];
    assert Dedup(xs) == if x in d then d else d + [x];
    assert Dedup(xs)[i] == d[i];
    FirstIndexPrefix(xs, n, d[i]);
    if j < |d| {
      assert Dedup(xs)[j] == d[j];
      FirstIndexPrefix(xs, n, d[j]);
      DedupOrder(init, i, j);
    } else {
      assert Dedup(xs)[j] == x && x !in init;
    }
  }

  /** The list handed to `generateRulesString`. */
  function CollectedNames(files: seq<string>): seq<string>
  {
    Dedup(AllNames(files))
  }

  /** Some file has an occurrence of `name`. */
  ghost predicate OccursIn(files: seq<string>, name: string)
  {
    exists f, p :: 0 <= f < |files| && IsOccurrence(files[f], p, name)
  }

  /** `.collection(` has twelve characters and only its first is a `.`. */
  lemma {:induction false} CallShape()
    ensures |Call| == 12 && Call[0] == '.'
    ensures forall j :: 0 < j < |Call| ==> Call[j] != '.'
  {
  }

  /** A match starts with a `.`. */
  lemma {:induction false} MatchAtDot(s: string, q: nat)
    ensures MatchAt(s, q).Some? ==> q < |s| && s[q] == '.'
  {
    CallShape();
    if MatchAt(s, q).Some? {
      assert s[q] == s[q..q + |Call|][0];
    }
  }

  /** Past its first character, an occurrence holds no `.`. */
  lemma {:induction false} NoDotInside(s: string, k: nat, q: nat, name: string)
    requires IsOccurrence(s, k, name) && k < q < k + |name| + 15
    ensures s[q] != '.'
  {
    CallShape();
    if q < k + 12 {
      assert s[q] == s[k..k + |Call|][q - k] == Call[q - k];
    } else if k + 13 <= q < k + 13 + |name| {
      assert s[q] == s[k + 13..k + 13 + |name|][q - k - 13] == name[q - k - 13];
    }
  }

  /** No match can start strictly inside another: within a match only its first character
      is a `.`. */
  lemma {:induction false} NoOverlap(s: string, k: nat, q: nat)
    requires MatchAt(s, k).Some?
    requires k < q < MatchAt(s, k).value.end
    ensures MatchAt(s, q).None?
  {
    MatchAtSound(s, k);
    NoDotInside(s, k, q, MatchAt(s, k).value.name);
    MatchAtDot(s, q);
  }

  lemma {:induction false} NameRunEndAt(s: string, i: nat, n: nat)
    requires i + n < |s|
    requires forall k :: i <= k < i + n ==> IsNameChar(s[k])
    requires !IsNameChar(s[i + n])
    ensures NameRunEnd(s, i) == i + n
    decreases n
  {
    if n > 0 {
      NameRunEndAt(s, i + 1, n - 1);
    }
  }

  /** Every occurrence in the reference sense is a match of the scanner at that offset. */
  lemma {:induction false} MatchAtComplete(s: string, p: nat, name: string)
    requires IsOccurrence(s, p, name)
    ensures MatchAt(s, p) == Some(Match(p, name, p + |name| + 15))
  {
    forall k | p + 13 <= k < p + 13 + |name|
      ensures IsNameChar(s[k])
    {
      assert s[k] == name[k - p - 13];
    }
    NameRunEndAt(s, p + 13, |name|);
  }

  /** The global `exec` loop reports every match starting at or after `from`. */
  lemma {:induction false} MatchesFromComplete(s: string, from: nat, q: nat)
    requires from <= q && from <= |s|
    requires MatchAt(s, q).Some?
    ensures MatchAt(s, q).value in MatchesFrom(s, from)
  {
    var ms := MatchesFrom(s, from);
    var i := MatchesFromCover(s, from, q);
    MatchesFromSound(s, from, i);
    if ms[i].start < q {
      NoOverlap(s, ms[i].start, q);
    } else {
      assert MatchAt(s, q) == Some(ms[i]);
    }
  }

  /** Every name a file contributes is the name of an occurrence in it. */
  lemma {:induction false} FileNamesSound(content: string, name: string)
    requires name in FileNames(content)
    ensures exists p :: IsOccurrence(content, p, name)
  {
    var ms := MatchesFrom(content, 0);
    var names := FileNames(content);
    var i :| 0 <= i < |names| && names[i] == name;
    MatchesFromSound(content, 0, i);
    MatchAtSound(content, ms[i].start);
  }

  /** The name of every occurrence in a file is among the names it contributes. */
  lemma {:induction false} FileNamesComplete(content: string, p: nat, name: string)
    requires IsOccurrence(content, p, name)
    ensures name in FileNames(content)
  {
    var ms := MatchesFrom(content, 0);
    MatchAtComplete(content, p, name);
    MatchesFromComplete(content, 0, p);
    var i :| 0 <= i < |ms| && ms[i] == Match(p, name, p + |name| + 15);
    assert FileNames(content)[i] == name;
  }

  /** The names one file contributes are exactly the names of its occurrences. */
  lemma {:induction false} FileNamesSpec(content: string, name: string)
    ensures name in FileNames(content) <==> exists p :: IsOccurrence(content, p, name)
  {
    if name in FileNames(content) {
      FileNamesSound(content, name);
    }
    if p :| IsOccurrence(content, p, name) {
      FileNamesComplete(content, p, name);
    }
  }

  lemma {:induction false} AllNamesSpec(files: seq<string>, name: string)
    ensures name in AllNames(files) <==> OccursIn(files, name)
  {
    if files != [] {
      var init, last := files[..|files| - 1], files[|files| - 1];
      AllNamesSpec(init, name);
      FileNamesSpec(last, name);
      if OccursIn(files, name) {
        var f, p :| 0 <= f < |files| && IsOccurrence(files[f], p, name);
        if f < |init| {
          assert init[f] == files[f];
        }
      }
      if name in FileNames(last) {
        var p :| IsOccurrence(last, p, name);
        assert IsOccurrence(files[|files| - 1], p, name);
      }
      if OccursIn(init, name) {
        var f, p :| 0 <= f < |init| && IsOccurrence(init[f], p, name);
        assert IsOccurrence(files[f], p, name);
      }
    }
  }

  /** The list handed to the synthesiser: no name twice, exactly the names occurring in
      some file, and each a well-formed collection name. */
  lemma {:induction false} CollectedNamesSpec(files: seq<string>)
    ensures NoDuplicates(CollectedNames(files))
    ensures forall name :: name in CollectedNames(files) <==> OccursIn(files, name)
    ensures forall name :: name in CollectedNames(files) ==> IsCollectionName(name)
  {
    forall name
      ensures name in CollectedNames(files) <==> OccursIn(files, name)
    {
      AllNamesSpec(files, name);
    }
  }

  // One step of the scanning loops, as the loop invariants use them.

  lemma {:induction false} MatchesFromStep(s: string, from: nat)
    requires from <= |s|
    ensures NextMatch(s, from).None? ==> MatchesFrom(s, from) == []
    ensures NextMatch(s, from).Some? ==>
              MatchesFrom(s, from) == [NextMatch(s, from).value] + MatchesFrom(s, NextMatch(s, from).value.end)
  {
  }

  lemma {:induction false} NamesOfSnoc(ms: seq<Match>, m: Match)
    ensures NamesOf(ms + [m]) == NamesOf(ms) + [m.name]
  {
    assert (ms + [m])[..|ms|] == ms;
  }

  lemma {:induction false} DedupSnoc(xs: seq<string>, x: string)
    ensures Dedup(xs + [x]) == if x in Dedup(xs) then Dedup(xs) else Dedup(xs) + [x]
  {
    assert (xs + [x])[..|xs|] == xs;
  }

  lemma {:induction false} AllNamesSnoc(files: seq<string>, f: nat)
    requires f < |files|
    ensures AllNames(files[..f + 1]) == AllNames(files[..f]) + FileNames(files[f])
  {
    assert files[..f + 1][..f] == files[..f];
  }
}
