/** The linter's scanner for `allow\s+read,\s*write:\s*if\s+true;` (global flag), written by
    hand. */
module InsecurePattern {
  import opened Wrappers
  import opened Text

  /** `\s` as JavaScript reads it: the ASCII tab, line feed, vertical tab, form feed, carriage
      return and space, the no-break space, the byte-order mark, the line and paragraph
      separators, and the Unicode space separators. */
  predicate IsSpace(c: char)
  {
    || c == '\t' || c == '\n' || c == '\U{000B}' || c == '\U{000C}' || c == '\r' || c == ' '
    || c == '\U{00A0}' || c == '\U{1680}' || ('\U{2000}' <= c <= '\U{200A}')
    || c == '\U{2028}' || c == '\U{2029}' || c == '\U{202F}' || c == '\U{205F}'
    || c == '\U{3000}' || c == '\U{FEFF}'
  }

  predicate AllSpaces(w: string)
  {
    forall k :: 0 <= k < |w| ==> IsSpace(w[k])
  }

  /** The literal tokens of the pattern with the given whitespace runs between them. */
  function Shape(w1: string, w2: string, w3: string, w4: string): string
  {
    "allow" + w1 + "read," + w2 + "write:" + w3 + "if" + w4 + "true;"
  }

  /** Reference reading of the pattern: `t` is a whole match of it. */
  ghost predicate IsInsecureRule(t: string)
  {
    exists w1, w2, w3, w4 ::
      && t == Shape(w1, w2, w3, w4)
      && |w1| > 0 && |w4| > 0
      && AllSpaces(w1) && AllSpaces(w2) && AllSpaces(w3) && AllSpaces(w4)
  }

  /** End of the greedy run of whitespace starting at `i`. */
  function SkipSpaces(s: string, i: nat): (e: nat)
    requires i <= |s|
    decreases |s| - i
    ensures i <= e <= |s|
  {
    if i < |s| && IsSpace(s[i]) then SkipSpaces(s, i + 1) else i
  }

  /** `SkipSpaces` passes over spaces only and stops at a non-space or at the end. */
  lemma {:induction false} SkipSpacesRun(s: string, i: nat)
    requires i <= |s|
    decreases |s| - i
    ensures forall k :: i <= k < SkipSpaces(s, i) ==> IsSpace(s[k])
    ensures SkipSpaces(s, i) < |s| ==> !IsSpace(s[SkipSpaces(s, i)])
  {
    if i < |s| && IsSpace(s[i]) {
      SkipSpacesRun(s, i + 1);
    }
  }

  /** One piece of the pattern after its leading `allow`: a run of `\s` (`\s+` when `plus`,
      `\s*` otherwise) and then the literal `token`. */
  datatype Step = Step(plus: bool, token: string)

  /** A leading literal and then the steps: the shape of the linter's pattern. */
  datatype Pattern = Pattern(lead: string, steps: seq<Step>)

  /** `allow\s+read,\s*write:\s*if\s+true;`: `allow`, then `\s+read,`, `\s*write:`, `\s*if`,
      `\s+true;`. */
  const OpenRule := Pattern("allow", [Step(true, "read,"), Step(false, "write:"), Step(false, "if"), Step(true, "true;")])

  /** Matches `steps` from offset `i` on: each step's whitespace run, greedily, then its token;
      the end of the match, if there is one. Each token starts with a non-space, so
      backtracking into a run cannot help. */
  function ScanSteps(s: string, i: nat, steps: seq<Step>): (q: Option<nat>)
    requires i <= |s|
    decreases |steps|
    ensures q.Some? ==> i <= q.value <= |s|
  {
    if steps == [] then Some(i)
    else
      var e := SkipSpaces(s, i);
      var t := steps[0].token;
      if (e > i || !steps[0].plus) && LiteralAt(s, e, t) then ScanSteps(s, e + |t|, steps[1..])
      else None
  }

  /** The pattern anchored at offset `p`: the end of the match, if there is one. */
  function ScanAt(s: string, p: nat, pat: Pattern): (q: Option<nat>)
    ensures q.Some? ==> p + |pat.lead| <= q.value <= |s|
  {
    if LiteralAt(s, p, pat.lead) then ScanSteps(s, p + |pat.lead|, pat.steps) else None
  }

  /** A reported range, `[start, end)` as offsets into the text. */
  datatype Span = Span(start: nat, end: nat)

  /** `exec` with `lastIndex == from`: the leftmost match starting at or after `from`. */
  function NextSpan(s: string, from: nat, pat: Pattern): (r: Option<Span>)
    requires from <= |s|
    decreases |s| - from
    ensures r.Some? ==> from <= r.value.start && ScanAt(s, r.value.start, pat) == Some(r.value.end)
    ensures r.Some? ==> forall q :: from <= q < r.value.start ==> ScanAt(s, q, pat).None?
    ensures r.None? ==> forall q :: from <= q <= |s| ==> ScanAt(s, q, pat).None?
  {
    match ScanAt(s, from, pat)
    case Some(e) => Some(Span(from, e))
    case None => if from == |s| then None else NextSpan(s, from + 1, pat)
  }

  /** Every match `exec` returns when called repeatedly from `lastIndex == from`. */
  function SpansFrom(s: string, from: nat, pat: Pattern): (spans: seq<Span>)
    requires from <= |s| && |pat.lead| > 0
    decreases |s| - from
    ensures forall i :: 0 <= i < |spans| ==>
              from <= spans[i].start && ScanAt(s, spans[i].start, pat) == Some(spans[i].end)
  {
    match NextSpan(s, from, pat)
    case None => []
    case Some(m) => [m] + SpansFrom(s, m.end, pat)
  }

  lemma {:induction false} SpansFromStep(s: string, from: nat, pat: Pattern)
    requires from <= |s| && |pat.lead| > 0
    ensures NextSpan(s, from, pat).None? ==> SpansFrom(s, from, pat) == []
    ensures NextSpan(s, from, pat).Some? ==>
              SpansFrom(s, from, pat) == [NextSpan(s, from, pat).value] + SpansFrom(s, NextSpan(s, from, pat).value.end, pat)
  {
  }

  /** Non-empty spans, disjoint and in increasing order. */
  predicate Ordered(spans: seq<Span>)
  {
    && (forall i :: 0 <= i < |spans| ==> spans[i].start < spans[i].end)
    && (forall i, j :: 0 <= i < j < |spans| ==> spans[i].end <= spans[j].start)
  }

  lemma {:induction false} OrderedCons(m: Span, rest: seq<Span>)
    requires m.start < m.end && Ordered(rest)
    requires |rest| > 0 ==> m.end <= rest[0].start
    ensures Ordered([m] + rest)
  {
    var spans := [m] + rest;
    forall i, j | 0 <= i < j < |spans|
      ensures spans[i].end <= spans[j].start
    {
      assert spans[j] == rest[j - 1];
      if i > 0 {
        assert spans[i] == rest[i - 1];
      }
    }
  }

  /** The reported spans are non-empty, disjoint and in increasing order. */
  lemma {:induction false} SpansOrdered(s: string, from: nat, pat: Pattern)
    requires from <= |s| && |pat.lead| > 0
    decreases |s| - from
    ensures Ordered(SpansFrom(s, from, pat))
  {
    SpansFromStep(s, from, pat);
    if NextSpan(s, from, pat).Some? {
      var m := NextSpan(s, from, pat).value;
      SpansOrdered(s, m.end, pat);
      OrderedCons(m, SpansFrom(s, m.end, pat));
    }
  }

  // --- The scanner against the reference reading ---

  /** The text `steps` stand for, with the whitespace runs `ws` in front of their tokens. */
  function Render(steps: seq<Step>, ws: seq<string>): string
    requires |ws| == |steps|
    decreases |steps|
  {
    if steps == [] then "" else ws[0] + (steps[0].token + Render(steps[1..], ws[1..]))
  }

  /** The runs `ws` are ones `steps` accept: spaces only, and non-empty before a `\s+`. */
  predicate RunsFit(steps: seq<Step>, ws: seq<string>)
    decreases |steps|
  {
    && |ws| == |steps|
    && (steps != [] ==>
          && AllSpaces(ws[0]) && (steps[0].plus ==> |ws[0]| > 0)
          && RunsFit(steps[1..], ws[1..]))
  }

  /** Every token starts with a non-space, so a greedy run stops right before it. */
  predicate TokensStartSolid(steps: seq<Step>)
    decreases |steps|
  {
    steps != [] ==> |steps[0].token| > 0 && !IsSpace(steps[0].token[0]) && TokensStartSolid(steps[1..])
  }

  lemma {:induction false} LiteralAtConcat(s: string, i: nat, x: string, y: string)
    ensures LiteralAt(s, i, x + y) <==> LiteralAt(s, i, x) && LiteralAt(s, i + |x|, y)
  {
    if i + |x| + |y| <= |s| {
      assert s[i..i + |x| + |y|] == s[i..i + |x|] + s[i + |x|..i + |x| + |y|];
      if LiteralAt(s, i, x + y) {
        assert s[i..i + |x|] == (x + y)[..|x|] == x;
        assert s[i + |x|..i + |x| + |y|] == (x + y)[|x|..] == y;
      }
    }
  }

  lemma {:induction false} SkipSpacesAt(s: string, i: nat, w: string)
    requires LiteralAt(s, i, w) && AllSpaces(w)
    requires i + |w| < |s| && !IsSpace(s[i + |w|])
    ensures SkipSpaces(s, i) == i + |w|
    decreases |w|
  {
    if |w| > 0 {
      assert s[i] == w[0];
      assert s[i + 1..i + |w|] == w[1..];
      SkipSpacesAt(s, i + 1, w[1..]);
    }
  }

  /** What the scanner has read from `i` when it skipped a run and then found `tok` followed
      by `tail`: the run, the token and the tail, in that order. */
  lemma {:induction false} RunTokenSound(s: string, i: nat, tok: string, tail: string) returns (w: string)
    requires i <= |s| && LiteralAt(s, SkipSpaces(s, i), tok)
    requires LiteralAt(s, SkipSpaces(s, i) + |tok|, tail)
    ensures AllSpaces(w) && i + |w| == SkipSpaces(s, i)
    ensures LiteralAt(s, i, w + (tok + tail)) && |w + (tok + tail)| == |w| + |tok| + |tail|
  {
    w := s[i..SkipSpaces(s, i)];
    SkipSpacesRun(s, i);
    forall k | 0 <= k < |w|
      ensures IsSpace(w[k])
    {
      assert w[k] == s[i + k];
    }
    LiteralAtConcat(s, i + |w|, tok, tail);
    LiteralAtConcat(s, i, w, tok + tail);
  }

  /** A whitespace run `w` at `i`, then the token `tok`, which starts with a non-space, then
      `tail`: the scanner skips exactly `w` and finds the token and the tail after it. */
  lemma {:induction false} RunTokenComplete(s: string, i: nat, w: string, tok: string, tail: string)
    requires AllSpaces(w) && |tok| > 0 && !IsSpace(tok[0])
    requires LiteralAt(s, i, w + (tok + tail))
    ensures SkipSpaces(s, i) == i + |w|
    ensures LiteralAt(s, i + |w|, tok) && LiteralAt(s, i + |w| + |tok|, tail)
    ensures |w + (tok + tail)| == |w| + |tok| + |tail|
  {
    LiteralAtConcat(s, i, w, tok + tail);
    LiteralAtConcat(s, i + |w|, tok, tail);
    assert s[i + |w|] == tok[0];
    SkipSpacesAt(s, i, w);
  }

  lemma {:induction false} ScanStep(s: string, i: nat, steps: seq<Step>, e: nat)
    requires i <= |s| && steps != [] && SkipSpaces(s, i) == e
    requires (e > i || !steps[0].plus) && LiteralAt(s, e, steps[0].token)
    ensures ScanSteps(s, i, steps) == ScanSteps(s, e + |steps[0].token|, steps[1..])
  {
  }

  /** A successful scan of a non-empty list of steps: the first step's run and token, then
      the rest. */
  lemma {:induction false} ScanStepSome(s: string, i: nat, steps: seq<Step>)
    requires i <= |s| && steps != [] && ScanSteps(s, i, steps).Some?
    ensures SkipSpaces(s, i) > i || !steps[0].plus
    ensures LiteralAt(s, SkipSpaces(s, i), steps[0].token)
    ensures ScanSteps(s, i, steps) == ScanSteps(s, SkipSpaces(s, i) + |steps[0].token|, steps[1..])
  {
  }

  lemma {:induction false} ScanEmpty(s: string, i: nat, steps: seq<Step>, ws: seq<string>)
    requires i <= |s| && steps == [] && |ws| == 0
    ensures ScanSteps(s, i, steps) == Some(i) && Render(steps, ws) == ""
  {
  }

  lemma {:induction false} RenderCons(steps: seq<Step>, ws: seq<string>)
    requires steps != [] && |ws| == |steps|
    ensures Render(steps, ws) == ws[0] + (steps[0].token + Render(steps[1..], ws[1..]))
  {
  }

  lemma {:induction false} RenderPrepend(steps: seq<Step>, w: string, rest: seq<string>)
    requires steps != [] && |rest| == |steps| - 1
    ensures Render(steps, [w] + rest) == w + (steps[0].token + Render(steps[1..], rest))
  {
    assert ([w] + rest)[0] == w && ([w] + rest)[1..] == rest;
  }

  lemma {:induction false} RunsFitIntro(steps: seq<Step>, w: string, rest: seq<string>)
    requires steps != [] && AllSpaces(w) && (steps[0].plus ==> |w| > 0) && RunsFit(steps[1..], rest)
    ensures RunsFit(steps, [w] + rest)
  {
    assert ([w] + rest)[0] == w && ([w] + rest)[1..] == rest;
  }

  /** One step of `ScanSound`: the run the scanner skipped at `i`, in front of the runs `rest`
      read for the remaining steps. */
  lemma {:induction false} ScanSoundStep(s: string, i: nat, steps: seq<Step>, rest: seq<string>) returns (ws: seq<string>)
    requires i <= |s| && steps != []
    requires SkipSpaces(s, i) > i || !steps[0].plus
    requires LiteralAt(s, SkipSpaces(s, i), steps[0].token)
    requires RunsFit(steps[1..], rest)
    requires LiteralAt(s, SkipSpaces(s, i) + |steps[0].token|, Render(steps[1..], rest))
    ensures RunsFit(steps, ws) && LiteralAt(s, i, Render(steps, ws))
    ensures SkipSpaces(s, i) + |steps[0].token| + |Render(steps[1..], rest)| == i + |Render(steps, ws)|
  {
    var t := steps[0].token;
    var w := RunTokenSound(s, i, t, Render(steps[1..], rest));
    RunsFitIntro(steps, w, rest);
    RenderPrepend(steps, w, rest);
    ws := [w] + rest;
  }

  /** Whatever the scanner reads for `steps`, up to `q`, is the rendering of some runs those
      steps accept. */
  lemma {:induction false} ScanSound(s: string, i: nat, steps: seq<Step>, q: nat) returns (ws: seq<string>)
    requires i <= |s| && ScanSteps(s, i, steps) == Some(q)
    decreases |steps|
    ensures RunsFit(steps, ws) && LiteralAt(s, i, Render(steps, ws))
    ensures q == i + |Render(steps, ws)|
  {
    if steps == [] {
      ws := [];
      ScanEmpty(s, i, steps, ws);
    } else {
      var t := steps[0].token;
      ScanStepSome(s, i, steps);
      var j := SkipSpaces(s, i) + |t|;
      var rest := ScanSound(s, j, steps[1..], q);
      ws := ScanSoundStep(s, i, steps, rest);
    }
  }

  /** One step of `ScanComplete`: the first run of the rendering is what the scanner skips,
      the first token follows it, and the rendering of the remaining steps follows that. */
  lemma {:induction false} ScanCompleteStep(s: string, i: nat, steps: seq<Step>, ws: seq<string>) returns (e: nat)
    requires steps != [] && TokensStartSolid(steps) && RunsFit(steps, ws)
    requires LiteralAt(s, i, Render(steps, ws))
    ensures i <= |s| && SkipSpaces(s, i) == e && (e > i || !steps[0].plus)
    ensures LiteralAt(s, e, steps[0].token)
    ensures TokensStartSolid(steps[1..]) && RunsFit(steps[1..], ws[1..])
    ensures LiteralAt(s, e + |steps[0].token|, Render(steps[1..], ws[1..]))
    ensures e + |steps[0].token| + |Render(steps[1..], ws[1..])| == i + |Render(steps, ws)|
  {
    var w := ws[0];
    var t := steps[0].token;
    var tail := Render(steps[1..], ws[1..]);
    RenderCons(steps, ws);
    RunTokenComplete(s, i, w, t, tail);
    e := i + |w|;
  }

  /** The rendering of runs that `steps` accept is read by the scanner in full: it ends at
      `q`, right after the rendering. */
  lemma {:induction false} ScanComplete(s: string, i: nat, steps: seq<Step>, ws: seq<string>, q: nat)
    requires TokensStartSolid(steps) && RunsFit(steps, ws)
    requires LiteralAt(s, i, Render(steps, ws)) && q == i + |Render(steps, ws)|
    decreases |steps|
    ensures ScanSteps(s, i, steps) == Some(q)
  {
    if steps == [] {
      ScanEmpty(s, i, steps, ws);
    } else {
      var e := ScanCompleteStep(s, i, steps, ws);
      ScanComplete(s, e + |steps[0].token|, steps[1..], ws[1..], q);
      ScanStep(s, i, steps, e);
    }
  }

  // --- The linter's own pattern ---

  lemma {:induction false} OpenRuleTokens()
    ensures OpenRule.lead == "allow" && TokensStartSolid(OpenRule.steps)
  {
  }

  /** Rendering four steps, written out. */
  lemma {:induction false} RenderFour(steps: seq<Step>, ws: seq<string>)
    requires |steps| == 4 && |ws| == 4
    ensures Render(steps, ws) ==
              ws[0] + (steps[0].token + (ws[1] + (steps[1].token + (ws[2] + (steps[2].token
              + (ws[3] + (steps[3].token + "")))))))
  {
    RenderCons(steps, ws);
    RenderCons(steps[1..], ws[1..]);
    RenderCons(steps[2..], ws[2..]);
    RenderCons(steps[3..], ws[3..]);
    assert steps[1..][1..] == steps[2..] && ws[1..][1..] == ws[2..];
    assert steps[2..][1..] == steps[3..] && ws[2..][1..] == ws[3..];
    assert steps[3..][1..] == [] && ws[3..][1..] == [];
  }

  lemma {:induction false} Regroup(a: string, b: string, c: string, d: string, e: string, f: string, g: string, h: string, i: string)
    ensures a + b + c + d + e + f + g + h + i == a + (b + (c + (d + (e + (f + (g + (h + (i + ""))))))))
  {
  }

  /** The four runs of the reference reading are the runs of the pattern's steps. */
  lemma {:induction false} ShapeRendered(w1: string, w2: string, w3: string, w4: string)
    ensures Shape(w1, w2, w3, w4) == "allow" + Render(OpenRule.steps, [w1, w2, w3, w4])
  {
    var steps := OpenRule.steps;
    var ws := [w1, w2, w3, w4];
    RenderFour(steps, ws);
    Regroup("allow", w1, "read,", w2, "write:", w3, "if", w4, "true;");
  }

  /** The runs the reference reading allows are the runs the steps accept. */
  lemma {:induction false} RunsFitShape(w1: string, w2: string, w3: string, w4: string)
    ensures RunsFit(OpenRule.steps, [w1, w2, w3, w4]) <==>
              |w1| > 0 && |w4| > 0 && AllSpaces(w1) && AllSpaces(w2) && AllSpaces(w3) && AllSpaces(w4)
  {
    var steps := OpenRule.steps;
    var ws := [w1, w2, w3, w4];
    assert ws[0] == w1 && ws[1] == w2 && ws[2] == w3 && ws[3] == w4;
    assert steps[0].plus && !steps[1].plus && !steps[2].plus && steps[3].plus;
  }

  /** `lead` at `p` and the rest right after it make up `s[p..q]`. */
  lemma {:induction false} LeadThenRest(s: string, p: nat, q: nat, lead: string, rest: string)
    requires LiteralAt(s, p, lead) && LiteralAt(s, p + |lead|, rest) && q == p + |lead| + |rest|
    ensures q <= |s| && s[p..q] == lead + rest
  {
    LiteralAtConcat(s, p, lead, rest);
  }

  /** Whatever the scanner reports at `p` for the pattern is a whole match of it. */
  lemma {:induction false} ScanAtSound(s: string, p: nat)
    requires ScanAt(s, p, OpenRule).Some?
    ensures IsInsecureRule(s[p..ScanAt(s, p, OpenRule).value])
  {
    var q := ScanAt(s, p, OpenRule).value;
    var lead := OpenRule.lead;
    var ws := ScanSound(s, p + |lead|, OpenRule.steps, q);
    LeadThenRest(s, p, q, lead, Render(OpenRule.steps, ws));
    RunsAreShape(ws);
  }

  /** Runs the pattern's steps accept, rendered after `allow`, make a whole match. */
  lemma {:induction false} RunsAreShape(ws: seq<string>)
    requires RunsFit(OpenRule.steps, ws)
    ensures IsInsecureRule(OpenRule.lead + Render(OpenRule.steps, ws))
  {
    var w1, w2, w3, w4 := ws[0], ws[1], ws[2], ws[3];
    assert ws == [w1, w2, w3, w4];
    RunsFitShape(w1, w2, w3, w4);
    ShapeRendered(w1, w2, w3, w4);
  }

  /** The whitespace runs of a whole match. */
  lemma {:induction false} ShapeWitness(t: string) returns (ws: seq<string>)
    requires IsInsecureRule(t)
    ensures RunsFit(OpenRule.steps, ws)
    ensures t == OpenRule.lead + Render(OpenRule.steps, ws)
  {
    var w1, w2, w3, w4 :| && t == Shape(w1, w2, w3, w4)
                          && |w1| > 0 && |w4| > 0
                          && AllSpaces(w1) && AllSpaces(w2) && AllSpaces(w3) && AllSpaces(w4);
    ShapeRendered(w1, w2, w3, w4);
    RunsFitShape(w1, w2, w3, w4);
    OpenRuleTokens();
    ws := [w1, w2, w3, w4];
  }

  /** A match at `p` given by runs the steps accept is what the scanner reports there. */
  lemma {:induction false} ScanAtRuns(s: string, p: nat, q: nat, pat: Pattern, ws: seq<string>)
    requires TokensStartSolid(pat.steps) && RunsFit(pat.steps, ws)
    requires p <= q <= |s| && s[p..q] == pat.lead + Render(pat.steps, ws)
    ensures ScanAt(s, p, pat) == Some(q)
  {
    var rest := Render(pat.steps, ws);
    SliceIsLiteral(s, p, q, pat.lead + rest);
    LiteralAtConcat(s, p, pat.lead, rest);
    ScanComplete(s, p + |pat.lead|, pat.steps, ws, q);
  }

  /** Every whole match of the pattern at `p` is what the scanner reports there. */
  lemma {:induction false} ScanAtComplete(s: string, p: nat, q: nat)
    requires p <= q <= |s| && IsInsecureRule(s[p..q])
    ensures ScanAt(s, p, OpenRule) == Some(q)
  {
    var ws := ShapeWitness(s[p..q]);
    OpenRuleTokens();
    ScanAtRuns(s, p, q, OpenRule, ws);
  }

  /** The scanner at `p` agrees with the reference reading of the pattern, both ways. */
  lemma {:induction false} ScanAtSpec(s: string, p: nat, q: nat)
    requires p <= q <= |s|
    ensures ScanAt(s, p, OpenRule) == Some(q) <==> IsInsecureRule(s[p..q])
  {
    if ScanAt(s, p, OpenRule) == Some(q) {
      ScanAtSound(s, p);
    }
    if IsInsecureRule(s[p..q]) {
      ScanAtComplete(s, p, q);
    }
  }

  /** `x` has no character `c`. */
  predicate Lacks(x: string, c: char)
  {
    forall k :: 0 <= k < |x| ==> x[k] != c
  }

  lemma {:induction false} LacksConcat(x: string, y: string, c: char)
    requires Lacks(x, c) && Lacks(y, c)
    ensures Lacks(x + y, c)
  {
    forall k | 0 <= k < |x + y|
      ensures (x + y)[k] != c
    {
      if k >= |x| {
        assert (x + y)[k] == y[k - |x|];
      }
    }
  }

  /** After `read,`, a match has no `a`. */
  lemma {:induction false} TailLacksA(w2: string, w3: string, w4: string)
    requires AllSpaces(w2) && AllSpaces(w3) && AllSpaces(w4)
    ensures Lacks(w2 + "write:" + w3 + "if" + w4 + "true;", 'a')
  {
    assert Lacks("write:", 'a') && Lacks("if", 'a') && Lacks("true;", 'a');
    assert !IsSpace('a');
    LacksConcat(w2, "write:", 'a');
    LacksConcat(w2 + "write:", w3, 'a');
    LacksConcat(w2 + "write:" + w3, "if", 'a');
    LacksConcat(w2 + "write:" + w3 + "if", w4, 'a');
    LacksConcat(w2 + "write:" + w3 + "if" + w4, "true;", 'a');
  }

  /** Past its first character, the only `a` of a match is the one of `read,`, and a `d`
      follows it. */
  lemma {:induction false} InnerA(w1: string, w2: string, w3: string, w4: string, j: nat)
    requires AllSpaces(w1) && AllSpaces(w2) && AllSpaces(w3) && AllSpaces(w4)
    requires 0 < j < |Shape(w1, w2, w3, w4)|
    ensures Shape(w1, w2, w3, w4)[j] == 'a' ==>
              j + 1 < |Shape(w1, w2, w3, w4)| && Shape(w1, w2, w3, w4)[j + 1] == 'd'
  {
    var x := "allow" + w1;
    var y := w2 + "write:" + w3 + "if" + w4 + "true;";
    var t := Shape(w1, w2, w3, w4);
    assert t == x + "read," + y by {
      Regroup("allow", w1, "read,", w2, "write:", w3, "if", w4, "true;");
      Regroup(x, "", "read,", w2, "write:", w3, "if", w4, "true;");
    }
    if j < 5 {
      assert t[j] == "allow"[j];
    } else if j < |x| {
      assert t[j] == w1[j - 5];
      assert !IsSpace('a');
    } else if j < |x| + 5 {
      assert t[j] == "read,"[j - |x|];
      if t[j] == 'a' {
        assert t[j + 1] == "read,"[3];
      }
    } else {
      TailLacksA(w2, w3, w4);
      assert t[j] == y[j - |x| - 5];
    }
  }

  /** A match starts with `al`. */
  lemma {:induction false} ScanAtStart(s: string, q: nat)
    ensures ScanAt(s, q, OpenRule).Some? ==> q + 1 < |s| && s[q] == 'a' && s[q + 1] == 'l'
  {
    if ScanAt(s, q, OpenRule).Some? {
      assert s[q..q + 5] == "allow";
      assert s[q] == s[q..q + 5][0] && s[q + 1] == s[q..q + 5][1];
    }
  }

  /** Past its first character, a match holds no `a` followed by `l`. */
  lemma {:induction false} NoStartInside(s: string, k: nat, q: nat)
    requires ScanAt(s, k, OpenRule).Some?
    requires k < q < ScanAt(s, k, OpenRule).value
    ensures q + 1 < |s| && s[q] == 'a' ==> s[q + 1] != 'l'
  {
    var e := ScanAt(s, k, OpenRule).value;
    ScanAtSound(s, k);
    var t := s[k..e];
    var w1, w2, w3, w4 :| && t == Shape(w1, w2, w3, w4)
                          && |w1| > 0 && |w4| > 0
                          && AllSpaces(w1) && AllSpaces(w2) && AllSpaces(w3) && AllSpaces(w4);
    InnerA(w1, w2, w3, w4, q - k);
    assert s[q] == t[q - k];
    if s[q] == 'a' {
      assert s[q + 1] == t[q - k + 1];
    }
  }

  /** No match of the pattern can start strictly inside another. */
  lemma {:induction false} NoOverlap(s: string, k: nat, q: nat)
    requires ScanAt(s, k, OpenRule).Some?
    requires k < q < ScanAt(s, k, OpenRule).value
    ensures ScanAt(s, q, OpenRule).None?
  {
    NoStartInside(s, k, q);
    ScanAtStart(s, q);
  }

  // --- The loop over matches ---

  lemma {:induction false} NotBeforeLeftmost(s: string, from: nat, q: nat, pat: Pattern)
    requires from <= q && from <= |s|
    requires ScanAt(s, q, pat).Some?
    ensures NextSpan(s, from, pat).Some? && NextSpan(s, from, pat).value.start <= q
  {
  }

  /** A match the loop does not report starts inside one it does: `exec` only skips offsets
      before its leftmost match or within a reported match. */
  lemma {:induction false} SpansCover(s: string, from: nat, q: nat, pat: Pattern) returns (i: nat)
    requires from <= q && from <= |s| && |pat.lead| > 0
    requires ScanAt(s, q, pat).Some?
    ensures i < |SpansFrom(s, from, pat)| && SpansFrom(s, from, pat)[i].start <= q < SpansFrom(s, from, pat)[i].end
    decreases |s| - from
  {
    NotBeforeLeftmost(s, from, q, pat);
    SpansFromStep(s, from, pat);
    var m := NextSpan(s, from, pat).value;
    if m.end <= q {
      var k := SpansCover(s, m.end, q, pat);
      i := ConsAt(SpansFrom(s, from, pat), m, SpansFrom(s, m.end, pat), k);
    } else {
      i := ConsAt(SpansFrom(s, from, pat), m, SpansFrom(s, m.end, pat), -1);
    }
  }

  /** The global `exec` loop reports every match of the pattern starting at or after `from`,
      as a span of its own. */
  lemma {:induction false} SpansComplete(s: string, from: nat, q: nat) returns (i: nat)
    requires from <= q && from <= |s|
    requires ScanAt(s, q, OpenRule).Some?
    ensures i < |SpansFrom(s, from, OpenRule)|
    ensures SpansFrom(s, from, OpenRule)[i] == Span(q, ScanAt(s, q, OpenRule).value)
  {
    var spans := SpansFrom(s, from, OpenRule);
    i := SpansCover(s, from, q, OpenRule);
    if spans[i].start < q {
      NoOverlap(s, spans[i].start, q);
    }
  }
}
