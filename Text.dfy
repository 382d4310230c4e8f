/** String helpers standing for the JavaScript string methods the extension calls. */
module Text {

  /** `lit` occurs in `s` starting at offset `i`. */
  predicate LiteralAt(s: string, i: nat, lit: string)
  {
    i + |lit| <= |s| && s[i..i + |lit|] == lit
  }

  lemma {:induction false} SliceIsLiteral(s: string, p: nat, q: nat, t: string)
    requires p <= q <= |s| && s[p..q] == t
    ensures LiteralAt(s, p, t) && q == p + |t|
  {
  }

  /** `String.prototype.endsWith`. */
  predicate EndsWith(s: string, suffix: string)
  {
    |suffix| <= |s| && s[|s| - |suffix|..] == suffix
  }

  /** `String.prototype.includes`, searching from offset `from` on: true exactly when `pat`
      occurs somewhere at or after `from`. */
  function IncludesFrom(s: string, pat: string, from: nat): (b: bool)
    requires from <= |s|
    decreases |s| - from
    ensures b <==> exists i :: from <= i && LiteralAt(s, i, pat)
  {
    if LiteralAt(s, from, pat) then true
    else if from == |s| then false
    else IncludesFrom(s, pat, from + 1)
  }

  function Includes(s: string, pat: string): (b: bool)
    ensures b <==> exists i :: LiteralAt(s, i, pat)
  {
    IncludesFrom(s, pat, 0)
  }

  /** The full text of a document given as its lines, separated by line feeds. */
  function JoinLines(lines: seq<string>): string
  {
    if |lines| == 0 then ""
    else if |lines| == 1 then lines[0]
    else lines[0] + "\n" + JoinLines(lines[1..])
  }

  lemma {:induction false} PrefixIndex<T>(x: seq<T>, y: seq<T>, k: nat)
    requires k < |x|
    ensures (x + y)[k] == x[k]
  {
  }

  /** Index `k + 1` of `[m] + rest`: `m` itself for `k == -1`, otherwise `rest[k]`. */
  lemma {:induction false} ConsAt<T>(xs: seq<T>, m: T, rest: seq<T>, k: int) returns (i: nat)
    requires xs == [m] + rest && -1 <= k < |rest|
    ensures i == k + 1 && i < |xs| && xs[i] == if k < 0 then m else rest[k]
  {
    i := k + 1;
    assert xs[i] == if k < 0 then m else rest[k];
  }

  lemma {:induction false} AppendAssoc<T>(a: seq<T>, b: seq<T>, c: seq<T>)
    ensures a + b + c == a + (b + c)
  {
  }
}
