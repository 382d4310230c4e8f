/** The fixed Firestore rules template both copies of `generateRulesString` emit, and a
    parser that reads the collection list back out of an emitted text. */
module RulesTemplate {
  import opened Wrappers
  import opened Text
  import opened CollectionPattern

  // The template's lines. A line longer than about forty characters is spelled as the
  // concatenation of shorter pieces; the text is the same.

  const VersionLine := "rules_version = '2';\n"
  const ServiceLine := "service cloud.firestore {\n"
  const DatabaseLine := "  match /databases/{database}" + "/documents {\n"
  /** The version line, the service block and the database match, up to its newline. */
  const Preamble := VersionLine + ServiceLine + DatabaseLine
  /** What both copies start a text with before appending: a blank line after the preamble. */
  const Header := Preamble + "\n"
  const NoUsagesComment := "    // No collection usages " + "were found in the codebase.\n"
  const Footer := "  }\n}"
  /** The single literal `rulesGenerator.ts` returns for an empty list, line by line. */
  const CompactEmpty := VersionLine + ServiceLine + DatabaseLine
    + "    // No collection usages " + "were found in the codebase.\n"
    + "  }\n}"

  const BlockOpen := "    match /"
  const MatchTail := "/{documentId} {\n"
  const ReadRule := "      allow read: " + "if request.auth != null;\n"
  const WriteRule := "      allow write: if false;" + " // WARNING: " + "Review and update this rule!\n"
  const BlockClose := "    }\n\n"
  const BlockTail := MatchTail + ReadRule + WriteRule + BlockClose

  /** The four lines emitted for one collection. */
  function Block(c: string): string
  {
    BlockOpen + c + BlockTail
  }

  function Blocks(cs: seq<string>): string
  {
    if cs == [] then "" else Block(cs[0]) + Blocks(cs[1..])
  }

  /** `extension.ts`: header, then the comment or the blocks, then the footer. */
  function ExtensionRules(cs: seq<string>): string
  {
    Header + (if |cs| == 0 then NoUsagesComment else Blocks(cs)) + Footer
  }

  /** `rulesGenerator.ts`: the compact literal when empty, else header, blocks, footer. */
  function GeneratorRules(cs: seq<string>): string
  {
    if |cs| == 0 then CompactEmpty else Header + Blocks(cs) + Footer
  }

  /** Reads back blocks that each stand as `open`, a collection name and `tail`. */
  function ParseFramed(t: string, open: string, tail: string): Option<seq<string>>
    decreases |t|
  {
    if t == [] then Some([])
    else if LiteralAt(t, 0, open) then
      var e := NameRunEnd(t, |open|);
      if |open| < e && LiteralAt(t, e, tail) then
        match ParseFramed(t[e + |tail|..], open, tail)
        case None => None
        case Some(rest) => Some([t[|open|..e]] + rest)
      else None
    else None
  }

  /** Reads the blocks of a body back, accepting only blocks whose read line is the
      authenticated-read rule and whose write line is the deny-all rule. */
  function ParseBlocks(t: string): Option<seq<string>>
  {
    ParseFramed(t, BlockOpen, BlockTail)
  }

  /** Reads the collection list back from a rules text of either copy. */
  function ParseRules(t: string): Option<seq<string>>
  {
    if t == CompactEmpty then Some([])
    else if |Header| + |Footer| <= |t| && LiteralAt(t, 0, Header) && EndsWith(t, Footer) then
      var body := t[|Header|..|t| - |Footer|];
      if body == NoUsagesComment then Some([]) else ParseBlocks(body)
    else None
  }

  predicate AllCollectionNames(cs: seq<string>)
  {
    forall i :: 0 <= i < |cs| ==> IsCollectionName(cs[i])
  }

  lemma {:induction false} BlocksAppend(a: seq<string>, b: seq<string>)
    ensures Blocks(a + b) == Blocks(a) + Blocks(b)
  {
    if a == [] {
      assert a + b == b;
    } else {
      assert (a + b)[0] == a[0];
      assert (a + b)[1..] == a[1..] + b;
      BlocksAppend(a[1..], b);
      assert Blocks(a + b) == Block(a[0]) + (Blocks(a[1..]) + Blocks(b));
    }
  }

  lemma {:induction false} BlocksCons(c: string, rest: seq<string>)
    ensures Blocks([c] + rest) == Block(c) + Blocks(rest)
  {
    assert ([c] + rest)[0] == c && ([c] + rest)[1..] == rest;
  }

  /** Appending one collection appends its block: what the `rules +=` loop relies on. */
  lemma {:induction false} BlocksSnoc(cs: seq<string>, c: string)
    ensures Blocks(cs + [c]) == Blocks(cs) + Block(c)
  {
    BlocksAppend(cs, [c]);
    assert [c][1..] == [];
  }

  lemma {:induction false} ConcatRegroup(p: string, a: string, x: string, m: string, r: string, w: string, c: string)
    ensures p + a + x + m + r + w + c == p + (a + x + (m + r + w + c))
  {
  }

  /** The four `rules +=` of one loop iteration append exactly one block. */
  lemma {:induction false} AppendBlockLines(rules: string, c: string)
    ensures rules + BlockOpen + c + MatchTail + ReadRule + WriteRule + BlockClose == rules + Block(c)
  {
    ConcatRegroup(rules, BlockOpen, c, MatchTail, ReadRule, WriteRule, BlockClose);
  }

  /** One iteration of the `rules +=` loop over `cs`: the text so far holds the blocks of the
      first `i` collections, and the four appends add the block of the next one. */
  lemma {:induction false} AppendNextBlock(cs: seq<string>, i: nat, before: string, after: string)
    requires i < |cs| && before == Header + Blocks(cs[..i])
    requires after == before + BlockOpen + cs[i] + MatchTail + ReadRule + WriteRule + BlockClose
    ensures after == Header + Blocks(cs[..i + 1])
  {
    AppendBlockLines(before, cs[i]);
    BlocksPrefixSnoc(cs, i);
    JoinStep(Header, Blocks(cs[..i]), Block(cs[i]), before, after, Blocks(cs[..i + 1]));
  }

  lemma {:induction false} BlocksPrefixSnoc(cs: seq<string>, i: nat)
    requires i < |cs|
    ensures Blocks(cs[..i + 1]) == Blocks(cs[..i]) + Block(cs[i])
  {
    assert cs[..i + 1] == cs[..i] + [cs[i]];
    BlocksSnoc(cs[..i], cs[i]);
  }

  lemma {:induction false} JoinStep(h: string, x: string, y: string, before: string, after: string, whole: string)
    requires before == h + x && after == before + y && whole == x + y
    ensures after == h + whole
  {
  }

  lemma {:induction false} MiddleSlice(x: string, y: string, z: string)
    ensures (x + y + z)[|x|..|x| + |y|] == y
  {
  }

  /** Block `i` stands right after the blocks of the collections before it: one block per
      collection, in list order. */
  lemma {:induction false} BlockAt(cs: seq<string>, i: nat)
    requires i < |cs|
    ensures Blocks(cs) == Blocks(cs[..i]) + Block(cs[i]) + Blocks(cs[i + 1..])
    ensures LiteralAt(Blocks(cs), |Blocks(cs[..i])|, Block(cs[i]))
  {
    var tail := [cs[i]] + cs[i + 1..];
    assert cs == cs[..i] + tail;
    BlocksAppend(cs[..i], tail);
    BlocksCons(cs[i], cs[i + 1..]);
    AppendAssoc(Blocks(cs[..i]), Block(cs[i]), Blocks(cs[i + 1..]));
    MiddleSlice(Blocks(cs[..i]), Block(cs[i]), Blocks(cs[i + 1..]));
  }

  /** Where each of four concatenated pieces stands in the whole. */
  lemma {:induction false} FourParts(a: string, c: string, b: string, rest: string)
    ensures var t := a + c + b + rest;
              && t[..|a|] == a
              && (forall k :: |a| <= k < |a| + |c| ==> t[k] == c[k - |a|])
              && t[|a|..|a| + |c|] == c
              && t[|a| + |c|..|a| + |c| + |b|] == b
              && t[|a| + |c| + |b|..] == rest
              && (|b| > 0 ==> t[|a| + |c|] == b[0])
  {
  }

  /** The block tail starts with the `/` that ends a collection name. */
  lemma {:induction false} TailStartsWithSlash()
    ensures |BlockTail| > 0 && !IsNameChar(BlockTail[0])
  {
    assert BlockTail[0] == '/';
  }

  /** Parsing one block off the front of a text that starts with it, whatever its frame. */
  lemma {:induction false} ParseFramedStep(open: string, c: string, tail: string, rest: string)
    requires IsCollectionName(c) && |tail| > 0 && !IsNameChar(tail[0])
    ensures ParseFramed(open + c + tail + rest, open, tail) ==
              match ParseFramed(rest, open, tail) case None => None case Some(cs) => Some([c] + cs)
  {
    var t := open + c + tail + rest;
    var e := |open| + |c|;
    FourParts(open, c, tail, rest);
    NameRunEndAt(t, |open|, |c|);
    SliceIsLiteral(t, 0, |open|, open);
    SliceIsLiteral(t, e, e + |tail|, tail);
    ParseFramedUnfold(t, open, tail, e, c, rest);
  }

  /** `ParseFramed` on a text that starts with a well-formed block holding `c` and ending at
      `e`, followed by `rest`. */
  lemma {:induction false} ParseFramedUnfold(t: string, open: string, tail: string, e: nat, c: string, rest: string)
    requires LiteralAt(t, 0, open) && |open| < e
    requires NameRunEnd(t, |open|) == e && LiteralAt(t, e, tail)
    requires t[|open|..e] == c && t[e + |tail|..] == rest
    ensures ParseFramed(t, open, tail) ==
              match ParseFramed(rest, open, tail) case None => None case Some(cs) => Some([c] + cs)
  {
  }

  /** Parsing one block off the front of a text that starts with it. */
  lemma {:induction false} ParseBlockStep(c: string, rest: string)
    requires IsCollectionName(c)
    ensures ParseBlocks(Block(c) + rest) ==
              match ParseBlocks(rest) case None => None case Some(cs) => Some([c] + cs)
  {
    TailStartsWithSlash();
    ParseFramedStep(BlockOpen, c, BlockTail, rest);
  }

  /** The blocks of valid names parse back to exactly those names. */
  lemma {:induction false} ParseBlocksRoundTrip(cs: seq<string>)
    requires AllCollectionNames(cs)
    ensures ParseBlocks(Blocks(cs)) == Some(cs)
  {
    if cs != [] {
      ParseBlocksRoundTrip(cs[1..]);
      ParseBlockStep(cs[0], Blocks(cs[1..]));
      assert [cs[0]] + cs[1..] == cs;
    }
  }

  /** `rulesGenerator.ts`'s empty literal is the preamble, the comment and the footer, with no
      blank line before the comment. */
  lemma {:induction false} CompactEmptyLayout()
    ensures CompactEmpty == Preamble + NoUsagesComment + Footer
    ensures CompactEmpty != Header + NoUsagesComment + Footer
  {
    assert |CompactEmpty| + 1 == |Header + NoUsagesComment + Footer|;
  }

  lemma {:induction false} Framed(body: string)
    ensures LiteralAt(Header + body + Footer, 0, Header)
    ensures EndsWith(Header + body + Footer, Footer)
    ensures (Header + body + Footer)[|Header|..|Header + body + Footer| - |Footer|] == body
  {
    var t := Header + body + Footer;
    assert t[..|Header|] == Header;
    assert t[|t| - |Footer|..] == Footer;
    MiddleSlice(Header, body, Footer);
  }

  /** Only the compact literal lacks the blank line after the preamble. */
  lemma {:induction false} NotCompact(t: string)
    requires LiteralAt(t, 0, Header)
    ensures t != CompactEmpty
  {
    assert t[|Preamble|] == Header[|Preamble|] == '\n';
    assert CompactEmpty[|Preamble|] == ' ';
  }

  /** A body with blocks has the block opener's fifth character where the comment has its. */
  lemma {:induction false} BlocksFifthChar(cs: seq<string>)
    requires |cs| > 0
    ensures |Blocks(cs)| > 4 && Blocks(cs)[4] == BlockOpen[4]
  {
    var c := cs[0];
    assert Blocks(cs) == Block(c) + Blocks(cs[1..]);
    PrefixIndex(BlockOpen, c, 4);
    PrefixIndex(BlockOpen + c, BlockTail, 4);
    PrefixIndex(Block(c), Blocks(cs[1..]), 4);
  }

  /** The opener reads `match` where the comment reads `//`. */
  lemma {:induction false} OpenerIsNotComment()
    ensures |NoUsagesComment| > 4 && BlockOpen[4] != NoUsagesComment[4]
  {
    assert BlockOpen[4] == 'm';
    assert NoUsagesComment[4] == '/';
  }

  /** A body with blocks is never mistaken for the no-usages comment. */
  lemma {:induction false} BlocksNotComment(cs: seq<string>)
    requires |cs| > 0
    ensures Blocks(cs) != NoUsagesComment
  {
    BlocksFifthChar(cs);
    OpenerIsNotComment();
  }

  /** Every text `extension.ts` emits begins with the header and ends with the footer, and it
      reads back as the list it was built from when the names are well formed. */
  lemma {:induction false} ExtensionRulesSpec(cs: seq<string>)
    ensures LiteralAt(ExtensionRules(cs), 0, Header) && EndsWith(ExtensionRules(cs), Footer)
    ensures AllCollectionNames(cs) ==> ParseRules(ExtensionRules(cs)) == Some(cs)
  {
    var body := if |cs| == 0 then NoUsagesComment else Blocks(cs);
    Framed(body);
    NotCompact(ExtensionRules(cs));
    if |cs| > 0 {
      BlocksNotComment(cs);
      if AllCollectionNames(cs) {
        ParseBlocksRoundTrip(cs);
      }
    }
  }

  /** Every text `rulesGenerator.ts` emits begins with the preamble and ends with the footer,
      and it reads back as the list it was built from when the names are well formed. */
  lemma {:induction false} GeneratorRulesSpec(cs: seq<string>)
    ensures LiteralAt(GeneratorRules(cs), 0, Preamble) && EndsWith(GeneratorRules(cs), Footer)
    ensures |cs| > 0 ==> LiteralAt(GeneratorRules(cs), 0, Header)
    ensures |cs| == 0 ==> GeneratorRules(cs) == Preamble + NoUsagesComment + Footer
    ensures AllCollectionNames(cs) ==> ParseRules(GeneratorRules(cs)) == Some(cs)
  {
    var t := GeneratorRules(cs);
    if |cs| == 0 {
      CompactEmptyLayout();
      assert t[..|Preamble|] == Preamble;
      assert t[|t| - |Footer|..] == Footer;
    } else {
      assert t == ExtensionRules(cs);
      ExtensionRulesSpec(cs);
      assert t[..|Preamble|] == Header[..|Preamble|] == Preamble;
    }
  }

  /** The two copies emit the same text exactly when the list is non-empty. */
  lemma {:induction false} CopiesDifferOnlyWhenEmpty(cs: seq<string>)
    ensures ExtensionRules(cs) == GeneratorRules(cs) <==> |cs| > 0
  {
    if |cs| == 0 {
      CompactEmptyLayout();
    }
  }
}
