/** `src/rulesGenerator.ts`: the second copy of the scanner and rules generator, whose
    empty-list text is a single literal without the blank line after the preamble. */
module RulesGenerator {
  import opened Wrappers
  import opened Text
  import opened CollectionPattern
  import opened RulesTemplate

  const NoWorkspaceError := "// Error: No workspace folder open."

  /** JavaScript's `!workspaceRoot`: both `undefined` and the empty string are falsy. */
  predicate IsFalsy(workspaceRoot: Option<string>)
  {
    workspaceRoot == None || workspaceRoot.value == ""
  }

  /** `generateRulesFromCodebase`. The workspace search and the file reads are outside the
      model: `files` holds the contents of the files found, in the order found. */
  method GenerateRulesFromCodebase(workspaceRoot: Option<string>, files: seq<string>) returns (r: string)
    ensures IsFalsy(workspaceRoot) ==> r == NoWorkspaceError
    ensures !IsFalsy(workspaceRoot) ==> r == GeneratorRules(CollectedNames(files))
    ensures !IsFalsy(workspaceRoot) ==> ParseRules(r) == Some(CollectedNames(files))
  {
    if IsFalsy(workspaceRoot) {
      return NoWorkspaceError;
    }
    var collectionNames: seq<string> := [];
    ghost var seen: seq<string> := [];
    assert files[..0] == [];
    for f := 0 to |files|
      invariant seen == AllNames(files[..f])
      invariant collectionNames == Dedup(seen)
    {
      var content := files[f];
      ghost var found: seq<Match> := [];
      assert seen + NamesOf(found) == seen;
      var lastIndex := 0;
      var match_ := NextMatch(content, lastIndex);
      assert found + MatchesFrom(content, lastIndex) == MatchesFrom(content, 0);
      while match_.Some?
        invariant lastIndex <= |content|
        invariant match_ == NextMatch(content, lastIndex)
        invariant found + MatchesFrom(content, lastIndex) == MatchesFrom(content, 0)
        invariant collectionNames == Dedup(seen + NamesOf(found))
        decreases |content| - lastIndex
      {
        var collectionName := match_.value.name;
        MatchesFromStep(content, lastIndex);
        NamesOfSnoc(found, match_.value);
        DedupSnoc(seen + NamesOf(found), collectionName);
        AppendAssoc(seen, NamesOf(found), [collectionName]);
        AppendAssoc(found, [match_.value], MatchesFrom(content, match_.value.end));
        if collectionName !in collectionNames {
          collectionNames := collectionNames + [collectionName];
        }
        found := found + [match_.value];
        lastIndex := match_.value.end;
        match_ := NextMatch(content, lastIndex);
      }
      MatchesFromStep(content, lastIndex);
      assert found == MatchesFrom(content, 0);
      AllNamesSnoc(files, f);
      seen := seen + NamesOf(found);
    }
    assert files[..|files|] == files;
    CollectedNamesSpec(files);
    r := GenerateRulesString(collectionNames);
  }

  /** `generateRulesString` as written in this file: the compact literal for an empty list,
      otherwise the header, one block per collection in list order, and the footer. */
  method GenerateRulesString(collections: seq<string>) returns (rules: string)
    ensures rules == GeneratorRules(collections)
    ensures LiteralAt(rules, 0, Preamble) && EndsWith(rules, Footer)
    ensures |collections| == 0 ==> rules == Preamble + NoUsagesComment + Footer
    ensures AllCollectionNames(collections) ==> ParseRules(rules) == Some(collections)
  {
    if |collections| == 0 {
      GeneratorRulesSpec(collections);
      return CompactEmpty;
    }
    rules := Header;
    for i := 0 to |collections|
      invariant rules == Header + Blocks(collections[..i])
    {
      var collection := collections[i];
      ghost var before := rules;
      rules := rules + BlockOpen + collection + MatchTail;
      rules := rules + ReadRule;
      rules := rules + WriteRule;
      rules := rules + BlockClose;
      AppendNextBlock(collections, i, before, rules);
    }
    assert collections[..|collections|] == collections;
    rules := rules + Footer;
    assert rules == GeneratorRules(collections);
    GeneratorRulesSpec(collections);
  }
}
