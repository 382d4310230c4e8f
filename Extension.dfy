/** `src/extension.ts`: the command's rules generator, the linter that publishes diagnostics
    for `firestore.rules` documents, and the quick-fix provider. */
module Extension {
  import opened Wrappers
  import opened Text
  import opened CollectionPattern
  import opened RulesTemplate
  import opened InsecurePattern

  const NoWorkspaceError := "// Error: No workspace folder open."

  /** JavaScript's `!workspaceRoot`: both `undefined` and the empty string are falsy. */
  predicate IsFalsy(workspaceRoot: Option<string>)
  {
    workspaceRoot == None || workspaceRoot.value == ""
  }

  /** `generateRulesFromCodebase`. The workspace search and the file reads are outside the
      model: `files` holds the contents of the files found, in the order found. */
  method GenerateRulesFromCodebase(workspaceRoot: Option<string>, files: seq<string>) returns (r: string)
    ensures IsFalsy(workspaceRoot) ==> r == NoWorkspaceError
    ensures !IsFalsy(workspaceRoot) ==> r == ExtensionRules(CollectedNames(files))
    ensures !IsFalsy(workspaceRoot) ==> ParseRules(r) == Some(CollectedNames(files))
  {
    if IsFalsy(workspaceRoot) {
      return NoWorkspaceError;
    }
    var collectionNames: seq<string> := [];
    ghost var seen: seq<string> := [];
    assert files[..0] == [];
    for f := 0 to |files|
      invariant seen == AllNames(files[..f])
      invariant collectionNames == Dedup(seen)
    {
      var content := files[f];
      ghost var found: seq<Match> := [];
      assert seen + NamesOf(found) == seen;
      var lastIndex := 0;
      var match_ := NextMatch(content, lastIndex);
      assert found + MatchesFrom(content, lastIndex) == MatchesFrom(content, 0);
      while match_.Some?
        invariant lastIndex <= |content|
        invariant match_ == NextMatch(content, lastIndex)
        invariant found + MatchesFrom(content, lastIndex) == MatchesFrom(content, 0)
        invariant collectionNames == Dedup(seen + NamesOf(found))
        decreases |content| - lastIndex
      {
        var collectionName := match_.value.name;
        MatchesFromStep(content, lastIndex);
        NamesOfSnoc(found, match_.value);
        DedupSnoc(seen + NamesOf(found), collectionName);
        AppendAssoc(seen, NamesOf(found), [collectionName]);
        AppendAssoc(found, [match_.value], MatchesFrom(content, match_.value.end));
        if collectionName !in collectionNames {
          collectionNames := collectionNames + [collectionName];
        }
        found := found + [match_.value];
        lastIndex := match_.value.end;
        match_ := NextMatch(content, lastIndex);
      }
      MatchesFromStep(content, lastIndex);
      assert found == MatchesFrom(content, 0);
      AllNamesSnoc(files, f);
      seen := seen + NamesOf(found);
    }
    assert files[..|files|] == files;
    CollectedNamesSpec(files);
    r := GenerateRulesString(collectionNames);
  }

  /** `generateRulesString` as written in this file: the header always, then the no-usages
      comment or one block per collection in list order, then the footer. */
  method GenerateRulesString(collections: seq<string>) returns (rules: string)
    ensures rules == ExtensionRules(collections)
    ensures LiteralAt(rules, 0, Header) && EndsWith(rules, Footer)
    ensures AllCollectionNames(collections) ==> ParseRules(rules) == Some(collections)
  {
    rules := Header;
    if |collections| == 0 {
      rules := rules + NoUsagesComment;
    } else {
      for i := 0 to |collections|
        invariant rules == Header + Blocks(collections[..i])
      {
        var collection := collections[i];
        ghost var before := rules;
        rules := rules + BlockOpen + collection + MatchTail;
        rules := rules + ReadRule;
        rules := rules + WriteRule;
        rules := rules + BlockClose;
        AppendNextBlock(collections, i, before, rules);
      }
      assert collections[..|collections|] == collections;
    }
    rules := rules + Footer;
    ExtensionRulesSpec(collections);
  }

  // --- Linter ---

  datatype Severity = Error | Warning | Information | Hint

  /** A diagnostic over the flat offsets `[start, end)` of the document's text. */
  datatype Diagnostic = Diagnostic(start: nat, end: nat, message: string, severity: Severity)

  /** A document: its identity, its file name and its lines. */
  datatype TextDocument = TextDocument(uri: string, fileName: string, lines: seq<string>)

  function GetText(document: TextDocument): string
  {
    JoinLines(document.lines)
  }

  const RulesFileSuffix := "firestore.rules"
  const CriticalMessage := "\U{26A0}\U{FE0F} CRITICAL: " + "Database is open to the world!"

  /** The diagnostics the loop pushes, one per reported span. */
  function ToDiagnostics(spans: seq<Span>): (ds: seq<Diagnostic>)
    ensures |ds| == |spans|
    ensures forall i :: 0 <= i < |spans| ==>
              ds[i] == Diagnostic(spans[i].start, spans[i].end, CriticalMessage, Error)
  {
    if spans == [] then []
    else
      var last := spans[|spans| - 1];
      ToDiagnostics(spans[..|spans| - 1]) + [Diagnostic(last.start, last.end, CriticalMessage, Error)]
  }

  /** The complete diagnostic list for a text. */
  function Lint(text: string): seq<Diagnostic>
  {
    ToDiagnostics(SpansFrom(text, 0, OpenRule))
  }

  /** The host's diagnostic collection: the published diagnostics per document. */
  class DiagnosticCollection {
    var entries: map<string, seq<Diagnostic>>

    constructor ()
      ensures entries == map[]
    {
      entries := map[];
    }

    /** `set`: replaces the list for one document, leaving the others alone. */
    method Set(uri: string, diagnostics: seq<Diagnostic>)
      modifies this
      ensures entries == old(entries)[uri := diagnostics]
    {
      entries := entries[uri := diagnostics];
    }
  }

  /** `updateDiagnostics`: a no-op for documents that are not rules files; otherwise the
      document's list is replaced, in one `set`, by the diagnostics of its current text. */
  method UpdateDiagnostics(document: TextDocument, collection: DiagnosticCollection)
    modifies collection
    ensures !EndsWith(document.fileName, RulesFileSuffix) ==> collection.entries == old(collection.entries)
    ensures EndsWith(document.fileName, RulesFileSuffix) ==>
              collection.entries == old(collection.entries)[document.uri := Lint(GetText(document))]
  {
    if !EndsWith(document.fileName, RulesFileSuffix) {
      return;
    }
    var diagnostics: seq<Diagnostic> := [];
    var text := GetText(document);
    ghost var found: seq<Span> := [];
    var lastIndex := 0;
    var match_ := NextSpan(text, lastIndex, OpenRule);
    assert found + SpansFrom(text, lastIndex, OpenRule) == SpansFrom(text, 0, OpenRule);
    while match_.Some?
      invariant lastIndex <= |text|
      invariant match_ == NextSpan(text, lastIndex, OpenRule)
      invariant found + SpansFrom(text, lastIndex, OpenRule) == SpansFrom(text, 0, OpenRule)
      invariant diagnostics == ToDiagnostics(found)
      invariant collection.entries == old(collection.entries)
      decreases |text| - lastIndex
    {
      var span := match_.value;
      SpansFromStep(text, lastIndex, OpenRule);
      diagnostics := diagnostics + [Diagnostic(span.start, span.end, CriticalMessage, Error)];
      assert (found + [span])[..|found|] == found;
      AppendAssoc(found, [span], SpansFrom(text, span.end, OpenRule));
      found := found + [span];
      lastIndex := span.end;
      match_ := NextSpan(text, lastIndex, OpenRule);
    }
    SpansFromStep(text, lastIndex, OpenRule);
    assert found == SpansFrom(text, 0, OpenRule);
    assert diagnostics == Lint(text);
    collection.Set(document.uri, diagnostics);
  }

  /** Every diagnostic the linter reports is an error with the fixed message, spanning
      exactly one whole match of the pattern. */
  lemma {:induction false} LintSound(text: string, i: nat)
    requires i < |Lint(text)|
    ensures Lint(text)[i].severity == Error && Lint(text)[i].message == CriticalMessage
    ensures Lint(text)[i].start < Lint(text)[i].end <= |text|
    ensures IsInsecureRule(text[Lint(text)[i].start..Lint(text)[i].end])
  {
    var spans := SpansFrom(text, 0, OpenRule);
    ScanAtSound(text, spans[i].start);
  }

  /** The reported spans are disjoint and strictly increasing. */
  lemma {:induction false} LintOrdered(text: string, i: nat, j: nat)
    requires i < j < |Lint(text)|
    ensures Lint(text)[i].start < Lint(text)[i].end <= Lint(text)[j].start < Lint(text)[j].end
  {
    SpansOrdered(text, 0, OpenRule);
  }

  /** Every whole match of the pattern in the text gets a diagnostic of its own, spanning
      exactly that match. */
  lemma {:induction false} LintComplete(text: string, p: nat, q: nat) returns (i: nat)
    requires p <= q <= |text| && IsInsecureRule(text[p..q])
    ensures i < |Lint(text)| && Lint(text)[i].start == p && Lint(text)[i].end == q
  {
    ScanAtComplete(text, p, q);
    i := SpansComplete(text, 0, p);
  }

  // --- Quick-fix ---

  datatype Position = Position(line: nat, character: nat)
  datatype Range = Range(start: Position, end: Position)
  datatype CodeActionKind = QuickFix
  datatype TextEdit = Replace(uri: string, range: Range, newText: string)
  datatype CodeAction = CodeAction(title: string, kind: CodeActionKind, edits: seq<TextEdit>)

  const InsecureMarker := "if true;"
  const SecureRule := "allow read, write: " + "if request.auth != null;"
  const FixTitle := "\U{1F512} Secure rule " + "(Require Authentication)"

  /** `SecurityFixer.provideCodeActions`: no action unless the line at the start of the range
      contains `if true;`; otherwise one quick fix replacing the whole range with the
      authenticated rule. The host only asks about lines of the document. */
  function ProvideCodeActions(document: TextDocument, range: Range): (actions: seq<CodeAction>)
    requires range.start.line < |document.lines|
    ensures actions == [] <==> !exists i :: LiteralAt(document.lines[range.start.line], i, InsecureMarker)
    ensures |actions| <= 1
    ensures forall a :: a in actions ==>
              a.kind == QuickFix && a.title == FixTitle && a.edits == [Replace(document.uri, range, SecureRule)]
  {
    var line := document.lines[range.start.line];
    if !Includes(line, InsecureMarker) then []
    else [CodeAction(FixTitle, QuickFix, [Replace(document.uri, range, SecureRule)])]
  }
}
