# FireRule Guard, modelled in Dafny

FireRule Guard is a VS Code extension for Firestore security rules. This project models its two
text-processing pipelines:

- **Rule generation.** The extension scans the workspace's source files for
  `.collection("name")` calls. It collects the names in a `Set` in the order they are first found.
  It then builds a starter `firestore.rules` text with one `match` block per collection. Each block
  allows reads to signed-in users and denies every write. The pipeline exists twice:
  `src/extension.ts` and `src/rulesGenerator.ts` hold separate copies. The copies differ only in
  the text for an empty list, and each is modelled as written.
- **Linting and quick fix.** For documents whose file name ends in `firestore.rules`, the linter
  publishes one error per match of `allow\s+read,\s*write:\s*if\s+true;`. The quick-fix provider
  offers to replace a range with the authenticated rule whenever the range's first line contains
  `if true;`.

## Modules

| module | what it holds |
|---|---|
| `Wrappers` | `Option` |
| `Text` | `startsWith`-style slices, `endsWith`, `includes`, and a document's text as its lines joined by line feeds |
| `CollectionPattern` | the hand-written scanner for `\.collection\(["'](?<name>[\w-]+)["']\)`, the loop that calls `exec` repeatedly, and the insertion-ordered set. A reference reading, `IsOccurrence`, says the same thing declaratively. |
| `InsecurePattern` | the hand-written scanner for the linter's pattern, generic over a leading literal and a list of (whitespace run, token) steps, with the reference reading `IsInsecureRule` |
| `RulesTemplate` | the rules template as text, the two copies' outputs as functions, and a parser that reads the collection list back out of a generated text |
| `Extension` | `src/extension.ts`: the generator, `generateRulesString`, `updateDiagnostics` with its diagnostic collection, and `provideCodeActions` |
| `RulesGenerator` | `src/rulesGenerator.ts`: the second generator and its `generateRulesString` |

The three loops of the source are methods with loop invariants:

- the `exec` loop that fills the set of names;
- the `rules +=` loop that builds the text;
- the `exec` loop of `updateDiagnostics` that pushes the diagnostics.

Each method is proved against a specification function (`CollectedNames`, `ExtensionRules`,
`GeneratorRules`, `Lint`). The properties the source promises are then proved about those
functions.

## Model

| member | source | states |
|---|---|---|
| `CollectionPattern.NameRunEnd` | src/extension.ts:61 | the greedy `[\w-]+` run from `i` covers only name characters and stops at a non-name character or at the end of the text |
| `CollectionPattern.MatchAt` | src/extension.ts:61 | the pattern anchored at an offset: `.collection(`, a quote, the greedy `[\w-]+` run, a quote and `)`; a match starts at that offset and ends 15 characters past its name. `MatchAtSound` and `MatchAtComplete` tie it to the reference reading |
| `CollectionPattern.MatchAtSound` | src/extension.ts:61 | what the scanner matches at `p` is `.collection(`, a quote, a non-empty `[\w-]` name, a quote and `)`; the two quotes are chosen independently |
| `CollectionPattern.MatchAtComplete` | src/extension.ts:61 | every such occurrence at `p` is matched there, with that name, ending right after the `)`; backtracking cannot produce a different match |
| `CollectionPattern.NextMatch` | src/extension.ts:66 | `exec` from `lastIndex` returns the leftmost match at or after it; no match starts between `lastIndex` and it; it returns none only when no match starts at or after `lastIndex` |
| `CollectionPattern.MatchesFrom` | src/extension.ts:66-69 | the matches `exec` returns when it is called again and again from `lastIndex == from` until it fails, each call resuming at the previous match's end. Its properties are the four `MatchesFrom…` lemmas |
| `CollectionPattern.MatchesFromSound` | src/rulesGenerator.ts:26-31 | each match the loop reports starts at or after where scanning began and is the scanner's match at its own start |
| `CollectionPattern.MatchesFromOrdered` | src/rulesGenerator.ts:26-31 | the loop's matches are non-empty, do not overlap, and come left to right, because scanning resumes at the end of each match |
| `CollectionPattern.NoOverlap` | src/extension.ts:61 | no match can start strictly inside another, because only a match's first character is a `.` |
| `CollectionPattern.MatchesFromCover` | src/extension.ts:66-69 | every offset where a match starts lies inside some reported match |
| `CollectionPattern.MatchesFromComplete` | src/rulesGenerator.ts:26-31 | every match starting at or after where scanning began is reported by the loop |
| `CollectionPattern.NamesOf` | src/extension.ts:67 | the captured names in report order, one per match |
| `CollectionPattern.FileNamesSpec` | src/extension.ts:64-69 | a name is captured from a file exactly when the file has an occurrence of it |
| `CollectionPattern.AllNamesSpec` | src/extension.ts:63-70 | a name is captured from the file list exactly when some file has an occurrence of it |
| `CollectionPattern.Dedup` | src/extension.ts:68 | the `Set` read back in insertion order holds no value twice and holds exactly the values added |
| `CollectionPattern.DedupOrder` | src/extension.ts:68 | the values come out in the order of their first `add`: an earlier value first occurs earlier in the added sequence |
| `CollectionPattern.CollectedNames` | src/extension.ts:59-72 | the list `Array.from` reads out of the set that is filled file after file, match after match. `CollectedNamesSpec` states its properties |
| `CollectionPattern.CollectedNamesSpec` | src/extension.ts:59-72 | the list passed to `generateRulesString` has no duplicates and holds exactly the names occurring in some file; each is a well-formed `[\w-]+` name |
| `Extension.GenerateRulesFromCodebase` | src/extension.ts:56-73 | with no workspace root (absent or empty), the result is exactly the error comment; otherwise it is the template over the collected names, and reading the text back gives exactly those names |
| `Extension.GenerateRulesString` | src/extension.ts:75-91 | the `rules +=` loop yields the header, the no-usages comment or one block per name in list order, and the footer; the text starts with the header and ends with the footer, and it reads back as the list for well-formed names |
| `RulesGenerator.GenerateRulesFromCodebase` | src/rulesGenerator.ts:8-36 | with no workspace root, the result is exactly the error comment; otherwise it is this copy's template over the collected names, and it reads back as those names |
| `RulesGenerator.GenerateRulesString` | src/rulesGenerator.ts:39-57 | an empty list gives the single literal (preamble, comment, footer, no blank line); otherwise the header, one block per name in order, and the footer; the text reads back as the list |
| `RulesTemplate.AppendNextBlock` | src/extension.ts:81-86 | the four `rules +=` of one iteration append exactly the block of the next collection |
| `RulesTemplate.BlockAt` | src/extension.ts:81-86 | block `i` of the body is the block of the `i`-th collection, standing right after the blocks of the collections before it |
| `RulesTemplate.ParseBlocksRoundTrip` | src/rulesGenerator.ts:47-53 | the blocks of well-formed names read back as exactly those names, in order; a block is read only if it has the authenticated-read line and the deny-write line |
| `RulesTemplate.ExtensionRules` | src/extension.ts:75-91 | the text `extension.ts` builds: header, then the no-usages comment (empty list) or one block per name, then the footer. `ExtensionRulesSpec` states its properties |
| `RulesTemplate.GeneratorRules` | src/rulesGenerator.ts:39-57 | the text `rulesGenerator.ts` builds: the compact literal for an empty list, otherwise header, one block per name, footer. `GeneratorRulesSpec` states its properties |
| `RulesTemplate.ExtensionRulesSpec` | src/extension.ts:76-89 | the text always starts with the header and ends with `  }\n}`; for well-formed names it reads back as the list it was built from |
| `RulesTemplate.GeneratorRulesSpec` | src/rulesGenerator.ts:40-56 | the text always starts with the preamble and ends with the footer; a non-empty list starts with the full header; an empty list is exactly the preamble, the comment and the footer; it reads back as the list |
| `RulesTemplate.CompactEmptyLayout` | src/rulesGenerator.ts:41 | the empty-list literal is the preamble, the comment and the footer, and not the header (with its blank line) followed by them |
| `RulesTemplate.CopiesDifferOnlyWhenEmpty` | src/extension.ts:76-79 | the two copies of `generateRulesString` produce the same text exactly when the list is non-empty |
| `InsecurePattern.SkipSpacesRun` | src/extension.ts:99 | a greedy `\s` run covers only whitespace and stops at a non-space or at the end of the text |
| `InsecurePattern.ScanSteps` | src/extension.ts:99 | the pattern after its leading `allow`: for each step, the greedy `\s` run (non-empty for `\s+`) and then the literal token; the match ends within the text |
| `InsecurePattern.ScanAt` | src/extension.ts:99 | the pattern anchored at an offset: `allow` and then the steps; a match ends past `allow`, within the text |
| `InsecurePattern.ScanSound` | src/extension.ts:99 | what the step scanner reads is the steps' tokens with whitespace runs before them; a `\s+` run is never empty |
| `InsecurePattern.ScanComplete` | src/extension.ts:99 | any such rendering is read by the scanner in full, so greedy skipping without backtracking loses no match |
| `InsecurePattern.ScanAtSound` | src/extension.ts:99 | what the scanner matches at `p` is a whole match of `allow\s+read,\s*write:\s*if\s+true;` in the reference reading |
| `InsecurePattern.ScanAtComplete` | src/extension.ts:99 | every whole match of the pattern from `p` to `q` is what the scanner reports at `p` |
| `InsecurePattern.ScanAtSpec` | src/extension.ts:99 | the scanner reports a match from `p` to `q` exactly when `text[p..q]` is a whole match of the pattern |
| `InsecurePattern.NoOverlap` | src/extension.ts:99 | no match can start strictly inside another: past its first character, the only `a` of a match is the one in `read,`, and it is followed by `d`, not `l` |
| `InsecurePattern.NextSpan` | src/extension.ts:102 | `exec` returns the leftmost match at or after `lastIndex`, and none only when no match starts there or later |
| `InsecurePattern.SpansFrom` | src/extension.ts:102-105 | the matches `exec` returns when called until it fails: each starts at or after where scanning began and is the scanner's match at its own start |
| `InsecurePattern.SpansOrdered` | src/extension.ts:102-105 | the loop's matches are non-empty, disjoint and strictly increasing |
| `InsecurePattern.SpansCover` | src/extension.ts:102-105 | every offset where a match starts lies inside a reported match |
| `InsecurePattern.SpansComplete` | src/extension.ts:102-105 | every match starting at or after where scanning began is reported as a span of its own, with exactly its start and end |
| `Extension.Lint` | src/extension.ts:97-105 | the list the loop pushes for a text: one diagnostic per match `exec` returns. `LintSound`, `LintOrdered` and `LintComplete` state its properties |
| `Extension.ToDiagnostics` | src/extension.ts:103-104 | one diagnostic per match, in order, spanning the match's offsets, with error severity and the fixed message |
| `Extension.DiagnosticCollection.Set` | src/extension.ts:106 | `set` replaces the list of one document and leaves every other document's list unchanged |
| `Extension.UpdateDiagnostics` | src/extension.ts:95-107 | a document whose file name does not end in `firestore.rules` leaves the collection unchanged; otherwise its list is replaced, in one `set`, by the diagnostics of all matches in its text |
| `Extension.LintSound` | src/extension.ts:102-104 | every diagnostic is an error with the fixed message and spans exactly one whole match of the pattern |
| `Extension.LintOrdered` | src/extension.ts:102-105 | the diagnostics' spans are non-empty, disjoint and strictly increasing |
| `Extension.LintComplete` | src/extension.ts:99-105 | every whole match of the pattern in the text gets a diagnostic of its own, starting and ending exactly where the match does |
| `Text.IncludesFrom` | src/extension.ts:112 | `includes` from an offset is true exactly when the substring occurs at or after it |
| `Text.Includes` | src/extension.ts:112 | `includes` is true exactly when the substring occurs somewhere in the string |
| `Extension.ProvideCodeActions` | src/extension.ts:110-118 | no action exactly when the line at the range's start lacks `if true;`; otherwise exactly one quick fix, titled as in the source, whose edit replaces the whole range with `allow read, write: if request.auth != null;` |

## Left out

- Extension activation and deactivation, command registration and event subscriptions
  (src/extension.ts:5-52, 121): host plumbing with no logic of its own.
- `vscode.workspace.findFiles`, `fs.readFileSync` and `fs.writeFileSync`, opening and showing the
  document, and the information and error messages: I/O. The generators take the files'
  contents as a list of strings, in the order found.
- The `async`/`await` structure: it adds no concurrency to these functions.
- `document.positionAt` and the `vscode.Range`, `Diagnostic`, `CodeAction` and `WorkspaceEdit`
  objects: host APIs. Diagnostics carry offsets into the text, and the other objects are plain
  records.
- Offsets count Dafny characters, whereas JavaScript counts UTF-16 code units. The two differ
  only for text outside the Basic Multilingual Plane.
- `Extension.GetText`: a document is its lines joined with line feeds. Carriage-return line
  endings are not modelled.
- `Extension.TextDocument` does not require its lines to be free of line feeds and carriage
  returns, although a host document's lines never contain them. No contract depends on this.
- `Extension.ProvideCodeActions` requires the range to start on a line of the document.
  `lineAt` throws for any other line, and the host only asks about ranges inside the document.
- The `if (collectionName)` guard and the optional `match.groups?.name` are always satisfied,
  because the group `[\w-]+` captures a non-empty name on every match. The model adds the name
  unconditionally.
- The regex object is shared across files. A failing `exec` resets its `lastIndex` to 0, so the
  model scans each file afresh from offset 0.
- The model does not claim that the linter and the quick fix agree on which lines are insecure.
  The quick fix looks only for `if true;` on one line. The linter needs the whole pattern, which
  may span lines.
