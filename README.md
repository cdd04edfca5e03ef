# Carry Forward: a verified model of `copyForwardLines`

The Obsidian plugin Carry Forward copies lines of a note together with a
link back to them. For every selection in the editor, `copyForwardLines`:

- gives each anchored line a block identifier. It reuses the line's
  trailing `^id` token, or mints five random characters with `genID` and
  appends ` ^id`;
- builds a link to `#^id` with the host's link formatter;
- produces the copied text. This is the line with the user's From/To
  rewrite applied (SeparateLines, CombinedLines), the copied-link template
  (LinkOnly) or `!` and the link (LinkOnlyEmbed).

The user's From pattern is checked first, by `validateRegex`. The
rewritten buffer lines of every selection are queued as one edit per
distinct line span. All copied lines are joined into the clipboard
payload.

The model is a Dafny project of six modules:

- `Wrappers`: `Option`.
- `Text`: the JavaScript string operations the code uses, over
  `seq<char>`. These are trimming, the blank test, `slice`, `replace` with
  a string pattern, and `join`.
- `Regex`: `validateRegex`, an abstract regular-expression engine, and
  replacing a first match.
- `BlockId`: `genID` (the `while` loop of `GenID`, specified by `IdFrom`),
  `blockIDRegex`, appending a new token, and token resolution with its
  idempotence.
- `CarryForward`: the settings, `DEFAULT_SETTINGS`, the copy types and
  modes. It specifies a line, a selection and a whole invocation as
  functions. It also has the imperative code: `AnchorCarry`, `CarryLine`,
  the `for` loop over lines in `CarrySelection`, and the loop over
  selections with the de-duplicated change queue in `CopyForwardLines`.
  Each method is proved equal to its specification function.
- `CarryForwardProps`: what the code promises, proved about those
  functions. It covers lines, selections, the whole invocation and a
  worked example.

The editor buffer is read-only while the selections are processed. The
source reads `editor.getLine` and applies the edits only at the end. An
invocation therefore takes the buffer lines, the selections, the settings,
the copy type and the link-text mode. It returns one of three outcomes:

- the invalid-pattern notice;
- a stop, when the raw From pattern throws at a rewrite;
- the transaction (the changes and the selections afterwards), the
  clipboard payload and the optional "Copied" notice.

`Math.random`, `generateMarkdownLink` and the link text read from the
selection or the clipboard come from a `Host` value. Draws are numbered
from 0, and five are used for each minted identifier.

Four consequences of the code are easy to miss when reading the
commands, and the model states them:

- **No selections.** The code still writes an empty clipboard payload,
  shows "Copied" when that setting is on, and applies an empty
  transaction. It is not a silent no-op (`NoSelections`).
- **Entry count in the link-only types.** There is one entry for the
  first line, plus one for every whitespace-only line after it. The blank
  line short-circuit at main.ts:110-117 pushes its copy before the
  suppression at main.ts:179-186. So the count is not always one per
  selection (`EntriesUpTo`, `CopiedCount`).
- **Duplicate spans.** Only the queued change is de-duplicated. A later
  selection over the same lines still mints its own identifiers from
  fresh draws and still adds copied entries linking to them. Its change,
  which would have written those identifiers, is dropped
  (`QueueAllFirst`, `AppliedFirst`). Two cursors on the same token-free
  line in LinkOnly put two links in the clipboard. The second one targets
  the token from draws 5-9, which no change writes unless those draws
  spell the same identifier as draws 0-4 (`DuplicateSpanDangles`).
- **The raw From pattern.** The gate at main.ts:61 checks the unescaped
  pattern, while the rewrites at main.ts:150 and 172 compile the pattern
  as written. An invocation can stop only in that gap: in a line mode
  whose pattern passes the gate but does not compile as written
  (`ThrewCause`).

## Model

| member | source | states |
|---|---|---|
| Text.TrimStart | main.ts:97 | `replace(/^\s*/, "")` gives a suffix of the line that does not start with whitespace, and everything removed was whitespace |
| Text.TrimEnd | main.ts:141 | the line without its trailing whitespace: a prefix of the line that does not end in whitespace, with only whitespace after it |
| Text.IsBlank | main.ts:111 | defined as every character being whitespace, which is when `^\s*$` matches the line |
| Text.BlankTrims | main.ts:111 | a line is blank exactly when stripping its leading whitespace leaves nothing, and exactly when stripping its trailing whitespace does |
| Text.Slice | main.ts:104-107 | JavaScript `slice`: the plain substring for in-range indices, empty when a non-negative end is not after start, the line less its last character for end `-1`, the whole line for `(0, length)` and beyond |
| Text.ReplaceFirst | main.ts:147-151 | `replace` with a string pattern: unchanged when the placeholder does not occur, otherwise only its first occurrence is replaced, literally |
| Text.Join | main.ts:209 | `join`: no entries give the empty string and one entry gives that entry; the change text at main.ts line 204 is joined the same way |
| Text.SplitJoin | main.ts:209 | joining newline-free lines with `"\n"` and splitting the result again gives back exactly those lines |
| Regex.ReplacePair | main.ts:416-418 | one global replace of a backslash pair: never longer than its input, empty exactly when the input is, and its first character is the replacement when the input starts with the pair, and the input's first character otherwise |
| Regex.ReplacePairRemoves | main.ts:416-418 | after a global replace no backslash-`c` pair is left |
| Regex.ReplacePairKeeps | main.ts:416-418 | a later replace does not bring back a pair an earlier replace removed |
| Regex.ReplacePairIdentity | main.ts:416-418 | a pattern with no backslash-`c` pair passes through the replace unchanged |
| Regex.Unescape | main.ts:412-418 | the three global replaces of `\\n`, `\\t` and `\\r` pairs in that order: the pattern never grows, and it is empty exactly when the input is |
| Regex.UnescapeRemovesAll | main.ts:412-418 | after the three replaces no literal `\n`, `\t` or `\r` remains in the pattern |
| Regex.UnescapeIdempotent | main.ts:412-418 | unescaping an already unescaped pattern changes nothing |
| Regex.ValidateRegex | main.ts:409-429 | valid exactly when the unescaped pattern compiles; the string is then the unescaped pattern, otherwise the quoted pattern followed by the quoted compiler message |
| Regex.ReplaceMatch | main.ts:149-152 | replacing the first match: unchanged without a match, otherwise the text before the match, then the replacement, then the text after it |
| Regex.TrailingSpaceMatch | main.ts:141 | the first match of `\s*?$` lies at the end of the line and starts where the trailing whitespace starts |
| Regex.ReplaceTrailingSpace | main.ts:141 | replacing that match gives the trimmed line followed by the replacement |
| BlockId.GenID | main.ts:30-37 | the `while` loop returns exactly `length` characters, where character `k` is the alphabet letter of draw `start + k` |
| BlockId.IdFromShape | main.ts:30-37 | every minted identifier is `length` characters of `[a-z0-9-]`, all accepted by `blockIDRegex` |
| BlockId.FindBlockId | main.ts:52 | a match reported by `blockIDRegex` is a caret preceded by whitespace or a caret and followed by one or more `[a-zA-Z0-9-]` up to the end of the line |
| BlockId.FindBlockIdComplete | main.ts:52 | wherever the regex can match, FindBlockId reports exactly that place, so detection is exact and not just sound |
| BlockId.RemoveBlockId | main.ts:169-170 | removing the token keeps everything before the caret, including the whitespace before it, and changes nothing when there is no token |
| BlockId.AppendId | main.ts:141 | appending an identifier gives the line's trailing whitespace replaced by one space and the token |
| BlockId.ResolveAnchor | main.ts:129-161 | a token is minted exactly when the line has none. A reused token is the line's own suffix from the caret, with the line unchanged. A minted token is `^` plus the identifier from the draws, appended after the trimmed line and a space |
| BlockId.ResolvedTokenShape | main.ts:129-161 | the resolved token is always a caret and identifier characters; a minted one is `^` plus five characters of `[a-z0-9-]` |
| BlockId.AppendedIdDetected | main.ts:130-141 | a token appended to any line is detected again by `blockIDRegex`, at the position where it was appended |
| BlockId.ResolveIdempotent | main.ts:128-161 | resolving the resolved line again, with any draws, reuses the same token and leaves the line as it is |
| CarryForward.MinLine | main.ts:82 | defined as `Math.min` of the anchor's and the head's line; its ordering is LineRangeOrdered |
| CarryForward.MaxLine | main.ts:83 | defined as `Math.max` of the anchor's and the head's line; its ordering is LineRangeOrdered |
| CarryForward.CopiedText | main.ts:89-108 | defined as the line, stripped of leading whitespace on the first line when the setting is on and the columns are equal, or, on the first and last line of anything but a cursor, `slice` from the anchor's column (first line, else 0) to the head's column (last line, else length - 1); its shape is CopiedTextShape |
| CarryForward.PassesThrough | main.ts:110-112 | defined as: the buffer line is whitespace-only and the selection is not on that one line alone; such a line is BlankLinePassesThrough |
| CarryForward.LinkTextAt | main.ts:119-126 | defined as the setting's link text in LinkTextFromSettings mode, otherwise the host's text for that selection and line (the selected range or the clipboard read) |
| CarryForward.LinkOnlyText | main.ts:142-147 | defined as `!` and the link in LinkOnlyEmbed, otherwise the copied-link template with its first `{{LINK}}` replaced by the link; the same code is at main.ts lines 162-167; proved in EmbedCopiesLink and LinkOnlyCopiesTemplate |
| CarryForward.RewriteLine | main.ts:149-152 | defined as: None when the raw From does not compile, otherwise the first match replaced by To with its first `{{LINK}}` filled in; the same code is at main.ts lines 171-174; proved in RewriteLineResult |
| CarryForward.AnchorLine | main.ts:128-177 | defined as resolving the line's token (ResolveAnchor), building the link to `#` and the token, then the link-only text or the From/To rewrite of the copy, with the existing token removed first; proved in AnchoredLineResult, NewIdAppended, MintedLineCopy, MintedLinkOnlyCopy and ExistingIdKept |
| CarryForward.ProcessLine | main.ts:88-187 | defined as one pass of the loop body: a passing-through line keeps its text and copy; otherwise anchored lines go through AnchorLine and later lines outside SeparateLines stay as they are, and the later lines of a link-only type copy nothing; proved in LineOutcome, LineWrittenBack, OtherLinesUntouched and AnchoredLineResult |
| CarryForward.ProcessLines | main.ts:87-188 | defined as the loop from minLine up to a given line, each pass starting from the previous pass's draws, stopping at the first line that throws; proved in ProcessLinesLength and SelectionShape |
| CarryForward.ProcessLinesLength | main.ts:87-188 | lines minLine up to `upto` give one written-back line each, no more copied entries than lines, and a draw counter that never goes back |
| CarryForward.ProcessSelection | main.ts:80-188 | a selection that does not throw writes back `maxLine - minLine + 1` lines, copies at most as many entries, and uses draws only forward |
| CarryForward.EditSpan | main.ts:190-205 | a selection's change runs from column 0 of minLine to the end of the maxLine buffer line |
| CarryForward.Queue | main.ts:192-206 | after queueing, some change covers the span; the queue is unchanged when one already did, and otherwise it grows by exactly that change at the end |
| CarryForward.QueueAll | main.ts:192-206 | the queue never holds more changes than were proposed, and holds at least one when anything was proposed |
| CarryForward.ProcessSelections | main.ts:79-207 | a selection loop that does not throw proposes exactly one change per selection |
| CarryForward.InvalidNotice | main.ts:64 | the notice is the fixed opening, then the validation text, then the fixed closing, and nothing else |
| CarryForward.Ranges | main.ts:215-217 | one range per input selection, each from that selection's anchor to its head |
| CarryForward.CopyForward | main.ts:61-218 | the invocation is rejected exactly when the unescaped From does not compile; a stop names the raw From; an applied invocation returns one selection per input and at most one change per selection |
| CarryForward.AnchorCarry | main.ts:128-177 | the anchoring branch (detecting the token, minting, building the link, the copy-type branches, the From/To rewrite or the throw) equals its specification AnchorLine |
| CarryForward.CarryLine | main.ts:88-187 | the body of the line loop (strip, slice, blank short-circuit, anchoring, suppression) equals its specification ProcessLine |
| CarryForward.CarrySelection | main.ts:80-188 | the `for` loop over lines from the first line to the last equals ProcessSelection, including stopping at the first line that throws |
| CarryForward.CopyForwardLines | main.ts:61-217 | the validation gate, the selection loop, the change queue de-duplicated by span, the clipboard join and the post-edit selections equal CopyForward |
| CarryForward.QueueAllStep | main.ts:192-206 | queueing one more proposal queues it after the earlier ones, unless a change with its span is queued already |
| CarryForward.ProcessLinesExtend | main.ts:87-188 | one more iteration of the line loop appends that line's buffer line and copied entry and moves the draw counter on |
| CarryForward.ProcessLinesThrow | main.ts:149-174 | a line whose rewrite throws makes its whole selection throw |
| CarryForward.ProcessLinesStaysNone | main.ts:87-188 | once a line has thrown, no later line brings the selection back |
| CarryForward.ProcessSelectionNone | main.ts:87-188 | when the lines up to some point throw, the selection throws |
| CarryForward.ProcessSelectionsExtend | main.ts:79-207 | one more selection appends its proposed edit and its copied entries |
| CarryForward.ProcessSelectionsThrow | main.ts:79-207 | a selection that throws makes the whole selection loop throw |
| CarryForward.ProcessSelectionsStaysNone | main.ts:79-207 | once a selection has thrown, no later selection brings the loop back |
| CarryForward.CopyForwardApplied | main.ts:209-218 | with a valid pattern and no throw, the outcome is the de-duplicated queue, the input selections, the joined payload and the notice the setting asks for |
| CarryForwardProps.LineRangeOrdered | main.ts:82-83 | minLine is at most, and maxLine at least, both the anchor's and the head's line; `minLine <= maxLine`, whichever way the selection was made; the pair is the anchor's and head's lines |
| CarryForwardProps.BlankLinePassesThrough | main.ts:110-117 | in a selection of several lines, a whitespace-only buffer line is written back as it is and copied as sliced, with no token and no link, in every copy type, using no draw |
| CarryForwardProps.SingleBlankLineAnchored | main.ts:110-112 | a whitespace-only line that is a one-line selection is still anchored |
| CarryForwardProps.AnchoredLineResult | main.ts:128-177 | an anchored line throws exactly when a line mode meets a raw From that does not compile; otherwise it is written back as the token resolution gives it, with a copied entry, using five draws exactly when a token is minted |
| CarryForwardProps.NewIdAppended | main.ts:132-141 | a line without a token becomes the trimmed line, one space, `^` and five characters of `[a-z0-9-]`, namely the identifier from the draws |
| CarryForwardProps.MintedLineCopy | main.ts:132-153 | in the line modes, a line without a token is copied through the From/To rewrite with the link to the new token, and written back with the token appended |
| CarryForwardProps.CopiedTextShape | main.ts:89-108 | the copy is never longer than the line; a middle line is copied whole; a cursor's line is copied stripped exactly when the setting is on; a one-line range is the text between the two columns when the anchor's column is not after the head's, and empty when it is (the columns are not reordered); the first line of a longer range runs from the anchor's column and loses its last character; the last line runs up to the head's column |
| CarryForwardProps.RewriteLineResult | main.ts:149-152 | the rewrite throws exactly when the raw From does not compile; without a match the copy is unchanged; with one it is the text before the match, the filled-in To, and the text after the match |
| CarryForwardProps.LineOutcome | main.ts:88-187 | a pass throws only in a line mode whose raw From does not compile; it uses no draw or exactly five; only a later line of a link-only type copies nothing |
| CarryForwardProps.MintedLinkOnlyCopy | main.ts:132-147 | in a link-only type, an anchored line without a token is written back as the trimmed line, a space and the new token, is copied as the link-only text of the link to that token, and uses five draws |
| CarryForwardProps.ExistingIdKept | main.ts:154-175 | a line with a token keeps its buffer text and uses no draw. Its link targets `#` plus that token. In the line modes the token is removed from the copy before the rewrite; in the link-only types the template or embed is copied |
| CarryForwardProps.OtherLinesUntouched | main.ts:128-187 | outside SeparateLines, every line after the first is written back unchanged and uses no draw. It is copied in CombinedLines, and in the link-only types only when blank |
| CarryForwardProps.EmbedCopiesLink | main.ts:142-147 | LinkOnlyEmbed copies exactly `!` and the link |
| CarryForwardProps.LinkOnlyCopiesTemplate | main.ts:142-147 | LinkOnly copies the copied-link template with its first `{{LINK}}` replaced by the link, and the template as it is when there is none |
| CarryForwardProps.DefaultCopiedLinkText | main.ts:23 | the default copied-link template gives `(see <link>)` |
| CarryForwardProps.DefaultLineFormatTo | main.ts:25 | the default To template gives ` (see <link>)` |
| CarryForwardProps.TrailingRewrite | main.ts:149-152 | a From whose first match is the trailing whitespace gives the trimmed copy followed by the filled-in To |
| CarryForwardProps.DefaultRewrite | main.ts:24-25 | given an engine that matches the default From `\s*$` at the trailing whitespace, with the default From and To the copy is the line without its trailing whitespace, followed by ` (see <link>)` |
| CarryForwardProps.SecondRunStable | main.ts:128-177 | running again over a line the first run anchored leaves it as written and uses no draw; the link-only types copy the same link again when the link text is the same |
| CarryForwardProps.LineWrittenBack | main.ts:128-187 | every written-back line is the buffer line, or the buffer line with a newly minted token appended; a line that is not anchored is the buffer line |
| CarryForwardProps.SelectionShape | main.ts:85-188 | the lines processed so far give one written-back line per line, in order, each the buffer line or the buffer line with a new token (only the first line outside SeparateLines), and EntriesUpTo copied entries |
| CarryForwardProps.SelectionEntries | main.ts:82-188 | a selection writes back exactly `maxLine - minLine + 1` lines, each the buffer line or that line with a new token; its copied entries number one per line in the line modes and, in the link-only types, one for the first line plus one per blank later line |
| CarryForwardProps.OneLineSelection | main.ts:87-188 | a selection on one line yields that line's pass of the loop |
| CarryForwardProps.SingleSelection | main.ts:79-207 | one selection proposes the one change over its span, with its lines joined by newlines, and copies its entries |
| CarryForwardProps.QueueAllDistinct | main.ts:192-206 | no two queued changes share a span |
| CarryForwardProps.QueueAllCovers | main.ts:192-206 | every proposed span ends up queued |
| CarryForwardProps.QueueAllFirst | main.ts:192-206 | every queued change is the first proposal of its span |
| CarryForwardProps.ProposalSpans | main.ts:190-205 | selection `k` proposes the change from (minLine, 0) to (maxLine, length of the maxLine buffer line) |
| CarryForwardProps.QueueAllFirstSpan | main.ts:192-206 | when proposal `k` replaces span `k`, the queue keeps exactly first proposals of their spans |
| CarryForwardProps.CopiedCount | main.ts:110-186 | the copied entries of all selections number the sum of each selection's EntriesUpTo |
| CarryForwardProps.LinesThrowFrom | main.ts:87-188 | a run of lines throws only in a line mode whose raw From does not compile |
| CarryForwardProps.SelectionsThrowFrom | main.ts:79-207 | a selection loop throws only in a line mode whose raw From does not compile |
| CarryForwardProps.ThrewCause | main.ts:61-218 | an invocation stops only when the From passes the gate in its unescaped form, the copy type is a line mode, and the From as written does not compile |
| CarryForwardProps.AppliedOutcome | main.ts:209-217 | an applied invocation passed the gate. Its changes are the de-duplicated proposals and its payload the copied entries joined by newlines, with the counted number of entries. The selections are returned anchor to head, and the notice appears exactly when the setting is on |
| CarryForwardProps.AppliedSpans | main.ts:190-206 | an applied invocation edits every selection's span and no span twice |
| CarryForwardProps.AppliedFirst | main.ts:190-206 | each applied change is the proposal of the first selection with its span |
| CarryForwardProps.ClipboardLines | main.ts:209 | with at least one entry and newline-free entries, splitting the payload at newlines gives back the copied entries, as many as counted |
| CarryForwardProps.NoSelections | main.ts:209-218 | with a valid pattern and no selections, the outcome is an empty transaction, an empty payload and the optional notice |
| CarryForwardProps.LinkOnlyPoint | main.ts:80-188 | a cursor on a one-line buffer without a token, in a link-only type, writes back the line with the new token appended and copies one link to that token |
| CarryForwardProps.TwoSelections | main.ts:79-207 | two selections in turn propose their two changes in order, each over its own span with its lines joined, and copy the first's entries then the second's |
| CarryForwardProps.DuplicateSelections | main.ts:79-207 | two cursors on the same token-free line in a link-only type propose two changes over the same span, with the tokens from draws 0-4 and 5-9, and copy two links, one to each token |
| CarryForwardProps.QueueSameSpan | main.ts:192-206 | of two proposals over one span only the first is queued |
| CarryForwardProps.DuplicateSpanDangles | main.ts:79-218 | with those two cursors the transaction holds only the change writing the first token, while the clipboard holds both links; the second link's token, from draws 5-9, is never written unless those draws spell the same identifier as draws 0-4 |
| CarryForwardProps.InvalidPatternStops | main.ts:61-68 | a From whose unescaped form does not compile stops the invocation with the notice, which names the quoted pattern and the compiler message; there is no transaction and no clipboard write |
| CarryForwardProps.PointRun | main.ts:79-218 | given a From whose first match is the line's trailing whitespace, removeLeadingWhitespace on, the settings' link text and a line with no token and no leading whitespace, a cursor on that single line in SeparateLines writes back the line with a new token and copies the line less its trailing whitespace followed by the filled-in To; the transaction replaces the whole line |
| CarryForwardProps.LoremIpsum | main.ts:21-28 | given an engine that matches the default From `\s*$` at the trailing whitespace, with the default settings and draws `a`…`e`, `Lorem ipsum` becomes `Lorem ipsum ^abcde` and the clipboard holds `Lorem ipsum (see <link to #^abcde>)` |

## Left out

- The plugin class, its twelve commands, `onload` and `onunload`
  (main.ts:221-398). They only choose a copy type and a mode.
- The settings tab (main.ts:431-567), `loadSettings` and `saveSettings`
  (main.ts:400-406); all of these are user interface and storage.
- The editor and the host are I/O and are not modelled. This covers
  `navigator.clipboard.writeText` and `readText`, `Notice` (including its
  30-second duration), `editor.transaction`, `editor.listSelections`,
  `editor.getLine` and `editor.getRange`. The buffer and the selections
  are input values, the outcome is a value, and the link text of each line
  comes from `linkTextAt`.
- `generateMarkdownLink` is an opaque function of the target and the link
  text. The file and the `"/"` source path are fixed for one invocation.
- The JavaScript regular-expression engine used for the user's From
  pattern is abstract. It consists of whether a pattern compiles (with the
  message `${e}` shows) and where its first match lies. A span that does
  not lie within the text is read as no match.
- `\s` is read as its ASCII members only. JavaScript's `\s` also matches
  Unicode whitespace such as U+00A0 and U+FEFF, with or without the `u`
  flag. That is not modelled in the strip, the blank test, the
  trailing-whitespace match or `blockIDRegex`.
- Text.ReplaceFirst, Regex.ReplaceMatch: the replacement is taken
  literally. The `$&`, `$1` and `$$` patterns of `String.prototype.replace`
  are not interpreted.
- Strings are sequences of Unicode characters. Columns and `length` in
  the source count UTF-16 code units, so the two differ on characters
  outside the Basic Multilingual Plane.
- CarryForward.CopyForwardLines: the selections are processed strictly
  one after another. In the source the `forEach` callbacks are `async`. In
  LinkTextFromClipboard mode every callback suspends at the clipboard read
  (main.ts line 125) on its first line that does not pass through, and
  `forEach` does not wait for it. The clipboard write (main.ts line 209)
  and the transaction (main.ts line 218) therefore always run before that
  line is anchored. So the three clipboard-mode commands never write a
  token and never copy an anchored line: the clipboard holds only the
  blank lines pushed before each selection's suspension, and the
  transaction holds only the changes of selections whose lines all pass
  through. The model gives these commands the same sequential outcome as
  the other modes.
- CarryForward.CopyForwardLines: a raw From pattern that does not compile
  at a rewrite stops the whole invocation (outcome `Threw`, with no
  transaction and no clipboard write), as a sequential loop would. In the
  source the exception only rejects that selection's `async` callback.
  The other selections and the final writes still happen, as do the
  copied entries of the earlier lines of that selection. This path needs
  a raw pattern that fails to compile while its unescaped form compiles.
- Selections outside the buffer: the editor only hands out positions
  within its lines, so every selection's lines are required to exist.
