/**
 * `copyForwardLines`: for every selection of the editor, anchor the selected
 * lines with block identifiers and build the "carried forward" copy that
 * links back to them; queue one buffer edit per distinct line span and join
 * every copied line into the clipboard payload.
 *
 * The buffer is read-only while the selections are processed; the edits are
 * returned as a transaction value, the clipboard payload as a string.
 */
module CarryForward {
  import opened Wrappers
  import opened Text
  import opened Regex
  import opened BlockId

  /** `CarryForwardPluginSettings`. */
  datatype Settings = Settings(
    linkText: string,
    copiedLinkText: string,
    lineFormatFrom: string,
    lineFormatTo: string,
    removeLeadingWhitespace: bool,
    displayCopiedNotice: bool)

  /** `DEFAULT_SETTINGS`. */
  const DefaultSettings: Settings :=
    Settings("", "(see {{LINK}})", "\\s*$", " (see {{LINK}})", true, true)

  /** The placeholder the templates carry for the link. */
  const LinkPlaceholder: string := "{{LINK}}"

  datatype CopyType = SeparateLines | CombinedLines | LinkOnly | LinkOnlyEmbed

  /** Where the link text comes from. */
  datatype Mode = LinkTextFromSettings | LinkTextFromSelection | LinkTextFromClipboard

  datatype Position = Position(line: nat, ch: nat)

  datatype Selection = Selection(anchor: Position, head: Position)

  /** A queued replacement of the buffer text between two positions. */
  datatype Change = Change(from: Position, to: Position, text: string)

  datatype Range = Range(from: Position, to: Position)

  datatype Transaction = Transaction(changes: seq<Change>, selections: seq<Range>)

  /**
   * What one invocation does: show the invalid-pattern notice and stop; stop
   * because the raw From pattern throws when it is compiled for a rewrite; or
   * apply a transaction and write the clipboard, with the optional "Copied"
   * notice.
   */
  datatype Outcome =
    | Rejected(notice: string)
    | Threw(pattern: string)
    | Applied(transaction: Transaction, clipboard: string, copiedNotice: Option<string>)

  /**
   * The host: `generateMarkdownLink` for the active file as a function of the
   * target and the link text; the link text read from the selection or the
   * clipboard for (selection index, line number); the draws of `Math.random`.
   */
  datatype Host = Host(
    link: (string, string) -> string,
    linkTextAt: (nat, nat) -> string,
    rand: nat -> Draw)

  /** Everything one invocation reads: the editor's lines, the settings, the command's parameters. */
  datatype Context = Context(
    buffer: seq<string>,
    settings: Settings,
    copy: CopyType,
    mode: Mode,
    engine: Engine,
    host: Host)

  /** `Math.min` of the anchor's and the head's line. */
  function MinLine(sel: Selection): nat {
    if sel.anchor.line <= sel.head.line then sel.anchor.line else sel.head.line
  }

  /** `Math.max` of the anchor's and the head's line. */
  function MaxLine(sel: Selection): nat {
    if sel.anchor.line <= sel.head.line then sel.head.line else sel.anchor.line
  }

  /** The editor only hands out selections within its lines. */
  predicate InBuffer(buffer: seq<string>, sel: Selection) {
    MaxLine(sel) < |buffer|
  }

  predicate AllInBuffer(buffer: seq<string>, sels: seq<Selection>) {
    forall k :: 0 <= k < |sels| ==> InBuffer(buffer, sels[k])
  }

  predicate IsLinkOnly(copy: CopyType) {
    copy == LinkOnly || copy == LinkOnlyEmbed
  }

  /** The selection is a cursor on one line: nothing but the line itself is selected. */
  predicate IsPoint(sel: Selection) {
    MinLine(sel) == MaxLine(sel) && sel.anchor.ch == sel.head.ch
  }

  /**
   * main.ts lines 89-108: the text copied from line `L`. With equal columns
   * the leading whitespace is stripped on the first line; on the first and
   * last line of anything but a point, the slice of the buffer line from the
   * anchor's column (first line) to the head's column (last line), where the
   * first line of a longer range ends one character short.
   */
  function CopiedText(settings: Settings, sel: Selection, L: nat, line: string): string {
    var stripped :=
      if settings.removeLeadingWhitespace && L == MinLine(sel) && sel.anchor.ch == sel.head.ch
      then TrimStart(line) else line;
    if (L == MinLine(sel) || L == MaxLine(sel)) && !IsPoint(sel) then
      Slice(line, if L == MinLine(sel) then sel.anchor.ch else 0,
                  if L == MaxLine(sel) then sel.head.ch else |line| - 1)
    else stripped
  }

  /**
   * main.ts lines 110-112: a whitespace-only buffer line that is not a
   * one-line selection passes through.
   */
  predicate PassesThrough(buffer: seq<string>, sel: Selection, L: nat)
    requires L < |buffer|
  {
    IsBlank(buffer[L]) && !(L == MinLine(sel) && MinLine(sel) == MaxLine(sel))
  }

  /**
   * main.ts lines 119-126: the link text is the setting's, the same for
   * every line, unless the mode reads it from the selection or the clipboard.
   */
  function LinkTextAt(ctx: Context, i: nat, L: nat): string {
    if ctx.mode == LinkTextFromSettings then ctx.settings.linkText else ctx.host.linkTextAt(i, L)
  }

  /**
   * main.ts lines 142-147 and 162-167: what a link-only copy type copies.
   * LinkOnlyEmbed copies `"!"` and the link; LinkOnly copies the copied-link
   * template with its first placeholder replaced by the link.
   */
  function LinkOnlyText(copy: CopyType, settings: Settings, link: string): string {
    var link' := (if copy == LinkOnlyEmbed then "!" else "") + link;
    if copy == LinkOnlyEmbed then link' else ReplaceFirst(settings.copiedLinkText, LinkPlaceholder, link')
  }

  /**
   * main.ts lines 149-152 and 171-174: the first match of the raw From
   * pattern replaced by To with the link in its placeholder; None when the
   * raw pattern does not compile and `new RegExp` throws.
   */
  function RewriteLine(engine: Engine, settings: Settings, copied: string, link: string): Option<string> {
    match engine.compile(settings.lineFormatFrom)
    case SyntaxError(_) => None
    case Compiled =>
      Some(ReplaceMatch(copied, engine.firstMatch(settings.lineFormatFrom, copied),
                        ReplaceFirst(settings.lineFormatTo, LinkPlaceholder, link)))
  }

  /** A line after anchoring: the buffer line, the copied text, the next unused draw. */
  datatype Carried = Carried(line: string, copied: string, next: nat)

  /** main.ts lines 129-176: resolve the line's token, build the link, rewrite the copy. */
  function AnchorLine(ctx: Context, line: string, copied: string, linkText: string, next: nat): Option<Carried> {
    var a := ResolveAnchor(line, ctx.host.rand, next);
    var next' := if a.minted then next + IdLength else next;
    var link := ctx.host.link("#" + a.token, linkText);
    if IsLinkOnly(ctx.copy) then Some(Carried(a.line, LinkOnlyText(ctx.copy, ctx.settings, link), next'))
    else
      match RewriteLine(ctx.engine, ctx.settings, if a.minted then copied else RemoveBlockId(copied), link)
      case None => None
      case Some(c) => Some(Carried(a.line, c, next'))
  }

  /** One pass of the line loop: the buffer line pushed, the copied entry pushed (if any), the next draw. */
  datatype LineResult = LineResult(updated: string, copied: Option<string>, next: nat)

  /** main.ts lines 88-187 for line `L` of selection number `i`, with the draws from `next` on. */
  function ProcessLine(ctx: Context, i: nat, sel: Selection, L: nat, next: nat): Option<LineResult>
    requires L < |ctx.buffer|
  {
    var line := ctx.buffer[L];
    var copied := CopiedText(ctx.settings, sel, L, line);
    if PassesThrough(ctx.buffer, sel, L) then Some(LineResult(line, Some(copied), next))
    else
      var carried :=
        if ctx.copy == SeparateLines || L == MinLine(sel)
        then AnchorLine(ctx, line, copied, LinkTextAt(ctx, i, L), next)
        else Some(Carried(line, copied, next));
      match carried
      case None => None
      case Some(c) =>
        Some(LineResult(c.line, if IsLinkOnly(ctx.copy) && L != MinLine(sel) then None else Some(c.copied), c.next))
  }

  /** The lines of one selection: the buffer lines to write back, the copied entries, the next draw. */
  datatype SelectionResult = SelectionResult(updated: seq<string>, copied: seq<string>, next: nat)

  /** Lines `MinLine(sel)` up to (not including) `upto` of selection number `i`. */
  function ProcessLines(ctx: Context, i: nat, sel: Selection, upto: nat, next: nat): Option<SelectionResult>
    requires InBuffer(ctx.buffer, sel) && MinLine(sel) <= upto <= MaxLine(sel) + 1
    decreases upto, 0
  {
    if upto == MinLine(sel) then Some(SelectionResult([], [], next))
    else LinesThrough(ctx, i, sel, upto - 1, next)
  }

  /** One step of the line loop: the lines before `L`, then line `L`. */
  function ProcessThrough(ctx: Context, i: nat, sel: Selection, L: nat, next: nat): Option<SelectionResult>
    requires InBuffer(ctx.buffer, sel) && MinLine(sel) <= L <= MaxLine(sel)
    decreases L, 2
  {
    match ProcessLines(ctx, i, sel, L, next)
    case None => None
    case Some(r) =>
      match ProcessLine(ctx, i, sel, L, r.next)
      case None => None
      case Some(l) => Some(SelectionResult(r.updated + [l.updated], r.copied + ToSeq(l.copied), l.next))
  }

  /**
   * Lines `MinLine(sel)` up to and including `L`: ProcessThrough under a
   * second name, not a separate step of the loop. The extra call in the
   * ProcessLines cycle keeps each unfolding of the recursion small.
   */
  function LinesThrough(ctx: Context, i: nat, sel: Selection, L: nat, next: nat): Option<SelectionResult>
    requires InBuffer(ctx.buffer, sel) && MinLine(sel) <= L <= MaxLine(sel)
    decreases L, 3
  {
    ProcessThrough(ctx, i, sel, L, next)
  }

  /**
   * main.ts lines 80-188: every line of selection number `i`, with the draws
   * from `next` on: one line written back per line of the range, at most one
   * copied entry per line, and the draw counter never goes back.
   */
  function ProcessSelection(ctx: Context, i: nat, sel: Selection, next: nat): (r: Option<SelectionResult>)
    requires InBuffer(ctx.buffer, sel)
    ensures r.Some? ==> |r.value.updated| == MaxLine(sel) - MinLine(sel) + 1 && |r.value.copied| <= |r.value.updated|
    ensures r.Some? ==> r.value.next >= next
  {
    var r := ProcessLines(ctx, i, sel, MaxLine(sel) + 1, next);
    if r.Some? then ProcessLinesLength(ctx, i, sel, MaxLine(sel) + 1, next); r else r
  }

  /**
   * The lines `MinLine(sel)..upto - 1` once processed: one written-back line
   * per line, at most one copied entry per line, and a draw counter that
   * never goes back.
   */
  lemma {:induction false} ProcessLinesLength(ctx: Context, i: nat, sel: Selection, upto: nat, next: nat)
    requires InBuffer(ctx.buffer, sel) && MinLine(sel) <= upto <= MaxLine(sel) + 1
    requires ProcessLines(ctx, i, sel, upto, next).Some?
    ensures var r := ProcessLines(ctx, i, sel, upto, next).value;
      |r.updated| == upto - MinLine(sel) && |r.copied| <= |r.updated| && r.next >= next
    decreases upto
  {
    if upto > MinLine(sel) {
      assert ProcessLines(ctx, i, sel, upto, next) == ProcessThrough(ctx, i, sel, upto - 1, next);
      ProcessLinesLength(ctx, i, sel, upto - 1, next);
    }
  }

  /** main.ts lines 190-205: the span a selection's edit replaces, from its first line's start to its last line's end. */
  function EditSpan(buffer: seq<string>, sel: Selection): (span: Range)
    requires InBuffer(buffer, sel)
    ensures span.from.line == MinLine(sel) <= span.to.line == MaxLine(sel) < |buffer|
    ensures span.from.ch == 0 && span.to.ch == |buffer[span.to.line]|
  {
    Range(Position(MinLine(sel), 0), Position(MaxLine(sel), |buffer[MaxLine(sel)]|))
  }

  /** main.ts lines 193-199: some queued change already covers exactly this span. */
  predicate HasSpan(changes: seq<Change>, span: Range) {
    exists k | 0 <= k < |changes| :: changes[k].from == span.from && changes[k].to == span.to
  }

  /** main.ts lines 192-206: queue `c` unless a change with the same span is queued. */
  function Queue(changes: seq<Change>, c: Change): (q: seq<Change>)
    ensures HasSpan(q, Range(c.from, c.to))
    ensures q == changes || q == changes + [c]
    ensures HasSpan(changes, Range(c.from, c.to)) ==> q == changes
  {
    if HasSpan(changes, Range(c.from, c.to)) then changes
    else
      var q := changes + [c];
      assert q[|changes|] == c;
      q
  }

  /** The changes proposed and queued one after another, each queued unless its span is queued already. */
  function QueueAll(proposals: seq<Change>): (q: seq<Change>)
    ensures |q| <= |proposals|
    ensures proposals != [] ==> |q| >= 1
  {
    if proposals == [] then [] else Queue(QueueAll(proposals[..|proposals| - 1]), proposals[|proposals| - 1])
  }

  /** QueueAll over one more proposal: the last proposal is queued after the others. */
  lemma QueueAllStep(init: seq<Change>, c: Change)
    ensures QueueAll(init + [c]) == Queue(QueueAll(init), c)
  {
    assert (init + [c])[..|init|] == init;
  }

  /** The change each selection so far proposes, the copied lines so far and the next draw. */
  datatype State = State(proposals: seq<Change>, copied: seq<string>, next: nat)

  /**
   * The first `upto` selections, in order (main.ts lines 79-207), before
   * de-duplication: one proposed change per selection.
   */
  function ProcessSelections(ctx: Context, sels: seq<Selection>, upto: nat): (r: Option<State>)
    requires AllInBuffer(ctx.buffer, sels) && upto <= |sels|
    ensures r.Some? ==> |r.value.proposals| == upto
  {
    if upto == 0 then Some(State([], [], 0))
    else
      match ProcessSelections(ctx, sels, upto - 1)
      case None => None
      case Some(st) =>
        var sel := sels[upto - 1];
        match ProcessSelection(ctx, upto - 1, sel, st.next)
        case None => None
        case Some(r) =>
          var span := EditSpan(ctx.buffer, sel);
          Some(State(st.proposals + [Change(span.from, span.to, Join(r.updated, "\n"))],
                     st.copied + r.copied, r.next))
  }

  /** The start of the invalid-pattern notice. */
  const InvalidPrefix: string := "Error: 'From' setting is invalid:\n\n"

  /** The end of the invalid-pattern notice. */
  const InvalidSuffix: string := "\n\nPlease update the Carry-Forward settings and try again."

  /** main.ts line 64: the invalid-pattern notice, which carries the validation text between its fixed parts. */
  function InvalidNotice(text: string): (n: string)
    ensures |n| == |InvalidPrefix| + |text| + |InvalidSuffix|
    ensures n[..|InvalidPrefix|] == InvalidPrefix
    ensures n[|InvalidPrefix|..|InvalidPrefix| + |text|] == text
    ensures n[|InvalidPrefix| + |text|..] == InvalidSuffix
  {
    InvalidPrefix + text + InvalidSuffix
  }

  /** main.ts lines 215-217: the selections after the edit are the input ones, anchor to head. */
  function Ranges(sels: seq<Selection>): (rs: seq<Range>)
    ensures |rs| == |sels|
    ensures forall k :: 0 <= k < |sels| ==> rs[k].from == sels[k].anchor && rs[k].to == sels[k].head
  {
    seq(|sels|, k requires 0 <= k < |sels| => Range(sels[k].anchor, sels[k].head))
  }

  /**
   * What `copyForwardLines` does for the selections `sels`: rejected exactly
   * when the unescaped From pattern does not compile, a stop names the raw
   * pattern, and an applied transaction gives every selection back.
   */
  function CopyForward(ctx: Context, sels: seq<Selection>): (o: Outcome)
    requires AllInBuffer(ctx.buffer, sels)
    ensures o.Rejected? <==> ctx.engine.compile(Unescape(ctx.settings.lineFormatFrom)).SyntaxError?
    ensures o.Threw? ==> o.pattern == ctx.settings.lineFormatFrom
    ensures o.Applied? ==> |o.transaction.selections| == |sels| && |o.transaction.changes| <= |sels|
  {
    var v := ValidateRegex(ctx.engine, ctx.settings.lineFormatFrom);
    if !v.valid then Rejected(InvalidNotice(v.text))
    else
      match ProcessSelections(ctx, sels, |sels|)
      case None => Threw(ctx.settings.lineFormatFrom)
      case Some(st) =>
        Applied(Transaction(QueueAll(st.proposals), Ranges(sels)), Join(st.copied, "\n"),
                if ctx.settings.displayCopiedNotice then Some("Copied") else None)
  }

  /**
   * main.ts lines 128-177 for one buffer line: reuse its token or mint one, build
   * the link, and produce the copy; None when the raw From pattern throws.
   */
  method AnchorCarry(ctx: Context, line: string, copied: string, linkText: string, next: nat) returns (r: Option<Carried>)
    ensures r == AnchorLine(ctx, line, copied, linkText, next)
  {
    var updated := line;
    var copiedLine := copied;
    var drawn := next;
    var blockId := FindBlockId(line);
    var link: string;
    if blockId.None? {
      var id := GenID(ctx.host.rand, drawn, IdLength);
      drawn := drawn + IdLength;
      var newId := "^" + id;
      link := ctx.host.link("#" + newId, linkText);
      updated := AppendId(line, newId);
    } else {
      link := ctx.host.link("#" + line[blockId.value..], linkText);
      if !IsLinkOnly(ctx.copy) {
        copiedLine := RemoveBlockId(copiedLine);
      }
    }
    if IsLinkOnly(ctx.copy) {
      link := (if ctx.copy == LinkOnlyEmbed then "!" else "") + link;
      copiedLine := if ctx.copy == LinkOnlyEmbed then link else ReplaceFirst(ctx.settings.copiedLinkText, LinkPlaceholder, link);
    } else {
      if ctx.engine.compile(ctx.settings.lineFormatFrom).SyntaxError? {
        return None;
      }
      copiedLine := ReplaceMatch(copiedLine, ctx.engine.firstMatch(ctx.settings.lineFormatFrom, copiedLine),
                                 ReplaceFirst(ctx.settings.lineFormatTo, LinkPlaceholder, link));
    }
    r := Some(Carried(updated, copiedLine, drawn));
  }

  /** The body of the line loop (main.ts lines 88-187) for line `L` of selection number `i`. */
  method CarryLine(ctx: Context, i: nat, sel: Selection, L: nat, next: nat) returns (r: Option<LineResult>)
    requires L < |ctx.buffer|
    ensures r == ProcessLine(ctx, i, sel, L, next)
  {
    var minLine, maxLine := MinLine(sel), MaxLine(sel);
    var line := ctx.buffer[L];
    var copiedLine := line;
    if ctx.settings.removeLeadingWhitespace && L == minLine && sel.anchor.ch == sel.head.ch {
      copiedLine := TrimStart(copiedLine);
    }
    if (L == minLine || L == maxLine) && !(minLine == maxLine && sel.anchor.ch == sel.head.ch) {
      copiedLine := Slice(line, if L == minLine then sel.anchor.ch else 0, if L == maxLine then sel.head.ch else |line| - 1);
    }
    if IsBlank(ctx.buffer[L]) && !(L == minLine && minLine == maxLine) {
      return Some(LineResult(line, Some(copiedLine), next));
    }
    var carried := Some(Carried(line, copiedLine, next));
    if ctx.copy == SeparateLines || L == minLine {
      carried := AnchorCarry(ctx, line, copiedLine, LinkTextAt(ctx, i, L), next);
      if carried.None? {
        return None;
      }
    }
    var copied := if IsLinkOnly(ctx.copy) && L != minLine then None else Some(carried.value.copied);
    r := Some(LineResult(carried.value.line, copied, carried.value.next));
  }

  /** Once a line of a selection throws, the selection's later lines do not recover. */
  lemma {:induction false} ProcessLinesStaysNone(ctx: Context, i: nat, sel: Selection, upto: nat, upto': nat, next: nat)
    requires InBuffer(ctx.buffer, sel) && MinLine(sel) <= upto <= upto' <= MaxLine(sel) + 1
    requires ProcessLines(ctx, i, sel, upto, next).None?
    ensures ProcessLines(ctx, i, sel, upto', next).None?
    decreases upto' - upto
  {
    if upto < upto' {
      ProcessLinesStaysNone(ctx, i, sel, upto, upto' - 1, next);
      assert ProcessLines(ctx, i, sel, upto', next) == ProcessThrough(ctx, i, sel, upto' - 1, next);
    }
  }

  /** One more selection: its change proposed, its copied lines appended. */
  lemma ProcessSelectionsExtend(ctx: Context, sels: seq<Selection>, k: nat, st: State, r: SelectionResult)
    requires AllInBuffer(ctx.buffer, sels) && k < |sels|
    requires ProcessSelections(ctx, sels, k) == Some(st)
    requires ProcessSelection(ctx, k, sels[k], st.next) == Some(r)
    ensures var span := EditSpan(ctx.buffer, sels[k]);
      ProcessSelections(ctx, sels, k + 1)
        == Some(State(st.proposals + [Change(span.from, span.to, Join(r.updated, "\n"))], st.copied + r.copied, r.next))
  {
  }

  /** A selection that throws makes the whole invocation throw. */
  lemma ProcessSelectionsThrow(ctx: Context, sels: seq<Selection>, k: nat, st: State)
    requires AllInBuffer(ctx.buffer, sels) && k < |sels|
    requires ProcessSelections(ctx, sels, k) == Some(st)
    requires ProcessSelection(ctx, k, sels[k], st.next).None?
    ensures ProcessSelections(ctx, sels, |sels|).None?
  {
    ProcessSelectionsStaysNone(ctx, sels, k + 1, |sels|);
  }

  /** An invocation whose pattern passes the gate and whose selections do not throw. */
  lemma CopyForwardApplied(ctx: Context, sels: seq<Selection>, st: State)
    requires AllInBuffer(ctx.buffer, sels)
    requires ValidateRegex(ctx.engine, ctx.settings.lineFormatFrom).valid
    requires ProcessSelections(ctx, sels, |sels|) == Some(st)
    ensures CopyForward(ctx, sels) == Applied(Transaction(QueueAll(st.proposals), Ranges(sels)), Join(st.copied, "\n"),
                                              if ctx.settings.displayCopiedNotice then Some("Copied") else None)
  {
  }

  /** Once a selection throws, the later selections do not recover. */
  lemma {:induction false} ProcessSelectionsStaysNone(ctx: Context, sels: seq<Selection>, upto: nat, upto': nat)
    requires AllInBuffer(ctx.buffer, sels) && upto <= upto' <= |sels|
    requires ProcessSelections(ctx, sels, upto).None?
    ensures ProcessSelections(ctx, sels, upto').None?
    decreases upto' - upto
  {
    if upto < upto' {
      ProcessSelectionsStaysNone(ctx, sels, upto, upto' - 1);
    }
  }

  /** One more line: the lines so far extended by line `L`'s pass. */
  lemma ProcessLinesExtend(ctx: Context, i: nat, sel: Selection, L: nat, next: nat, r: SelectionResult, l: LineResult)
    requires InBuffer(ctx.buffer, sel) && MinLine(sel) <= L <= MaxLine(sel)
    requires ProcessLines(ctx, i, sel, L, next) == Some(r)
    requires ProcessLine(ctx, i, sel, L, r.next) == Some(l)
    ensures ProcessLines(ctx, i, sel, L + 1, next)
      == Some(SelectionResult(r.updated + [l.updated], r.copied + ToSeq(l.copied), l.next))
  {
    assert ProcessLines(ctx, i, sel, L + 1, next) == ProcessThrough(ctx, i, sel, L, next);
  }

  /** A line that throws makes the whole selection throw. */
  lemma ProcessLinesThrow(ctx: Context, i: nat, sel: Selection, L: nat, next: nat, r: SelectionResult)
    requires InBuffer(ctx.buffer, sel) && MinLine(sel) <= L <= MaxLine(sel)
    requires ProcessLines(ctx, i, sel, L, next) == Some(r)
    requires ProcessLine(ctx, i, sel, L, r.next).None?
    ensures ProcessSelection(ctx, i, sel, next).None?
  {
    assert ProcessThrough(ctx, i, sel, L, next).None?;
    ProcessSelectionNone(ctx, i, sel, L + 1, next);
  }

  /** Once the lines up to `upto` throw, the whole selection throws. */
  lemma ProcessSelectionNone(ctx: Context, i: nat, sel: Selection, upto: nat, next: nat)
    requires InBuffer(ctx.buffer, sel) && MinLine(sel) <= upto <= MaxLine(sel) + 1
    requires ProcessLines(ctx, i, sel, upto, next).None?
    ensures ProcessSelection(ctx, i, sel, next).None?
  {
    ProcessLinesStaysNone(ctx, i, sel, upto, MaxLine(sel) + 1, next);
  }

  /**
   * The body of the selection loop up to the change queue (main.ts lines 80-188):
   * the line loop over `MinLine(sel)..MaxLine(sel)`, with the draws from
   * `next` on. None when a line throws.
   */
  method CarrySelection(ctx: Context, i: nat, sel: Selection, next: nat) returns (r: Option<SelectionResult>)
    requires InBuffer(ctx.buffer, sel)
    ensures r == ProcessSelection(ctx, i, sel, next)
  {
    var minLine, maxLine := MinLine(sel), MaxLine(sel);
    var updatedLines: seq<string> := [];
    var copiedLines: seq<string> := [];
    var drawn := next;
    for lineNumber := minLine to maxLine + 1
      invariant ProcessLines(ctx, i, sel, lineNumber, next) == Some(SelectionResult(updatedLines, copiedLines, drawn))
    {
      var line := CarryLine(ctx, i, sel, lineNumber, drawn);
      if line.None? {
        ProcessLinesThrow(ctx, i, sel, lineNumber, next, SelectionResult(updatedLines, copiedLines, drawn));
        return None;
      }
      ProcessLinesExtend(ctx, i, sel, lineNumber, next, SelectionResult(updatedLines, copiedLines, drawn), line.value);
      copiedLines := copiedLines + ToSeq(line.value.copied);
      updatedLines := updatedLines + [line.value.updated];
      drawn := line.value.next;
    }
    r := Some(SelectionResult(updatedLines, copiedLines, drawn));
  }

  /**
   * `copyForwardLines` with the selections processed strictly in order: the
   * validation gate, the selection loop, the de-duplicated change queue, the
   * clipboard join and the post-edit selections.
   */
  method CopyForwardLines(ctx: Context, selections: seq<Selection>) returns (outcome: Outcome)
    requires AllInBuffer(ctx.buffer, selections)
    ensures outcome == CopyForward(ctx, selections)
  {
    var validation := ValidateRegex(ctx.engine, ctx.settings.lineFormatFrom);
    if !validation.valid {
      return Rejected(InvalidNotice(validation.text));
    }
    var changes: seq<Change> := [];
    ghost var proposals: seq<Change> := [];
    var copiedLines: seq<string> := [];
    var next: nat := 0;
    for i := 0 to |selections|
      invariant ProcessSelections(ctx, selections, i) == Some(State(proposals, copiedLines, next))
      invariant changes == QueueAll(proposals)
    {
      var selection := selections[i];
      var minLine, maxLine := MinLine(selection), MaxLine(selection);
      var lines := CarrySelection(ctx, i, selection, next);
      if lines.None? {
        ProcessSelectionsThrow(ctx, selections, i, State(proposals, copiedLines, next));
        return Threw(ctx.settings.lineFormatFrom);
      }
      ProcessSelectionsExtend(ctx, selections, i, State(proposals, copiedLines, next), lines.value);
      copiedLines := copiedLines + lines.value.copied;
      next := lines.value.next;
      var maxLineLength := |ctx.buffer[maxLine]|;
      var change := Change(Position(minLine, 0), Position(maxLine, maxLineLength), Join(lines.value.updated, "\n"));
      QueueAllStep(proposals, change);
      proposals := proposals + [change];
      if !HasSpan(changes, Range(change.from, change.to)) {
        changes := changes + [change];
      }
    }
    CopyForwardApplied(ctx, selections, State(proposals, copiedLines, next));
    outcome := Applied(Transaction(changes, Ranges(selections)), Join(copiedLines, "\n"),
                       if ctx.settings.displayCopiedNotice then Some("Copied") else None);
  }
}
