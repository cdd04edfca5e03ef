/**
 * What `copyForwardLines` promises, proved about the model in CarryForward:
 * per line (blank lines, anchoring, the copy types' shapes, a second run),
 * per selection (how many lines are written back and copied) and per
 * invocation (the de-duplicated edits, the clipboard payload, the gate).
 */
module CarryForwardProps {
  import opened Wrappers
  import opened Text
  import opened Regex
  import opened BlockId
  import opened CarryForward

  // ---------------------------------------------------------------------
  // Selections

  /**
   * The line range is `Math.min` and `Math.max` of the anchor's and the
   * head's line, so it is ordered whichever way the selection was made.
   */
  lemma LineRangeOrdered(sel: Selection)
    ensures MinLine(sel) <= sel.anchor.line && MinLine(sel) <= sel.head.line
    ensures MaxLine(sel) >= sel.anchor.line && MaxLine(sel) >= sel.head.line
    ensures MinLine(sel) <= MaxLine(sel)
    ensures MinLine(sel) == MinLine(Selection(sel.head, sel.anchor))
    ensures MaxLine(sel) == MaxLine(Selection(sel.head, sel.anchor))
    ensures {MinLine(sel), MaxLine(sel)} == {sel.anchor.line, sel.head.line}
  {
  }

  /**
   * What is copied from a line: never more than the line. A line strictly
   * inside the range is copied whole; a point's line is stripped of its
   * leading whitespace when the setting says so; a one-line range is the
   * slice between the two columns when the anchor's column is not after the
   * head's, and empty when it is, since the columns are not reordered; the
   * first line of a longer range runs
   * from the anchor's column and loses its last character; the last line
   * runs up to the head's column.
   */
  lemma CopiedTextShape(settings: Settings, sel: Selection, L: nat, line: string)
    ensures var r := CopiedText(settings, sel, L, line);
      && |r| <= |line|
      && (MinLine(sel) < L < MaxLine(sel) ==> r == line)
      && (IsPoint(sel) && L == MinLine(sel) ==> r == if settings.removeLeadingWhitespace then TrimStart(line) else line)
      && (!IsPoint(sel) && L == MinLine(sel) == MaxLine(sel) && sel.anchor.ch <= sel.head.ch <= |line| ==>
            r == line[sel.anchor.ch..sel.head.ch])
      && (!IsPoint(sel) && L == MinLine(sel) == MaxLine(sel) && sel.head.ch < sel.anchor.ch ==> r == [])
      && (L == MinLine(sel) < MaxLine(sel) && sel.anchor.ch < |line| ==> r == line[sel.anchor.ch..|line| - 1])
      && (MinLine(sel) < L == MaxLine(sel) && sel.head.ch <= |line| ==> r == line[..sel.head.ch])
  {
  }

  /**
   * The From/To rewrite throws exactly when the raw From pattern does not
   * compile. Otherwise the copy is unchanged when the pattern does not
   * match, and else is the text before the match, the To template with the
   * link in its first placeholder, and the text after the match.
   */
  lemma RewriteLineResult(engine: Engine, settings: Settings, copied: string, link: string)
    ensures var r := RewriteLine(engine, settings, copied, link);
      var m := engine.firstMatch(settings.lineFormatFrom, copied);
      && (r.None? <==> engine.compile(settings.lineFormatFrom).SyntaxError?)
      && (r.Some? && m.None? ==> r.value == copied)
      && (r.Some? && m.Some? && m.value.start <= m.value.end <= |copied| ==>
            r.value == copied[..m.value.start] + ReplaceFirst(settings.lineFormatTo, LinkPlaceholder, link)
                       + copied[m.value.end..])
  {
  }

  // ---------------------------------------------------------------------
  // One line

  /** The line is anchored: not passed through, and the copy type anchors it. */
  predicate Anchored(ctx: Context, sel: Selection, L: nat)
    requires L < |ctx.buffer|
  {
    !PassesThrough(ctx.buffer, sel, L) && (ctx.copy == SeparateLines || L == MinLine(sel))
  }

  /**
   * A whitespace-only line of a selection spanning several lines is written
   * back as it is and copied as sliced, with no token and no link, whatever
   * the copy type; no draw is used.
   */
  lemma BlankLinePassesThrough(ctx: Context, i: nat, sel: Selection, L: nat, next: nat)
    requires MinLine(sel) <= L <= MaxLine(sel) < |ctx.buffer|
    requires MinLine(sel) < MaxLine(sel) && IsBlank(ctx.buffer[L])
    ensures ProcessLine(ctx, i, sel, L, next)
      == Some(LineResult(ctx.buffer[L], Some(CopiedText(ctx.settings, sel, L, ctx.buffer[L])), next))
  {
  }

  /** A whitespace-only line selected on its own is still anchored. */
  lemma SingleBlankLineAnchored(ctx: Context, sel: Selection, L: nat)
    requires MinLine(sel) == L == MaxLine(sel) < |ctx.buffer|
    ensures Anchored(ctx, sel, L)
  {
  }

  /**
   * An anchored line: the buffer line is the one the token resolution gives,
   * five draws are used exactly when a token is minted, and the line throws
   * exactly when a line mode meets a raw From pattern that does not compile.
   */
  lemma AnchoredLineResult(ctx: Context, i: nat, sel: Selection, L: nat, next: nat)
    requires L < |ctx.buffer| && Anchored(ctx, sel, L)
    ensures var r := ProcessLine(ctx, i, sel, L, next);
      var a := ResolveAnchor(ctx.buffer[L], ctx.host.rand, next);
      && (r.None? <==> !IsLinkOnly(ctx.copy) && ctx.engine.compile(ctx.settings.lineFormatFrom).SyntaxError?)
      && (r.Some? ==> r.value.updated == a.line && r.value.copied.Some?
                      && r.value.next == if a.minted then next + IdLength else next)
  {
  }

  /**
   * Any pass of the line loop: only a line mode's rewrite throws, a line
   * uses no draw or five, and only the later lines of a link-only type copy
   * nothing.
   */
  lemma LineOutcome(ctx: Context, i: nat, sel: Selection, L: nat, next: nat)
    requires L < |ctx.buffer|
    ensures var r := ProcessLine(ctx, i, sel, L, next);
      && (r.None? ==> !IsLinkOnly(ctx.copy) && ctx.engine.compile(ctx.settings.lineFormatFrom).SyntaxError?)
      && (r.Some? ==> r.value.next == next || r.value.next == next + IdLength)
      && (r.Some? && r.value.copied.None? ==> IsLinkOnly(ctx.copy) && L != MinLine(sel))
  {
    if Anchored(ctx, sel, L) {
      AnchoredLineResult(ctx, i, sel, L, next);
    }
  }

  /**
   * A token is minted for an anchored line without one: the line loses its
   * trailing whitespace and gains one space and `^` with five characters
   * of `[a-z0-9-]`.
   */
  lemma NewIdAppended(ctx: Context, i: nat, sel: Selection, L: nat, next: nat)
    requires L < |ctx.buffer| && Anchored(ctx, sel, L)
    requires FindBlockId(ctx.buffer[L]).None?
    requires ProcessLine(ctx, i, sel, L, next).Some?
    ensures var u := ProcessLine(ctx, i, sel, L, next).value.updated;
      var t := u[|TrimEnd(ctx.buffer[L])| + 1..];
      && |u| == |TrimEnd(ctx.buffer[L])| + 1 + 1 + IdLength
      && u[..|TrimEnd(ctx.buffer[L])| + 1] == TrimEnd(ctx.buffer[L]) + " "
      && t[0] == '^' && (forall k :: 1 <= k < |t| ==> InAlphabet(t[k]))
      && t == "^" + IdFrom(ctx.host.rand, next, IdLength)
  {
    var line := ctx.buffer[L];
    var a := ResolveAnchor(line, ctx.host.rand, next);
    AnchoredLineResult(ctx, i, sel, L, next);
    ResolvedTokenShape(line, ctx.host.rand, next);
    assert a.line == TrimEnd(line) + " " + a.token;
    assert a.line[|TrimEnd(line)| + 1..] == a.token;
  }

  /**
   * In the line modes, an anchored line without a token is written back with
   * the new token appended and copied through the From/To rule with the link
   * to the new token; five draws are used.
   */
  lemma MintedLineCopy(ctx: Context, i: nat, sel: Selection, L: nat, next: nat)
    requires L < |ctx.buffer| && Anchored(ctx, sel, L)
    requires FindBlockId(ctx.buffer[L]).None? && !IsLinkOnly(ctx.copy)
    ensures var line := ctx.buffer[L];
      var token := "^" + IdFrom(ctx.host.rand, next, IdLength);
      var link := ctx.host.link("#" + token, LinkTextAt(ctx, i, L));
      ProcessLine(ctx, i, sel, L, next)
        == match RewriteLine(ctx.engine, ctx.settings, CopiedText(ctx.settings, sel, L, line), link)
           case None => None
           case Some(c) => Some(LineResult(TrimEnd(line) + " " + token, Some(c), next + IdLength))
  {
  }

  /**
   * In the link-only types, an anchored line without a token is written back
   * with the new token appended and copied as the link-only text of the link
   * to that token; five draws are used. This is "Copy link to line" on a
   * line that has no token yet.
   */
  lemma MintedLinkOnlyCopy(ctx: Context, i: nat, sel: Selection, L: nat, next: nat)
    requires L < |ctx.buffer| && Anchored(ctx, sel, L)
    requires FindBlockId(ctx.buffer[L]).None? && IsLinkOnly(ctx.copy)
    ensures var token := "^" + IdFrom(ctx.host.rand, next, IdLength);
      var link := ctx.host.link("#" + token, LinkTextAt(ctx, i, L));
      ProcessLine(ctx, i, sel, L, next)
        == Some(LineResult(TrimEnd(ctx.buffer[L]) + " " + token,
                           Some(LinkOnlyText(ctx.copy, ctx.settings, link)), next + IdLength))
  {
  }

  /**
   * A line that already ends in a token keeps its buffer text; in the line
   * modes its copy loses the token (not the whitespace before it) before the
   * From/To rule is applied, with the link to that token.
   */
  lemma ExistingIdKept(ctx: Context, i: nat, sel: Selection, L: nat, next: nat)
    requires L < |ctx.buffer| && Anchored(ctx, sel, L)
    requires FindBlockId(ctx.buffer[L]).Some?
    ensures var line := ctx.buffer[L];
      var r := ProcessLine(ctx, i, sel, L, next);
      var link := ctx.host.link("#" + line[FindBlockId(line).value..], LinkTextAt(ctx, i, L));
      var copied := CopiedText(ctx.settings, sel, L, line);
      && (r.Some? ==> r.value.updated == line && r.value.next == next)
      && (IsLinkOnly(ctx.copy) ==> r == Some(LineResult(line, Some(LinkOnlyText(ctx.copy, ctx.settings, link)), next)))
      && (!IsLinkOnly(ctx.copy) ==>
            r == match RewriteLine(ctx.engine, ctx.settings, RemoveBlockId(copied), link)
                 case None => None
                 case Some(c) => Some(LineResult(line, Some(c), next)))
  {
  }

  /**
   * Except in SeparateLines, only the first line of a selection is anchored:
   * every other line is written back as it is, uses no draw, and is copied
   * in CombinedLines but not in the link-only types (unless blank).
   */
  lemma OtherLinesUntouched(ctx: Context, i: nat, sel: Selection, L: nat, next: nat)
    requires MinLine(sel) < L <= MaxLine(sel) < |ctx.buffer|
    requires ctx.copy != SeparateLines
    ensures var line := ctx.buffer[L];
      ProcessLine(ctx, i, sel, L, next) == Some(LineResult(line,
        if IsLinkOnly(ctx.copy) && !IsBlank(line) then None else Some(CopiedText(ctx.settings, sel, L, line)),
        next))
  {
  }

  /** LinkOnlyEmbed copies exactly `"!"` and the link. */
  lemma EmbedCopiesLink(settings: Settings, link: string)
    ensures LinkOnlyText(LinkOnlyEmbed, settings, link) == "!" + link
  {
  }

  /** LinkOnly copies the copied-link template with its first placeholder replaced by the link. */
  lemma LinkOnlyCopiesTemplate(settings: Settings, link: string)
    ensures var t := settings.copiedLinkText; var r := LinkOnlyText(LinkOnly, settings, link);
      match FindFirst(t, LinkPlaceholder)
      case None => r == t
      case Some(k) => r == t[..k] + link + t[k + |LinkPlaceholder|..]
  {
  }

  /** `"{{LINK}}"` first occurs in the text `p + "{{LINK}}" + q` right after a placeholder-free `p`. */
  lemma PlaceholderAfter(p: string, q: string)
    requires forall k :: 0 <= k < |p| ==> p[k] != '{'
    ensures forall link :: ReplaceFirst(p + LinkPlaceholder + q, LinkPlaceholder, link) == p + link + q
  {
    var s := p + LinkPlaceholder + q;
    assert OccursAt(s, LinkPlaceholder, |p|) by {
      assert s[|p|..|p| + |LinkPlaceholder|] == LinkPlaceholder;
    }
    forall k | 0 <= k < |p|
      ensures !OccursAt(s, LinkPlaceholder, k)
    {
      assert s[k] == p[k];
      if k + |LinkPlaceholder| <= |s| {
        assert s[k..k + |LinkPlaceholder|][0] == s[k];
      }
    }
    assert FindFirst(s, LinkPlaceholder) == Some(|p|);
    assert s[|p| + |LinkPlaceholder|..] == q;
  }

  /** The default copied-link template gives `"(see " + link + ")"`. */
  lemma DefaultCopiedLinkText(link: string)
    ensures ReplaceFirst(DefaultSettings.copiedLinkText, LinkPlaceholder, link) == "(see " + link + ")"
  {
    assert DefaultSettings.copiedLinkText == "(see " + LinkPlaceholder + ")";
    PlaceholderAfter("(see ", ")");
  }

  /** The default To template gives `" (see " + link + ")"`. */
  lemma DefaultLineFormatTo(link: string)
    ensures ReplaceFirst(DefaultSettings.lineFormatTo, LinkPlaceholder, link) == " (see " + link + ")"
  {
    assert DefaultSettings.lineFormatTo == " (see " + LinkPlaceholder + ")";
    PlaceholderAfter(" (see ", ")");
  }

  /**
   * A From pattern whose first match is the trailing whitespace run: the
   * copy is the text without that run, followed by the filled-in To.
   */
  lemma TrailingRewrite(engine: Engine, settings: Settings, copied: string, link: string)
    requires engine.compile(settings.lineFormatFrom).Compiled?
    requires engine.firstMatch(settings.lineFormatFrom, copied) == TrailingSpaceMatch(copied)
    ensures RewriteLine(engine, settings, copied, link)
      == Some(TrimEnd(copied) + ReplaceFirst(settings.lineFormatTo, LinkPlaceholder, link))
  {
    ReplaceTrailingSpace(copied, ReplaceFirst(settings.lineFormatTo, LinkPlaceholder, link));
  }

  /**
   * With the default From and To, and an engine that finds `\s*$` at the
   * trailing whitespace, a line mode copies the line without its trailing
   * whitespace, followed by `" (see " + link + ")"`.
   */
  lemma DefaultRewrite(engine: Engine, settings: Settings, copied: string, link: string)
    requires engine.compile(DefaultSettings.lineFormatFrom).Compiled?
    requires engine.firstMatch(DefaultSettings.lineFormatFrom, copied) == TrailingSpaceMatch(copied)
    requires settings.lineFormatFrom == DefaultSettings.lineFormatFrom
    requires settings.lineFormatTo == DefaultSettings.lineFormatTo
    ensures RewriteLine(engine, settings, copied, link) == Some(TrimEnd(copied) + " (see " + link + ")")
  {
    TrailingRewrite(engine, settings, copied, link);
    DefaultLineFormatTo(link);
    AppendAfter(TrimEnd(copied), " (see ", link, ")");
  }

  /** Appending a three-part text is appending its parts in turn. */
  lemma AppendAfter(a: string, b: string, c: string, d: string)
    ensures a + (b + c + d) == a + b + c + d
  {
  }

  /** Lines as JavaScript strings from an editor contain no newline. */
  predicate NoNewline(s: string) {
    forall k :: 0 <= k < |s| ==> s[k] != '\n'
  }

  /**
   * A second run over a line the first run anchored leaves the buffer line
   * as the first run wrote it, uses no draw, and in the link-only types
   * copies the same link when the link text is the same.
   */
  lemma SecondRunStable(ctx: Context, i: nat, sel: Selection, L: nat, next: nat, i': nat, next': nat)
    requires L < |ctx.buffer| && Anchored(ctx, sel, L)
    requires ProcessLine(ctx, i, sel, L, next).Some?
    ensures var r := ProcessLine(ctx, i, sel, L, next).value;
      var ctx' := ctx.(buffer := ctx.buffer[L := r.updated]);
      var r' := ProcessLine(ctx', i', sel, L, next');
      && r'.Some?
      && r'.value.updated == r.updated && r'.value.next == next'
      && (IsLinkOnly(ctx.copy) && LinkTextAt(ctx, i, L) == LinkTextAt(ctx, i', L) ==> r'.value.copied == r.copied)
  {
    var line := ctx.buffer[L];
    var r := ProcessLine(ctx, i, sel, L, next).value;
    var ctx' := ctx.(buffer := ctx.buffer[L := r.updated]);
    var a := ResolveAnchor(line, ctx.host.rand, next);
    AnchoredLineResult(ctx, i, sel, L, next);
    ResolveIdempotent(line, ctx.host.rand, next, ctx.host.rand, next');
    ResolvedTokenShape(line, ctx.host.rand, next);
    assert ctx'.buffer[L] == a.line;
    assert !IsBlank(a.line) by {
      if a.minted {
        assert a.line[|a.line| - |a.token|] == '^';
      } else {
        assert a.line[FindBlockId(line).value] == '^';
      }
    }
    AnchoredLineResult(ctx', i', sel, L, next');
  }

  // ---------------------------------------------------------------------
  // One selection

  /** `upd` is `orig` with a freshly minted token appended. */
  predicate MintedFrom(orig: string, upd: string) {
    var n := |TrimEnd(orig)| + 1;
    && FindBlockId(orig).None?
    && |upd| == n + 1 + IdLength && upd[..n] == TrimEnd(orig) + " " && upd[n] == '^'
    && forall k :: n < k < |upd| ==> InAlphabet(upd[k])
  }

  /** What a written-back line can be: the buffer line, or the buffer line with a new token. */
  predicate WrittenBack(orig: string, upd: string) {
    upd == orig || MintedFrom(orig, upd)
  }

  lemma {:induction false} LineWrittenBack(ctx: Context, i: nat, sel: Selection, L: nat, next: nat)
    requires L < |ctx.buffer|
    requires ProcessLine(ctx, i, sel, L, next).Some?
    ensures WrittenBack(ctx.buffer[L], ProcessLine(ctx, i, sel, L, next).value.updated)
    ensures !Anchored(ctx, sel, L) ==> ProcessLine(ctx, i, sel, L, next).value.updated == ctx.buffer[L]
  {
    if Anchored(ctx, sel, L) {
      var line := ctx.buffer[L];
      var a := ResolveAnchor(line, ctx.host.rand, next);
      AnchoredLineResult(ctx, i, sel, L, next);
      if a.minted {
        NewIdAppended(ctx, i, sel, L, next);
      }
    }
  }

  /** Number of whitespace-only buffer lines in `[from, to)`. */
  function CountBlank(buffer: seq<string>, lo: nat, hi: nat): (n: nat)
    requires lo <= hi <= |buffer|
    ensures n <= hi - lo
    decreases hi
  {
    if lo == hi then 0 else (if IsBlank(buffer[hi - 1]) then 1 else 0) + CountBlank(buffer, lo, hi - 1)
  }

  /**
   * How many entries the lines `MinLine(sel)..upto - 1` put in the copy:
   * one per line in the line modes; in the link-only types the first line
   * and the whitespace-only lines after it.
   */
  function EntriesUpTo(ctx: Context, sel: Selection, upto: nat): nat
    requires InBuffer(ctx.buffer, sel) && MinLine(sel) <= upto <= MaxLine(sel) + 1
  {
    if !IsLinkOnly(ctx.copy) then upto - MinLine(sel)
    else if upto == MinLine(sel) then 0
    else 1 + CountBlank(ctx.buffer, MinLine(sel) + 1, upto)
  }

  /** How many entries line `L` puts in the copy: see EntriesUpTo. */
  function LineEntries(ctx: Context, sel: Selection, L: nat): nat
    requires L < |ctx.buffer|
  {
    if !IsLinkOnly(ctx.copy) || L == MinLine(sel) || IsBlank(ctx.buffer[L]) then 1 else 0
  }

  /**
   * One line's share of the selection's shape: the line written back is the
   * buffer line or the buffer line with a new token (the buffer line itself
   * on the later lines outside SeparateLines), with LineEntries copied entries.
   */
  predicate LineFacts(ctx: Context, sel: Selection, L: nat, l: LineResult)
    requires L < |ctx.buffer|
  {
    && WrittenBack(ctx.buffer[L], l.updated)
    && (ctx.copy != SeparateLines && L > MinLine(sel) ==> l.updated == ctx.buffer[L])
    && |ToSeq(l.copied)| == LineEntries(ctx, sel, L)
  }

  lemma LineShape(ctx: Context, i: nat, sel: Selection, L: nat, next: nat, l: LineResult)
    requires MinLine(sel) <= L <= MaxLine(sel) < |ctx.buffer|
    requires ProcessLine(ctx, i, sel, L, next) == Some(l)
    ensures LineFacts(ctx, sel, L, l)
  {
    LineWrittenBack(ctx, i, sel, L, next);
    if ctx.copy != SeparateLines && L > MinLine(sel) {
      OtherLinesUntouched(ctx, i, sel, L, next);
    } else if !PassesThrough(ctx.buffer, sel, L) {
      AnchoredLineResult(ctx, i, sel, L, next);
    }
  }

  /** EntriesUpTo grows by one line's entries. */
  lemma EntriesStep(ctx: Context, sel: Selection, upto: nat)
    requires InBuffer(ctx.buffer, sel) && MinLine(sel) < upto <= MaxLine(sel) + 1
    ensures EntriesUpTo(ctx, sel, upto) == EntriesUpTo(ctx, sel, upto - 1) + LineEntries(ctx, sel, upto - 1)
  {
  }

  /**
   * The shape of the lines `MinLine(sel)..upto - 1` once processed: one
   * written-back line per line, each the buffer line or the buffer line with
   * a new token (only the first line outside SeparateLines), and as many
   * copied entries as EntriesUpTo counts.
   */
  predicate Shaped(ctx: Context, sel: Selection, upto: nat, updated: seq<string>, copied: seq<string>)
    requires InBuffer(ctx.buffer, sel) && MinLine(sel) <= upto <= MaxLine(sel) + 1
  {
    && |updated| == upto - MinLine(sel)
    && (forall k {:trigger updated[k]} :: 0 <= k < |updated| ==> WrittenBack(ctx.buffer[MinLine(sel) + k], updated[k]))
    && (ctx.copy != SeparateLines ==>
          forall k {:trigger updated[k]} :: 0 < k < |updated| ==> updated[k] == ctx.buffer[MinLine(sel) + k])
    && |copied| == EntriesUpTo(ctx, sel, upto)
  }

  /** A shaped prefix extended by one line of the right shape is shaped. */
  lemma ShapedExtend(ctx: Context, sel: Selection, upto: nat, updated: seq<string>, copied: seq<string>,
                     line: string, entries: seq<string>)
    requires InBuffer(ctx.buffer, sel) && MinLine(sel) < upto <= MaxLine(sel) + 1
    requires Shaped(ctx, sel, upto - 1, updated, copied)
    requires WrittenBack(ctx.buffer[upto - 1], line)
    requires ctx.copy != SeparateLines && upto - 1 > MinLine(sel) ==> line == ctx.buffer[upto - 1]
    requires |entries| == LineEntries(ctx, sel, upto - 1)
    ensures Shaped(ctx, sel, upto, updated + [line], copied + entries)
  {
    EntriesStep(ctx, sel, upto);
    var u := updated + [line];
    forall k | 0 <= k < |u|
      ensures u[k] == if k < |updated| then updated[k] else line
    {
    }
  }

  /** The lines so far, shaped, and one more line of the right shape: shaped again. */
  lemma ShapeStep(ctx: Context, sel: Selection, upto: nat, prev: SelectionResult, l: LineResult, r: SelectionResult)
    requires InBuffer(ctx.buffer, sel) && MinLine(sel) < upto <= MaxLine(sel) + 1
    requires Shaped(ctx, sel, upto - 1, prev.updated, prev.copied)
    requires LineFacts(ctx, sel, upto - 1, l)
    requires r == SelectionResult(prev.updated + [l.updated], prev.copied + ToSeq(l.copied), l.next)
    ensures Shaped(ctx, sel, upto, r.updated, r.copied)
  {
    ShapedExtend(ctx, sel, upto, prev.updated, prev.copied, l.updated, ToSeq(l.copied));
  }

  /** The last line of a run of lines has the shape its position asks for. */
  lemma LastLineFacts(ctx: Context, i: nat, sel: Selection, upto: nat, next: nat, r: SelectionResult)
    returns (prev: SelectionResult, l: LineResult)
    requires InBuffer(ctx.buffer, sel) && MinLine(sel) < upto <= MaxLine(sel) + 1
    requires ProcessLines(ctx, i, sel, upto, next) == Some(r)
    ensures ProcessLines(ctx, i, sel, upto - 1, next) == Some(prev)
    ensures LineFacts(ctx, sel, upto - 1, l)
    ensures r == SelectionResult(prev.updated + [l.updated], prev.copied + ToSeq(l.copied), l.next)
  {
    assert ProcessLines(ctx, i, sel, upto, next) == ProcessThrough(ctx, i, sel, upto - 1, next);
    prev := ProcessLines(ctx, i, sel, upto - 1, next).value;
    l := ProcessLine(ctx, i, sel, upto - 1, prev.next).value;
    LineShape(ctx, i, sel, upto - 1, prev.next, l);
  }

  /** One more line keeps the lines shaped. */
  lemma ShapeExtends(ctx: Context, i: nat, sel: Selection, upto: nat, next: nat, r: SelectionResult)
    returns (prev: SelectionResult)
    requires InBuffer(ctx.buffer, sel) && MinLine(sel) < upto <= MaxLine(sel) + 1
    requires ProcessLines(ctx, i, sel, upto, next) == Some(r)
    ensures ProcessLines(ctx, i, sel, upto - 1, next) == Some(prev)
    ensures Shaped(ctx, sel, upto - 1, prev.updated, prev.copied) ==> Shaped(ctx, sel, upto, r.updated, r.copied)
  {
    var l;
    prev, l := LastLineFacts(ctx, i, sel, upto, next, r);
    if Shaped(ctx, sel, upto - 1, prev.updated, prev.copied) {
      ShapeStep(ctx, sel, upto, prev, l, r);
    }
  }

  /** The lines of a selection, in order, are shaped. */
  lemma {:induction false} SelectionShape(ctx: Context, i: nat, sel: Selection, upto: nat, next: nat, r: SelectionResult)
    requires InBuffer(ctx.buffer, sel) && MinLine(sel) <= upto <= MaxLine(sel) + 1
    requires ProcessLines(ctx, i, sel, upto, next) == Some(r)
    ensures Shaped(ctx, sel, upto, r.updated, r.copied)
    decreases upto
  {
    if upto > MinLine(sel) {
      var prev := ShapeExtends(ctx, i, sel, upto, next, r);
      SelectionShape(ctx, i, sel, upto - 1, next, prev);
    }
  }

  // ---------------------------------------------------------------------
  // The whole invocation

  /** Two changes replace the same span. */
  predicate SameSpan(a: Change, b: Change) {
    a.from == b.from && a.to == b.to
  }

  /** No two changes replace the same span. */
  predicate DistinctSpans(changes: seq<Change>) {
    forall a, b :: 0 <= a < b < |changes| ==> !SameSpan(changes[a], changes[b])
  }

  /** No change before number `k` replaces the span of change number `k`. */
  predicate FirstOfSpan(proposals: seq<Change>, k: nat)
    requires k < |proposals|
  {
    forall k' :: 0 <= k' < k ==> !SameSpan(proposals[k'], proposals[k])
  }

  /** No two queued changes share a span. */
  lemma {:induction false} QueueAllDistinct(proposals: seq<Change>)
    ensures DistinctSpans(QueueAll(proposals))
  {
    if proposals != [] {
      var init, c := proposals[..|proposals| - 1], proposals[|proposals| - 1];
      assert proposals == init + [c];
      QueueAllStep(init, c);
      QueueAllDistinct(init);
      var q0 := QueueAll(init);
      if !HasSpan(q0, Range(c.from, c.to)) {
        var q := q0 + [c];
        forall a, b | 0 <= a < b < |q| ensures !SameSpan(q[a], q[b]) {
          assert q[a] == q0[a];
          if b < |q0| {
            assert q[b] == q0[b];
          } else {
            assert q[b] == c;
          }
        }
      }
    }
  }

  /** Every proposed span is queued. */
  lemma {:induction false} QueueAllCovers(proposals: seq<Change>)
    ensures forall k :: 0 <= k < |proposals| ==> HasSpan(QueueAll(proposals), Range(proposals[k].from, proposals[k].to))
  {
    if proposals != [] {
      var init, c := proposals[..|proposals| - 1], proposals[|proposals| - 1];
      assert proposals == init + [c];
      QueueAllStep(init, c);
      QueueAllCovers(init);
      var q0 := QueueAll(init);
      var q := QueueAll(proposals);
      forall k | 0 <= k < |proposals| ensures HasSpan(q, Range(proposals[k].from, proposals[k].to)) {
        if k < |init| {
          assert proposals[k] == init[k];
          var m :| 0 <= m < |q0| && q0[m].from == init[k].from && q0[m].to == init[k].to;
          assert q[m] == q0[m];
        } else if q != q0 {
          assert q[|q0|] == c;
        }
      }
    }
  }

  /** `c` is the proposal number `k` of `proposals`, and no earlier proposal has its span. */
  predicate ProposedFirst(c: Change, proposals: seq<Change>) {
    exists k :: 0 <= k < |proposals| && FirstOfSpan(proposals, k) && c == proposals[k]
  }

  /** Every queued change is the first proposal of its span. */
  lemma {:induction false} QueueAllFirst(proposals: seq<Change>)
    ensures forall j :: 0 <= j < |QueueAll(proposals)| ==> ProposedFirst(QueueAll(proposals)[j], proposals)
  {
    if proposals != [] {
      var init, c := proposals[..|proposals| - 1], proposals[|proposals| - 1];
      assert proposals == init + [c];
      QueueAllStep(init, c);
      QueueAllFirst(init);
      QueueAllCovers(init);
      var q0 := QueueAll(init);
      var q := QueueAll(proposals);
      forall j | 0 <= j < |q| ensures ProposedFirst(q[j], proposals) {
        if j < |q0| {
          assert ProposedFirst(q0[j], init);
          var k :| 0 <= k < |init| && FirstOfSpan(init, k) && q0[j] == init[k];
          assert q[j] == q0[j];
          assert proposals[k] == init[k];
          assert FirstOfSpan(proposals, k) by {
            forall k' | 0 <= k' < k ensures !SameSpan(proposals[k'], proposals[k]) {
              assert proposals[k'] == init[k'];
            }
          }
        } else {
          assert q == q0 + [c] && q[j] == c;
          assert FirstOfSpan(proposals, |init|) by {
            forall k' | 0 <= k' < |init| ensures !SameSpan(proposals[k'], c) {
              assert proposals[k'] == init[k'];
              assert HasSpan(q0, Range(init[k'].from, init[k'].to));
            }
          }
        }
      }
    }
  }

  /** ProcessSelections unfolded once: the selections before the last, then the last one. */
  lemma ProcessSelectionsStep(ctx: Context, sels: seq<Selection>, upto: nat)
    requires AllInBuffer(ctx.buffer, sels) && 0 < upto <= |sels|
    requires ProcessSelections(ctx, sels, upto).Some?
    ensures ProcessSelections(ctx, sels, upto - 1).Some?
    ensures var st := ProcessSelections(ctx, sels, upto - 1).value;
      var sel := sels[upto - 1];
      var r := ProcessSelection(ctx, upto - 1, sel, st.next);
      var span := EditSpan(ctx.buffer, sel);
      && r.Some?
      && ProcessSelections(ctx, sels, upto).value
         == State(st.proposals + [Change(span.from, span.to, Join(r.value.updated, "\n"))],
                  st.copied + r.value.copied, r.value.next)
  {
  }

  /** Total copied entries of the first `upto` selections. */
  function TotalEntries(ctx: Context, sels: seq<Selection>, upto: nat): nat
    requires AllInBuffer(ctx.buffer, sels) && upto <= |sels|
  {
    if upto == 0 then 0 else TotalEntries(ctx, sels, upto - 1) + EntriesUpTo(ctx, sels[upto - 1], MaxLine(sels[upto - 1]) + 1)
  }

  /** The edit spans of the selections, in order. */
  function Spans(buffer: seq<string>, sels: seq<Selection>): (spans: seq<Range>)
    requires AllInBuffer(buffer, sels)
    ensures |spans| == |sels|
  {
    seq(|sels|, k requires 0 <= k < |sels| => EditSpan(buffer, sels[k]))
  }

  /** Selection number `k` proposes the change of its edit span. */
  lemma {:induction false} ProposalSpans(ctx: Context, sels: seq<Selection>, upto: nat)
    requires AllInBuffer(ctx.buffer, sels) && upto <= |sels|
    requires ProcessSelections(ctx, sels, upto).Some?
    ensures var st := ProcessSelections(ctx, sels, upto).value;
      && |st.proposals| == upto
      && (forall k :: 0 <= k < upto ==> Range(st.proposals[k].from, st.proposals[k].to) == EditSpan(ctx.buffer, sels[k]))
  {
    if upto > 0 {
      ProcessSelectionsStep(ctx, sels, upto);
      ProposalSpans(ctx, sels, upto - 1);
      var st0 := ProcessSelections(ctx, sels, upto - 1).value;
      var st := ProcessSelections(ctx, sels, upto).value;
      forall k | 0 <= k < upto - 1 ensures st.proposals[k] == st0.proposals[k] { }
    }
  }

  /**
   * A selection writes back one line per line of its range, in order, each
   * the buffer line or the buffer line with a new token, and its copied
   * entries number EntriesUpTo over the whole range.
   */
  lemma SelectionEntries(ctx: Context, i: nat, sel: Selection, next: nat)
    requires InBuffer(ctx.buffer, sel)
    requires ProcessSelection(ctx, i, sel, next).Some?
    ensures var r := ProcessSelection(ctx, i, sel, next).value;
      && |r.updated| == MaxLine(sel) - MinLine(sel) + 1
      && (forall k :: 0 <= k < |r.updated| ==> WrittenBack(ctx.buffer[MinLine(sel) + k], r.updated[k]))
      && |r.copied| == EntriesUpTo(ctx, sel, MaxLine(sel) + 1)
  {
    SelectionShape(ctx, i, sel, MaxLine(sel) + 1, next, ProcessSelection(ctx, i, sel, next).value);
  }

  /** The copied entries of the selections number TotalEntries. */
  lemma {:induction false} CopiedCount(ctx: Context, sels: seq<Selection>, upto: nat)
    requires AllInBuffer(ctx.buffer, sels) && upto <= |sels|
    requires ProcessSelections(ctx, sels, upto).Some?
    ensures |ProcessSelections(ctx, sels, upto).value.copied| == TotalEntries(ctx, sels, upto)
  {
    if upto > 0 {
      ProcessSelectionsStep(ctx, sels, upto);
      CopiedCount(ctx, sels, upto - 1);
      var st := ProcessSelections(ctx, sels, upto - 1).value;
      var sel := sels[upto - 1];
      SelectionEntries(ctx, upto - 1, sel, st.next);
    }
  }

  /**
   * An invocation that is applied: the pattern passed the gate, the changes
   * are the proposals de-duplicated, the clipboard is every copied entry
   * joined by newlines, and the selections come back as they went in.
   */
  lemma AppliedOutcome(ctx: Context, sels: seq<Selection>)
    requires AllInBuffer(ctx.buffer, sels)
    requires CopyForward(ctx, sels).Applied?
    ensures ValidateRegex(ctx.engine, ctx.settings.lineFormatFrom).valid
    ensures ProcessSelections(ctx, sels, |sels|).Some?
    ensures var o := CopyForward(ctx, sels); var st := ProcessSelections(ctx, sels, |sels|).value;
      && o.transaction.changes == QueueAll(st.proposals)
      && o.clipboard == Join(st.copied, "\n")
      && |st.copied| == TotalEntries(ctx, sels, |sels|)
      && |o.transaction.selections| == |sels|
      && (forall k :: 0 <= k < |sels| ==> o.transaction.selections[k] == Range(sels[k].anchor, sels[k].head))
      && (o.copiedNotice.Some? <==> ctx.settings.displayCopiedNotice)
  {
    CopiedCount(ctx, sels, |sels|);
  }

  /** The changes of an applied invocation: no two share a span, and every selection's span is edited. */
  lemma AppliedSpans(ctx: Context, sels: seq<Selection>)
    requires AllInBuffer(ctx.buffer, sels)
    requires CopyForward(ctx, sels).Applied?
    ensures var q := CopyForward(ctx, sels).transaction.changes;
      && DistinctSpans(q)
      && (forall k :: 0 <= k < |sels| ==> HasSpan(q, EditSpan(ctx.buffer, sels[k])))
  {
    AppliedOutcome(ctx, sels);
    var p := ProcessSelections(ctx, sels, |sels|).value.proposals;
    ProposalSpans(ctx, sels, |sels|);
    QueueAllDistinct(p);
    QueueAllCovers(p);
    var q := QueueAll(p);
    forall k | 0 <= k < |sels| ensures HasSpan(q, EditSpan(ctx.buffer, sels[k])) {
      assert HasSpan(q, Range(p[k].from, p[k].to));
    }
  }

  /**
   * Every change of `q` is some proposal `k` of `p` whose span `spans[k]`
   * no earlier proposal has.
   */
  predicate FirstKept(q: seq<Change>, p: seq<Change>, spans: seq<Range>) {
    forall j :: 0 <= j < |q| ==> KeptAt(q[j], p, spans)
  }

  /** `c` is some proposal `k` of `p` whose span `spans[k]` no earlier proposal has. */
  predicate KeptAt(c: Change, p: seq<Change>, spans: seq<Range>) {
    exists k :: 0 <= k < |p| && k < |spans| && c == p[k] && (forall k' :: 0 <= k' < k ==> spans[k'] != spans[k])
  }

  /** With proposal `k` replacing span `spans[k]`, the queue keeps first proposals only. */
  lemma {:induction false} QueueAllFirstSpan(p: seq<Change>, spans: seq<Range>)
    requires |p| == |spans|
    requires forall k :: 0 <= k < |p| ==> Range(p[k].from, p[k].to) == spans[k]
    ensures FirstKept(QueueAll(p), p, spans)
  {
    var q := QueueAll(p);
    QueueAllFirst(p);
    forall j | 0 <= j < |q| ensures KeptAt(q[j], p, spans) {
      assert ProposedFirst(q[j], p);
      var k :| 0 <= k < |p| && FirstOfSpan(p, k) && q[j] == p[k];
      forall k' | 0 <= k' < k ensures spans[k'] != spans[k] {
        assert !SameSpan(p[k'], p[k]);
      }
    }
  }

  /**
   * Every change of an applied invocation is the one proposed by a
   * selection whose edit span no earlier selection has: of the selections
   * with the same span, the first one's text is kept.
   */
  lemma AppliedFirst(ctx: Context, sels: seq<Selection>)
    requires AllInBuffer(ctx.buffer, sels)
    requires CopyForward(ctx, sels).Applied?
    ensures ProcessSelections(ctx, sels, |sels|).Some?
    ensures var p := ProcessSelections(ctx, sels, |sels|).value.proposals;
      |p| == |sels| && FirstKept(CopyForward(ctx, sels).transaction.changes, p, Spans(ctx.buffer, sels))
  {
    AppliedOutcome(ctx, sels);
    var p := ProcessSelections(ctx, sels, |sels|).value.proposals;
    ProposalSpans(ctx, sels, |sels|);
    QueueAllFirstSpan(p, Spans(ctx.buffer, sels));
  }

  /**
   * The payload has one line per copied entry when no entry holds a newline
   * (a link text read from the clipboard may).
   */
  lemma ClipboardLines(ctx: Context, sels: seq<Selection>)
    requires AllInBuffer(ctx.buffer, sels)
    requires CopyForward(ctx, sels).Applied?
    requires var st := ProcessSelections(ctx, sels, |sels|).value;
      |st.copied| >= 1 && forall k :: 0 <= k < |st.copied| ==> NoNewline(st.copied[k])
    ensures var st := ProcessSelections(ctx, sels, |sels|).value;
      var lines := SplitLines(CopyForward(ctx, sels).clipboard);
      lines == st.copied && |lines| == TotalEntries(ctx, sels, |sels|)
  {
    var st := ProcessSelections(ctx, sels, |sels|).value;
    SplitJoin(st.copied);
    CopiedCount(ctx, sels, |sels|);
  }

  /**
   * With no selections a valid pattern still leads to an empty transaction,
   * an empty clipboard write and the optional "Copied" notice.
   */
  lemma NoSelections(ctx: Context)
    requires ValidateRegex(ctx.engine, ctx.settings.lineFormatFrom).valid
    ensures AllInBuffer(ctx.buffer, [])
    ensures CopyForward(ctx, []) == Applied(Transaction([], []), "",
                                            if ctx.settings.displayCopiedNotice then Some("Copied") else None)
  {
    assert Ranges([]) == [];
  }

  /**
   * An invalid From pattern stops the invocation before any selection is
   * read: the notice names the unescaped pattern and the compiler's message,
   * and there is no transaction and no clipboard write.
   */
  lemma InvalidPatternStops(ctx: Context, sels: seq<Selection>)
    requires AllInBuffer(ctx.buffer, sels)
    requires ctx.engine.compile(Unescape(ctx.settings.lineFormatFrom)).SyntaxError?
    ensures CopyForward(ctx, sels) == Rejected(InvalidNotice(
      "\"" + Unescape(ctx.settings.lineFormatFrom) + "\": \""
      + ctx.engine.compile(Unescape(ctx.settings.lineFormatFrom)).message + "\""))
  {
  }

  /** The only way a line throws: a line mode whose raw From pattern does not compile. */
  predicate RawFromThrows(ctx: Context) {
    !IsLinkOnly(ctx.copy) && ctx.engine.compile(ctx.settings.lineFormatFrom).SyntaxError?
  }

  /** A run of lines that throws has met a raw From pattern that does not compile, in a line mode. */
  lemma {:induction false} LinesThrowFrom(ctx: Context, i: nat, sel: Selection, upto: nat, next: nat)
    requires InBuffer(ctx.buffer, sel) && MinLine(sel) <= upto <= MaxLine(sel) + 1
    requires ProcessLines(ctx, i, sel, upto, next).None?
    ensures RawFromThrows(ctx)
    decreases upto
  {
    if upto > MinLine(sel) {
      assert ProcessLines(ctx, i, sel, upto, next) == ProcessThrough(ctx, i, sel, upto - 1, next);
      match ProcessLines(ctx, i, sel, upto - 1, next)
      case None => LinesThrowFrom(ctx, i, sel, upto - 1, next);
      case Some(r) => LineOutcome(ctx, i, sel, upto - 1, r.next);
    }
  }

  /** A selection loop that throws has met a raw From pattern that does not compile, in a line mode. */
  lemma {:induction false} SelectionsThrowFrom(ctx: Context, sels: seq<Selection>, upto: nat)
    requires AllInBuffer(ctx.buffer, sels) && upto <= |sels|
    requires ProcessSelections(ctx, sels, upto).None?
    ensures RawFromThrows(ctx)
    decreases upto
  {
    if upto > 0 {
      match ProcessSelections(ctx, sels, upto - 1)
      case None => SelectionsThrowFrom(ctx, sels, upto - 1);
      case Some(st) =>
        var sel := sels[upto - 1];
        LinesThrowFrom(ctx, upto - 1, sel, MaxLine(sel) + 1, st.next);
    }
  }

  /**
   * An invocation stops only in a line mode whose From pattern passes the
   * gate in its unescaped form but does not compile as written: the gate
   * checks the unescaped pattern, the rewrite compiles the raw one.
   */
  lemma ThrewCause(ctx: Context, sels: seq<Selection>)
    requires AllInBuffer(ctx.buffer, sels)
    requires CopyForward(ctx, sels).Threw?
    ensures ValidateRegex(ctx.engine, ctx.settings.lineFormatFrom).valid
    ensures !IsLinkOnly(ctx.copy) && ctx.engine.compile(ctx.settings.lineFormatFrom).SyntaxError?
  {
    SelectionsThrowFrom(ctx, sels, |sels|);
  }

  // ---------------------------------------------------------------------
  // A one-line run

  /**
   * What a one-line run in a line mode needs of the settings and the
   * engine: leading whitespace is stripped, the From pattern passes the gate
   * and compiles, and its first match in `line` is the trailing whitespace
   * run (as the default `\s*$` is).
   */
  predicate TrailingFrom(ctx: Context, line: string) {
    && ctx.settings.removeLeadingWhitespace
    && ctx.engine.compile(Unescape(ctx.settings.lineFormatFrom)).Compiled?
    && ctx.engine.compile(ctx.settings.lineFormatFrom).Compiled?
    && ctx.engine.firstMatch(ctx.settings.lineFormatFrom, line) == TrailingSpaceMatch(line)
  }

  /** The To template with the link in its first placeholder. */
  function FilledTo(settings: Settings, link: string): string {
    ReplaceFirst(settings.lineFormatTo, LinkPlaceholder, link)
  }

  /** The cursor at the start of line 0. */
  const Origin: Selection := Selection(Position(0, 0), Position(0, 0))

  /** The copy of a one-line point selection at column 0 of a line without leading whitespace. */
  lemma PointRewrite(ctx: Context, line: string, link: string)
    requires TrailingFrom(ctx, line) && TrimStart(line) == line
    ensures RewriteLine(ctx.engine, ctx.settings, CopiedText(ctx.settings, Origin, 0, line), link)
      == Some(TrimEnd(line) + FilledTo(ctx.settings, link))
  {
    assert CopiedText(ctx.settings, Origin, 0, line) == line;
    TrailingRewrite(ctx.engine, ctx.settings, line, link);
  }

  /** The one line of a one-line point selection in SeparateLines. */
  lemma PointLine(ctx: Context, line: string)
    requires ctx.buffer == [line] && ctx.copy == SeparateLines && ctx.mode == LinkTextFromSettings
    requires TrailingFrom(ctx, line) && TrimStart(line) == line
    requires FindBlockId(line).None? && !IsBlank(line)
    ensures var token := "^" + IdFrom(ctx.host.rand, 0, IdLength);
      ProcessLine(ctx, 0, Origin, 0, 0) == Some(LineResult(TrimEnd(line) + " " + token,
        Some(TrimEnd(line) + FilledTo(ctx.settings, ctx.host.link("#" + token, ctx.settings.linkText))), IdLength))
  {
    var token := "^" + IdFrom(ctx.host.rand, 0, IdLength);
    MintedLineCopy(ctx, 0, Origin, 0, 0);
    PointRewrite(ctx, line, ctx.host.link("#" + token, ctx.settings.linkText));
  }

  /** A selection on one line is that line's pass of the loop. */
  lemma OneLineSelection(ctx: Context, i: nat, sel: Selection, next: nat, l: LineResult)
    requires InBuffer(ctx.buffer, sel) && MinLine(sel) == MaxLine(sel)
    requires ProcessLine(ctx, i, sel, MinLine(sel), next) == Some(l)
    ensures ProcessSelection(ctx, i, sel, next) == Some(SelectionResult([l.updated], ToSeq(l.copied), l.next))
  {
    ProcessLinesExtend(ctx, i, sel, MinLine(sel), next, SelectionResult([], [], next), l);
    assert [] + [l.updated] == [l.updated];
    assert [] + ToSeq(l.copied) == ToSeq(l.copied);
  }

  /** A single selection proposes its one change and copies its entries. */
  lemma SingleSelection(ctx: Context, sel: Selection, r: SelectionResult)
    requires InBuffer(ctx.buffer, sel)
    requires ProcessSelection(ctx, 0, sel, 0) == Some(r)
    ensures AllInBuffer(ctx.buffer, [sel])
    ensures ProcessSelections(ctx, [sel], 1)
      == Some(State([Change(EditSpan(ctx.buffer, sel).from, EditSpan(ctx.buffer, sel).to, Join(r.updated, "\n"))],
                    r.copied, r.next))
  {
    assert [sel][0] == sel;
    ProcessSelectionsExtend(ctx, [sel], 0, State([], [], 0), r);
    var span := EditSpan(ctx.buffer, sel);
    var c := Change(span.from, span.to, Join(r.updated, "\n"));
    assert [] + [c] == [c];
    assert [] + r.copied == r.copied;
  }

  /** The selection loop of PointRun: one proposed change, one copied entry, five draws. */
  lemma PointSelections(ctx: Context, line: string)
    requires ctx.buffer == [line] && ctx.copy == SeparateLines && ctx.mode == LinkTextFromSettings
    requires TrailingFrom(ctx, line) && TrimStart(line) == line
    requires FindBlockId(line).None? && !IsBlank(line)
    ensures var token := "^" + IdFrom(ctx.host.rand, 0, IdLength);
      AllInBuffer(ctx.buffer, [Origin]) &&
      ProcessSelections(ctx, [Origin], 1) == Some(State(
        [Change(Position(0, 0), Position(0, |line|), TrimEnd(line) + " " + token)],
        [TrimEnd(line) + FilledTo(ctx.settings, ctx.host.link("#" + token, ctx.settings.linkText))],
        IdLength))
  {
    var token := "^" + IdFrom(ctx.host.rand, 0, IdLength);
    var updated := TrimEnd(line) + " " + token;
    var copied := TrimEnd(line) + FilledTo(ctx.settings, ctx.host.link("#" + token, ctx.settings.linkText));
    PointLine(ctx, line);
    assert ToSeq(Some(copied)) == [copied];
    OneLineSelection(ctx, 0, Origin, 0, LineResult(updated, Some(copied), IdLength));
    SingleSelection(ctx, Origin, SelectionResult([updated], [copied], IdLength));
    assert Join([updated], "\n") == updated;
    assert EditSpan(ctx.buffer, Origin) == Range(Position(0, 0), Position(0, |line|));
  }

  /**
   * A cursor at the start of the only line, which carries no token and no
   * leading whitespace, in SeparateLines with the strip setting on and a From
   * whose first match is the trailing whitespace: the line gets a new token,
   * the copy is the line less its trailing whitespace followed by the To
   * template with the link to the token, and the transaction replaces the
   * whole line.
   */
  lemma PointRun(ctx: Context, line: string, updated: string, copied: string)
    requires ctx.buffer == [line] && ctx.copy == SeparateLines && ctx.mode == LinkTextFromSettings
    requires TrailingFrom(ctx, line) && TrimStart(line) == line
    requires FindBlockId(line).None? && !IsBlank(line)
    requires var token := "^" + IdFrom(ctx.host.rand, 0, IdLength);
      && updated == TrimEnd(line) + " " + token
      && copied == TrimEnd(line) + FilledTo(ctx.settings, ctx.host.link("#" + token, ctx.settings.linkText))
    ensures AllInBuffer(ctx.buffer, [Origin]) &&
      CopyForward(ctx, [Origin]) == Applied(
        Transaction([Change(Position(0, 0), Position(0, |line|), updated)], [Range(Position(0, 0), Position(0, 0))]),
        copied, if ctx.settings.displayCopiedNotice then Some("Copied") else None)
  {
    var c := Change(Position(0, 0), Position(0, |line|), updated);
    PointSelections(ctx, line);
    QueueAllStep([], c);
    assert [] + [c] == [c];
    assert QueueAll([c]) == [c];
    assert Join([copied], "\n") == copied;
    assert Ranges([Origin]) == [Range(Position(0, 0), Position(0, 0))];
    CopyForwardApplied(ctx, [Origin], State([c], [copied], IdLength));
  }

  /** The link-only copy of the link to `token` with the settings' link text. */
  function LinkOnlyCopy(ctx: Context, token: string): string {
    LinkOnlyText(ctx.copy, ctx.settings, ctx.host.link("#" + token, ctx.settings.linkText))
  }

  /** The cursor at the start of a token-free line in a link-only type: one minted line, one link. */
  lemma LinkOnlyPoint(ctx: Context, line: string, i: nat, next: nat)
    requires ctx.buffer == [line] && IsLinkOnly(ctx.copy) && ctx.mode == LinkTextFromSettings
    requires FindBlockId(line).None?
    ensures var token := "^" + IdFrom(ctx.host.rand, next, IdLength);
      ProcessSelection(ctx, i, Origin, next)
        == Some(SelectionResult([TrimEnd(line) + " " + token], [LinkOnlyCopy(ctx, token)], next + IdLength))
  {
    var token := "^" + IdFrom(ctx.host.rand, next, IdLength);
    var l := LineResult(TrimEnd(line) + " " + token, Some(LinkOnlyCopy(ctx, token)), next + IdLength);
    MintedLinkOnlyCopy(ctx, i, Origin, 0, next);
    OneLineSelection(ctx, i, Origin, next, l);
    assert ToSeq(l.copied) == [LinkOnlyCopy(ctx, token)];
  }

  /** Two selections in turn: each proposes the change of its span and copies its entries. */
  lemma TwoSelections(ctx: Context, s0: Selection, s1: Selection, r0: SelectionResult, r1: SelectionResult)
    requires InBuffer(ctx.buffer, s0) && InBuffer(ctx.buffer, s1)
    requires ProcessSelection(ctx, 0, s0, 0) == Some(r0)
    requires ProcessSelection(ctx, 1, s1, r0.next) == Some(r1)
    ensures AllInBuffer(ctx.buffer, [s0, s1])
    ensures var e0, e1 := EditSpan(ctx.buffer, s0), EditSpan(ctx.buffer, s1);
      ProcessSelections(ctx, [s0, s1], 2) == Some(State(
        [Change(e0.from, e0.to, Join(r0.updated, "\n")), Change(e1.from, e1.to, Join(r1.updated, "\n"))],
        r0.copied + r1.copied, r1.next))
  {
    var sels := [s0, s1];
    assert sels[0] == s0 && sels[1] == s1;
    SingleSelection(ctx, s0, r0);
    assert ProcessSelections(ctx, sels, 1) == ProcessSelections(ctx, [s0], 1);
    var e0 := EditSpan(ctx.buffer, s0);
    var c0 := Change(e0.from, e0.to, Join(r0.updated, "\n"));
    ProcessSelectionsExtend(ctx, sels, 1, State([c0], r0.copied, r0.next), r1);
    var e1 := EditSpan(ctx.buffer, s1);
    assert [c0] + [Change(e1.from, e1.to, Join(r1.updated, "\n"))] == [c0, Change(e1.from, e1.to, Join(r1.updated, "\n"))];
  }

  /** The selection loop of DuplicateSpanDangles: two proposals over one span, two links. */
  lemma DuplicateSelections(ctx: Context, line: string)
    requires ctx.buffer == [line] && IsLinkOnly(ctx.copy) && ctx.mode == LinkTextFromSettings
    requires FindBlockId(line).None?
    ensures var t0 := "^" + IdFrom(ctx.host.rand, 0, IdLength);
      var t1 := "^" + IdFrom(ctx.host.rand, IdLength, IdLength);
      AllInBuffer(ctx.buffer, [Origin, Origin]) &&
      ProcessSelections(ctx, [Origin, Origin], 2) == Some(State(
        [Change(Position(0, 0), Position(0, |line|), TrimEnd(line) + " " + t0),
         Change(Position(0, 0), Position(0, |line|), TrimEnd(line) + " " + t1)],
        [LinkOnlyCopy(ctx, t0), LinkOnlyCopy(ctx, t1)], IdLength + IdLength))
  {
    var t0 := "^" + IdFrom(ctx.host.rand, 0, IdLength);
    var t1 := "^" + IdFrom(ctx.host.rand, IdLength, IdLength);
    var u0, u1 := TrimEnd(line) + " " + t0, TrimEnd(line) + " " + t1;
    LinkOnlyPoint(ctx, line, 0, 0);
    LinkOnlyPoint(ctx, line, 1, IdLength);
    TwoSelections(ctx, Origin, Origin, SelectionResult([u0], [LinkOnlyCopy(ctx, t0)], IdLength),
                  SelectionResult([u1], [LinkOnlyCopy(ctx, t1)], IdLength + IdLength));
    assert EditSpan(ctx.buffer, Origin) == Range(Position(0, 0), Position(0, |line|));
    assert Join([u0], "\n") == u0 && Join([u1], "\n") == u1;
    assert [LinkOnlyCopy(ctx, t0)] + [LinkOnlyCopy(ctx, t1)] == [LinkOnlyCopy(ctx, t0), LinkOnlyCopy(ctx, t1)];
  }

  /** Of two proposals over one span, only the first is queued. */
  lemma QueueSameSpan(c0: Change, c1: Change)
    requires SameSpan(c0, c1)
    ensures QueueAll([c0, c1]) == [c0]
  {
    var one := [c0];
    assert [c0, c1][..1] == one && one[..0] == [];
    assert QueueAll(one) == Queue([], c0) == one;
    assert HasSpan(one, Range(c1.from, c1.to)) by { assert one[0] == c0; }
    assert QueueAll([c0, c1]) == Queue(one, c1);
  }

  /** Two cursors at the origin keep their places; their two copied entries join on one newline. */
  lemma TwoCursorsAtOrigin(a: string, b: string)
    ensures Join([a, b], "\n") == a + "\n" + b
    ensures Ranges([Origin, Origin]) == [Range(Position(0, 0), Position(0, 0)), Range(Position(0, 0), Position(0, 0))]
  {
    assert [a, b][1..] == [b];
  }

  /**
   * Duplicate spans: two cursors on the same token-free line in a link-only
   * type. The first selection's change, which writes the token from draws
   * 0-4, is the only one applied; the clipboard still holds a second link,
   * to the token from draws 5-9, which no change writes.
   */
  lemma DuplicateSpanDangles(ctx: Context, line: string)
    requires ctx.buffer == [line] && IsLinkOnly(ctx.copy) && ctx.mode == LinkTextFromSettings
    requires FindBlockId(line).None?
    requires ValidateRegex(ctx.engine, ctx.settings.lineFormatFrom).valid
    ensures var t0 := "^" + IdFrom(ctx.host.rand, 0, IdLength);
      var t1 := "^" + IdFrom(ctx.host.rand, IdLength, IdLength);
      AllInBuffer(ctx.buffer, [Origin, Origin]) &&
      CopyForward(ctx, [Origin, Origin]) == Applied(
        Transaction([Change(Position(0, 0), Position(0, |line|), TrimEnd(line) + " " + t0)],
                    [Range(Position(0, 0), Position(0, 0)), Range(Position(0, 0), Position(0, 0))]),
        LinkOnlyCopy(ctx, t0) + "\n" + LinkOnlyCopy(ctx, t1),
        if ctx.settings.displayCopiedNotice then Some("Copied") else None)
  {
    var sels := [Origin, Origin];
    var t0 := "^" + IdFrom(ctx.host.rand, 0, IdLength);
    var t1 := "^" + IdFrom(ctx.host.rand, IdLength, IdLength);
    var c0 := Change(Position(0, 0), Position(0, |line|), TrimEnd(line) + " " + t0);
    var c1 := Change(Position(0, 0), Position(0, |line|), TrimEnd(line) + " " + t1);
    DuplicateSelections(ctx, line);
    QueueSameSpan(c0, c1);
    TwoCursorsAtOrigin(LinkOnlyCopy(ctx, t0), LinkOnlyCopy(ctx, t1));
    CopyForwardApplied(ctx, sels, State([c0, c1], [LinkOnlyCopy(ctx, t0), LinkOnlyCopy(ctx, t1)], IdLength + IdLength));
  }

  /** Draws 0, 1, 2, ... cycling through the alphabet. */
  function Cycle(k: nat): Draw {
    k % 37
  }

  /** The first five draws of Cycle spell `abcde`. */
  lemma CycleId()
    ensures IdFrom(Cycle, 0, IdLength) == "abcde"
  {
    var id := IdFrom(Cycle, 0, IdLength);
    assert Cycle(0) == 0 && Cycle(1) == 1 && Cycle(2) == 2 && Cycle(3) == 3 && Cycle(4) == 4;
    assert id[0] == 'a' && id[1] == 'b' && id[2] == 'c' && id[3] == 'd' && id[4] == 'e';
  }

  /** The facts about the line `"Lorem ipsum"` the example needs. */
  lemma LoremLine()
    ensures var line := "Lorem ipsum";
      && FindBlockId(line).None? && TrimEnd(line) == line && TrimStart(line) == line && !IsBlank(line)
      && TrailingSpaceMatch(line) == Some(Span(11, 11))
  {
    var line := "Lorem ipsum";
    SuffixStartUnique(line, IsIdChar, 6);
    SuffixStartUnique(line, IsSpace, 11);
    assert !IsSpace(line[0]);
  }

  /** The strings the example spells out. */
  lemma LoremStrings()
    ensures "^" + IdFrom(Cycle, 0, IdLength) == "^abcde"
    ensures "#" + ("^" + IdFrom(Cycle, 0, IdLength)) == "#^abcde"
    ensures "Lorem ipsum" + " " + ("^" + IdFrom(Cycle, 0, IdLength)) == "Lorem ipsum ^abcde"
  {
    CycleId();
  }

  /** The example's copy: the line, then the default To filled in with the link. */
  lemma LoremCopy(l: string)
    ensures "Lorem ipsum" + (" (see " + l + ")") == "Lorem ipsum (see " + l + ")"
  {
    assert "Lorem ipsum" + " (see " == "Lorem ipsum (see ";
  }

  /**
   * The line `"Lorem ipsum"` with the cursor on it and the default settings:
   * the buffer line becomes `"Lorem ipsum ^abcde"` and the clipboard holds
   * `"Lorem ipsum (see " + link + ")"` with the link to `#^abcde`, given an
   * engine that compiles `\s*$` and matches it at the end of the line.
   */
  lemma LoremIpsum(engine: Engine, link: (string, string) -> string, linkTextAt: (nat, nat) -> string)
    requires engine.compile(Unescape(DefaultSettings.lineFormatFrom)).Compiled?
    requires engine.compile(DefaultSettings.lineFormatFrom).Compiled?
    requires engine.firstMatch(DefaultSettings.lineFormatFrom, "Lorem ipsum") == Some(Span(11, 11))
    ensures var ctx := Context(["Lorem ipsum"], DefaultSettings, SeparateLines, LinkTextFromSettings,
                               engine, Host(link, linkTextAt, Cycle));
      CopyForward(ctx, [Origin]) == Applied(
        Transaction([Change(Position(0, 0), Position(0, 11), "Lorem ipsum ^abcde")],
                    [Range(Position(0, 0), Position(0, 0))]),
        "Lorem ipsum (see " + link("#^abcde", "") + ")",
        Some("Copied"))
  {
    var ctx := Context(["Lorem ipsum"], DefaultSettings, SeparateLines, LinkTextFromSettings,
                       engine, Host(link, linkTextAt, Cycle));
    var l := link("#^abcde", "");
    LoremLine();
    LoremStrings();
    DefaultLineFormatTo(l);
    LoremCopy(l);
    var token := "^" + IdFrom(Cycle, 0, IdLength);
    assert ctx.host.link("#" + token, ctx.settings.linkText) == l;
    assert TrimEnd("Lorem ipsum") + FilledTo(ctx.settings, l) == "Lorem ipsum (see " + l + ")";
    PointRun(ctx, "Lorem ipsum", "Lorem ipsum ^abcde", "Lorem ipsum (see " + l + ")");
  }
}
