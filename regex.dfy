/**
 * The plugin's use of regular expressions: `validateRegex`, which unescapes
 * the two-character sequences `\n`, `\t`, `\r` and then compiles the pattern,
 * and the replacement of the first match of the user's From pattern.
 *
 * The JavaScript regular-expression engine itself is not modelled: an
 * `Engine` says whether a pattern compiles (with the compiler's message when
 * it does not) and where the first match of a pattern lies in a subject.
 */
module Regex {
  import opened Wrappers
  import opened Text

  /** A match `subject[start..end]`. */
  datatype Span = Span(start: nat, end: nat)

  datatype Compiled = Compiled | SyntaxError(message: string)

  /**
   * The regular-expression engine with the Unicode flag: `compile(p)` is what
   * `new RegExp(p, "u")` does, `firstMatch(p, s)` is the first match of `p`
   * in `s`. A span that does not lie within `s` is read as no match.
   */
  datatype Engine = Engine(compile: string -> Compiled, firstMatch: (string, string) -> Option<Span>)

  /** No `a` is immediately followed by `b` in `s`. */
  predicate NoPair(s: string, a: char, b: char) {
    forall i :: 0 <= i < |s| - 1 ==> !(s[i] == a && s[i + 1] == b)
  }

  /** `s.replace(/\\c/g, rep)`: every backslash-`c` pair, left to right, becomes `rep`. */
  function ReplacePair(s: string, c: char, rep: char): (r: string)
    ensures |r| <= |s|
    ensures |r| == 0 <==> |s| == 0
    ensures |r| > 0 ==> r[0] == if |s| >= 2 && s[0] == '\\' && s[1] == c then rep else s[0]
  {
    if |s| < 2 then s
    else if s[0] == '\\' && s[1] == c then [rep] + ReplacePair(s[2..], c, rep)
    else [s[0]] + ReplacePair(s[1..], c, rep)
  }

  /** After the replacement no backslash-`c` pair is left. */
  lemma {:induction false} ReplacePairRemoves(s: string, c: char, rep: char)
    requires rep != '\\' && rep != c
    ensures NoPair(ReplacePair(s, c, rep), '\\', c)
  {
    if |s| >= 2 {
      if s[0] == '\\' && s[1] == c {
        ReplacePairRemoves(s[2..], c, rep);
      } else {
        ReplacePairRemoves(s[1..], c, rep);
      }
    }
  }

  /** The replacement creates no pair `a b` that was not there, unless `rep` is one of them. */
  lemma {:induction false} ReplacePairKeeps(s: string, c: char, rep: char, a: char, b: char)
    requires rep != a && rep != b
    requires NoPair(s, a, b)
    ensures NoPair(ReplacePair(s, c, rep), a, b)
  {
    if |s| >= 2 {
      if s[0] == '\\' && s[1] == c {
        ReplacePairKeeps(s[2..], c, rep, a, b);
      } else {
        assert NoPair(s[1..], a, b) by {
          forall i | 0 <= i < |s[1..]| - 1 ensures !(s[1..][i] == a && s[1..][i + 1] == b) {
            assert s[1..][i] == s[i + 1] && s[1..][i + 1] == s[i + 2];
          }
        }
        ReplacePairKeeps(s[1..], c, rep, a, b);
      }
    }
  }

  /** A text without backslash-`c` pairs is left as it is. */
  lemma {:induction false} ReplacePairIdentity(s: string, c: char, rep: char)
    requires NoPair(s, '\\', c)
    ensures ReplacePair(s, c, rep) == s
  {
    if |s| >= 2 {
      assert NoPair(s[1..], '\\', c) by {
        forall i | 0 <= i < |s[1..]| - 1 ensures !(s[1..][i] == '\\' && s[1..][i + 1] == c) {
          assert s[1..][i] == s[i + 1] && s[1..][i + 1] == s[i + 2];
        }
      }
      ReplacePairIdentity(s[1..], c, rep);
      assert [s[0]] + s[1..] == s;
    }
  }

  /**
   * The three global replaces of `validateRegex`, in the source's order:
   * each pair shrinks to one character, so the pattern never grows.
   */
  function Unescape(pattern: string): (r: string)
    ensures |r| <= |pattern|
    ensures |r| == 0 <==> |pattern| == 0
  {
    ReplacePair(ReplacePair(ReplacePair(pattern, 'n', '\n'), 't', '\t'), 'r', '\r')
  }

  /** No literal `\n`, `\t` or `\r` survives the unescaping. */
  lemma UnescapeRemovesAll(pattern: string)
    ensures var u := Unescape(pattern);
      NoPair(u, '\\', 'n') && NoPair(u, '\\', 't') && NoPair(u, '\\', 'r')
  {
    var u1 := ReplacePair(pattern, 'n', '\n');
    var u2 := ReplacePair(u1, 't', '\t');
    ReplacePairRemoves(pattern, 'n', '\n');
    ReplacePairKeeps(u1, 't', '\t', '\\', 'n');
    ReplacePairRemoves(u1, 't', '\t');
    ReplacePairKeeps(u2, 'r', '\r', '\\', 'n');
    ReplacePairKeeps(u2, 'r', '\r', '\\', 't');
    ReplacePairRemoves(u2, 'r', '\r');
  }

  /** Unescaping an unescaped pattern changes nothing more. */
  lemma UnescapeIdempotent(pattern: string)
    ensures Unescape(Unescape(pattern)) == Unescape(pattern)
  {
    var u := Unescape(pattern);
    UnescapeRemovesAll(pattern);
    ReplacePairIdentity(u, 'n', '\n');
    ReplacePairIdentity(u, 't', '\t');
    ReplacePairIdentity(u, 'r', '\r');
  }

  /** The `{ valid, string }` record `validateRegex` returns. */
  datatype Validation = Validation(valid: bool, text: string)

  /**
   * `validateRegex`: the unescaped pattern when it compiles, otherwise the
   * quoted pattern and the compiler's message.
   */
  function ValidateRegex(engine: Engine, pattern: string): (v: Validation)
    ensures v.valid <==> engine.compile(Unescape(pattern)).Compiled?
    ensures v.valid ==> v.text == Unescape(pattern)
    ensures !v.valid ==>
      v.text == "\"" + Unescape(pattern) + "\": \"" + engine.compile(Unescape(pattern)).message + "\""
  {
    var normalised := Unescape(pattern);
    match engine.compile(normalised)
    case Compiled => Validation(true, normalised)
    case SyntaxError(e) => Validation(false, "\"" + normalised + "\": \"" + e + "\"")
  }

  /** `s.replace(regex, rep)` given the regex's first match in `s`; `rep` is taken literally. */
  function ReplaceMatch(s: string, m: Option<Span>, rep: string): (r: string)
    ensures m.None? ==> r == s
    ensures m.Some? && m.value.start <= m.value.end <= |s| ==>
      |r| == |s| - (m.value.end - m.value.start) + |rep| &&
      r[..m.value.start] == s[..m.value.start] && r[|r| - (|s| - m.value.end)..] == s[m.value.end..]
      && r[m.value.start..|r| - (|s| - m.value.end)] == rep
  {
    match m
    case Some(sp) =>
      if sp.start <= sp.end <= |s| then s[..sp.start] + rep + s[sp.end..] else s
    case None => s
  }

  /**
   * The first match of `\s*$`, and equally of the lazy `\s*?$` of the token
   * append (`\s` read as `IsSpace`): both first match at the start of the
   * trailing whitespace run and run to the end.
   */
  function TrailingSpaceMatch(s: string): (m: Option<Span>)
    ensures m.Some? && m.value.start <= m.value.end == |s| && s[..m.value.start] == TrimEnd(s)
  {
    Some(Span(SuffixStart(s, IsSpace), |s|))
  }

  /** Replacing the trailing whitespace run appends after the trimmed text. */
  lemma ReplaceTrailingSpace(s: string, rep: string)
    ensures ReplaceMatch(s, TrailingSpaceMatch(s), rep) == TrimEnd(s) + rep
  {
  }
}
