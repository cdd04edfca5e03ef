/**
 * Block identifiers: the trailing `^id` token that gives a line an address.
 * `genID` mints the five random characters, `blockIDRegex` detects an
 * existing token, and a new token is appended after the line's text.
 */
module BlockId {
  import opened Wrappers
  import opened Text
  import opened Regex

  /** The default length `genID` is called with. */
  const IdLength: nat := 5

  /** The characters `genID` draws from. */
  const Alphabet: string := "abcdefghijklmnopqrstuvwxyz-0123456789"

  /** One draw `Math.floor(Math.random() * 37)`: an index into Alphabet. */
  type Draw = i: nat | i < 37

  /** The characters of Alphabet: `[a-z0-9-]`. */
  predicate InAlphabet(c: char) {
    'a' <= c <= 'z' || c == '-' || '0' <= c <= '9'
  }

  /** `[a-zA-Z0-9-]`, the characters `blockIDRegex` accepts after the caret. */
  predicate IsIdChar(c: char) {
    'a' <= c <= 'z' || 'A' <= c <= 'Z' || '0' <= c <= '9' || c == '-'
  }

  lemma AlphabetChars(i: nat)
    requires i < |Alphabet|
    ensures InAlphabet(Alphabet[i]) && IsIdChar(Alphabet[i])
  {
    if i < 26 {
      assert Alphabet[..26] == "abcdefghijklmnopqrstuvwxyz";
      assert Alphabet[i] == Alphabet[..26][i];
    } else if i == 26 {
    } else {
      assert Alphabet[27..] == "0123456789";
      assert Alphabet[i] == Alphabet[27..][i - 27];
    }
  }

  /** The identifier the draws `rand(start)`, `rand(start + 1)`, ... spell out. */
  function IdFrom(rand: nat -> Draw, start: nat, length: nat): string {
    seq(length, k requires 0 <= k < length => Alphabet[rand(start + k)])
  }

  /** `genID(length)` with the draws of `Math.random` taken from `rand`, starting at `start`. */
  method GenID(rand: nat -> Draw, start: nat, length: nat) returns (id: string)
    ensures |id| == length
    ensures forall k :: 0 <= k < length ==> id[k] == Alphabet[rand(start + k)]
    ensures id == IdFrom(rand, start, length)
  {
    id := "";
    while |id| < length
      invariant |id| <= length
      invariant forall k :: 0 <= k < |id| ==> id[k] == Alphabet[rand(start + k)]
    {
      id := id + [Alphabet[rand(start + |id|)]];
    }
    id := id[..length];
  }

  /** Every identifier minted from the draws has the shape `[a-z0-9-]{length}`. */
  lemma IdFromShape(rand: nat -> Draw, start: nat, length: nat)
    ensures var id := IdFrom(rand, start, length);
      |id| == length && forall k :: 0 <= k < length ==> InAlphabet(id[k]) && IsIdChar(id[k])
  {
    forall k | 0 <= k < length
      ensures InAlphabet(IdFrom(rand, start, length)[k]) && IsIdChar(IdFrom(rand, start, length)[k])
    {
      AlphabetChars(rand(start + k));
    }
  }

  /**
   * `blockIDRegex` = `/(?<=[\s^])\^[a-zA-Z0-9-]+$/u` matches at `j`: a caret
   * at `j` preceded by whitespace or a caret, followed by one or more
   * identifier characters up to the end of the line.
   */
  predicate IsBlockIdAt(s: string, j: nat) {
    1 <= j && j + 1 < |s| && s[j] == '^' && (IsSpace(s[j - 1]) || s[j - 1] == '^')
    && forall k :: j < k < |s| ==> IsIdChar(s[k])
  }

  /** `line.match(blockIDRegex)`: the index of the token's caret, if there is one. */
  function FindBlockId(s: string): (r: Option<nat>)
    ensures r.Some? ==> IsBlockIdAt(s, r.value)
  {
    var k := SuffixStart(s, IsIdChar);
    if 2 <= k < |s| && s[k - 1] == '^' && (IsSpace(s[k - 2]) || s[k - 2] == '^') then Some(k - 1)
    else None
  }

  /** Every place the regex could match is the one FindBlockId reports. */
  lemma FindBlockIdComplete(s: string, j: nat)
    requires IsBlockIdAt(s, j)
    ensures FindBlockId(s) == Some(j)
  {
    SuffixStartUnique(s, IsIdChar, j + 1);
  }

  /** `s.replace(blockIDRegex, "")`: the token goes, the whitespace before it stays. */
  function RemoveBlockId(s: string): (r: string)
    ensures FindBlockId(s).None? ==> r == s
    ensures FindBlockId(s).Some? ==>
      |r| == FindBlockId(s).value && s == r + s[|r|..] && s[|r|] == '^'
      && (IsSpace(r[|r| - 1]) || r[|r| - 1] == '^')
  {
    match FindBlockId(s)
    case None => s
    case Some(j) => s[..j]
  }

  /** `line.replace(/\s*?$/, " " + id)`: the trailing whitespace becomes one space and the token. */
  function AppendId(line: string, id: string): (r: string)
    ensures r == TrimEnd(line) + " " + id
  {
    ReplaceTrailingSpace(line, " " + id);
    ReplaceMatch(line, TrailingSpaceMatch(line), " " + id)
  }

  /** How a line's token was resolved: reused (`minted` false) or newly appended. */
  datatype Anchor = Anchor(token: string, line: string, minted: bool)

  /**
   * main.ts lines 130-141 and 155-161: reuse the line's token, or mint `"^" + genID()`
   * from the draws at `next` and append it.
   */
  function ResolveAnchor(line: string, rand: nat -> Draw, next: nat): (a: Anchor)
    ensures a.minted <==> FindBlockId(line).None?
    ensures !a.minted ==> a.line == line && a.token == line[FindBlockId(line).value..]
    ensures a.minted ==> a.token == "^" + IdFrom(rand, next, IdLength) && a.line == TrimEnd(line) + " " + a.token
  {
    match FindBlockId(line)
    case None =>
      var id := "^" + IdFrom(rand, next, IdLength);
      Anchor(id, AppendId(line, id), true)
    case Some(j) => Anchor(line[j..], line, false)
  }

  /** A token a line can end in: a caret and one or more identifier characters. */
  predicate IsToken(t: string) {
    |t| >= 2 && t[0] == '^' && forall k :: 1 <= k < |t| ==> IsIdChar(t[k])
  }

  /** The token a resolution yields is always one `blockIDRegex` accepts. */
  lemma ResolvedTokenShape(line: string, rand: nat -> Draw, next: nat)
    ensures IsToken(ResolveAnchor(line, rand, next).token)
    ensures var a := ResolveAnchor(line, rand, next);
      a.minted ==> |a.token| == IdLength + 1 && forall k :: 1 <= k < |a.token| ==> InAlphabet(a.token[k])
  {
    var a := ResolveAnchor(line, rand, next);
    if a.minted {
      IdFromShape(rand, next, IdLength);
    } else {
      var j := FindBlockId(line).value;
      assert forall k :: 1 <= k < |a.token| ==> a.token[k] == line[j + k];
    }
  }

  /** An appended token is detected again, at the place it was appended. */
  lemma AppendedIdDetected(line: string, token: string)
    requires IsToken(token)
    ensures var r := AppendId(line, token);
      FindBlockId(r) == Some(|TrimEnd(line)| + 1) && r[|TrimEnd(line)| + 1..] == token
  {
    var r := AppendId(line, token);
    var j := |TrimEnd(line)| + 1;
    assert r[j..] == token;
    assert forall k :: j < k < |r| ==> r[k] == token[k - j];
    assert IsBlockIdAt(r, j);
    FindBlockIdComplete(r, j);
  }

  /**
   * Idempotence: a line resolved once resolves again to the same token and
   * is left as it is, whatever the draws of the second run.
   */
  lemma ResolveIdempotent(line: string, rand: nat -> Draw, next: nat, rand': nat -> Draw, next': nat)
    ensures var a := ResolveAnchor(line, rand, next);
      ResolveAnchor(a.line, rand', next') == Anchor(a.token, a.line, false)
  {
    var a := ResolveAnchor(line, rand, next);
    ResolvedTokenShape(line, rand, next);
    if a.minted {
      AppendedIdDetected(line, a.token);
    }
  }
}
