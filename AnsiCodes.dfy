/**
 * Removal of ECMA-48 escape sequences from captured shell output.
 *
 * The pattern removes two forms, each introduced by ESC (0x1B):
 *   - the two-character `ESC Fe` form of section 5.3 of ECMA-48, where Fe is a
 *     character in 0x40-0x5F other than '[';
 *   - the control sequence of section 5.4, `ESC [ P..P I..I F`: parameter characters
 *     0x30-0x3F, then intermediate characters 0x20-0x2F, then one final character 0x40-0x7E.
 * The three ranges do not overlap, so the regular expression never backtracks into a
 * different match: it behaves like the deterministic left-to-right scanner below.
 */
module AnsiCodes {
  import opened Strings

  const ESC: char := '\U{1B}'

  predicate IsFeChar(c: char) {
    ('@' <= c <= 'Z') || ('\\' <= c <= '_')
  }

  predicate IsParameterChar(c: char) {
    '0' <= c <= '?'
  }

  predicate IsIntermediateChar(c: char) {
    ' ' <= c <= '/'
  }

  predicate IsFinalChar(c: char) {
    '@' <= c <= '~'
  }

  /** Every character is a parameter or an intermediate, and no intermediate precedes a parameter. */
  predicate IsParametersThenIntermediates(s: string) {
    && (forall i :: 0 <= i < |s| ==> IsParameterChar(s[i]) || IsIntermediateChar(s[i]))
    && (forall i, j :: 0 <= i < j < |s| && IsIntermediateChar(s[i]) ==> !IsParameterChar(s[j]))
  }

  /** The escape sequences the pattern matches, described without reference to any scanner. */
  predicate IsEscapeSequence(run: string) {
    && 2 <= |run|
    && run[0] == ESC
    && (|| (|run| == 2 && IsFeChar(run[1]))
        || (3 <= |run| && run[1] == '[' && IsFinalChar(run[|run| - 1]) && IsParametersThenIntermediates(run[2..|run| - 1])))
  }

  /** The first index at or after i whose character is not in the class. */
  function SkipClass(s: string, i: nat, inClass: char -> bool): (j: nat)
    requires i <= |s|
    ensures i <= j <= |s|
    ensures forall k :: i <= k < j ==> inClass(s[k])
    ensures j < |s| ==> !inClass(s[j])
    decreases |s| - i
  {
    if i == |s| || !inClass(s[i]) then i else SkipClass(s, i + 1, inClass)
  }

  /** Length of the escape sequence the pattern matches at the start of s, or 0 if none does. */
  function MatchLength(s: string): (n: nat)
    ensures n == 0 || 2 <= n <= |s|
  {
    if |s| < 2 || s[0] != ESC then 0
    else if IsFeChar(s[1]) then 2
    else if s[1] != '[' then 0
    else
      var p := SkipClass(s, 2, IsParameterChar);
      var q := SkipClass(s, p, IsIntermediateChar);
      if q < |s| && IsFinalChar(s[q]) then q + 1 else 0
  }

  /** What the scanner matches at the start of s is an escape sequence. */
  lemma MatchLengthSound(s: string)
    requires MatchLength(s) > 0
    ensures IsEscapeSequence(s[..MatchLength(s)])
  {
    var n := MatchLength(s);
    var run := s[..n];
    if !IsFeChar(s[1]) {
      var p := SkipClass(s, 2, IsParameterChar);
      var q := SkipClass(s, p, IsIntermediateChar);
      assert n == q + 1;
      var mid := run[2..n - 1];
      assert forall i :: 0 <= i < |mid| ==> mid[i] == s[i + 2];
      forall i, j | 0 <= i < j < |mid| && IsIntermediateChar(mid[i])
        ensures !IsParameterChar(mid[j])
      {
        assert 2 + i >= p;
      }
    }
  }

  /**
   * Escape sequences are prefix-free and the scanner finds them: whenever some prefix of s
   * is an escape sequence, the scanner matches exactly that prefix.
   */
  lemma MatchLengthComplete(s: string, k: nat)
    requires k <= |s| && IsEscapeSequence(s[..k])
    ensures MatchLength(s) == k
  {
    var run := s[..k];
    assert run[0] == s[0] && run[1] == s[1];
    if !IsFeChar(s[1]) {
      var mid := run[2..k - 1];
      assert forall i :: 0 <= i < |mid| ==> mid[i] == s[i + 2];
      assert IsFinalChar(s[k - 1]) && !IsParameterChar(s[k - 1]) && !IsIntermediateChar(s[k - 1]);
      var p := SkipClass(s, 2, IsParameterChar);
      assert p <= k - 1;
      // From p on, the middle part holds only intermediates.
      forall m | p <= m < k - 1
        ensures IsIntermediateChar(s[m])
      {
        assert IsIntermediateChar(mid[p - 2]);
        assert !IsParameterChar(mid[m - 2]);
      }
      var q := SkipClass(s, p, IsIntermediateChar);
      assert q == k - 1;
    }
  }

  /** One step of the scan: a character that is kept, or an escape sequence that is removed. */
  datatype Piece = Kept(c: char) | Removed(run: string)

  function PieceText(p: Piece): string {
    match p
    case Kept(c) => [c]
    case Removed(run) => run
  }

  /** The input text the pieces were cut from. */
  function Concat(ps: seq<Piece>): string {
    if ps == [] then [] else PieceText(ps[0]) + Concat(ps[1..])
  }

  /** The text that remains once every removed run is dropped. */
  function KeptText(ps: seq<Piece>): string {
    if ps == [] then []
    else match ps[0]
      case Kept(c) => [c] + KeptText(ps[1..])
      case Removed(_) => KeptText(ps[1..])
  }

  /** Whether every removed piece is a whole escape sequence. */
  predicate RemovesOnlyEscapes(ps: seq<Piece>) {
    forall i :: 0 <= i < |ps| && ps[i].Removed? ==> IsEscapeSequence(ps[i].run)
  }

  /** Whether no escape sequence starts at a kept character: the scan removes every match it meets. */
  predicate KeepsOnlyNonMatches(ps: seq<Piece>) {
    forall i :: 0 <= i < |ps| && ps[i].Kept? ==> MatchLength(Concat(ps[i..])) == 0
  }

  /** Putting a piece cut from the front of s before the pieces of the rest gives the pieces of s. */
  lemma {:induction false} PrependPiece(p: Piece, rest: seq<Piece>, s: string, n: nat)
    requires n <= |s| && PieceText(p) == s[..n] && Concat(rest) == s[n..]
    requires p.Removed? ==> IsEscapeSequence(p.run)
    requires p.Kept? ==> MatchLength(s) == 0
    requires RemovesOnlyEscapes(rest) && KeepsOnlyNonMatches(rest)
    ensures Concat([p] + rest) == s
    ensures RemovesOnlyEscapes([p] + rest) && KeepsOnlyNonMatches([p] + rest)
  {
    var ps := [p] + rest;
    assert ps[1..] == rest;
    assert s == s[..n] + s[n..];
    forall i | 1 <= i < |ps|
      ensures ps[i] == rest[i - 1] && ps[i..] == rest[i - 1..]
    {
    }
  }

  /**
   * The left-to-right scan `re.sub` performs: at each position, an escape sequence that
   * starts there is removed whole, otherwise one character is kept and the scan moves on.
   */
  function Scan(s: string): (ps: seq<Piece>)
    ensures Concat(ps) == s
    ensures RemovesOnlyEscapes(ps) && KeepsOnlyNonMatches(ps)
    decreases |s|
  {
    if s == [] then []
    else
      var n := MatchLength(s);
      if n > 0 then
        var rest := Scan(s[n..]);
        MatchLengthSound(s);
        PrependPiece(Removed(s[..n]), rest, s, n);
        [Removed(s[..n])] + rest
      else
        var rest := Scan(s[1..]);
        PrependPiece(Kept(s[0]), rest, s, 1);
        [Kept(s[0])] + rest
  }

  /** `remove_ansi_codes`: an empty text comes back as it is; otherwise every match is deleted. */
  function RemoveAnsiCodes(text: string): (r: string)
    ensures text == [] ==> r == text
    ensures IsSubsequence(r, text) && |r| <= |text|
    ensures (forall i :: 0 <= i < |text| ==> text[i] != ESC) ==> r == text
  {
    if text == [] then text
    else
      var ps := Scan(text);
      KeptTextIsSubsequence(ps);
      SubsequenceLength(KeptText(ps), text);
      if forall i :: 0 <= i < |text| ==> text[i] != ESC then
        ScanWithoutEscape(text);
        KeptText(ps)
      else
        KeptText(ps)
  }

  lemma {:induction false} KeptTextIsSubsequence(ps: seq<Piece>)
    ensures IsSubsequence(KeptText(ps), Concat(ps))
  {
    if ps != [] {
      KeptTextIsSubsequence(ps[1..]);
      var t := Concat(ps[1..]);
      match ps[0]
      case Kept(c) =>
        assert Concat(ps) == [c] + t;
        assert ([c] + KeptText(ps[1..]))[1..] == KeptText(ps[1..]);
        assert ([c] + t)[1..] == t;
      case Removed(run) =>
        SubsequenceOfLonger(KeptText(ps[1..]), run, t);
    }
  }

  /** Without an ESC character nothing matches, so every character is kept. */
  lemma {:induction false} ScanWithoutEscape(s: string)
    requires forall i :: 0 <= i < |s| ==> s[i] != ESC
    ensures KeptText(Scan(s)) == s
    decreases |s|
  {
    if s != [] {
      assert MatchLength(s) == 0;
      ScanWithoutEscape(s[1..]);
      var ps := Scan(s);
      assert ps == [Kept(s[0])] + Scan(s[1..]);
      assert ps[1..] == Scan(s[1..]);
      assert KeptText(ps) == [s[0]] + KeptText(Scan(s[1..]));
      assert s == [s[0]] + s[1..];
    }
  }

  /**
   * Every run that is removed begins with ESC and is one whole escape sequence, and
   * what remains is exactly the text outside those runs, in order.
   */
  lemma RemovedRunsAreEscapeSequences(text: string)
    ensures var ps := Scan(text);
      && Concat(ps) == text
      && RemoveAnsiCodes(text) == KeptText(ps)
      && forall i :: 0 <= i < |ps| && ps[i].Removed? ==> |ps[i].run| >= 2 && ps[i].run[0] == ESC
  {
  }

  /** No escape sequence starts at a character the scan keeps: the pattern missed no match. */
  lemma KeptCharactersStartNoEscape(s: string, i: nat)
    requires i < |Scan(s)| && Scan(s)[i].Kept?
    ensures var t := Concat(Scan(s)[i..]);
      forall k :: 0 <= k <= |t| ==> !IsEscapeSequence(t[..k])
  {
    var ps := Scan(s);
    var t := Concat(ps[i..]);
    assert MatchLength(t) == 0;
    forall k | 0 <= k <= |t|
      ensures !IsEscapeSequence(t[..k])
    {
      if IsEscapeSequence(t[..k]) {
        MatchLengthComplete(t, k);
        assert false;
      }
    }
  }

  /** An escape sequence at the front of the text is deleted whole, and the rest is cleaned on its own. */
  lemma {:induction false} LeadingEscapeIsRemoved(e: string, rest: string)
    requires IsEscapeSequence(e)
    ensures RemoveAnsiCodes(e + rest) == RemoveAnsiCodes(rest)
  {
    var s := e + rest;
    assert s[..|e|] == e && s[|e|..] == rest;
    MatchLengthComplete(s, |e|);
    assert Scan(s) == [Removed(e)] + Scan(rest);
    assert (Scan(s))[1..] == Scan(rest);
    assert RemoveAnsiCodes(s) == KeptText(Scan(s)) == KeptText(Scan(rest));
    assert RemoveAnsiCodes(rest) == KeptText(Scan(rest));
  }

  /** A character at which no escape sequence starts is kept, and the scan goes on from the next one. */
  lemma {:induction false} LeadingNonEscapeIsKept(s: string)
    requires s != []
    requires forall k :: 0 <= k <= |s| ==> !IsEscapeSequence(s[..k])
    ensures RemoveAnsiCodes(s) == [s[0]] + RemoveAnsiCodes(s[1..])
  {
    if MatchLength(s) > 0 {
      MatchLengthSound(s);
      assert false;
    }
    assert Scan(s) == [Kept(s[0])] + Scan(s[1..]);
    assert (Scan(s))[1..] == Scan(s[1..]);
  }

  /**
   * Removing is not idempotent: deleting `ESC @` out of `ESC ESC @ @` joins the first ESC
   * and the last `@` into a new escape sequence.
   */
  lemma NotIdempotent()
    ensures var text := [ESC, ESC, '@', '@'];
      RemoveAnsiCodes(RemoveAnsiCodes(text)) != RemoveAnsiCodes(text)
  {
    var text := [ESC, ESC, '@', '@'];
    var tail := text[1..];
    assert tail == [ESC, '@', '@'];
    assert MatchLength(tail) == 2;
    assert tail[..2] == [ESC, '@'] && tail[2..] == ['@'];
    assert Scan(['@']) == [Kept('@')];
    assert Scan(tail) == [Removed([ESC, '@']), Kept('@')];
    var pieces := [Removed([ESC, '@']), Kept('@')];
    assert pieces[1..] == [Kept('@')] && [Kept('@')][1..] == [];
    assert KeptText(pieces) == ['@'];
    assert MatchLength(text) == 0;
    assert Scan(text) == [Kept(ESC), Removed([ESC, '@']), Kept('@')];
    assert KeptText(Scan(text)) == [ESC, '@'];
    var once := [ESC, '@'];
    assert MatchLength(once) == 2 && once[..2] == once && once[2..] == [];
    assert Scan(once) == [Removed(once)];
    assert KeptText(Scan(once)) == [];
  }
}
