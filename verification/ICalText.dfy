/**
  The text layer of the calendar feed: escaping (RFC 5545 section 3.3.11) and line
  folding (section 3.1) as the printer does them, and the reader's inverse of each.
 */
module ICalText {
  import opened Octets

  const BACKSLASH: Octet := 92
  const COMMA: Octet := 44
  const SEMICOLON: Octet := 59
  const SMALL_N: Octet := 110
  const CAPITAL_N: Octet := 78

  // ----- Escaping -----

  /** icsEscape: one left-to-right pass in which CR LF is taken together before CR or LF alone. */
  function Escape(t: Text): Text {
    if t == [] then []
    else if t[0] == BACKSLASH then [BACKSLASH, BACKSLASH] + Escape(t[1..])
    else if t[0] == CR then
      [BACKSLASH, SMALL_N] + (if |t| > 1 && t[1] == LF then Escape(t[2..]) else Escape(t[1..]))
    else if t[0] == LF then [BACKSLASH, SMALL_N] + Escape(t[1..])
    else if t[0] == COMMA then [BACKSLASH, COMMA] + Escape(t[1..])
    else if t[0] == SEMICOLON then [BACKSLASH, SEMICOLON] + Escape(t[1..])
    else [t[0]] + Escape(t[1..])
  }

  /** The reader: undoes the four escapes and leaves anything else alone. */
  function Unescape(t: Text): Text {
    if |t| >= 2 && t[0] == BACKSLASH && (t[1] == SMALL_N || t[1] == CAPITAL_N) then [LF] + Unescape(t[2..])
    else if |t| >= 2 && t[0] == BACKSLASH && t[1] in {BACKSLASH, COMMA, SEMICOLON} then [t[1]] + Unescape(t[2..])
    else if t == [] then []
    else [t[0]] + Unescape(t[1..])
  }

  /** Every line break written as LF. */
  function Normalize(t: Text): Text {
    if t == [] then []
    else if t[0] == CR then [LF] + (if |t| > 1 && t[1] == LF then Normalize(t[2..]) else Normalize(t[1..]))
    else [t[0]] + Normalize(t[1..])
  }

  /** Text without CR is its own normal form. */
  lemma {:induction false} NormalizeKeeps(a: Text, b: Text)
    requires CR !in a
    ensures Normalize(a + b) == a + Normalize(b)
    decreases |a|
  {
    if a == [] {
      assert a + b == b;
    } else {
      NormalizeKeeps(a[1..], b);
      assert (a + b)[1..] == a[1..] + b;
    }
  }

  /** CR LF, and CR before anything else, counts as one LF. */
  lemma NormalizeBreaks(b: Text)
    ensures Normalize([CR, LF] + b) == [LF] + Normalize(b)
    ensures b == [] || b[0] != LF ==> Normalize([CR] + b) == [LF] + Normalize(b)
  {
    assert ([CR, LF] + b)[2..] == b && ([CR] + b)[1..] == b;
  }

  lemma UnescapePair(c: Octet, v: Octet, rest: Text)
    requires (c == SMALL_N && v == LF) || (c in {BACKSLASH, COMMA, SEMICOLON} && v == c)
    ensures Unescape([BACKSLASH, c] + rest) == [v] + Unescape(rest)
  {
  }

  lemma UnescapePlain(c: Octet, rest: Text)
    requires c != BACKSLASH
    ensures Unescape([c] + rest) == [c] + Unescape(rest)
  {
  }

  /** Reading back what was escaped gives the text, with its line breaks normalised. */
  lemma {:induction false} UnescapeEscape(t: Text)
    ensures Unescape(Escape(t)) == Normalize(t)
    decreases |t|
  {
    if t == [] {
    } else if t[0] == CR && |t| > 1 && t[1] == LF {
      UnescapeEscape(t[2..]);
      UnescapePair(SMALL_N, LF, Escape(t[2..]));
    } else {
      UnescapeEscape(t[1..]);
      var rest := Escape(t[1..]);
      if t[0] == CR || t[0] == LF {
        UnescapePair(SMALL_N, LF, rest);
      } else if t[0] in {BACKSLASH, COMMA, SEMICOLON} {
        UnescapePair(t[0], t[0], rest);
      } else {
        UnescapePlain(t[0], rest);
      }
    }
  }

  lemma {:induction false} EscapeIsClean(t: Text)
    ensures Clean(Escape(t))
    decreases |t|
  {
    if t != [] {
      EscapeIsClean(t[1..]);
      if |t| > 1 {
        EscapeIsClean(t[2..]);
      }
    }
  }

  lemma {:induction false} EscapeNormalize(t: Text)
    ensures Escape(Normalize(t)) == Escape(t)
    decreases |t|
  {
    if t != [] {
      var rest := if t[0] == CR && |t| > 1 && t[1] == LF then t[2..] else t[1..];
      EscapeNormalize(rest);
      var n := Normalize(t);
      assert n[1..] == Normalize(rest);
    }
  }

  /** Escaping loses nothing but the spelling of line breaks. */
  lemma EscapeInjective(a: Text, b: Text)
    ensures Escape(a) == Escape(b) <==> Normalize(a) == Normalize(b)
  {
    UnescapeEscape(a);
    UnescapeEscape(b);
    EscapeNormalize(a);
    EscapeNormalize(b);
  }

  lemma {:induction false} EscapeCopies(t: Text, k: nat)
    requires k <= |t| && forall i :: 0 <= i < k ==> t[i] >= 0x80
    ensures Escape(t) == t[..k] + Escape(t[k..])
    decreases k
  {
    if k == 0 {
      assert t[0..] == t;
    } else {
      EscapeCopies(t[1..], k - 1);
      assert t[1..][k - 1..] == t[k..];
      assert t[..k] == [t[0]] + t[1..][..k - 1];
    }
  }

  lemma ValidAsciiThen(a: Text, rest: Text)
    requires |a| <= 2 && (forall i :: 0 <= i < |a| ==> a[i] < 0x80) && ValidUtf8(rest)
    ensures ValidUtf8(a + rest)
  {
    if |a| == 1 {
      assert (a + rest)[1..] == rest;
    } else if |a| == 2 {
      assert (a + rest)[1..][1..] == rest;
    } else {
      assert a + rest == rest;
    }
  }

  lemma EscapeAsciiFirst(t: Text)
    requires t != [] && t[0] < 0x80 && ValidUtf8(Escape(t[1..]))
    requires |t| > 1 && t[1] == LF ==> ValidUtf8(Escape(t[2..]))
    ensures ValidUtf8(Escape(t))
  {
    var after := if t[0] == CR && |t| > 1 && t[1] == LF then t[2..] else t[1..];
    var head: Text :=
      if t[0] == CR || t[0] == LF then [BACKSLASH, SMALL_N]
      else if t[0] in {BACKSLASH, COMMA, SEMICOLON} then [BACKSLASH, t[0]] else [t[0]];
    assert Escape(t) == head + Escape(after);
    ValidAsciiThen(head, Escape(after));
  }

  lemma {:induction false} EscapeKeepsUtf8(t: Text)
    requires ValidUtf8(t)
    ensures ValidUtf8(Escape(t))
    decreases |t|
  {
    if t != [] {
      var w := RuneWidth(t);
      EscapeKeepsUtf8(t[w..]);
      if w == 1 {
        if |t| > 1 && t[1] == LF {
          assert t[1..][1..] == t[2..];
          EscapeKeepsUtf8(t[2..]);
        }
        EscapeAsciiFirst(t);
      } else {
        EscapeCopies(t, w);
        ValidPrepend(t, Escape(t[w..]));
      }
    }
  }

  // ----- Folding -----

  const FOLD_WIDTH := 73

  /** The inner loop: from c down to the nearest rune start, or to 0. */
  function BackOff(line: Text, c: nat): (cut: nat)
    requires c < |line|
    ensures cut <= c && (cut > 0 ==> RuneStart(line[cut])) && Continues(line, cut + 1, c + 1)
  {
    if c > 0 && !RuneStart(line[c]) then BackOff(line, c - 1) else c
  }

  function CutAt(line: Text): nat
    requires |line| > FOLD_WIDTH
  {
    BackOff(line, FOLD_WIDTH)
  }

  predicate RunAt(line: Text, q: nat) {
    Continues(line, q, q + FOLD_WIDTH)
  }

  /** A run of 73 continuation octets anywhere after the first octet. Valid UTF-8 has none. */
  ghost predicate LongRun(line: Text) {
    exists q :: 1 <= q && RunAt(line, q)
  }

  lemma CutMakesProgress(line: Text)
    requires |line| > FOLD_WIDTH && !LongRun(line)
    ensures 0 < CutAt(line) <= FOLD_WIDTH && !LongRun(line[CutAt(line)..])
  {
    var cut := CutAt(line);
    if cut == 0 {
      assert RunAt(line, 1);
    }
    var rest := line[cut..];
    forall q: nat | 1 <= q && q + FOLD_WIDTH <= |rest| ensures !RunAt(rest, q) {
      assert !RunAt(line, q + cut);
      var k :| q + cut <= k < q + cut + FOLD_WIDTH && RuneStart(line[k]);
      assert rest[k - cut] == line[k];
    }
  }

  /** What is left of the line after at most n turns of the outer loop. */
  function AfterCuts(line: Text, n: nat): Text {
    if n == 0 || |line| <= FOLD_WIDTH then line else AfterCuts(line[CutAt(line)..], n - 1)
  }

  lemma {:induction false} LongRunStays(line: Text, n: nat)
    requires LongRun(line)
    ensures |AfterCuts(line, n)| > FOLD_WIDTH
  {
    if n > 0 {
      var cut := CutAt(line);
      var q :| 1 <= q && RunAt(line, q);
      assert cut < q;
      var rest := line[cut..];
      assert RunAt(rest, q - cut);
      LongRunStays(rest, n - 1);
    }
  }

  lemma {:induction false} FoldFinishes(line: Text) returns (n: nat)
    requires !LongRun(line)
    ensures |AfterCuts(line, n)| <= FOLD_WIDTH
    decreases |line|
  {
    if |line| <= FOLD_WIDTH {
      n := 0;
    } else {
      CutMakesProgress(line);
      n := FoldFinishes(line[CutAt(line)..]);
      n := n + 1;
    }
  }

  /** The fold loop ends exactly on the lines without a long run of continuation octets. */
  lemma FoldTerminatesExactly(line: Text)
    ensures (exists n :: |AfterCuts(line, n)| <= FOLD_WIDTH) <==> !LongRun(line)
  {
    if LongRun(line) {
      forall n: nat ensures |AfterCuts(line, n)| > FOLD_WIDTH {
        LongRunStays(line, n);
      }
    } else {
      var n := FoldFinishes(line);
    }
  }

  /** On this invalid line the cut is 0 every time: the loop never shortens it. */
  lemma FoldCanRunForever()
    ensures var line: Text := seq(74, _ => 0x80); LongRun(line) && CutAt(line) == 0 && line[CutAt(line)..] == line
  {
    var line: Text := seq(74, _ => 0x80);
    assert RunAt(line, 1);
    assert forall c :: 0 <= c < |line| ==> !RuneStart(line[c]);
  }

  lemma ValidHasNoLongRun(line: Text)
    requires ValidUtf8(line)
    ensures !LongRun(line)
  {
    forall q: nat | q + FOLD_WIDTH <= |line| ensures !RunAt(line, q) {
      RuneStartWithinFour(line, q);
    }
  }

  function Pieces(line: Text): (ps: seq<Text>)
    requires !LongRun(line)
    ensures |ps| >= 1
    decreases |line|
  {
    if |line| <= FOLD_WIDTH then [line]
    else
      CutMakesProgress(line);
      [line[..CutAt(line)]] + Pieces(line[CutAt(line)..])
  }

  const BREAK: Text := [CR, LF, SPACE]

  function Glue(ps: seq<Text>): Text
    requires |ps| >= 1
  {
    if |ps| == 1 then ps[0] else ps[0] + BREAK + Glue(ps[1..])
  }

  function Folded(line: Text): Text
    requires !LongRun(line)
  {
    Glue(Pieces(line))
  }

  function Concat(ps: seq<Text>): Text {
    if ps == [] then [] else ps[0] + Concat(ps[1..])
  }

  lemma FoldedStep(line: Text)
    requires |line| > FOLD_WIDTH && !LongRun(line) && 0 < CutAt(line) && !LongRun(line[CutAt(line)..])
    ensures Folded(line) == line[..CutAt(line)] + BREAK + Folded(line[CutAt(line)..])
  {
  }

  /** icsFold, with its builder, its moving cut and its shrinking line. */
  method IcsFold(text: Text) returns (out: Text)
    requires !LongRun(text)
    ensures out == Folded(text)
  {
    if |text| <= FOLD_WIDTH {
      return text;
    }
    var line := text;
    out := [];
    while |line| > FOLD_WIDTH
      invariant !LongRun(line)
      invariant out + Folded(line) == Folded(text)
      decreases |line|
    {
      var cut := FOLD_WIDTH;
      while cut > 0 && !RuneStart(line[cut])
        invariant 0 <= cut <= FOLD_WIDTH
        invariant BackOff(line, cut) == CutAt(line)
      {
        cut := cut - 1;
      }
      assert cut == CutAt(line);
      CutMakesProgress(line);
      FoldedStep(line);
      ghost var before := out;
      out := out + line[..cut];
      out := out + BREAK;
      assert out + Folded(line[cut..]) == before + (line[..cut] + BREAK + Folded(line[cut..]));
      line := line[cut..];
    }
    out := out + line;
  }

  /** The pieces are the line again, none longer than 73 octets. */
  lemma {:induction false} PiecesAreTheLine(line: Text)
    requires !LongRun(line)
    ensures Concat(Pieces(line)) == line
    ensures forall p <- Pieces(line) :: |p| <= FOLD_WIDTH
    decreases |line|
  {
    var ps := Pieces(line);
    if |line| <= FOLD_WIDTH {
      assert Concat(ps) == ps[0] + Concat(ps[1..]);
    } else {
      CutMakesProgress(line);
      var cut := CutAt(line);
      PiecesAreTheLine(line[cut..]);
      assert ps[1..] == Pieces(line[cut..]);
      assert line == line[..cut] + line[cut..];
    }
  }

  /** On valid UTF-8 every piece is valid UTF-8, and every piece but the last carries at least 70 octets. */
  lemma {:induction false} PiecesAreUtf8(line: Text)
    requires ValidUtf8(line) && !LongRun(line)
    ensures forall p <- Pieces(line) :: ValidUtf8(p)
    ensures forall i :: 0 <= i < |Pieces(line)| - 1 ==> 70 <= |Pieces(line)[i]|
    decreases |line|
  {
    if |line| > FOLD_WIDTH {
      CutMakesProgress(line);
      var cut := CutAt(line);
      RuneStartWithinFour(line, 70);
      assert cut >= 70;
      CutAtRuneStart(line, cut);
      PiecesAreUtf8(line[cut..]);
      var ps, rest := Pieces(line), Pieces(line[cut..]);
      assert ps == [line[..cut]] + rest;
    }
  }

  // ----- Unfolding -----

  predicate Blank(b: Octet) {
    b == SPACE || b == TAB
  }

  /** RFC 5545 section 3.1: drop every CRLF that is followed by a space or a tab, together with that character. */
  function Unfold(t: Text): Text {
    if |t| >= 3 && t[0] == CR && t[1] == LF && Blank(t[2]) then Unfold(t[3..])
    else if t == [] then []
    else [t[0]] + Unfold(t[1..])
  }

  lemma {:induction false} UnfoldClean(a: Text, rest: Text)
    requires Clean(a)
    ensures Unfold(a + rest) == a + Unfold(rest)
  {
    if a == [] {
      assert a + rest == rest;
    } else {
      UnfoldClean(a[1..], rest);
      assert (a + rest)[1..] == a[1..] + rest;
    }
  }

  lemma UnfoldBreak(rest: Text)
    ensures Unfold(BREAK + rest) == Unfold(rest)
  {
  }

  lemma UnfoldOne(c: Octet, rest: Text)
    requires !(|rest| >= 2 && c == CR && rest[0] == LF && Blank(rest[1]))
    ensures Unfold([c] + rest) == [c] + Unfold(rest)
  {
  }

  lemma LineEndSplits(rest: Text)
    ensures CRLF + rest == [CR] + ([LF] + rest)
  {
  }

  lemma UnfoldLineEnd(rest: Text)
    requires rest != [] ==> !Blank(rest[0])
    ensures Unfold(CRLF + rest) == CRLF + Unfold(rest)
  {
    LineEndSplits(rest);
    LineEndSplits(Unfold(rest));
    UnfoldOne(CR, [LF] + rest);
    UnfoldOne(LF, rest);
  }

  lemma UnfoldPiece(head: Text, rest: Text)
    requires Clean(head)
    ensures Unfold(head + BREAK + rest) == head + Unfold(rest)
  {
    assert head + BREAK + rest == head + (BREAK + rest);
    UnfoldClean(head, BREAK + rest);
    UnfoldBreak(rest);
  }

  lemma Regroup(a: Text, b: Text, c: Text, d: Text)
    ensures (a + b + c) + d == a + b + (c + d)
  {
  }

  /** Unfolding a folded line gives the line back, whatever follows it. */
  lemma {:induction false} UnfoldFolded(line: Text, rest: Text)
    requires !LongRun(line) && Clean(line)
    ensures Unfold(Folded(line) + rest) == line + Unfold(rest)
    decreases |line|
  {
    if |line| <= FOLD_WIDTH {
      UnfoldClean(line, rest);
    } else {
      CutMakesProgress(line);
      FoldedStep(line);
      var head, more := line[..CutAt(line)], line[CutAt(line)..];
      UnfoldFolded(more, rest);
      Regroup(head, BREAK, Folded(more), rest);
      UnfoldPiece(head, Folded(more) + rest);
      Regroup(head, [], more, Unfold(rest));
      assert head + [] + more == line && head + [] == head;
    }
  }
}
