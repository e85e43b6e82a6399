/** Octet strings and the parts of UTF-8 that line folding depends on (RFC 3629). */
module Octets {
  type Octet = b: int | 0 <= b < 256
  type Text = seq<Octet>

  const TAB: Octet := 9
  const LF: Octet := 10
  const CR: Octet := 13
  const SPACE: Octet := 32
  const COLON: Octet := 58
  const CRLF: Text := [CR, LF]

  function Ascii(s: string): (t: Text)
    ensures |t| == |s| && forall i :: 0 <= i < |t| ==> t[i] < 0x80
  {
    seq(|s|, i requires 0 <= i < |s| => if s[i] < 128 as char then s[i] as int else 63)
  }

  /** Free of the two octets that end lines. */
  predicate Clean(t: Text) {
    forall i :: 0 <= i < |t| ==> t[i] != CR && t[i] != LF
  }

  /** utf8.RuneStart: not of the form 10xxxxxx. */
  predicate RuneStart(b: Octet) {
    !(0x80 <= b < 0xC0)
  }

  predicate Continues(t: Text, from: nat, to: nat) {
    to <= |t| && forall k :: from <= k < to ==> !RuneStart(t[k])
  }

  /** The length of the well-formed rune at the front of t, or 0 when there is none. */
  function RuneWidth(t: Text): (w: nat)
    ensures w <= |t|
  {
    if |t| >= 1 && t[0] < 0x80 then 1
    else if |t| >= 2 && 0xC2 <= t[0] <= 0xDF && Continues(t, 1, 2) then 2
    else if |t| >= 3 && 0xE0 <= t[0] <= 0xEF && Continues(t, 1, 3)
            && (t[0] == 0xE0 ==> t[1] >= 0xA0) && (t[0] == 0xED ==> t[1] <= 0x9F) then 3
    else if |t| >= 4 && 0xF0 <= t[0] <= 0xF4 && Continues(t, 1, 4)
            && (t[0] == 0xF0 ==> t[1] >= 0x90) && (t[0] == 0xF4 ==> t[1] <= 0x8F) then 4
    else 0
  }

  predicate ValidUtf8(t: Text)
    decreases |t|
  {
    t == [] || (RuneWidth(t) > 0 && ValidUtf8(t[RuneWidth(t)..]))
  }

  lemma ValidStartsWithRune(t: Text)
    requires ValidUtf8(t) && t != []
    ensures RuneStart(t[0])
  {
  }

  lemma RuneWidthOfPrefix(t: Text, u: Text)
    requires RuneWidth(t) > 0 && RuneWidth(t) <= |u| && t[..RuneWidth(t)] == u[..RuneWidth(t)]
    ensures RuneWidth(u) == RuneWidth(t)
  {
  }

  lemma ValidPrepend(t: Text, rest: Text)
    requires RuneWidth(t) > 0 && ValidUtf8(rest)
    ensures ValidUtf8(t[..RuneWidth(t)] + rest)
  {
  }

  /** Valid text may be cut before any rune start, and only there. */
  lemma {:induction false} CutAtRuneStart(t: Text, k: nat)
    requires ValidUtf8(t) && k <= |t| && (k < |t| ==> RuneStart(t[k]))
    ensures ValidUtf8(t[..k]) && ValidUtf8(t[k..])
    decreases |t|
  {
    if k == 0 {
      assert t[0..] == t;
    } else {
      var w := RuneWidth(t);
      assert k >= w;
      var rest := t[w..];
      assert k < |t| ==> rest[k - w] == t[k];
      CutAtRuneStart(rest, k - w);
      assert t[..k] == t[..w] + rest[..k - w];
      ValidPrepend(t, rest[..k - w]);
      assert t[k..] == rest[k - w..];
    }
  }

  /** A rune has at most four octets, so any four in a row contain a rune start. */
  lemma {:induction false} RuneStartWithinFour(t: Text, i: nat)
    requires ValidUtf8(t) && i + 4 <= |t|
    ensures !Continues(t, i, i + 4)
    decreases |t|
  {
    var w := RuneWidth(t);
    if i == 0 {
      assert RuneStart(t[0]);
    } else if i < w {
      var rest := t[w..];
      assert w < i + 4 && rest[0] == t[w];
      ValidStartsWithRune(rest);
    } else {
      RuneStartWithinFour(t[w..], i - w);
      var k :| i - w <= k < i - w + 4 && RuneStart(t[w..][k]);
      assert t[w..][k] == t[k + w];
    }
  }

  lemma SplitFirstRune(t: Text) returns (rune: Text, rest: Text)
    requires ValidUtf8(t) && t != []
    ensures t == rune + rest && rune != [] && RuneWidth(rune) == |rune| && ValidUtf8(rest)
  {
    var w := RuneWidth(t);
    rune, rest := t[..w], t[w..];
    RuneWidthOfPrefix(t, rune);
  }

  lemma RuneThenValid(rune: Text, rest: Text)
    requires rune != [] && RuneWidth(rune) == |rune| && ValidUtf8(rest)
    ensures ValidUtf8(rune + rest)
  {
  }

  lemma Associate(a: Text, b: Text, c: Text)
    ensures (a + b) + c == a + (b + c)
  {
  }

  lemma {:induction false} ValidConcat(a: Text, b: Text)
    requires ValidUtf8(a) && ValidUtf8(b)
    ensures ValidUtf8(a + b)
    decreases |a|
  {
    if a == [] {
      assert a + b == b;
    } else {
      var rune, rest := SplitFirstRune(a);
      ValidConcat(rest, b);
      RuneThenValid(rune, rest + b);
      Associate(rune, rest, b);
    }
  }

  lemma {:induction false} AsciiIsValid(t: Text)
    requires forall i :: 0 <= i < |t| ==> t[i] < 0x80
    ensures ValidUtf8(t)
  {
    if t != [] {
      AsciiIsValid(t[1..]);
    }
  }
}
