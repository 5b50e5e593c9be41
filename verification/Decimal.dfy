/** Decimal numerals and separated lists as text, read and written by the command line. */
module Decimal {
  predicate IsDigit(c: char) {
    '0' <= c <= '9'
  }

  predicate AllDigits(s: string) {
    forall i :: 0 <= i < |s| ==> IsDigit(s[i])
  }

  function DigitValue(c: char): (n: nat)
    requires IsDigit(c)
    ensures n < 10
  {
    c as int - '0' as int
  }

  function DigitChar(n: nat): (c: char)
    requires n < 10
    ensures IsDigit(c) && DigitValue(c) == n
  {
    '0' + n as char
  }

  function Number(s: string): nat
    requires AllDigits(s)
  {
    if s == [] then 0 else Number(s[..|s| - 1]) * 10 + DigitValue(s[|s| - 1])
  }

  /** The shortest numeral of `n`. */
  function Show(n: nat): (s: string)
    ensures AllDigits(s) && s != []
  {
    if n < 10 then [DigitChar(n)] else Show(n / 10) + [DigitChar(n % 10)]
  }

  function Power(n: nat): nat {
    if n == 0 then 1 else 10 * Power(n - 1)
  }

  /** The last `width` digits of `n`, with leading zeros. */
  function Padded(n: nat, width: nat): (s: string)
    ensures AllDigits(s) && |s| == width
  {
    if width == 0 then "" else Padded(n / 10, width - 1) + [DigitChar(n % 10)]
  }

  lemma {:induction false} NumberOfShow(n: nat)
    ensures Number(Show(n)) == n
  {
    if n >= 10 {
      NumberOfShow(n / 10);
      assert Show(n)[..|Show(n)| - 1] == Show(n / 10);
    }
  }

  lemma {:induction false} NumberOfPadded(n: nat, width: nat)
    requires n < Power(width)
    ensures Number(Padded(n, width)) == n
  {
    if width > 0 {
      NumberOfPadded(n / 10, width - 1);
      assert Padded(n, width)[..width - 1] == Padded(n / 10, width - 1);
    }
  }

  lemma {:induction false} NumberBound(s: string)
    requires AllDigits(s)
    ensures Number(s) < Power(|s|)
  {
    if s != [] {
      NumberBound(s[..|s| - 1]);
    }
  }

  /** The first occurrence of a separator, or the length of the text. */
  function Find(s: string, c: char): (at: nat)
    ensures at <= |s| && c !in s[..at] && (at < |s| ==> s[at] == c)
  {
    if s == [] || s[0] == c then 0 else Find(s[1..], c) + 1
  }

  /** The pieces of a text between the separators; an empty text is one empty piece. */
  function Split(s: string, c: char): (pieces: seq<string>)
    ensures pieces != []
    decreases |s|
  {
    var at := Find(s, c);
    if at == |s| then [s] else [s[..at]] + Split(s[at + 1..], c)
  }

  function Join(pieces: seq<string>, c: char): string
    requires pieces != []
  {
    if |pieces| == 1 then pieces[0] else pieces[0] + [c] + Join(pieces[1..], c)
  }

  /** The text is these pieces with a separator between each two, and no piece holds one. */
  ghost predicate ArePieces(pieces: seq<string>, s: string, c: char) {
    && pieces != [] && Join(pieces, c) == s
    && forall i :: 0 <= i < |pieces| ==> c !in pieces[i]
  }

  lemma {:induction false} SplitGivesPieces(s: string, c: char)
    ensures ArePieces(Split(s, c), s, c)
    decreases |s|
  {
    var at := Find(s, c);
    if at < |s| {
      SplitGivesPieces(s[at + 1..], c);
      assert Split(s, c)[1..] == Split(s[at + 1..], c);
      assert s == s[..at] + [c] + s[at + 1..];
    } else {
      assert s[..at] == s;
    }
  }

  lemma {:induction false} FindFirst(front: string, c: char, rest: string)
    requires c !in front
    ensures Find(front + [c] + rest, c) == |front| && Find(front, c) == |front|
  {
    var s, at := front + [c] + rest, Find(front + [c] + rest, c);
    assert s[|front|] == c;
    assert forall i :: 0 <= i < |front| ==> s[i] == front[i];
    assert forall i :: 0 <= i < at ==> s[..at][i] != c;
  }

  lemma {:induction false} SplitFirst(front: string, c: char, rest: string)
    requires c !in front
    ensures Split(front + [c] + rest, c) == [front] + Split(rest, c) && Split(front, c) == [front]
  {
    FindFirst(front, c, rest);
    var s := front + [c] + rest;
    assert s[..|front|] == front && s[|front| + 1..] == rest;
  }

  lemma {:induction false} PiecesAreSplit(pieces: seq<string>, s: string, c: char)
    requires ArePieces(pieces, s, c)
    ensures pieces == Split(s, c)
    decreases |pieces|
  {
    if |pieces| == 1 {
      SplitFirst(s, c, []);
    } else {
      SplitFirst(pieces[0], c, Join(pieces[1..], c));
      PiecesAreSplit(pieces[1..], Join(pieces[1..], c), c);
      assert pieces == [pieces[0]] + pieces[1..];
    }
  }

  /** Splitting finds the one way to cut a text at its separators. */
  lemma {:induction false} SplitExactly(pieces: seq<string>, s: string, c: char)
    ensures ArePieces(pieces, s, c) <==> pieces == Split(s, c)
  {
    SplitGivesPieces(s, c);
    if ArePieces(pieces, s, c) {
      PiecesAreSplit(pieces, s, c);
    }
  }
}
