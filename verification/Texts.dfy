/** Splitting, joining and trimming texts, and decimal texts. */
module Texts {

  /** The parts of a text between separators. */
  function Split(t: string, separator: char): (parts: seq<string>)
    ensures parts != []
  {
    if t == "" then [""]
    else
      var parts := Split(t[..|t| - 1], separator);
      if t[|t| - 1] == separator then parts + [""]
      else parts[|parts| - 1 := parts[|parts| - 1] + [t[|t| - 1]]]
  }

  /** The parts with separators between them. */
  function Joined(parts: seq<string>, separator: char): string
    requires parts != []
  {
    if |parts| == 1 then parts[0]
    else Joined(parts[..|parts| - 1], separator) + [separator] + parts[|parts| - 1]
  }

  /** No part contains the character. */
  ghost predicate Without(parts: seq<string>, c: char) {
    forall i :: 0 <= i < |parts| ==> c !in parts[i]
  }

  lemma {:induction false} SplitPart(t: string, separator: char)
    requires separator !in t
    ensures Split(t, separator) == [t]
  {
    if t != "" {
      SplitPart(t[..|t| - 1], separator);
      assert t == t[..|t| - 1] + [t[|t| - 1]];
    }
  }

  /** A part behind a separator becomes a part of its own. */
  lemma {:induction false} SplitBehind(t: string, separator: char, part: string)
    requires separator !in part
    ensures Split(t + [separator] + part, separator) == Split(t, separator) + [part]
  {
    var all := t + [separator] + part;
    if part == "" {
      assert all[..|all| - 1] == t;
    } else {
      var front, last := part[..|part| - 1], part[|part| - 1];
      SplitBehind(t, separator, front);
      assert all[..|all| - 1] == t + [separator] + front;
      assert part == front + [last];
    }
  }

  /** Splitting joined parts gives the parts back. */
  lemma {:induction false} SplitJoined(parts: seq<string>, separator: char)
    requires parts != [] && Without(parts, separator)
    ensures Split(Joined(parts, separator), separator) == parts
  {
    var n := |parts| - 1;
    if n == 0 {
      SplitPart(parts[0], separator);
    } else {
      SplitJoined(parts[..n], separator);
      SplitBehind(Joined(parts[..n], separator), separator, parts[n]);
    }
  }

  /** Joining the parts of a text gives the text back. */
  lemma {:induction false} JoinedSplit(t: string, separator: char)
    ensures Joined(Split(t, separator), separator) == t && Without(Split(t, separator), separator)
  {
    if t != "" {
      var front, last := t[..|t| - 1], t[|t| - 1];
      JoinedSplit(front, separator);
      var parts, before := Split(t, separator), Split(front, separator);
      assert t == front + [last];
      if last == separator {
        assert parts[..|parts| - 1] == before;
      } else {
        assert parts[..|parts| - 1] == before[..|before| - 1];
      }
    }
  }

  // ---- trimming ----

  /** White space, as far as it is in ASCII. */
  const SPACES := {' ', '\t', '\n', '\U{000B}', '\U{000C}', '\r'}

  /** A text without the characters of a set at its two ends. */
  function Trim(t: string, cut: set<char>): string {
    if t == "" then ""
    else if t[0] in cut then Trim(t[1..], cut)
    else if t[|t| - 1] in cut then Trim(t[..|t| - 1], cut)
    else t
  }

  function TrimSpace(t: string): string {
    Trim(t, SPACES)
  }

  ghost predicate AllIn(t: string, cut: set<char>) {
    forall i :: 0 <= i < |t| ==> t[i] in cut
  }

  /** It neither begins nor ends with a character of the set. */
  ghost predicate Trimmed(t: string, cut: set<char>) {
    t != "" ==> t[0] !in cut && t[|t| - 1] !in cut
  }

  /** Between characters of the set, a text that neither begins nor ends with one is what remains. */
  lemma {:induction false} TrimIs(a: string, t: string, b: string, cut: set<char>)
    requires AllIn(a, cut) && AllIn(b, cut) && Trimmed(t, cut)
    ensures Trim(a + t + b, cut) == t
    decreases |a| + |b|
  {
    var all := a + t + b;
    if a != "" {
      TrimIs(a[1..], t, b, cut);
      assert all[1..] == a[1..] + t + b;
    } else if b != "" {
      var front := b[..|b| - 1];
      TrimIs(a, t, front, cut);
      assert all[..|all| - 1] == a + t + front;
      if t == "" {
        TrimIs(a, t, b[1..], cut);
        assert all[1..] == a + t + b[1..];
      }
    } else {
      assert all == t;
    }
  }

  /** The text is what is trimmed, with characters of the set on both sides. */
  lemma {:induction false} TrimMiddle(t: string, cut: set<char>) returns (a: string, b: string)
    ensures t == a + Trim(t, cut) + b && AllIn(a, cut) && AllIn(b, cut) && Trimmed(Trim(t, cut), cut)
  {
    if t == "" {
      a, b := "", "";
    } else if t[0] in cut {
      a, b := TrimMiddle(t[1..], cut);
      a := [t[0]] + a;
    } else if t[|t| - 1] in cut {
      a, b := TrimMiddle(t[..|t| - 1], cut);
      b := b + [t[|t| - 1]];
      assert t == t[..|t| - 1] + [t[|t| - 1]];
    } else {
      a, b := "", "";
    }
  }

  /** Characters of the set at the ends make no difference. */
  lemma TrimIgnores(a: string, t: string, b: string, cut: set<char>)
    requires AllIn(a, cut) && AllIn(b, cut)
    ensures Trim(a + t + b, cut) == Trim(t, cut)
  {
    var c, d := TrimMiddle(t, cut);
    TrimIs(a + c, Trim(t, cut), d + b, cut);
    assert a + t + b == a + c + Trim(t, cut) + (d + b);
  }

  /** Texts with something in front of each and behind it. */
  function Padded(texts: seq<string>, before: seq<string>, after: seq<string>): (padded: seq<string>)
    requires |before| == |texts| == |after|
    ensures |padded| == |texts| && forall i :: 0 <= i < |texts| ==> padded[i] == before[i] + texts[i] + after[i]
  {
    seq(|texts|, i requires 0 <= i < |texts| => before[i] + texts[i] + after[i])
  }

  ghost predicate EachIn(texts: seq<string>, cut: set<char>) {
    forall i :: 0 <= i < |texts| ==> AllIn(texts[i], cut)
  }

  lemma PaddedWithout(texts: seq<string>, before: seq<string>, after: seq<string>, cut: set<char>, c: char)
    requires |before| == |texts| == |after| && EachIn(before, cut) && EachIn(after, cut)
    requires Without(texts, c) && c !in cut
    ensures Without(Padded(texts, before, after), c)
  {
  }

  lemma {:induction false} SplitFront(x: char, t: string, separator: char)
    requires x != separator
    ensures var parts := Split(t, separator); Split([x] + t, separator) == parts[0 := [x] + parts[0]]
  {
    if t == "" {
      SplitPart([x] + t, separator);
      assert [x] + t == [x] + "";
    } else {
      var front, last := t[..|t| - 1], t[|t| - 1];
      var all, first := [x] + t, Split(front, separator)[0];
      SplitFront(x, front, separator);
      assert all[..|all| - 1] == [x] + front && all[|all| - 1] == last;
      assert [x] + (first + [last]) == [x] + first + [last];
    }
  }

  /** Trimming the whole text before the parts makes no difference to the trimmed parts. */
  lemma {:induction false} SplitTrimmed(t: string, cut: set<char>, separator: char, i: nat)
    requires separator !in cut && i < |Split(t, separator)|
    ensures |Split(Trim(t, cut), separator)| == |Split(t, separator)|
    ensures Trim(Split(Trim(t, cut), separator)[i], cut) == Trim(Split(t, separator)[i], cut)
    decreases |t|
  {
    var parts := Split(t, separator);
    if t != "" {
      if t[0] in cut {
        var rest := t[1..];
        assert t == [t[0]] + rest;
        SplitFront(t[0], rest, separator);
        SplitTrimmed(rest, cut, separator, i);
        TrimIgnores([t[0]], Split(rest, separator)[0], "", cut);
        assert i == 0 ==> parts[i] == [t[0]] + Split(rest, separator)[0] + "";
      } else if t[|t| - 1] in cut {
        var front, last := t[..|t| - 1], [t[|t| - 1]];
        var before := Split(front, separator);
        SplitTrimmed(front, cut, separator, i);
        TrimIgnores("", before[|before| - 1], last, cut);
        assert i == |parts| - 1 ==> parts[i] == "" + before[i] + last;
      }
    }
  }

  // ---- decimal texts ----

  predicate IsDigit(c: char) {
    '0' <= c <= '9'
  }

  predicate Digits(t: string) {
    forall i :: 0 <= i < |t| ==> IsDigit(t[i])
  }

  function DigitOf(c: char): (d: nat)
    ensures d <= 9
  {
    if IsDigit(c) then c as int - '0' as int else 0
  }

  function CharOf(d: nat): char
    requires d <= 9
  {
    (d + '0' as int) as char
  }

  /** Digits are worth their places in the table. */
  lemma DigitTable(d: nat)
    requires d < 10
    ensures var c := "0123456789"[d]; IsDigit(c) && DigitOf(c) == d && CharOf(d) == c
  {
  }

  /** The number a text of digits denotes; zero for the empty text. */
  function Val(t: string): nat {
    if t == "" then 0 else 10 * Val(t[..|t| - 1]) + DigitOf(t[|t| - 1])
  }

  /** The text of a number without leading zeros, where zero is the empty text. */
  function Canonical(n: nat): string {
    if n == 0 then "" else Canonical(n / 10) + [CharOf(n % 10)]
  }

  lemma {:induction false} CanonicalDenotes(n: nat)
    ensures Digits(Canonical(n)) && Val(Canonical(n)) == n
    ensures n > 0 ==> Canonical(n) != "" && Canonical(n)[0] != '0'
  {
    if n > 0 {
      CanonicalDenotes(n / 10);
      var t := Canonical(n);
      assert t[..|t| - 1] == Canonical(n / 10);
    }
  }
}
