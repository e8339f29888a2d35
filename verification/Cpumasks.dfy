/** The 640-bit CPU set of common/cpumask/cpumask.go: ten 64-bit words, and what each operation on
them means for the set of CPUs they denote. */
module Cpumasks {
  import opened Words

  const CPUMASK_NUM: nat := 10
  const MASK_BITS: nat := 640

  /** A Go array is a value, so the ten words are a sequence that the methods replace. */
  type MaskWords = s: seq<Word> | |s| == CPUMASK_NUM witness ZeroWords()

  function ZeroWords(): (s: seq<Word>) {
    [0, 0, 0, 0, 0, 0, 0, 0, 0, 0]
  }

  /** The set of CPUs a mask denotes. */
  function Members(words: MaskWords): (m: set<int>) {
    set b: int | 0 <= b < MASK_BITS && b % 64 in Bits(words[b / 64])
  }

  lemma MemberAt(words: MaskWords, i: int, k: int)
    requires 0 <= i < CPUMASK_NUM && 0 <= k < 64
    ensures 64 * i + k in Members(words) <==> k in Bits(words[i])
  {
    assert (64 * i + k) / 64 == i && (64 * i + k) % 64 == k;
  }

  lemma EmptyMask()
    ensures Members(ZeroWords()) == {}
  {
    forall b | b in Members(ZeroWords()) ensures false { ZeroHasNoBit(b % 64); }
  }

  /** Two masks denote the same set only when they are the same ten words. */
  lemma MembersDetermine(a: MaskWords, b: MaskWords)
    ensures a == b <==> Members(a) == Members(b)
  {
    if Members(a) == Members(b) {
      forall i | 0 <= i < CPUMASK_NUM ensures a[i] == b[i] {
        forall k: nat ensures k in Bits(a[i]) <==> k in Bits(b[i]) {
          if k < 64 { MemberAt(a, i, k); MemberAt(b, i, k); }
        }
        WordsEqualIffBits(a[i], b[i]);
      }
    }
  }

  // ---- population count ----

  /** Each round of `mask & (mask - 1)` removes one member. */
  method OneMaskWeight(word: Word) returns (weight: nat)
    ensures weight == |Bits(word)|
  {
    weight := 0;
    var mask := word;
    while mask > 0
      invariant weight + |Bits(mask)| == |Bits(word)|
    {
      ghost var low := ClearLowest(mask);
      BitAndBound(mask, mask - 1);
      assert low in Bits(mask) by { LowestInWidth(mask, low); }
      assert Bits(BitAnd(mask, mask - 1)) == Bits(mask) - {low};
      weight := weight + 1;
      AndIsSmaller(mask);
      mask := BitAnd(mask, mask - 1);
    }
    NonzeroHasBit(mask);
  }

  lemma AndIsSmaller(w: Word)
    requires w > 0
    ensures BitAnd(w, w - 1) < w
  {
    var low := ClearLowest(w);
    BitAndBound(w, w - 1);
    assert Bit(BitAnd(w, w - 1), low) != Bit(w, low);
  }

  lemma LowestInWidth(w: Word, k: nat)
    requires Bit(w, k)
    ensures k in Bits(w)
  {
    if k >= 64 {
      Pow2Values();
      HighBitsClear(w, 64, k);
    }
  }

  // ---- lowest set bit by halving ----

  lemma {:induction false} ShrTwice(w: nat, a: nat, b: nat)
    ensures Shr(Shr(w, a), b) == Shr(w, a + b)
  {
    if a > 0 {
      ShrTwice(w / 2, a - 1, b);
    }
  }

  lemma {:induction false} LowPartZero(w: nat, a: nat, b: nat)
    ensures LowPart(w, a + b) == 0 <==> LowPart(w, a) == 0 && LowPart(Shr(w, a), b) == 0
  {
    if a > 0 {
      LowPartZero(w / 2, a - 1, b);
    }
  }

  lemma {:induction false} LowPartWhole(w: nat, n: nat)
    requires w < Pow2(n)
    ensures LowPart(w, n) == w
  {
    if n > 0 {
      LowPartWhole(w / 2, n - 1);
    }
  }

  /** The lowest set bit of `word`, if any, is among the `h` lowest bits of `mask`, which is `word`
  with its `n` zero low bits shifted out. */
  ghost predicate Narrowed(word: Word, mask: nat, n: nat, h: nat) {
    && mask == Shr(word, n)
    && LowPart(word, n) == 0
    && (word != 0 ==> LowPart(mask, h) != 0)
    && n + h <= 64
  }

  lemma NarrowStart(word: Word)
    ensures Narrowed(word, word, 0, 64)
  {
    Pow2Values();
    LowPartWhole(word, 64);
  }

  /** One `if mask & (2^h - 1) == 0` of `lowBit`. */
  lemma NarrowStep(word: Word, mask: Word, n: nat, h: nat)
    requires Narrowed(word, mask, n, 2 * h)
    ensures BitAnd(mask, Pow2(h) - 1) == 0 ==> Narrowed(word, Shr(mask, h), n + h, h)
    ensures BitAnd(mask, Pow2(h) - 1) != 0 ==> Narrowed(word, mask, n, h)
  {
    LowMaskIsRemainder(mask, h);
    ShrTwice(word, n, h);
    LowPartZero(word, n, h);
    LowPartZero(mask, h, h);
  }

  lemma NarrowEnd(word: Word, mask: nat, n: nat)
    requires Narrowed(word, mask, n, 1)
    ensures mask % 2 == 0 <==> word == 0
    ensures word != 0 ==> n in Bits(word) && forall k :: k in Bits(word) ==> n <= k
  {
    assert LowPart(mask, 1) == mask % 2;
    ShrAt(word, n, 0);
    if word == 0 {
      assert mask <= word;
    }
    forall k: nat | k < n ensures !Bit(word, k) {
      LowPartAt(word, n, k);
      ZeroHasNoBit(k);
    }
  }

  predicate IsLowest(word: Word, r: int) {
    if r == -1 then word == 0
    else r in Bits(word) && forall k :: k in Bits(word) ==> r <= k
  }

  /** One `if mask & lowMask == 0` block of `lowBit`, with `lowMask == 2^h - 1`. */
  method SkipClearHalf(ghost word: Word, mask: Word, n: nat, h: nat, lowMask: nat) returns (mask': Word, n': nat)
    requires lowMask == Pow2(h) - 1
    requires Narrowed(word, mask, n, 2 * h)
    ensures Narrowed(word, mask', n', h)
  {
    NarrowStep(word, mask, n, h);
    mask', n' := mask, n;
    if BitAnd(mask, lowMask) == 0 {
      mask', n' := Shr(mask, h), n + h;
    }
  }

  method LowBit(word: Word) returns (r: int)
    ensures if word == 0 then r == -1 else r in Bits(word) && forall k :: k in Bits(word) ==> r <= k
  {
    Pow2Values();
    NarrowStart(word);
    var mask, n := SkipClearHalf(word, word, 0, 32, 0xffff_ffff);
    mask, n := SkipClearHalf(word, mask, n, 16, 0xffff);
    mask, n := SkipClearHalf(word, mask, n, 8, 0xff);
    mask, n := SkipClearHalf(word, mask, n, 4, 0xf);
    mask, n := SkipClearHalf(word, mask, n, 2, 0x3);
    mask, n := SkipClearHalf(word, mask, n, 1, 0x1);
    NarrowEnd(word, mask, n);
    LowMaskIsRemainder(mask, 1);
    return if BitAnd(mask, 0x1) == 0 then -1 else n;
  }

  // ---- hex text ----

  predicate IsHex(c: char) {
    '0' <= c <= '9' || 'a' <= c <= 'f' || 'A' <= c <= 'F'
  }

  function HexDigit(c: char): (d: nat)
    requires IsHex(c)
    ensures d < 16
  {
    if '0' <= c <= '9' then (c - '0') as nat
    else if 'a' <= c <= 'f' then 10 + (c - 'a') as nat
    else 10 + (c - 'A') as nat
  }

  predicate AllHex(s: string) {
    forall c :: c in s ==> IsHex(c)
  }

  function HexValue(s: string): nat
    requires AllHex(s)
  {
    if s == [] then 0 else HexValue(s[..|s| - 1]) * 16 + HexDigit(s[|s| - 1])
  }

  const HEX_DIGITS: string := "0123456789abcdef"
  const UPPER_DIGITS: string := "0123456789ABCDEF"

  /** The digits of either table are worth their places in it, and no other character is a digit. */
  lemma HexTable(c: char)
    ensures forall d :: 0 <= d < 16 ==> IsHex(HEX_DIGITS[d]) && HexDigit(HEX_DIGITS[d]) == d
    ensures forall d :: 0 <= d < 16 ==> IsHex(UPPER_DIGITS[d]) && HexDigit(UPPER_DIGITS[d]) == d
    ensures IsHex(c) ==> c == HEX_DIGITS[HexDigit(c)] || c == UPPER_DIGITS[HexDigit(c)]
  {
  }

  /** A number in hex, as the kernel writes it. */
  function HexText(n: nat): string {
    if n < 16 then [HEX_DIGITS[n]] else HexText(n / 16) + [HEX_DIGITS[n % 16]]
  }

  lemma {:induction false} HexTextDenotes(n: nat)
    ensures AllHex(HexText(n)) && HexValue(HexText(n)) == n
  {
    HexTable('0');
    var t := HexText(n);
    if n >= 16 {
      HexTextDenotes(n / 16);
      assert t[..|t| - 1] == HexText(n / 16);
    } else {
      assert t[..|t| - 1] == [];
    }
  }

  lemma {:induction false} HexValueBound(s: string)
    requires AllHex(s)
    ensures HexValue(s) < Pow2(4 * |s|)
  {
    if s != [] {
      HexValueBound(s[..|s| - 1]);
      Pow2Hex(|s| - 1);
    }
  }

  lemma {:induction false} HexValueConcat(a: string, b: string)
    requires AllHex(a) && AllHex(b)
    ensures AllHex(a + b) && HexValue(a + b) == HexValue(a) * Pow2(4 * |b|) + HexValue(b)
  {
    if b == [] {
      assert a + b == a;
    } else {
      var b' := b[..|b| - 1];
      HexValueConcat(a, b');
      assert (a + b)[..|a + b| - 1] == a + b';
      Pow2Hex(|b'|);
      Regroup(HexValue(a), Pow2(4 * |b'|), HexValue(b'), HexDigit(b[|b| - 1]));
    }
  }

  lemma Pow2Hex(n: nat)
    ensures Pow2(4 * (n + 1)) == Pow2(4 * n) * 16
  {
    Pow2Add(4 * n, 4);
    Pow2Values();
  }

  lemma Regroup(x: nat, p: nat, y: nat, d: nat)
    ensures (x * p + y) * 16 + d == x * (p * 16) + (y * 16 + d)
  {
  }

  /** `strconv.ParseUint(s, 16, 64)` on at most sixteen characters: a syntax error yields zero. */
  function ParseHexWord(s: string): (r: (bool, Word))
    requires |s| <= 16
    ensures r.0 <==> s != [] && AllHex(s)
    ensures if r.0 then AllHex(s) && r.1 == HexValue(s) else r.1 == 0
  {
    if s != [] && AllHex(s) then
      HexValueBound(s);
      Pow2Monotone(4 * |s|, 64);
      Pow2Values();
      (true, HexValue(s))
    else (false, 0)
  }

  /** The number that a sequence of words denotes, lowest word first. */
  function Value(words: seq<Word>): nat {
    if words == [] then 0 else Value(words[1..]) * WORD_LIMIT + words[0]
  }

  lemma Pow2Word(n: nat)
    ensures Pow2(64 * (n + 1)) == Pow2(64 * n) * WORD_LIMIT
  {
    Pow2Add(64 * n, 64);
    Pow2Values();
  }

  lemma {:induction false} ValueAppend(words: seq<Word>, w: Word)
    ensures Value(words + [w]) == w * Pow2(64 * |words|) + Value(words)
  {
    if words == [] {
      assert words + [w] == [w] && [w][1..] == [];
      assert Value([w]) == w;
    } else {
      var rest, p := words[1..], Pow2(64 * |words[1..]|);
      assert (words + [w])[1..] == rest + [w];
      ValueAppend(rest, w);
      Pow2Word(|rest|);
      Distribute(w, p, Value(rest), words[0]);
    }
  }

  lemma Distribute(w: nat, p: nat, v: nat, low: nat)
    ensures (w * p + v) * WORD_LIMIT + low == w * (p * WORD_LIMIT) + (v * WORD_LIMIT + low)
  {
    assert w * (p * WORD_LIMIT) == (w * p) * WORD_LIMIT;
  }

  lemma {:induction false} ValueOfZeros(words: seq<Word>, tail: seq<Word>)
    requires forall i :: 0 <= i < |tail| ==> tail[i] == 0
    ensures Value(words + tail) == Value(words)
    decreases |tail|
  {
    if tail == [] {
      assert words + tail == words;
    } else {
      var words' := words + [0];
      ValueOfZeros(words', tail[1..]);
      assert words + tail == words' + tail[1..];
      ValueAppend(words, 0);
    }
  }

  /** A mask's members are the bits of the number its words denote. */
  lemma {:induction false} ValueBitAt(words: seq<Word>, b: nat)
    ensures Bit(Value(words), b) <==> b / 64 < |words| && Bit(words[b / 64], b % 64)
    decreases |words|, 1
  {
    if words == [] {
      ZeroHasNoBit(b);
    } else {
      ValueSplit(words);
      if b < 64 {
        LowPartAt(Value(words), 64, b);
      } else {
        ValueBitAbove(words, b);
      }
    }
  }

  lemma {:induction false} ValueBitAbove(words: seq<Word>, b: nat)
    requires words != [] && b >= 64
    ensures Bit(Value(words), b) <==> b / 64 < |words| && Bit(words[b / 64], b % 64)
    decreases |words|, 0
  {
    ValueSplit(words);
    ShrAt(Value(words), 64, b - 64);
    ValueBitAt(words[1..], b - 64);
    assert (b - 64) / 64 == b / 64 - 1 && (b - 64) % 64 == b % 64;
  }

  lemma ValueSplit(words: seq<Word>)
    requires words != []
    ensures LowPart(Value(words), 64) == words[0] && Shr(Value(words), 64) == Value(words[1..])
  {
    Pow2Values();
    Compose(Value(words[1..]), words[0], 64);
  }

  /** The part of the text that `ParseString` reads: its last 160 characters. */
  function ParsedTail(str: string): string {
    if |str| <= 160 then str else str[|str| - 160..]
  }

  /** Reading the last 160 hex digits is taking the whole number modulo 2^640. */
  lemma TailIsRemainder(str: string)
    requires AllHex(str)
    ensures AllHex(ParsedTail(str)) && HexValue(ParsedTail(str)) == LowPart(HexValue(str), MASK_BITS)
  {
    var tail := ParsedTail(str);
    var head := str[..|str| - |tail|];
    assert str == head + tail;
    HexValueConcat(head, tail);
    HexValueBound(tail);
    Pow2Monotone(4 * |tail|, 640);
    if |str| <= 160 {
      assert head == [];
      LowPartWhole(HexValue(str), 640);
    } else {
      Compose(HexValue(head), HexValue(tail), 640);
    }
  }

  /** Where the chunk before the last `16 * i` characters starts. */
  function ChunkStart(str: string, i: nat): (start: nat)
    requires 16 * i <= |str|
    ensures start <= |str| - 16 * i
  {
    if |str| - 16 * i - 16 < 0 then 0 else |str| - 16 * i - 16
  }

  /** What `ParseString` has read when it stops, after `i` chunks: it goes on while a chunk is a hex
  number, up to the beginning of the text or the tenth chunk. */
  function ReadFrom(str: string, i: nat): (part: string)
    requires i <= CPUMASK_NUM && 16 * i <= |str| && AllHex(str[|str| - 16 * i..])
    ensures AllHex(part) && |part| <= 160
    decreases CPUMASK_NUM - i
  {
    var start, end := ChunkStart(str, i), |str| - 16 * i;
    if i == CPUMASK_NUM || end == 0 || !AllHex(str[start..end]) then str[end..]
    else
      assert str[start..] == str[start..end] + str[end..];
      if start == 0 then str[start..] else ReadFrom(str, i + 1)
  }

  /** The part of a text that ends up in the mask. */
  function ReadPart(str: string): (part: string)
    ensures AllHex(part) && |part| <= 160
  {
    ReadFrom(str, 0)
  }

  /** It is all of the last 160 characters if these are hex digits. */
  lemma {:induction false} ReadWhole(str: string, i: nat)
    requires AllHex(ParsedTail(str)) && i <= CPUMASK_NUM && (16 * i < |str| || i == 0)
    ensures AllHex(str[|str| - 16 * i..]) && ReadFrom(str, i) == ParsedTail(str)
    decreases CPUMASK_NUM - i
  {
    assert forall c :: c in str[|str| - 16 * i..] ==> c in ParsedTail(str);
    var start, end := ChunkStart(str, i), |str| - 16 * i;
    if i < CPUMASK_NUM && end > 0 {
      assert forall c :: c in str[start..end] ==> c in ParsedTail(str);
      if start > 0 {
        ReadWhole(str, i + 1);
      }
    }
  }

  /** The set of CPUs that a hex text of a mask file denotes. */
  function HexMembers(str: string): set<int>
    requires AllHex(str)
  {
    set b: int | 0 <= b < MASK_BITS && Bit(HexValue(str), b)
  }

  /** A successfully parsed mask holds the bits of the hex number below bit 640. */
  lemma ParsedMembers(str: string, words: MaskWords)
    requires AllHex(str) && AllHex(ParsedTail(str)) && Value(words) == HexValue(ParsedTail(str))
    ensures Members(words) == HexMembers(str)
    ensures Value(words) == LowPart(HexValue(str), MASK_BITS)
  {
    TailIsRemainder(str);
    forall b: int | 0 <= b < MASK_BITS ensures b in Members(words) <==> Bit(HexValue(str), b) {
      ValueBitAt(words, b);
      LowPartAt(HexValue(str), MASK_BITS, b);
    }
  }

  // ---- the mask ----

  /** After `i` chunks the words denote the last `16 * i` characters. */
  ghost predicate ParsedChunks(str: string, words: MaskWords, i: nat) {
    && i <= CPUMASK_NUM && 16 * i <= |str|
    && AllHex(str[|str| - 16 * i..])
    && Value(words[..i]) == HexValue(str[|str| - 16 * i..])
    && (forall j :: i <= j < CPUMASK_NUM ==> words[j] == 0)
    && Value(words) == Value(words[..i])
  }

  lemma ParseChunk(str: string, words: MaskWords, i: nat, start: nat)
    requires ParsedChunks(str, words, i) && i < CPUMASK_NUM
    requires i > 0 ==> 16 * i < |str|
    requires start == ChunkStart(str, i)
    ensures var (ok, w) := ParseHexWord(str[start..|str| - 16 * i]);
      var words' := words[i := w];
      && (!ok ==> ParsedChunks(str, words', i) && (str == [] || !AllHex(ParsedTail(str))))
      && (ok ==> AllHex(str[start..]) && Value(words') == HexValue(str[start..]))
      && (ok && start > 0 ==> ParsedChunks(str, words', i + 1))
  {
    var chunk := str[start..|str| - 16 * i];
    var w := ParseHexWord(chunk).1;
    if ParseHexWord(chunk).0 {
      ParseGoodChunk(str, words, i, start, w);
    } else {
      assert words[i := w] == words;
      if chunk != [] {
        var c :| c in chunk && !IsHex(c);
        assert c in str[start..];
        assert c in ParsedTail(str) by { assert start >= |str| - |ParsedTail(str)|; }
      }
    }
  }

  lemma ParseGoodChunk(str: string, words: MaskWords, i: nat, start: nat, w: Word)
    requires ParsedChunks(str, words, i) && i < CPUMASK_NUM
    requires start <= |str| - 16 * i && start >= |str| - 16 * i - 16
    requires AllHex(str[start..|str| - 16 * i]) && w == HexValue(str[start..|str| - 16 * i])
    ensures AllHex(str[start..]) && Value(words[i := w]) == HexValue(str[start..])
    ensures Value(words[i := w]) == Value(words[i := w][..i + 1])
  {
    var end := |str| - 16 * i;
    var chunk, rest := str[start..end], str[end..];
    assert str[start..] == chunk + rest;
    HexValueConcat(chunk, rest);
    ValueAppend(words[..i], w);
    var first, tail := words[..i] + [w], words[i + 1..];
    ValueOfZeros(first, tail);
    assert words[i := w] == first + tail && words[i := w][..i + 1] == first;
    assert 64 * |words[..i]| == 4 * |rest|;
  }

  /** The parse has read `i` chunks and is not done. */
  ghost predicate Partly(str: string, words: MaskWords, i: nat) {
    match (words, i)
    case (w, n) => ParsedChunks(str, w, n) && (n > 0 ==> 16 * n < |str|)
  }

  /** The parse has succeeded. */
  ghost predicate HasRead(str: string, words: MaskWords) {
    str != [] && AllHex(ParsedTail(str)) && Value(words) == HexValue(ParsedTail(str))
  }

  lemma NothingRead(str: string, words: MaskWords)
    requires forall j :: 0 <= j < CPUMASK_NUM ==> words[j] == 0
    ensures Partly(str, words, 0)
  {
    ValueOfZeros([], words);
    assert [] + words == words;
  }

  lemma AllRead(str: string, words: MaskWords)
    requires Partly(str, words, CPUMASK_NUM)
    ensures HasRead(str, words)
  {
    assert ParsedTail(str) == str[|str| - 160..];
  }

  /** Up to a chunk that is no hex number everything is read. */
  lemma {:induction false} ReadUpTo(str: string, i: nat, j: nat)
    requires j <= i < CPUMASK_NUM && 16 * i <= |str| && (i > 0 ==> 16 * i < |str|)
    requires AllHex(str[|str| - 16 * i..]) && !ParseHexWord(str[ChunkStart(str, i)..|str| - 16 * i]).0
    ensures AllHex(str[|str| - 16 * j..]) && ReadFrom(str, j) == str[|str| - 16 * i..]
    decreases i - j
  {
    HexPart(str, |str| - 16 * i, |str| - 16 * j, |str|);
    if j < i {
      HexPart(str, |str| - 16 * i, ChunkStart(str, j), |str| - 16 * j);
      ReadUpTo(str, i, j + 1);
      assert ReadFrom(str, j) == ReadFrom(str, j + 1);
    }
  }

  lemma HexPart(str: string, from: nat, start: nat, end: nat)
    requires from <= start <= end <= |str| && AllHex(str[from..])
    ensures AllHex(str[start..end]) && AllHex(str[start..])
  {
    forall c | c in str[start..end] || c in str[start..] ensures IsHex(c) {
      assert c in str[from..];
    }
  }

  /** The parse stopped at chunk `i`, which is no hex number, and the chunks after it are in the mask. */
  ghost predicate StoppedAt(str: string, words: MaskWords, i: nat) {
    && i < CPUMASK_NUM && ParsedChunks(str, words, i) && (i > 0 ==> 16 * i < |str|)
    && !ParseHexWord(str[ChunkStart(str, i)..|str| - 16 * i]).0
  }

  /** Whether the parse succeeds or not, the mask holds what has been read. */
  lemma MaskHoldsRead(str: string, words: MaskWords, ok: bool)
    requires ok ==> AllHex(ParsedTail(str)) && Value(words) == HexValue(ParsedTail(str))
    requires !ok ==> exists i :: StoppedAt(str, words, i)
    ensures Members(words) == HexMembers(ReadPart(str))
    ensures ok ==> ReadPart(str) == ParsedTail(str)
  {
    if ok {
      ReadWhole(str, 0);
    } else {
      var i :| StoppedAt(str, words, i);
      ReadUpTo(str, i, 0);
    }
    ParsedMembers(ReadPart(str), words);
  }

  datatype Scan = Found(bit: int) | IndexPanic

  /** `r` is the least member from `from` on, or -1 when there is none. */
  predicate IsLeastFrom(members: set<int>, from: int, r: int) {
    if r == -1 then forall m :: m in members ==> m < from
    else r in members && r >= from && forall m :: m in members && m >= from ==> r <= m
  }

  class Cpumask {
    var masks: MaskWords

    constructor ()
      ensures Members(masks) == {}
    {
      masks := ZeroWords();
      EmptyMask();
    }

    /** The mask object for an embedded mask. */
    constructor Of(words: MaskWords)
      ensures masks == words
    {
      masks := words;
    }

    method Init()
      modifies this
      ensures masks == ZeroWords() && Members(masks) == {}
    {
      for i := 0 to CPUMASK_NUM
        invariant forall j :: 0 <= j < i ==> masks[j] == 0
      {
        masks := masks[i := 0];
      }
      assert masks == ZeroWords();
      EmptyMask();
    }

    method And(dst: MaskWords)
      modifies this
      ensures Members(masks) == old(Members(masks)) * Members(dst)
    {
      for i := 0 to CPUMASK_NUM
        invariant forall j :: i <= j < CPUMASK_NUM ==> masks[j] == old(masks[j])
        invariant forall j :: 0 <= j < i ==> Bits(masks[j]) == old(Bits(masks[j])) * Bits(dst[j])
      {
        masks := masks[i := AndWord(masks[i], dst[i])];
      }
    }

    method Or(dst: MaskWords)
      modifies this
      ensures Members(masks) == old(Members(masks)) + Members(dst)
    {
      for i := 0 to CPUMASK_NUM
        invariant forall j :: i <= j < CPUMASK_NUM ==> masks[j] == old(masks[j])
        invariant forall j :: 0 <= j < i ==> Bits(masks[j]) == old(Bits(masks[j])) + Bits(dst[j])
      {
        masks := masks[i := OrWord(masks[i], dst[i])];
      }
    }

    method Copy(dst: MaskWords)
      modifies this
      ensures masks == dst
    {
      for i := 0 to CPUMASK_NUM
        invariant forall j :: 0 <= j < i ==> masks[j] == dst[j]
      {
        masks := masks[i := dst[i]];
      }
      assert masks == dst;
    }

    /** A bit outside 0..639 is ignored, a negative one because its shift count wraps. */
    method Set(nbit: int)
      modifies this
      ensures Members(masks) == old(Members(masks)) + (if 0 <= nbit < MASK_BITS then {nbit} else {})
    {
      var maskIndex := TruncDiv(nbit, 64);
      var k := AsUint(TruncMod(nbit, 64));
      var oneMask := ShlOne(k);
      if maskIndex >= CPUMASK_NUM || maskIndex < 0 {
        return;
      }
      BitPosition(nbit);
      ShlOneBits(k);
      var word := OrWord(masks[maskIndex], oneMask);
      MembersUpdate(masks, maskIndex, word);
      masks := masks[maskIndex := word];
    }

    method Clear(nbit: int)
      modifies this
      ensures Members(masks) == old(Members(masks)) - {nbit}
    {
      var maskIndex := TruncDiv(nbit, 64);
      var k := AsUint(TruncMod(nbit, 64));
      var oneMask := ShlOne(k);
      if maskIndex >= CPUMASK_NUM || maskIndex < 0 {
        return;
      }
      BitPosition(nbit);
      ShlOneBits(k);
      NotBits(oneMask);
      var word := AndWord(masks[maskIndex], Not(oneMask));
      MembersUpdate(masks, maskIndex, word);
      masks := masks[maskIndex := word];
    }

    /** Sixteen characters a word, from the right; the leftmost chunk may be short. The chunks before
    one that is no hex number stay in the mask. */
    method ParseString(str: string) returns (ok: bool)
      modifies this
      ensures ok <==> str != [] && AllHex(ParsedTail(str))
      ensures ok ==> Value(masks) == HexValue(ParsedTail(str))
      ensures !ok ==> exists i :: StoppedAt(str, masks, i)
    {
      Init();
      NothingRead(str, masks);
      for maskIndex := 0 to CPUMASK_NUM
        invariant Partly(str, masks, maskIndex)
      {
        var last;
        ok, last := ParseNext(str, maskIndex);
        if !ok || last {
          return ok;
        }
      }
      AllRead(str, masks);
      return true;
    }

    /** One chunk; the last is the one at the beginning of the text. */
    method ParseNext(str: string, maskIndex: nat) returns (ok: bool, last: bool)
      requires maskIndex < CPUMASK_NUM && Partly(str, masks, maskIndex)
      modifies this
      ensures !ok ==> StoppedAt(str, masks, maskIndex) && (str == [] || !AllHex(ParsedTail(str)))
      ensures ok && last ==> HasRead(str, masks)
      ensures ok && !last ==> Partly(str, masks, maskIndex + 1)
    {
      var endIndex := |str| - maskIndex * 16;
      var startIndex := if endIndex - 16 < 0 then 0 else endIndex - 16;
      var parsed := ParseHexWord(str[startIndex..endIndex]);
      ParseChunk(str, masks, maskIndex, startIndex);
      masks := masks[maskIndex := parsed.1];
      ok, last := parsed.0, startIndex == 0;
    }
  }

  function ScanStart(startBit: int): int {
    if startBit >= -1 then startBit + 1 else 64
  }

  /** No member in the words before `i` is at or after `from`. */
  ghost predicate NoneBefore(words: MaskWords, i: int, from: int) {
    forall m :: m in Members(words) && m < 64 * i ==> m < from
  }

  /** `candidates` holds the members of word `i` that are at or after `from`. */
  ghost predicate Candidates(words: MaskWords, i: int, candidates: Word, from: int)
    requires 0 <= i < CPUMASK_NUM
  {
    forall k :: 0 <= k < 64 ==> (k in Bits(candidates) <==> k in Bits(words[i]) && 64 * i + k >= from)
  }

  lemma FirstMask(words: MaskWords, startBit: int, i: int)
    requires i == TruncDiv(startBit + 1, 64) && 0 <= i < CPUMASK_NUM
    ensures -65 < startBit < 639
    ensures var lowOnes := (ShlOne(AsUint(TruncMod(startBit + 1, 64))) - 1) % WORD_LIMIT;
      Candidates(words, i, AndWord(words[i], Not(lowOnes)), ScanStart(startBit))
    ensures NoneBefore(words, i, ScanStart(startBit)) && ScanStart(startBit) <= 64 * (i + 1)
  {
    BitPosition(startBit + 1);
    var k := AsUint(TruncMod(startBit + 1, 64));
    var lowOnes: Word := (ShlOne(k) - 1) % WORD_LIMIT;
    FirstWord(k, lowOnes);
    NotBits(lowOnes);
  }

  lemma LeastInWord(words: MaskWords, i: int, candidates: Word, from: int, k: int)
    requires 0 <= i < CPUMASK_NUM && k != -1 && IsLowest(candidates, k)
    requires Candidates(words, i, candidates, from) && NoneBefore(words, i, from)
    ensures IsLeastFrom(Members(words), from, i * 64 + k)
  {
    assert k in Bits(candidates);
    MemberAt(words, i, k);
    forall m | m in Members(words) && m >= from ensures i * 64 + k <= m {
      if m < 64 * (i + 1) {
        assert m == 64 * i + m % 64 && m % 64 in Bits(candidates);
      }
    }
  }

  lemma NoneInWord(words: MaskWords, i: int, candidates: Word, from: int)
    requires 0 <= i < CPUMASK_NUM && candidates == 0
    requires Candidates(words, i, candidates, from) && NoneBefore(words, i, from)
    ensures NoneBefore(words, i + 1, from)
  {
    NonzeroHasBit(candidates);
    forall m | m in Members(words) && 64 * i <= m < 64 * (i + 1) ensures m < from {
      assert m == 64 * i + m % 64 && m % 64 in Bits(words[i]);
    }
  }

  // ---- operations that only read a mask; a node's embedded mask is such a value ----

  method IsEqual(masks: MaskWords, dst: MaskWords) returns (equal: bool)
    ensures equal <==> Members(masks) == Members(dst)
  {
    MembersDetermine(masks, dst);
    for i := 0 to CPUMASK_NUM
      invariant forall j :: 0 <= j < i ==> masks[j] == dst[j]
    {
      if masks[i] != dst[i] {
        return false;
      }
    }
    assert masks == dst;
    return true;
  }

  method Weight(masks: MaskWords) returns (weight: nat)
    ensures weight == |Members(masks)|
  {
    weight := 0;
    for i := 0 to CPUMASK_NUM
      invariant weight == |MembersBelow(masks, 64 * i)|
    {
      var w := OneMaskWeight(masks[i]);
      MembersOfWord(masks, i);
      weight := weight + w;
    }
    assert MembersBelow(masks, MASK_BITS) == Members(masks);
  }

  /** The next member after `startBit`. The word index is checked by the Go runtime, so asking
  past bit 638 panics; a start below -1 skips the words its truncated index skips. */
  method Foreach(masks: MaskWords, startBit: int) returns (r: Scan)
    ensures r.IndexPanic? <==> startBit >= 639 || startBit <= -65
    ensures r.Found? ==>
      var members, from := Members(masks), if startBit >= -1 then startBit + 1 else 64;
      if r.bit == -1 then forall m :: m in members ==> m < from
      else r.bit in members && from <= r.bit && forall m :: m in members && from <= m ==> r.bit <= m
  {
    var startIndex := TruncDiv(startBit + 1, 64);
    if !(0 <= startIndex < CPUMASK_NUM) {
      return IndexPanic;
    }
    var lowOnes: Word := (ShlOne(AsUint(TruncMod(startBit + 1, 64))) - 1) % WORD_LIMIT;
    var firstMask := AndWord(masks[startIndex], Not(lowOnes));
    FirstMask(masks, startBit, startIndex);
    var leftbit := LowBit(firstMask);
    if leftbit != -1 {
      LeastInWord(masks, startIndex, firstMask, ScanStart(startBit), leftbit);
      return Found(startIndex * 64 + leftbit);
    }
    NoneInWord(masks, startIndex, firstMask, ScanStart(startBit));
    startIndex := startIndex + 1;
    while startIndex < CPUMASK_NUM
      invariant 1 <= startIndex <= CPUMASK_NUM
      invariant NoneBefore(masks, startIndex, ScanStart(startBit)) && ScanStart(startBit) <= 64 * startIndex
    {
      leftbit := LowBit(masks[startIndex]);
      if leftbit != -1 {
        LeastInWord(masks, startIndex, masks[startIndex], ScanStart(startBit), leftbit);
        return Found(startIndex * 64 + leftbit);
      }
      NoneInWord(masks, startIndex, masks[startIndex], ScanStart(startBit));
      startIndex := startIndex + 1;
    }
    return Found(-1);
  }

  /** The word index and shift count that `Set` and `Clear` compute. */
  lemma BitPosition(nbit: int)
    ensures nbit >= 0 ==> TruncDiv(nbit, 64) == nbit / 64 && AsUint(TruncMod(nbit, 64)) == nbit % 64
    ensures -64 < nbit < 0 ==> TruncDiv(nbit, 64) == 0 && AsUint(TruncMod(nbit, 64)) >= 64
    ensures nbit <= -64 ==> TruncDiv(nbit, 64) < 0
  {
  }

  lemma MembersUpdate(words: MaskWords, i: nat, w: Word)
    requires i < CPUMASK_NUM
    ensures forall b :: b in Members(words[i := w]) <==>
                        if b / 64 == i then b % 64 in Bits(w) else b in Members(words)
  {
  }

  lemma FirstWord(k: nat, lowOnes: Word)
    requires lowOnes == (ShlOne(k) - 1) % WORD_LIMIT
    ensures k < 64 ==> forall j: nat :: j < 64 ==> (j in Bits(lowOnes) <==> j < k)
    ensures k >= 64 ==> forall j: nat :: j < 64 ==> j in Bits(lowOnes)
  {
    if k < 64 {
      assert lowOnes == LowOnes(k);
    } else {
      Pow2Values();
      forall j: nat | j < 64 ensures Bit(lowOnes, j) { LowMaskAt(64, j); }
    }
  }

  function MembersBelow(words: MaskWords, n: nat): set<int> {
    set b: int | 0 <= b < n && b in Members(words)
  }

  lemma MembersOfWord(words: MaskWords, i: nat)
    requires i < CPUMASK_NUM
    ensures |MembersBelow(words, 64 * (i + 1))| == |MembersBelow(words, 64 * i)| + |Bits(words[i])|
  {
    var shifted := set k | k in Bits(words[i]) :: 64 * i + k;
    ShiftKeepsSize(Bits(words[i]), 64 * i, shifted);
    forall b ensures b in MembersBelow(words, 64 * (i + 1)) <==> b in MembersBelow(words, 64 * i) + shifted {
      if 64 * i <= b < 64 * (i + 1) {
        MemberAt(words, i, b - 64 * i);
        assert b in shifted <==> b - 64 * i in Bits(words[i]) by {
          if b - 64 * i in Bits(words[i]) { assert 64 * i + (b - 64 * i) in shifted; }
        }
      }
    }
    assert MembersBelow(words, 64 * (i + 1)) == MembersBelow(words, 64 * i) + shifted;
    assert MembersBelow(words, 64 * i) !! shifted;
  }

  lemma {:induction false} ShiftKeepsSize(s: set<nat>, c: int, shifted: set<int>)
    requires shifted == set k | k in s :: c + k
    ensures |shifted| == |s|
  {
    if s != {} {
      var x :| x in s;
      var s', shifted' := s - {x}, shifted - {c + x};
      assert shifted' == set k | k in s' :: c + k by {
        forall y ensures y in shifted' <==> y - c in s' {
          if y in shifted { assert y - c in s; }
          if y - c in s' { assert c + (y - c) in shifted; }
        }
        forall y ensures y in shifted' <==> y in (set k | k in s' :: c + k) {
          if y - c in s' { assert c + (y - c) in (set k | k in s' :: c + k); }
        }
      }
      ShiftKeepsSize(s', c, shifted');
      assert s == s' + {x} && shifted == shifted' + {c + x};
    } else {
      assert shifted == {};
    }
  }
}
