/** Schoolbook multiplication of decimal texts (analysis/engine/utils/utils.py, get_multiple_res). */
module LongMultiplication {
  import opened Prelude
  import opened Texts

  // ---- numbers of texts ----

  function Pow10(n: nat): (p: nat)
    ensures p >= 1
  {
    if n == 0 then 1 else 10 * Pow10(n - 1)
  }

  lemma {:induction false} Pow10Add(a: nat, b: nat)
    ensures Pow10(a + b) == Pow10(a) * Pow10(b)
  {
    if a > 0 {
      Pow10Add(a - 1, b);
      Associate(10, Pow10(a - 1), Pow10(b));
    }
  }

  lemma Associate(x: int, y: int, z: int)
    ensures x * (y * z) == x * y * z
  {
  }

  lemma {:induction false} ValBound(t: string)
    ensures Val(t) < Pow10(|t|)
  {
    if t != "" {
      ValBound(t[..|t| - 1]);
    }
  }

  /** The digit in front of a text counts for the power of its length. */
  lemma {:induction false} ValFront(c: char, t: string)
    ensures Val([c] + t) == DigitOf(c) * Pow10(|t|) + Val(t)
  {
    var whole := [c] + t;
    if t == "" {
      assert whole[..0] == "" && Val(whole[..0]) == 0;
    } else {
      var front := t[..|t| - 1];
      assert whole[..|whole| - 1] == [c] + front && whole[|whole| - 1] == t[|t| - 1];
      ValFront(c, front);
      Associate(DigitOf(c), 10, Pow10(|front|));
    }
  }

  function StripZeros(t: string): string {
    if t != "" && t[0] == '0' then StripZeros(t[1..]) else t
  }

  lemma CanonicalNext(n: nat, d: nat)
    requires d <= 9 && 10 * n + d > 0
    ensures Canonical(10 * n + d) == Canonical(n) + [CharOf(d)]
  {
    var m := 10 * n + d;
    assert m / 10 == n && m % 10 == d;
  }

  /** A text of digits is determined by its number, leading zeros apart. */
  lemma {:induction false} CanonicalOfVal(t: string)
    requires Digits(t) && (t == "" || t[0] != '0')
    ensures Canonical(Val(t)) == t
  {
    if t != "" {
      var front, last := t[..|t| - 1], t[|t| - 1];
      CanonicalOfVal(front);
      CharOfDigit(last);
      if front == "" {
        assert last != '0' && Val(front) == 0;
      } else {
        assert Val(front) > 0;
      }
      CanonicalNext(Val(front), DigitOf(last));
      assert t == front + [last];
    }
  }

  lemma CharOfDigit(c: char)
    requires IsDigit(c)
    ensures CharOf(DigitOf(c)) == c && (DigitOf(c) == 0 <==> c == '0')
  {
  }

  lemma {:induction false} StripZerosIsCanonical(t: string)
    requires Digits(t)
    ensures StripZeros(t) == Canonical(Val(t))
  {
    if t != "" && t[0] == '0' {
      StripZerosIsCanonical(t[1..]);
      ValFront('0', t[1..]);
      assert t == ['0'] + t[1..];
      assert Val(t) == 0 * Pow10(|t| - 1) + Val(t[1..]);
    } else {
      CanonicalOfVal(t);
    }
  }

  /** Python's text[:-floats]: short texts become empty. */
  function Chop(t: string, floats: nat): string {
    if |t| <= floats then "" else t[..|t| - floats]
  }

  /** A number after dropping its last digits. */
  function Rounded(n: nat, floats: nat): nat {
    if floats == 0 then n else Rounded(n / 10, floats - 1)
  }

  /** That is the quotient by the power of ten, rounded down. */
  lemma {:induction false} RoundedIsQuotient(n: nat, floats: nat)
    ensures Rounded(n, floats) * Pow10(floats) <= n < (Rounded(n, floats) + 1) * Pow10(floats)
  {
    if floats > 0 {
      var q, p := Rounded(n / 10, floats - 1), Pow10(floats - 1);
      RoundedIsQuotient(n / 10, floats - 1);
      Associate(q, 10, p);
      Associate(q + 1, 10, p);
      Associate(10, q, p);
      Associate(10, q + 1, p);
    }
  }

  lemma {:induction false} RoundedTwice(n: nat, a: nat, b: nat)
    ensures Rounded(n, a + b) == Rounded(Rounded(n, a), b)
  {
    if a > 0 {
      RoundedTwice(n / 10, a - 1, b);
    }
  }

  lemma {:induction false} RoundedShrinks(n: nat, floats: nat)
    ensures Rounded(n, floats) <= n
    ensures floats > 0 && Rounded(n, floats) == n ==> n == 0
  {
    if floats > 0 {
      RoundedShrinks(n / 10, floats - 1);
    }
  }

  lemma ChopLast(n: nat, floats: nat)
    requires floats > 0
    ensures Chop(Canonical(n), floats) == Chop(Canonical(n / 10), floats - 1)
  {
    if n > 0 {
      var t, front := Canonical(n), Canonical(n / 10);
      assert t == front + [CharOf(n % 10)];
      if |front| > floats - 1 {
        assert t[..|t| - floats] == front[..|front| - (floats - 1)];
      }
    }
  }

  /** Dropping characters from the end of the text rounds the number. */
  lemma {:induction false} ChopDivides(n: nat, floats: nat)
    ensures Chop(Canonical(n), floats) == Canonical(Rounded(n, floats))
  {
    if floats > 0 {
      ChopDivides(n / 10, floats - 1);
      ChopLast(n, floats);
    }
  }

  // ---- the array of cells ----

  /** The number that cells, most significant first, denote, whatever their sizes. */
  function Cells(s: seq<int>): int {
    if s == [] then 0 else 10 * Cells(s[..|s| - 1]) + s[|s| - 1]
  }

  lemma {:induction false} AddAt(s: seq<int>, p: nat, d: int)
    requires p < |s|
    ensures Cells(s[p := s[p] + d]) == Cells(s) + d * Pow10(|s| - 1 - p)
  {
    var last := |s| - 1;
    var t := s[p := s[p] + d];
    if p < last {
      assert t[..last] == s[..last][p := s[..last][p] + d];
      AddAt(s[..last], p, d);
      Associate(10, d, Pow10(last - 1 - p));
      Associate(d, 10, Pow10(last - 1 - p));
    } else {
      assert t[..last] == s[..last];
    }
  }

  lemma {:induction false} ZeroCells(s: seq<int>)
    requires forall p :: 0 <= p < |s| ==> s[p] == 0
    ensures Cells(s) == 0
  {
    if s != [] {
      ZeroCells(s[..|s| - 1]);
    }
  }

  predicate Nonnegative(s: seq<int>) {
    forall p :: 0 <= p < |s| ==> s[p] >= 0
  }

  lemma {:induction false} LeadingCell(s: seq<int>)
    requires s != [] && Nonnegative(s)
    ensures s[0] * Pow10(|s| - 1) <= Cells(s)
  {
    if |s| > 1 {
      LeadingCell(s[..|s| - 1]);
      Associate(s[0], 10, Pow10(|s| - 2));
    }
  }

  lemma ProductBound(a: nat, b: nat, p: nat, q: nat)
    requires a < p && b < q
    ensures a * b < p * q
  {
    assert a * b <= a * q;
    assert a * q < p * q;
  }

  /** The text of cells that are digits. */
  function TextOf(s: seq<int>): (t: string)
    requires forall p :: 0 <= p < |s| ==> 0 <= s[p] <= 9
    ensures |t| == |s|
  {
    if s == [] then "" else TextOf(s[..|s| - 1]) + [CharOf(s[|s| - 1])]
  }

  lemma {:induction false} TextOfDenotes(s: seq<int>)
    requires forall p :: 0 <= p < |s| ==> 0 <= s[p] <= 9
    ensures Digits(TextOf(s)) && Val(TextOf(s)) == Cells(s)
  {
    if s != [] {
      TextOfDenotes(s[..|s| - 1]);
      assert TextOf(s)[..|s| - 1] == TextOf(s[..|s| - 1]);
    }
  }

  /** Moving a carry one cell up keeps the number. */
  lemma CarryKeeps(s: seq<int>, i: nat)
    requires 0 < i < |s|
    ensures Cells(s[i - 1 := s[i - 1] + s[i] / 10][i := s[i] % 10]) == Cells(s)
  {
    var q := s[i] / 10;
    var up := s[i - 1 := s[i - 1] + q];
    AddAt(s, i - 1, q);
    AddAt(up, i, -10 * q);
    assert up[i] + -10 * q == s[i] % 10;
    Associate(q, 10, Pow10(|s| - 1 - i));
    Associate(-10, q, Pow10(|s| - 1 - i));
    Associate(10, q, Pow10(|s| - 1 - i));
  }

  lemma RowStep(x: int, a: int, d: int, b: int, v: int)
    ensures x * a * (d * b + v) == x * a * v + x * d * (a * b)
  {
    calc {
      x * a * (d * b + v);
      x * a * (d * b) + x * a * v;
      { Associate(x, a, d * b); Associate(a, d, b); Associate(d, a, b); Associate(x, d, a * b); }
      x * d * (a * b) + x * a * v;
    }
  }

  /** The cells after one more digit of a row. */
  lemma DigitAdded(s: seq<int>, x: nat, a: nat, mul: string, j: nat, p: nat, before: int)
    requires Digits(mul) && j < |mul| && p < |s| && |s| - 1 - p == a + (|mul| - 1 - j)
    requires Cells(s) == before + x * Pow10(a) * Val(mul[j + 1..])
    ensures Cells(s[p := s[p] + x * DigitOf(mul[j])]) == before + x * Pow10(a) * Val(mul[j..])
  {
    var d, b, v := DigitOf(mul[j]), Pow10(|mul| - 1 - j), Val(mul[j + 1..]);
    assert mul[j..] == [mul[j]] + mul[j + 1..];
    ValFront(mul[j], mul[j + 1..]);
    AddAt(s, p, x * d);
    Pow10Add(a, |mul| - 1 - j);
    RowStep(x, Pow10(a), d, b, v);
  }

  lemma ProductNonnegative(x: nat, y: nat)
    ensures x * y >= 0
  {
  }

  /** One row: a digit of the value times every digit of the multiplier. */
  method AddRow(cells: array<int>, value: string, mul: string, i: nat)
    requires Digits(value) && Digits(mul) && i < |value| && cells.Length == |value| + |mul|
    requires Nonnegative(cells[..])
    modifies cells
    ensures Nonnegative(cells[..])
    ensures Cells(cells[..]) == Cells(old(cells[..])) + DigitOf(value[i]) * Pow10(|value| - 1 - i) * Val(mul)
  {
    var x: nat := DigitOf(value[i]);
    ghost var a, before := |value| - 1 - i, Cells(cells[..]);
    var j := |mul|;
    while j > 0
      invariant 0 <= j <= |mul|
      invariant Nonnegative(cells[..])
      invariant Cells(cells[..]) == before + x * Pow10(a) * Val(mul[j..])
    {
      j := j - 1;
      DigitAdded(cells[..], x, a, mul, j, i + j + 1, before);
      ProductNonnegative(x, DigitOf(mul[j]));
      ghost var next := cells[..][i + j + 1 := cells[i + j + 1] + x * DigitOf(mul[j])];
      cells[i + j + 1] := cells[i + j + 1] + x * DigitOf(mul[j]);
      assert cells[..] == next;
    }
    assert mul[0..] == mul;
  }

  /** The first pass: after it the cells denote the product, though a cell may exceed nine. */
  method AddRows(cells: array<int>, value: string, mul: string)
    requires Digits(value) && Digits(mul) && cells.Length == |value| + |mul|
    requires forall p :: 0 <= p < cells.Length ==> cells[p] == 0
    modifies cells
    ensures Nonnegative(cells[..]) && Cells(cells[..]) == Val(value) * Val(mul)
  {
    ZeroCells(cells[..]);
    var i := |value|;
    while i > 0
      invariant 0 <= i <= |value|
      invariant Nonnegative(cells[..])
      invariant Cells(cells[..]) == Val(value[i..]) * Val(mul)
    {
      i := i - 1;
      AddRow(cells, value, mul, i);
      assert value[i..] == [value[i]] + value[i + 1..];
      ValFront(value[i], value[i + 1..]);
      Distribute(Val(value[i + 1..]), DigitOf(value[i]) * Pow10(|value| - 1 - i), Val(mul));
    }
    assert value[0..] == value;
  }

  lemma Distribute(a: int, b: int, c: int)
    ensures (b + a) * c == a * c + b * c
  {
  }

  /** The second pass leaves the number as it is and makes every cell but the first a digit. */
  method Carry(cells: array<int>)
    requires cells.Length > 0 && Nonnegative(cells[..])
    modifies cells
    ensures Cells(cells[..]) == Cells(old(cells[..])) && Nonnegative(cells[..])
    ensures forall p :: 0 < p < cells.Length ==> cells[p] <= 9
  {
    var i := cells.Length - 1;
    while i > 0
      invariant 0 <= i < cells.Length
      invariant Cells(cells[..]) == Cells(old(cells[..])) && Nonnegative(cells[..])
      invariant forall p :: i < p < cells.Length ==> cells[p] <= 9
    {
      CarryKeeps(cells[..], i);
      ghost var next := cells[..][i - 1 := cells[i - 1] + cells[i] / 10][i := cells[i] % 10];
      cells[i - 1] := cells[i - 1] + cells[i] / 10;
      cells[i] := cells[i] % 10;
      assert cells[..] == next;
      i := i - 1;
    }
  }

  lemma ProductBelow(value: string, mul: string)
    ensures Val(value) * Val(mul) < Pow10(|value| + |mul|)
  {
    ValBound(value);
    ValBound(mul);
    ProductBound(Val(value), Val(mul), Pow10(|value|), Pow10(|mul|));
    Pow10Add(|value|, |mul|);
  }

  /** After both passes the first cell is a digit too. */
  lemma FirstCellIsDigit(s: seq<int>, value: string, mul: string)
    requires Digits(value) && Digits(mul) && |s| == |value| + |mul| > 0 && Nonnegative(s)
    requires Cells(s) == Val(value) * Val(mul)
    ensures s[0] <= 9
  {
    ProductBelow(value, mul);
    LeadingCell(s);
    TimesBelow(s[0], 10, Pow10(|s| - 1));
  }

  // ---- one text of the result ----

  datatype Result<T> = Ok(value: T) | ValueError | IndexError

  /** The digits of the product of a value and the multiplier, both without their dots: every cell
  is a digit and together they denote the product. A character that is no digit is an error when
  the loops reach it. */
  method Multiply(value: string, mul: string) returns (r: Result<seq<int>>)
    ensures r == ValueError <==> value != "" && !(Digits(value) && Digits(mul))
    ensures r == IndexError <==> value == "" && mul == ""
    ensures r.Ok? ==> |r.value| == |value| + |mul| > 0 && forall p :: 0 <= p < |r.value| ==> 0 <= r.value[p] <= 9
    ensures r.Ok? ==> Cells(r.value) == if value == "" then 0 else Val(value) * Val(mul)
  {
    var cells := new int[|value| + |mul|](_ => 0);
    ZeroCells(cells[..]);
    if value != "" {
      var digits := forall i :: 0 <= i < |value| ==> IsDigit(value[i]);
      var mulDigits := forall j :: 0 <= j < |mul| ==> IsDigit(mul[j]);
      if !digits || !mulDigits {
        return ValueError;
      }
      AddRows(cells, value, mul);
    } else if mul == "" {
      return IndexError;
    }
    Carry(cells);
    if value != "" {
      FirstCellIsDigit(cells[..], value, mul);
    } else {
      LeadingCell(cells[..]);
      assert cells[0] * Pow10(|mul| - 1) >= cells[0];
    }
    return Ok(cells[..]);
  }

  // ---- the whole text ----

  /** A text with its dot, if it has exactly one, removed; `fraction` counts the characters that
  stood behind it. */
  datatype Decimal = Decimal(digits: string, fraction: nat)

  function Parse(t: string): Decimal {
    if |Split(t, '.')| == 2 then Decimal(Split(t, '.')[0] + Split(t, '.')[1], |Split(t, '.')[1]|) else Decimal(t, 0)
  }

  lemma {:induction false} SplitDigits(t: string)
    requires Digits(t)
    ensures Split(t, '.') == [t] && Parse(t) == Decimal(t, 0)
  {
    if t != "" {
      SplitDigits(t[..|t| - 1]);
      assert t == t[..|t| - 1] + [t[|t| - 1]];
    }
  }

  lemma {:induction false} SplitDecimal(whole: string, fraction: string)
    requires Digits(whole) && Digits(fraction)
    ensures Split(whole + "." + fraction, '.') == [whole, fraction]
    ensures Parse(whole + "." + fraction) == Decimal(whole + fraction, |fraction|)
  {
    var t := whole + "." + fraction;
    if fraction == "" {
      assert t[..|t| - 1] == whole && t[|t| - 1] == '.';
      SplitDigits(whole);
    } else {
      var front := fraction[..|fraction| - 1];
      assert t[..|t| - 1] == whole + "." + front;
      SplitDecimal(whole, front);
      assert fraction == front + [fraction[|fraction| - 1]];
      assert t[|t| - 1] == fraction[|fraction| - 1];
    }
  }

  /** The digits behind the dot of the multiplier and of the first n values. */
  function Floats(values: seq<Decimal>, mul: Decimal, n: nat): nat
    requires n <= |values|
  {
    if n == 0 then mul.fraction else Floats(values, mul, n - 1) + values[n - 1].fraction
  }

  /** The product of a value and the multiplier, without their dots. */
  function Product(value: Decimal, mul: Decimal): nat {
    Times(Val(value.digits), Val(mul.digits))
  }

  /** The number for the k-th value: the product without dots, less the digits behind the dots of
  the multiplier and of every value so far. */
  function NumberFor(values: seq<Decimal>, mul: Decimal, k: nat): nat
    requires k < |values|
  {
    Rounded(Product(values[k], mul), Floats(values, mul, k + 1))
  }

  function Outcome(values: seq<Decimal>, mul: Decimal, k: nat): Result<string>
    requires k < |values|
  {
    if values[k].digits != "" && !(Digits(values[k].digits) && Digits(mul.digits)) then ValueError
    else if values[k].digits == "" && mul.digits == "" then IndexError
    else Ok(Canonical(NumberFor(values, mul, k)))
  }

  /** A value error comes of a value that is not empty, if it or the multiplier has a character that is no
  digit; an index error of a value and a multiplier that are both empty. */
  lemma ErrorsOfOutcome(values: seq<Decimal>, mul: Decimal, k: nat)
    requires k < |values|
    ensures Outcome(values, mul, k) == ValueError <==>
      var value, factor := values[k].digits, mul.digits;
      |value| > 0 && exists c :: (c in value || c in factor) && !('0' <= c <= '9')
    ensures Outcome(values, mul, k) == IndexError <==> |values[k].digits| == 0 && |mul.digits| == 0
  {
    DigitsMeans(values[k].digits);
    DigitsMeans(mul.digits);
  }

  lemma DigitsMeans(t: string)
    ensures Digits(t) <==> forall c :: c in t ==> '0' <= c <= '9'
  {
    assert forall i :: 0 <= i < |t| ==> t[i] in t;
  }

  function Outcomes(values: seq<Decimal>, mul: Decimal, n: nat): (outcomes: seq<Result<string>>)
    requires n <= |values|
    ensures |outcomes| == n
  {
    if n == 0 then [] else Outcomes(values, mul, n - 1) + [Outcome(values, mul, n - 1)]
  }

  /** The texts, each followed by a space, or the first error. */
  function Combined(outcomes: seq<Result<string>>): Result<string> {
    if outcomes == [] then Ok("")
    else
      match Combined(outcomes[..|outcomes| - 1])
      case Ok(t) => (match outcomes[|outcomes| - 1] case Ok(u) => Ok(t + u + " ") case error => error)
      case error => error
  }

  /** The whole is an error exactly when some value has one, and then it is the first such. */
  lemma {:induction false} CombinedIsFirstError(outcomes: seq<Result<string>>)
    ensures Combined(outcomes).Ok? <==> forall k :: 0 <= k < |outcomes| ==> outcomes[k].Ok?
    ensures forall k: nat :: IsFirstError(outcomes, k) ==> Combined(outcomes) == outcomes[k]
  {
    if outcomes != [] {
      var front := outcomes[..|outcomes| - 1];
      CombinedIsFirstError(front);
      forall k: nat | IsFirstError(outcomes, k) ensures Combined(outcomes) == outcomes[k] {
        if k < |front| {
          assert front[k] == outcomes[k] && IsFirstError(front, k);
        }
      }
    }
  }

  predicate IsFirstError(outcomes: seq<Result<string>>, k: nat) {
    k < |outcomes| && !outcomes[k].Ok? && forall i :: 0 <= i < k ==> outcomes[i].Ok?
  }

  lemma {:induction false} OutcomesPrefix(values: seq<Decimal>, mul: Decimal, n: nat, m: nat)
    requires n <= m <= |values|
    ensures Outcomes(values, mul, m)[..n] == Outcomes(values, mul, n)
  {
    if n < m {
      OutcomesPrefix(values, mul, n, m - 1);
    }
  }

  /** An error of the n-th value, after texts only, is the whole result. */
  lemma ErrorStays(values: seq<Decimal>, mul: Decimal, n: nat)
    requires n < |values| && Combined(Outcomes(values, mul, n)).Ok? && !Outcome(values, mul, n).Ok?
    ensures Combined(Outcomes(values, mul, |values|)) == Outcome(values, mul, n)
  {
    var all, before := Outcomes(values, mul, |values|), Outcomes(values, mul, n);
    OutcomesPrefix(values, mul, n, |values|);
    OutcomesPrefix(values, mul, n + 1, |values|);
    assert all[n] == all[..n + 1][n] == Outcome(values, mul, n);
    CombinedIsFirstError(before);
    CombinedIsFirstError(all);
    forall i | 0 <= i < n ensures all[i].Ok? {
      assert all[i] == before[i];
    }
    assert IsFirstError(all, n);
  }

  lemma CombineNext(outcomes: seq<Result<string>>, t: string)
    requires Combined(outcomes).Ok?
    ensures Combined(outcomes + [Ok(t)]) == Ok(Combined(outcomes).value + t + " ")
  {
    assert (outcomes + [Ok(t)])[..|outcomes|] == outcomes;
  }

  function AllOk(texts: seq<string>): (outcomes: seq<Result<string>>)
    ensures |outcomes| == |texts| && forall k :: 0 <= k < |texts| ==> outcomes[k] == Ok(texts[k])
  {
    seq(|texts|, k requires 0 <= k < |texts| => Ok(texts[k]))
  }

  /** Without an error the texts are joined by spaces, with one more at the end. */
  lemma {:induction false} CombinedIsJoined(texts: seq<string>)
    requires texts != []
    ensures Combined(AllOk(texts)) == Ok(Joined(texts, ' ') + " ")
  {
    var n := |texts| - 1;
    assert AllOk(texts) == AllOk(texts[..n]) + [Ok(texts[n])];
    if n == 0 {
      assert AllOk(texts[..0]) == [];
      CombineNext([], texts[0]);
      assert "" + texts[0] == texts[0];
    } else {
      var front := Joined(texts[..n], ' ');
      CombinedIsJoined(texts[..n]);
      CombineNext(AllOk(texts[..n]), texts[n]);
      assert Joined(texts, ' ') == front + " " + texts[n];
    }
  }

  lemma {:induction false} SkipZeroCell(s: seq<int>)
    requires s != [] && s[0] == 0
    ensures Cells(s[1..]) == Cells(s)
  {
    if |s| > 1 {
      assert s[1..][..|s| - 2] == s[..|s| - 1][1..];
      SkipZeroCell(s[..|s| - 1]);
    }
  }

  /** The text of the cells, without leading zeros and without the digits behind the dot. */
  method Emit(cells: seq<int>, floats: nat) returns (t: string)
    requires cells != [] && forall p :: 0 <= p < |cells| ==> 0 <= cells[p] <= 9
    ensures Cells(cells) >= 0 && t == Canonical(Rounded(Cells(cells), floats))
    ensures Digits(t) && Val(t) == Rounded(Cells(cells), floats)
  {
    var index := if cells[0] == 0 then 1 else 0;
    if index == 1 {
      SkipZeroCell(cells);
    }
    var text := TextOf(cells[index..]);
    TextOfDenotes(cells[index..]);
    StripZerosIsCanonical(text);
    ChopDivides(Val(text), floats);
    CanonicalDenotes(Rounded(Val(text), floats));
    if floats != 0 {
      t := Chop(StripZeros(text), floats);
    } else {
      t := StripZeros(text);
    }
  }

  /** One value: the digits behind the dots are dropped from the product. */
  method MultiplyDecimal(value: Decimal, mul: Decimal, floats: nat, ghost values: seq<Decimal>, ghost k: nat)
    returns (r: Result<string>)
    requires k < |values| && value == values[k] && floats == Floats(values, mul, k + 1)
    ensures r == Outcome(values, mul, k)
  {
    var product := Multiply(value.digits, mul.digits);
    match product
    case ValueError => return ValueError;
    case IndexError => return IndexError;
    case Ok(cells) =>
      TimesIsProduct(Val(value.digits), Val(mul.digits));
      var text := Emit(cells, floats);
      return Ok(text);
  }

  function ParseAll(values: seq<string>): seq<Decimal> {
    seq(|values|, k requires 0 <= k < |values| => Parse(values[k]))
  }

  /** All values in turn. The last space goes. */
  method GetMultipleRes(values: seq<string>, mul: string) returns (r: Result<string>)
    ensures var all := Combined(Outcomes(ParseAll(values), Parse(mul), |values|));
      if all.Ok? && values != [] then r.Ok? && Ok(r.value + " ") == all else r == all
  {
    var multiplier := Parse(mul);
    ghost var decimals := ParseAll(values);
    var res, floats := "", multiplier.fraction;
    for n := 0 to |values|
      invariant floats == Floats(decimals, multiplier, n)
      invariant Combined(Outcomes(decimals, multiplier, n)) == Ok(res)
      invariant n > 0 ==> res != "" && res[|res| - 1] == ' '
    {
      var value := Parse(values[n]);
      floats := floats + value.fraction;
      var text := MultiplyDecimal(value, multiplier, floats, decimals, n);
      if !text.Ok? {
        ErrorStays(decimals, multiplier, n);
        return text;
      }
      CombineNext(Outcomes(decimals, multiplier, n), text.value);
      res := res + text.value + " ";
    }
    return Ok(if res == "" then "" else res[..|res| - 1]);
  }

  /** What the caller passes: values of digits only. Each number is the product of the value and
  the multiplier, rounded down. */
  lemma DigitsAreMultiplied(values: seq<string>, mul: string, k: nat)
    requires forall i :: 0 <= i < |values| ==> Digits(values[i])
    requires Digits(Parse(mul).digits) && k < |values| && values[k] != ""
    ensures Outcome(ParseAll(values), Parse(mul), k)
         == Ok(Canonical(Rounded(Times(Val(values[k]), Val(Parse(mul).digits)), Parse(mul).fraction)))
  {
    var decimals := ParseAll(values);
    forall i | 0 <= i < |values| ensures decimals[i] == Decimal(values[i], 0) {
      SplitDigits(values[i]);
    }
    WholeMeans(decimals, k + 1);
    EarlierFractions(decimals, Parse(mul), k + 1);
  }

  /** By a multiplier with a dot, what is behind the dot is rounded away. */
  lemma DottedMultiplier(values: seq<string>, whole: string, fraction: string, k: nat)
    requires forall i :: 0 <= i < |values| ==> Digits(values[i])
    requires Digits(whole) && Digits(fraction) && k < |values| && values[k] != ""
    ensures Outcome(ParseAll(values), Parse(whole + "." + fraction), k)
         == Ok(Canonical(Rounded(Times(Val(values[k]), Val(whole + fraction)), |fraction|)))
  {
    SplitDecimal(whole, fraction);
    DigitsAreMultiplied(values, whole + "." + fraction, k);
  }

  /** By a whole multiplier the number is the product itself. */
  lemma WholeMultiplier(values: seq<string>, mul: string, k: nat)
    requires forall i :: 0 <= i < |values| ==> Digits(values[i])
    requires Digits(mul) && k < |values| && values[k] != ""
    ensures Outcome(ParseAll(values), Parse(mul), k) == Ok(Canonical(Times(Val(values[k]), Val(mul))))
  {
    SplitDigits(mul);
    DigitsAreMultiplied(values, mul, k);
  }

  predicate Whole(values: seq<Decimal>, n: nat)
    requires n <= |values|
  {
    n == 0 || (values[n - 1].fraction == 0 && Whole(values, n - 1))
  }

  lemma {:induction false} WholeMeans(values: seq<Decimal>, n: nat)
    requires n <= |values|
    ensures Whole(values, n) <==> forall i :: 0 <= i < n ==> values[i].fraction == 0
  {
    if n > 0 {
      WholeMeans(values, n - 1);
    }
  }

  lemma {:induction false} EarlierFractions(values: seq<Decimal>, mul: Decimal, n: nat)
    requires n <= |values|
    ensures Floats(values, mul, n) >= mul.fraction
    ensures Floats(values, mul, n) == mul.fraction <==> Whole(values, n)
  {
    if n > 0 {
      EarlierFractions(values, mul, n - 1);
    }
  }

  /** For values with dots the digits behind them add up over the values, so the k-th number is the
  product rounded down exactly when no earlier value has such digits or that product is below 1. */
  lemma RightIffNoEarlierFraction(values: seq<Decimal>, mul: Decimal, k: nat)
    requires k < |values|
    ensures var exact := Rounded(Product(values[k], mul), mul.fraction + values[k].fraction);
      NumberFor(values, mul, k) == exact <==> exact == 0 || Whole(values, k)
  {
    EarlierFractions(values, mul, k);
    RoundingMoreBy(Product(values[k], mul), mul.fraction + values[k].fraction, Floats(values, mul, k + 1));
  }

  lemma RoundingMoreBy(n: nat, own: nat, floats: nat)
    requires own <= floats
    ensures Rounded(n, floats) == Rounded(n, own) <==> floats == own || Rounded(n, own) == 0
  {
    RoundingMore(n, own, floats - own);
    assert own + (floats - own) == floats;
  }

  lemma RoundingMore(n: nat, own: nat, extra: nat)
    ensures Rounded(n, own + extra) == Rounded(n, own) <==> extra == 0 || Rounded(n, own) == 0
  {
    RoundedTwice(n, own, extra);
    RoundedShrinks(Rounded(n, own), extra);
  }

  /** Two values with a dot each, 1.5 and 2.5: the second number is 0, not 2. */
  lemma DotsAddUp()
    ensures var values := [Decimal("15", 1), Decimal("25", 1)];
      NumberFor(values, Decimal("1", 0), 1) == 0 && Rounded(Product(values[1], Decimal("1", 0)), 1) == 2
  {
    var values := [Decimal("15", 1), Decimal("25", 1)];
    TimesIsProduct(25, 1);
    assert "25"[..1] == "2" && "2"[..0] == "";
    assert Val("2") == 2 && Val("25") == 25;
    assert Val("1") == 1;
    assert Floats(values, Decimal("1", 0), 1) == 1 && Floats(values, Decimal("1", 0), 2) == 2;
    assert Rounded(25, 1) == 2 && Rounded(25, 2) == 0;
  }
}
