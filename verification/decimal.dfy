/** Score display: the decimal rendering of the score, its zero padding, and the
    numeric reading of displayed texts that the high-score comparison relies on. */
module Decimal {

  datatype Option<T> = None | Some(value: T)

  /** Number of characters the score display is padded to. */
  const Width: nat := 5

  /** Prefix written in front of the high score. */
  const HighScorePrefix: string := "HI "

  predicate IsDigit(c: char) {
    '0' <= c <= '9'
  }

  predicate IsDigitString(s: string) {
    forall i :: 0 <= i < |s| ==> IsDigit(s[i])
  }

  function DigitChar(d: nat): (c: char)
    requires d < 10
    ensures IsDigit(c)
  {
    (d + '0' as int) as char
  }

  function DigitValue(c: char): (d: nat)
    requires IsDigit(c)
    ensures d < 10 && DigitChar(d) == c
  {
    c as int - '0' as int
  }

  function Pow10(k: nat): (p: nat)
    ensures p >= 1
  {
    if k == 0 then 1 else 10 * Pow10(k - 1)
  }

  /** A string of k zero characters. */
  function Zeros(k: nat): (z: string)
    ensures |z| == k && IsDigitString(z)
    ensures forall i :: 0 <= i < k ==> z[i] == '0'
  {
    seq(k, _ => '0')
  }

  /** Numeric value of a string of decimal digits, most significant digit first. */
  function Value(s: string): nat
    requires IsDigitString(s)
  {
    if s == [] then 0 else 10 * Value(s[..|s| - 1]) + DigitValue(s[|s| - 1])
  }

  /** JavaScript's `Number(text)` on the texts the displays can hold: a string of decimal
      digits reads as its value (the empty string as 0), anything else reads as NaN (None). */
  function ParseNumber(s: string): (r: Option<nat>)
    ensures r.Some? <==> IsDigitString(s)
    ensures r.Some? ==> r.value < Pow10(|s|)
  {
    if IsDigitString(s) then
      ValueBound(s);
      Some(Value(s))
    else None
  }

  /** JavaScript's `a > b` on two numbers read by `ParseNumber`: false when either is NaN. */
  function Greater(a: Option<nat>, b: Option<nat>): (g: bool)
    ensures g ==> a.Some? && b.Some? && a.value > b.value
    ensures a == b ==> !g
  {
    a.Some? && b.Some? && a.value > b.value
  }

  /** `>` with NaN: false in both directions; on numbers a strict total order. */
  lemma GreaterOrder(a: Option<nat>, b: Option<nat>, c: Option<nat>)
    ensures a.None? || b.None? ==> !Greater(a, b) && !Greater(b, a)
    ensures !(Greater(a, b) && Greater(b, a))
    ensures Greater(a, b) && Greater(b, c) ==> Greater(a, c)
    ensures a.Some? && b.Some? ==> Greater(a, b) || Greater(b, a) || a == b
  {
  }

  /** `String(n)` for a non-negative integer: its decimal digits, without leading zeros. */
  function DecimalString(n: nat): (s: string)
    ensures IsDigitString(s) && |s| >= 1
  {
    if n < 10 then [DigitChar(n)] else DecimalString(n / 10) + [DigitChar(n % 10)]
  }

  /** The `while (digits.length < width) digits.unshift(0)` loop: prepend zeros until the
      text is `width` long; a longer text is left as it is. */
  function PadLeft(s: string, width: nat): string
    decreases width - |s|
  {
    if |s| < width then PadLeft("0" + s, width) else s
  }

  /** `text.slice(-k)`: the last k characters, or the whole of a shorter text. Since `-0` is
      `0`, `slice(-0)` is the whole text as well. */
  function SliceLast(s: string, k: nat): (r: string)
    ensures |r| == if k == 0 || |s| < k then |s| else k
    ensures r == s[|s| - |r|..]
  {
    if k == 0 || |s| <= k then s else s[|s| - k..]
  }

  /** The score display: `String(score)` with every digit mapped through `Number` and joined
      back (the identity on digit strings), zero-padded to five characters. Its numeric value
      is always the score, and it is exactly five digits long precisely for scores below 100000. */
  function ScoreText(score: nat): (t: string)
    ensures IsDigitString(t) && |t| >= Width
    ensures |t| == Width <==> score < Pow10(Width)
  {
    var s := DecimalString(score);
    PadLeftShape(s, Width);
    ValueOfZerosPrefix(if |s| < Width then Width - |s| else 0, s);
    DecimalStringLength(score, Width);
    PadLeft(s, Width)
  }

  /** The score display reads back as the score: zero padding adds no value. */
  lemma ScoreTextValue(score: nat)
    ensures Value(ScoreText(score)) == score
  {
    var s := DecimalString(score);
    PadLeftShape(s, Width);
    ValueOfDecimalString(score);
    ValueOfZerosPrefix(if |s| < Width then Width - |s| else 0, s);
  }

  /** The high-score text written at game-over: the prefix followed by the chosen digits.
      Taking its last five characters gives back a five-character choice. */
  function HighScoreLabel(digits: string): (text: string)
    ensures |digits| == Width ==> SliceLast(text, Width) == digits
    ensures |text| == |HighScorePrefix| + |digits|
  {
    HighScorePrefix + digits
  }

  /** A high-score text whose last five characters are five digits. */
  predicate HighWellFormed(h: string) {
    var d := SliceLast(h, Width);
    |d| == Width && IsDigitString(d)
  }

  /** The high score a high-score text stands for: the value of its last five characters. */
  function HighScoreValue(h: string): nat
    requires HighWellFormed(h)
  {
    Value(SliceLast(h, Width))
  }

  // ---------------------------------------------------------------------------------------
  // Lemmas

  /** A digit string of length n stands for a number below 10^n. */
  lemma {:induction false} ValueBound(s: string)
    requires IsDigitString(s)
    ensures Value(s) < Pow10(|s|)
  {
    if s != [] {
      ValueBound(s[..|s| - 1]);
    }
  }

  lemma {:induction false} PadLeftShape(s: string, width: nat)
    ensures PadLeft(s, width) == if |s| < width then Zeros(width - |s|) + s else s
    decreases width - |s|
  {
    if |s| < width {
      PadLeftShape("0" + s, width);
      assert Zeros(width - |s|) == Zeros(width - |s| - 1) + "0";
      assert Zeros(width - |s| - 1) + ("0" + s) == Zeros(width - |s|) + s;
    }
  }

  lemma {:induction false} ValueOfDecimalString(n: nat)
    ensures Value(DecimalString(n)) == n
  {
    if n >= 10 {
      var p := DecimalString(n / 10);
      ValueOfDecimalString(n / 10);
      assert (p + [DigitChar(n % 10)])[..|p|] == p;
    }
  }

  lemma {:induction false} ValueOfZeros(k: nat)
    ensures Value(Zeros(k)) == 0
  {
    if k > 0 {
      assert Zeros(k)[..k - 1] == Zeros(k - 1);
      ValueOfZeros(k - 1);
    }
  }

  /** Leading zeros do not change the value of a digit string. */
  lemma {:induction false} ValueOfZerosPrefix(k: nat, s: string)
    requires IsDigitString(s)
    ensures IsDigitString(Zeros(k) + s)
    ensures Value(Zeros(k) + s) == Value(s)
    decreases |s|
  {
    var z := Zeros(k) + s;
    if s == [] {
      assert z == Zeros(k);
      ValueOfZeros(k);
    } else {
      var p := s[..|s| - 1];
      ValueOfZerosPrefix(k, p);
      assert z[..|z| - 1] == Zeros(k) + p;
    }
  }

  /** `String(n)` has at most k digits exactly when n < 10^k. */
  lemma {:induction false} DecimalStringLength(n: nat, k: nat)
    requires k >= 1
    ensures |DecimalString(n)| <= k <==> n < Pow10(k)
  {
    if k > 1 {
      assert Pow10(k) == 10 * Pow10(k - 1);
      assert Pow10(k - 1) >= 1;
    }
    if n >= 10 {
      if k == 1 {
        assert |DecimalString(n)| == |DecimalString(n / 10)| + 1;
      } else {
        DecimalStringLength(n / 10, k - 1);
      }
    }
  }

  /** A digit string of value zero consists of zeros only. */
  lemma {:induction false} ZeroValueIsZeros(p: string)
    requires IsDigitString(p) && Value(p) == 0
    ensures p == Zeros(|p|)
  {
    if p != [] {
      var q := p[..|p| - 1];
      ZeroValueIsZeros(q);
      assert DigitValue(p[|p| - 1]) == 0;
      assert p == q + [p[|p| - 1]];
    }
  }

  /** Reading a digit string and rendering its value zero-padded to the string's own length
      gives the string back. */
  lemma {:induction false} PaddedDecimalOfValue(t: string)
    requires IsDigitString(t) && |t| >= 1
    ensures PadLeft(DecimalString(Value(t)), |t|) == t
  {
    var p := t[..|t| - 1];
    var c := t[|t| - 1];
    var v := Value(t);
    assert t == p + [c];
    assert v == 10 * Value(p) + DigitValue(c);
    if Value(p) == 0 {
      assert DecimalString(v) == [c];
      PadLeftShape([c], |t|);
      if |t| > 1 {
        ZeroValueIsZeros(p);
      }
    } else {
      assert |t| > 1;
      var d := DecimalString(Value(p));
      assert v / 10 == Value(p) && v % 10 == DigitValue(c);
      assert DecimalString(v) == d + [c];
      PaddedDecimalOfValue(p);
      PadLeftShape(d, |p|);
      PadLeftShape(d + [c], |t|);
      if |d| < |p| {
        assert Zeros(|t| - |d| - 1) + (d + [c]) == (Zeros(|p| - |d|) + d) + [c];
      }
    }
  }

  /** The score display and the numeric reading are inverse on five-digit texts: every
      five-digit text is the display of its own value. */
  lemma ScoreTextOfValue(t: string)
    requires IsDigitString(t) && |t| == Width
    ensures ScoreText(Value(t)) == t
  {
    PaddedDecimalOfValue(t);
  }

  /** Below 100000 the display round-trips: five digits, reading back as the score, and
      recovered from the high-score label by taking its last five characters. */
  lemma ScoreTextRoundTrip(score: nat)
    requires score < 100000
    ensures |ScoreText(score)| == Width && IsDigitString(ScoreText(score))
    ensures ParseNumber(ScoreText(score)) == Some(score)
    ensures SliceLast(HighScoreLabel(ScoreText(score)), Width) == ScoreText(score)
  {
    ScoreTextValue(score);
    assert Pow10(Width) == 100000;
  }

  /** The displays on either side of the five-digit limit. */
  lemma DisplayOf99999And100000()
    ensures ScoreText(99999) == "99999" && Value("99999") == 99999
    ensures ScoreText(100000) == "100000"
  {
    ScoreTextValue(99999);
    assert DecimalString(99999) == "99999";
    assert DecimalString(100000) == "100000";
  }
}
