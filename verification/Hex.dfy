/** Hexadecimal text as the bridge writes and reads it. */
module Hex {
  import opened KeySpace

  /** Lower-case digits, as `{:x}` and `hex::encode` write them. */
  function Digit(n: nat): char
    requires n < 16
  {
    if n < 10 then '0' + n as char else 'a' + (n - 10) as char
  }

  /** `char::to_digit(16)`: both cases are read. */
  function DigitValue(c: char): Option<nat> {
    if '0' <= c <= '9' then Some((c - '0') as nat)
    else if 'a' <= c <= 'f' then Some((c - 'a') as nat + 10)
    else if 'A' <= c <= 'F' then Some((c - 'A') as nat + 10)
    else None
  }

  predicate IsHex(s: string) {
    forall i :: 0 <= i < |s| ==> DigitValue(s[i]).Some?
  }

  function Pow16(n: nat): (p: nat)
    ensures p >= 1
  {
    if n == 0 then 1 else 16 * Pow16(n - 1)
  }

  function Value(s: string): nat
    requires IsHex(s)
  {
    if s == "" then 0 else 16 * Value(s[..|s| - 1]) + DigitValue(s[|s| - 1]).value
  }

  /** `{:0w$x}`: the last `w` digits of `n`; all of them when `n` has no more. */
  function Padded(n: nat, w: nat): (s: string)
    ensures |s| == w
  {
    if w == 0 then "" else Padded(n / 16, w - 1) + [Digit(n % 16)]
  }

  lemma DigitRoundTrip(n: nat)
    requires n < 16
    ensures DigitValue(Digit(n)) == Some(n)
  {
  }

  /** The digits, written out; capitals are read as well. */
  lemma DigitsAre(n: nat)
    requires n < 16
    ensures Digit(n) == "0123456789abcdef"[n] && DigitValue("0123456789ABCDEF"[n]) == Some(n)
  {
  }

  lemma {:induction false} PaddedIsHex(n: nat, w: nat)
    ensures IsHex(Padded(n, w))
  {
    if w > 0 {
      PaddedIsHex(n / 16, w - 1);
      DigitRoundTrip(n % 16);
    }
  }

  /** Text of width `w` stands for exactly the numbers below 16^w. */
  lemma {:induction false} ValueOfPadded(n: nat, w: nat)
    requires n < Pow16(w)
    ensures IsHex(Padded(n, w)) && Value(Padded(n, w)) == n
  {
    PaddedIsHex(n, w);
    if w > 0 {
      ValueOfPadded(n / 16, w - 1);
      DigitRoundTrip(n % 16);
      assert Padded(n, w)[..w - 1] == Padded(n / 16, w - 1);
    }
  }

  lemma {:induction false} ValueBelow(s: string)
    requires IsHex(s)
    ensures Value(s) < Pow16(|s|)
  {
    if s != "" {
      ValueBelow(s[..|s| - 1]);
    }
  }

  lemma ValueSnoc(s: string, c: char)
    requires IsHex(s) && DigitValue(c).Some?
    ensures IsHex(s + [c]) && Value(s + [c]) == 16 * Value(s) + DigitValue(c).value
  {
    assert (s + [c])[..|s|] == s;
  }

  lemma {:induction false} ValueConcat(a: string, b: string)
    requires IsHex(a) && IsHex(b)
    ensures IsHex(a + b) && Value(a + b) == Value(a) * Pow16(|b|) + Value(b)
  {
    if b == "" {
      assert a + b == a;
    } else {
      var init, last := b[..|b| - 1], b[|b| - 1];
      ValueConcat(a, init);
      ValueSnoc(a + init, last);
      assert a + init + [last] == a + b;
      Shift(Value(a), Pow16(|init|));
    }
  }

  lemma Shift(x: nat, p: nat)
    ensures 16 * (x * p) == x * (16 * p)
  {
  }

  lemma Pow16At()
    ensures Pow16(4) == 0x1_0000 && Pow16(12) == 0x1_0000_0000_0000 && Pow16(16) == 0x1_0000_0000_0000_0000
  {
    assert Pow16(4) == 0x1_0000;
    assert Pow16(8) == 16 * (16 * (16 * (16 * Pow16(4))));
    assert Pow16(12) == 16 * (16 * (16 * (16 * Pow16(8))));
    assert Pow16(16) == 16 * (16 * (16 * (16 * Pow16(12))));
  }
}
