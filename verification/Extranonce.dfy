/** How the nonce space is shared out: the global extranonce counter of `bridge/src/client_handler.rs` and the
    nonce decoding of `handle_submit` in `bridge/src/share_handler.rs`. */
module Extranonce {
  import opened KeySpace
  import opened Hex

  const MAX_EXTRANONCE: nat := 65535
  const RANGE: nat := 0x1_0000_0000_0000

  /** The `fetch_update`: wraps to zero after the largest 16-bit value. */
  function Succ(val: nat): nat {
    if val < MAX_EXTRANONCE then val + 1 else 0
  }

  /** The value handed to the `i`-th client from now, counting those that take one. */
  function ValueAt(start: nat, i: nat): nat {
    if i == 0 then start else Succ(ValueAt(start, i - 1))
  }

  lemma {:induction false} ValueAtIs(start: nat, i: nat)
    requires start <= MAX_EXTRANONCE
    ensures ValueAt(start, i) == (start + i) % 65_536
  {
    if i > 0 {
      ValueAtIs(start, i - 1);
      SuccIs(start + i - 1);
    }
  }

  lemma {:induction false} SuccIs(n: nat)
    ensures Succ(n % 65_536) == (n + 1) % 65_536
  {
  }

  /** Two assignments collide if and only if a multiple of 65536 assignments lies between them. */
  lemma AssignmentsCollideIff(start: nat, i: nat, j: nat)
    requires start <= 65_535 && i <= j
    ensures ValueAt(start, i) == ValueAt(start, j) <==> (j - i) % 65_536 == 0
  {
    ValueAtIs(start, i);
    ValueAtIs(start, j);
    SameResidueIff(start + i, start + j, MAX_EXTRANONCE + 1);
  }

  lemma SameResidueIff(a: nat, b: nat, m: nat)
    requires a <= b && m == MAX_EXTRANONCE + 1
    ensures a % m == b % m <==> (b - a) % m == 0
  {
    assert b - a == (b / m - a / m) * m + (b % m - a % m);
  }

  lemma ConsecutiveDiffer(start: nat, i: nat, j: nat)
    requires start <= 65_535 && i < j < i + 65_536
    ensures ValueAt(start, i) <= 65_535 && ValueAt(start, j) <= 65_535
    ensures ValueAt(start, i) != ValueAt(start, j)
  {
    ValueAtIs(start, i);
    ValueAtIs(start, j);
  }

  /** ASCII lower case, which is all the names below need. */
  function Lower(s: string): string {
    seq(|s|, i requires 0 <= i < |s| => if 'A' <= s[i] <= 'Z' then s[i] - 'A' + 'a' else s[i])
  }

  predicate IsBitmain(remoteApp: string) {
    var app := Lower(remoteApp);
    Contains(app, "godminer") || Contains(app, "bitmain") || Contains(app, "antminer")
  }

  lemma LowerConcat(a: string, b: string)
    ensures Lower(a + b) == Lower(a) + Lower(b)
  {
  }

  /** The maker's names in any case and wherever in the text. */
  lemma BitmainNames(a: string, b: string)
    ensures IsBitmain(a + "GodMiner" + b) && IsBitmain(a + "Bitmain" + b) && IsBitmain(a + "ANTMINER" + b)
  {
    LowerOf(a, "GodMiner", "godminer", b);
    LowerOf(a, "Bitmain", "bitmain", b);
    LowerOf(a, "ANTMINER", "antminer", b);
  }

  lemma LowerOf(a: string, name: string, low: string, b: string)
    requires Lower(name) == low
    ensures Contains(Lower(a + name + b), low)
  {
    LowerConcat(a + name, b);
    LowerConcat(a, name);
    ContainsMiddle(Lower(a), low, Lower(b));
  }

  /** A text that lacks one of the name's letters does not contain it. */
  lemma LacksLetter(app: string, name: string, at: nat)
    requires at < |name| && name[at] !in app
    ensures !Contains(app, name)
  {
    forall i | 0 <= i <= |app| - |name|
      ensures app[i..][..|name|] != name
    {
      assert app[i..][..|name|][at] == app[i + at];
    }
  }

  lemma NoMakersName(name: string, app: string, g: nat, b: nat, a: nat)
    requires Lower(name) == app && g < 8 && b < 7 && a < 8
    requires "godminer"[g] !in app && "bitmain"[b] !in app && "antminer"[a] !in app
    ensures !IsBitmain(name)
  {
    LacksLetter(app, "godminer", g);
    LacksLetter(app, "bitmain", b);
    LacksLetter(app, "antminer", a);
  }

  /** Names that are none of these. */
  lemma OtherNames()
    ensures !IsBitmain("BzMiner") && !IsBitmain("IceRiver") && !IsBitmain("Goldshell")
  {
    BzMinerIsOther();
    IceRiverIsOther();
    GoldshellIsOther();
  }

  lemma BzMinerIsOther()
    ensures !IsBitmain("BzMiner")
  {
    NoMakersName("BzMiner", "bzminer", 0, 2, 0);
  }

  lemma IceRiverIsOther()
    ensures !IsBitmain("IceRiver")
  {
    NoMakersName("IceRiver", "iceriver", 0, 0, 0);
  }

  lemma GoldshellIsOther()
    ensures !IsBitmain("Goldshell")
  {
    NoMakersName("Goldshell", "goldshell", 3, 3, 3);
  }

  class ExtranonceCounter {
    var next: nat
    ghost var served: nat // clients that took a value
    ghost const start: nat

    ghost predicate Valid()
      reads this
    {
      start <= MAX_EXTRANONCE && next == ValueAt(start, served)
    }

    constructor ()
      ensures Valid() && served == 0 && start == 0
    {
      next := 0;
      served := 0;
      start := 0;
    }

    /** Bitmain miners get no extranonce; any other takes the counter's value as four hex digits. */
    method Assign(remoteApp: string) returns (extranonce: string)
      requires Valid()
      modifies this
      ensures Valid()
      ensures IsBitmain(remoteApp) ==> extranonce == "" && served == old(served)
      ensures !IsBitmain(remoteApp) ==>
                && served == old(served) + 1
                && |extranonce| == 4 && IsHex(extranonce) && Value(extranonce) == ValueAt(start, old(served))
    {
      if IsBitmain(remoteApp) {
        return "";
      }
      ValueAtIs(start, served);
      Pow16At();
      var value := next;
      next := if next < MAX_EXTRANONCE then next + 1 else 0;
      served := served + 1;
      ValueOfPadded(value, 4);
      extranonce := Padded(value, 4);
    }
  }

  // ---- from the submitted text to the nonce ----

  /** `replace("0x", "")`. */
  function Strip0x(s: string): string {
    if |s| < 2 then s
    else if s[0] == '0' && s[1] == 'x' then Strip0x(s[2..])
    else [s[0]] + Strip0x(s[1..])
  }

  function Zeros(n: nat): string {
    seq(n, _ => '0')
  }

  /** The extranonce goes in front of a nonce that leaves room for it, zero-padded in between. */
  function FinalNonce(extranonce: string, nonce: string): string
    requires |extranonce| <= 16
  {
    if extranonce != "" && |nonce| <= 16 - |extranonce| then
      extranonce + Zeros(16 - |extranonce| - |nonce|) + nonce
    else
      nonce
  }

  function Digits(s: string): string {
    if |s| > 1 && s[0] == '+' then s[1..] else s
  }

  /** `u64::from_str_radix(_, 16)`: one leading plus is allowed; empty, invalid or too large text is an error. */
  function ParseU64(s: string): Option<nat> {
    var digits := Digits(s);
    if digits != "" && IsHex(digits) && Value(digits) < 0x1_0000_0000_0000_0000 then Some(Value(digits)) else None
  }

  function NonceOf(extranonce: string, submitted: string): Option<nat>
    requires |extranonce| <= 16
  {
    ParseU64(FinalNonce(extranonce, Strip0x(submitted)))
  }

  lemma {:induction false} ZerosValue(n: nat)
    ensures IsHex(Zeros(n)) && Value(Zeros(n)) == 0
  {
    if n > 0 {
      ZerosValue(n - 1);
      assert Zeros(n)[..n - 1] == Zeros(n - 1);
    }
  }

  /** A nonce of at most 12 digits is read in the client's range, at the offset it spells; text that is no
      number in hex is refused. */
  lemma ShortNonceDecodes(extranonce: string, nonce: string)
    requires |extranonce| == 4 && IsHex(extranonce) && |nonce| <= 12
    ensures var r := ParseU64(FinalNonce(extranonce, nonce));
            if IsHex(nonce) then r == Some(Value(extranonce) * 0x1_0000_0000_0000 + Value(nonce)) && Value(nonce) < 0x1_0000_0000_0000
            else r == None
  {
    PrefixIsDigit(extranonce, nonce);
    if IsHex(nonce) {
      FullValue(extranonce, nonce);
    } else {
      NotHexInside(extranonce, nonce);
    }
  }

  lemma {:induction false} PrefixIsDigit(extranonce: string, nonce: string)
    requires |extranonce| == 4 && IsHex(extranonce) && |nonce| <= 12
    ensures var full := FinalNonce(extranonce, nonce); |full| == 16 && Digits(full) == full
  {
    assert FinalNonce(extranonce, nonce)[0] == extranonce[0] && DigitValue('+') == None;
  }

  lemma {:induction false} NotHexInside(extranonce: string, nonce: string)
    requires |extranonce| == 4 && |nonce| <= 12 && !IsHex(nonce)
    ensures !IsHex(FinalNonce(extranonce, nonce))
  {
    var i :| 0 <= i < |nonce| && DigitValue(nonce[i]).None?;
    assert FinalNonce(extranonce, nonce)[16 - |nonce| + i] == nonce[i];
  }

  lemma PaddedTwelve(nonce: string)
    requires |nonce| <= 12 && IsHex(nonce)
    ensures var low := Zeros(12 - |nonce|) + nonce;
            |low| == 12 && IsHex(low) && Value(low) == Value(nonce) < RANGE
  {
    var pad := Zeros(12 - |nonce|);
    assert IsHex(pad + nonce) && Value(pad + nonce) == Value(nonce) by {
      ZerosValue(12 - |nonce|);
      ValueConcat(pad, nonce);
      assert Value(pad) * Pow16(|nonce|) == 0;
    }
    assert Value(pad + nonce) < RANGE by {
      ValueBelow(pad + nonce);
      Pow16At();
    }
  }

  lemma FullValue(extranonce: string, nonce: string)
    requires |extranonce| == 4 && IsHex(extranonce) && |nonce| <= 12 && IsHex(nonce)
    ensures var full := FinalNonce(extranonce, nonce);
            && |full| == 16 && IsHex(full) && Value(full) < 0x1_0000_0000_0000_0000
            && Value(full) == Value(extranonce) * RANGE + Value(nonce) && Value(nonce) < RANGE
  {
    var pad := Zeros(12 - |nonce|);
    var low := pad + nonce;
    var full := extranonce + low;
    assert full == FinalNonce(extranonce, nonce);
    PaddedTwelve(nonce);
    assert IsHex(full) && Value(full) == Value(extranonce) * RANGE + Value(low) by {
      ValueConcat(extranonce, low);
      Pow16At();
    }
    assert Value(full) < 0x1_0000_0000_0000_0000 by {
      ValueBelow(full);
      Pow16At();
    }
  }

  ghost predicate Owns(extranonce: string, nonce: nat)
    requires IsHex(extranonce)
  {
    Value(extranonce) * RANGE <= nonce < (Value(extranonce) + 1) * RANGE
  }

  /** The number spelled by what stands ahead of the last 12 digits. */
  function Leading(digits: string): nat
    requires IsHex(digits)
  {
    if |digits| <= 12 then 0 else Value(digits[..|digits| - 12])
  }

  lemma SplitAtTwelve(digits: string)
    requires IsHex(digits)
    ensures Leading(digits) * RANGE <= Value(digits) < (Leading(digits) + 1) * RANGE
  {
    if |digits| <= 12 {
      PaddedTwelve(digits);
    } else {
      Pow16At();
      var high, low := digits[..|digits| - 12], digits[|digits| - 12..];
      assert digits == high + low;
      ValueConcat(high, low);
      ValueBelow(low);
    }
  }

  /** An accepted submission falls in the client's own range if and only if its text has at most 12 characters
      after stripping, or what stands ahead of its last 12 digits spells the client's extranonce. */
  lemma DecodesIntoOwnRangeIff(extranonce: string, submitted: string)
    requires |extranonce| == 4 && IsHex(extranonce) && NonceOf(extranonce, submitted).Some?
    ensures var text := Strip0x(submitted);
            Owns(extranonce, NonceOf(extranonce, submitted).value) <==>
            |text| <= 12 || (IsHex(Digits(text)) && Leading(Digits(text)) == Value(extranonce))
  {
    var text := Strip0x(submitted);
    if |text| <= 12 {
      ShortNonceDecodes(extranonce, text);
    } else {
      var digits, nonce := Digits(text), NonceOf(extranonce, submitted).value;
      SplitAtTwelve(digits);
      SameRangeIff(Leading(digits), Value(extranonce), nonce);
    }
  }

  lemma {:induction false} StripHex(s: string)
    requires IsHex(s)
    ensures Strip0x(s) == s
  {
    if |s| >= 2 {
      assert DigitValue(s[1]).Some? && DigitValue('x') == None;
      StripHex(s[1..]);
    }
  }

  ghost predicate ZeroXAt(s: string, i: nat) {
    i + 1 < |s| && s[i] == '0' && s[i + 1] == 'x'
  }

  /** Stripping takes out the first `0x` and goes on behind it. */
  lemma {:induction false} StripFirst(a: string, b: string)
    requires forall i :: 0 <= i < |a| ==> !ZeroXAt(a + "0x" + b, i)
    ensures Strip0x(a + "0x" + b) == a + Strip0x(b)
  {
    var s := a + "0x" + b;
    if a == "" {
      assert s[2..] == b && a + Strip0x(b) == Strip0x(b);
    } else {
      assert s[1..] == a[1..] + "0x" + b;
      assert !ZeroXAt(s, 0);
      forall i | 0 <= i < |a[1..]|
        ensures !ZeroXAt(a[1..] + "0x" + b, i)
      {
        assert !ZeroXAt(s, i + 1);
      }
      StripFirst(a[1..], b);
      assert [s[0]] + (a[1..] + Strip0x(b)) == a + Strip0x(b);
    }
  }

  /** And a text without one stays as it is. */
  lemma {:induction false} StripNone(s: string)
    requires forall i :: 0 <= i < |s| ==> !ZeroXAt(s, i)
    ensures Strip0x(s) == s
  {
    if |s| >= 2 {
      assert !ZeroXAt(s, 0);
      forall i | 0 <= i < |s[1..]|
        ensures !ZeroXAt(s[1..], i)
      {
        assert !ZeroXAt(s, i + 1);
      }
      StripNone(s[1..]);
    }
  }

  /** So a nonce may be written with `0x` in front. */
  lemma {:induction false} PrefixedNonceDecodes(extranonce: string, nonce: string)
    requires |extranonce| == 4 && IsHex(extranonce) && |nonce| <= 12 && IsHex(nonce)
    ensures NonceOf(extranonce, "0x" + nonce) == Some(Value(extranonce) * 0x1_0000_0000_0000 + Value(nonce))
    ensures NonceOf(extranonce, nonce) == NonceOf(extranonce, "0x" + nonce)
  {
    StripHex(nonce);
    StripFirst("", nonce);
    assert "" + "0x" + nonce == "0x" + nonce && "" + Strip0x(nonce) == nonce;
    ShortNonceDecodes(extranonce, nonce);
  }

  /** A client without an extranonce is taken at its word: up to 16 digits stand for themselves. */
  lemma {:induction false} BitmainNonceDecodes(nonce: string)
    requires nonce != "" && IsHex(nonce)
    ensures NonceOf("", nonce) == if Value(nonce) < 0x1_0000_0000_0000_0000 then Some(Value(nonce)) else None
    ensures |nonce| <= 16 ==> NonceOf("", nonce) == Some(Value(nonce))
  {
    StripHex(nonce);
    assert DigitValue('+') == None && DigitValue(nonce[0]).Some?;
    ValueBelow(nonce);
    Pow16At();
    Pow16Grows(|nonce|, 16);
  }

  lemma {:induction false} Pow16Grows(m: nat, n: nat)
    ensures m <= n ==> Pow16(m) <= Pow16(n)
    decreases n
  {
    if m < n {
      Pow16Grows(m, n - 1);
    }
  }

  /** A client that submits all 16 digits can land in any other client's range. */
  lemma LongNonceCanStray(mine: string, other: string, low: string)
    requires |mine| == 4 && IsHex(mine) && |other| == 4 && IsHex(other) && Value(mine) != Value(other)
    requires |low| == 12 && IsHex(low)
    ensures var n := NonceOf(mine, other + low); n.Some? && Owns(other, n.value) && !Owns(mine, n.value)
  {
    var text := other + low;
    ValueConcat(other, low);
    StripHex(text);
    assert text[0] == other[0] && DigitValue('+') == None;
    ValueBelow(text);
    Pow16At();
    assert text[..|text| - 12] == other;
    DecodesIntoOwnRangeIff(mine, text);
    DecodesIntoOwnRangeIff(other, text);
  }

  lemma SameRangeIff(a: nat, b: nat, nonce: nat)
    requires a * RANGE <= nonce < (a + 1) * RANGE
    ensures b * RANGE <= nonce < (b + 1) * RANGE <==> a == b
  {
  }

  /** Clients with different extranonces own disjoint ranges. */
  lemma RangesDisjoint(e1: string, e2: string, nonce: nat)
    requires IsHex(e1) && IsHex(e2) && Value(e1) != Value(e2)
    ensures !(Owns(e1, nonce) && Owns(e2, nonce))
  {
    if Value(e1) < Value(e2) {
      assert (Value(e1) + 1) * RANGE <= Value(e2) * RANGE;
    } else {
      assert (Value(e2) + 1) * RANGE <= Value(e1) * RANGE;
    }
  }

  /** Short nonces of clients with different extranonces never decode to the same value. */
  lemma ClientsNeverCollide(e1: string, e2: string, n1: string, n2: string)
    requires |e1| == 4 && IsHex(e1) && |e2| == 4 && IsHex(e2) && Value(e1) != Value(e2)
    requires |Strip0x(n1)| <= 12 && |Strip0x(n2)| <= 12
    requires NonceOf(e1, n1).Some? && NonceOf(e2, n2).Some?
    ensures NonceOf(e1, n1) != NonceOf(e2, n2)
  {
    var a, b := NonceOf(e1, n1).value, NonceOf(e2, n2).value;
    assert Owns(e1, a) by { DecodesIntoOwnRangeIff(e1, n1); }
    assert Owns(e2, b) by { DecodesIntoOwnRangeIff(e2, n2); }
    RangesDisjoint(e1, e2, a);
  }

  /** Any 65536 consecutive assignments are distinct, so those clients own pairwise disjoint ranges. */
  lemma ConsecutiveClientsDisjoint(start: nat, i: nat, j: nat, nonce: nat)
    requires start <= 65_535 && i < j < i + 65_536
    ensures var e1, e2 := Padded(ValueAt(start, i), 4), Padded(ValueAt(start, j), 4);
            && IsHex(e1) && IsHex(e2) && Value(e1) != Value(e2) && !(Owns(e1, nonce) && Owns(e2, nonce))
  {
    var v1, v2 := ValueAt(start, i), ValueAt(start, j);
    ConsecutiveDiffer(start, i, j);
    assert Pow16(4) == 65536;
    ValueOfPadded(v1, 4);
    ValueOfPadded(v2, 4);
    RangesDisjoint(Padded(v1, 4), Padded(v2, 4), nonce);
  }
}
