/** Decimal numbers as printf writes them and strtoul reads them. */
module Decimal {

  const ULONG_RANGE: nat := 0x1_0000_0000_0000_0000
  const UINT_RANGE: nat := 0x1_0000_0000

  predicate IsDigit(c: char) { '0' <= c <= '9' }

  predicate IsSpace(c: char) { c == ' ' || 9 as char <= c <= 13 as char }

  function Digit(d: nat): (c: char)
    requires d < 10
    ensures IsDigit(c) && c as int - '0' as int == d
  {
    (d + '0' as int) as char
  }

  /** "%u" and "%lu" */
  function Print(n: nat): (s: string)
    ensures s != []
  {
    if n < 10 then [Digit(n)] else Print(n / 10) + [Digit(n % 10)]
  }

  predicate AllDigits(s: string) {
    forall i | 0 <= i < |s| :: IsDigit(s[i])
  }

  /** The value of a string of digits. */
  function Value(s: string): nat
    requires AllDigits(s)
  {
    if s == [] then 0 else
      assert IsDigit(s[|s| - 1]);
      10 * Value(s[..|s| - 1]) + (s[|s| - 1] as int - '0' as int)
  }

  function DigitsEnd(s: string, i: nat): (e: nat)
    requires i <= |s|
    ensures i <= e <= |s| && (e < |s| ==> !IsDigit(s[e]))
    decreases |s| - i
  {
    if i < |s| && IsDigit(s[i]) then DigitsEnd(s, i + 1) else i
  }

  lemma {:induction false} DigitsBefore(s: string, i: nat)
    requires i <= |s|
    ensures AllDigits(s[i..DigitsEnd(s, i)])
    decreases |s| - i
  {
    if i < |s| && IsDigit(s[i]) {
      DigitsBefore(s, i + 1);
      assert s[i..DigitsEnd(s, i)] == [s[i]] + s[i + 1..DigitsEnd(s, i)];
    }
  }

  function SpacesEnd(s: string, i: nat): (e: nat)
    requires i <= |s|
    ensures i <= e <= |s| && (e < |s| ==> !IsSpace(s[e]))
    decreases |s| - i
  {
    if i < |s| && IsSpace(s[i]) then SpacesEnd(s, i + 1) else i
  }

  /** What strtoul returns, and where it stops. */
  datatype Number = Number(value: nat, end: nat)

  /** What an unsigned long can hold of a number: too large a one becomes ULONG_MAX. */
  function Sat(n: nat): nat { if n < ULONG_RANGE then n else ULONG_RANGE - 1 }

  /** A minus negates modulo 2^64, unless the number is too large already. */
  function Signed(minus: bool, n: nat): nat { if minus && 0 < n < ULONG_RANGE then ULONG_RANGE - n else Sat(n) }

  /** strtoul(s + from, &end, 10) with a 64-bit unsigned long: blanks and a sign are skipped, and without digits
      nothing is consumed. */
  function Strtoul(s: string, from: nat): (r: Number)
    requires from <= |s|
    ensures from <= r.end <= |s| && r.value < ULONG_RANGE
  {
    var j := SpacesEnd(s, from);
    var k := if j < |s| && (s[j] == '-' || s[j] == '+') then j + 1 else j;
    var e := DigitsEnd(s, k);
    if e == k then Number(0, from) else
      DigitsBefore(s, k);
      Number(Signed(s[j] == '-', Value(s[k..e])), e)
  }

  lemma {:induction false} PrintDigits(n: nat)
    ensures AllDigits(Print(n))
  {
    if n >= 10 {
      PrintDigits(n / 10);
    }
  }

  lemma {:induction false} ValuePrint(n: nat)
    ensures AllDigits(Print(n)) && Value(Print(n)) == n
  {
    PrintDigits(n);
    if n < 10 {
      assert Print(n)[..0] == [];
    } else {
      ValuePrint(n / 10);
      assert Print(n)[..|Print(n)| - 1] == Print(n / 10);
    }
  }

  lemma {:induction false} DigitsEndIs(s: string, i: nat, e: nat)
    requires i <= e <= |s| && (e < |s| ==> !IsDigit(s[e])) && forall k | i <= k < e :: IsDigit(s[k])
    ensures DigitsEnd(s, i) == e
    decreases e - i
  {
    if i < e {
      DigitsEndIs(s, i + 1, e);
    }
  }

  lemma {:induction false} Within(s: string, pre: string, a: string, post: string)
    requires s == pre + a + post
    ensures |pre| + |a| <= |s| && s[|pre|..|pre| + |a|] == a
    ensures post != [] ==> s[|pre| + |a|] == post[0]
  {}

  lemma {:induction false} DigitsRun(s: string, i: nat, e: nat, a: string)
    requires i <= e <= |s| && s[i..e] == a && AllDigits(a)
    ensures forall k | i <= k < e :: IsDigit(s[k])
  {
    forall k | i <= k < e ensures IsDigit(s[k]) {
      assert s[k] == s[i..e][k - i];
    }
  }

  /** Where a number of digits `a` ends in a longer text. */
  lemma {:induction false} DigitsWithin(s: string, pre: string, a: string, post: string)
    requires s == pre + a + post && AllDigits(a) && (post != [] ==> !IsDigit(post[0]))
    ensures |pre| + |a| <= |s| && DigitsEnd(s, |pre|) == |pre| + |a| && s[|pre|..|pre| + |a|] == a
  {
    Within(s, pre, a, post);
    DigitsRun(s, |pre|, |pre| + |a|, a);
    DigitsEndIs(s, |pre|, |pre| + |a|);
  }

  function Pow10(k: nat): nat { if k == 0 then 1 else 10 * Pow10(k - 1) }

  /** Digits count by their place: more of them behind shift the ones before. */
  lemma {:induction false} ValueConcat(a: string, b: string)
    requires AllDigits(a) && AllDigits(b)
    ensures AllDigits(a + b) && Value(a + b) == Value(a) * Pow10(|b|) + Value(b)
    decreases |b|
  {
    if b == [] {
      assert a + b == a;
    } else {
      var most := b[..|b| - 1];
      ValueConcat(a, most);
      assert (a + b)[..|a + b| - 1] == a + most;
      Shifted(Value(a), Pow10(|most|), Value(most));
    }
  }

  lemma {:induction false} Shifted(a: nat, p: nat, m: nat)
    ensures 10 * (a * p + m) == a * (10 * p) + 10 * m
  {}

  /** The blanks of the C locale. */
  lemma {:induction false} Blanks(c: char)
    ensures IsSpace(c) <==> c in " \t\n\r" || c as int == 11 || c as int == 12
  {}

  // ---------------------------------------------------------------- what strtoul reads

  /** A number as strtoul takes it; or nothing at all, which it takes for zero. */
  datatype Numeral = Nothing | Written(blanks: string, sign: string, digits: string)

  ghost predicate WellFormed(x: Numeral) {
    match x
    case Nothing => true
    case Written(blanks, sign, digits) =>
      && (forall k | 0 <= k < |blanks| :: IsSpace(blanks[k]))
      && (sign == "" || sign == "+" || sign == "-")
      && digits != [] && AllDigits(digits)
  }

  function Spelling(x: Numeral): string {
    match x
    case Nothing => []
    case Written(blanks, sign, digits) => blanks + sign + digits
  }

  ghost function Meaning(x: Numeral): nat
    requires WellFormed(x)
  {
    if x.Nothing? then 0 else Signed(x.sign == "-", Value(x.digits))
  }

  /** A number without blanks and sign. */
  lemma {:induction false} PlainNumeral(digits: string) returns (x: Numeral)
    requires digits != [] && AllDigits(digits)
    ensures WellFormed(x) && Spelling(x) == digits && Meaning(x) == Sat(Value(digits))
  {
    x := Written([], [], digits);
    assert [] + [] + digits == digits;
  }

  lemma {:induction false} SpacesEndIs(s: string, i: nat, e: nat)
    requires i <= e <= |s| && (e < |s| ==> !IsSpace(s[e])) && forall k | i <= k < e :: IsSpace(s[k])
    ensures SpacesEnd(s, i) == e
    decreases e - i
  {
    if i < e {
      SpacesEndIs(s, i + 1, e);
    }
  }

  lemma {:induction false} SpacesBefore(s: string, i: nat)
    requires i <= |s|
    ensures forall k | i <= k < SpacesEnd(s, i) :: IsSpace(s[k])
    decreases |s| - i
  {
    if i < |s| && IsSpace(s[i]) {
      SpacesBefore(s, i + 1);
    }
  }

  /** The blanks and the sign in front of a number. */
  lemma {:induction false} FrontIs(s: string, i: nat, blanks: string, sign: string, rest: string)
    requires i <= |s| && s[i..] == blanks + sign + rest && rest != [] && IsDigit(rest[0])
    requires forall k | 0 <= k < |blanks| :: IsSpace(blanks[k])
    requires sign == "" || sign == "+" || sign == "-"
    ensures var j := i + |blanks|;
            && SpacesEnd(s, i) == j < |s| && s[j + |sign|..] == rest
            && (sign == "" ==> s[j] == rest[0]) && (sign != "" ==> s[j] == sign[0])
  {
    var j, t := i + |blanks|, s[i..];
    assert forall k | i <= k < |s| :: s[k] == t[k - i];
    assert forall k | i <= k < j :: s[k] == blanks[k - i];
    assert t[|blanks| + |sign|..] == rest;
    SpacesEndIs(s, i, j);
  }

  /** Strtoul from its parts: blanks up to `j`, a sign up to `k`, digits up to `e`. */
  lemma {:induction false} StrtoulParts(s: string, i: nat, j: nat, k: nat, e: nat, digits: string)
    requires i <= |s| && SpacesEnd(s, i) == j && k <= |s|
    requires k == if j < |s| && (s[j] == '-' || s[j] == '+') then j + 1 else j
    requires DigitsEnd(s, k) == e && s[k..e] == digits && AllDigits(digits) && digits != []
    ensures j < |s| && Strtoul(s, i) == Number(Signed(s[j] == '-', Value(digits)), e)
  {}

  lemma {:induction false} TailDigits(s: string, k: nat, digits: string, post: string)
    requires k <= |s| && s[k..] == digits + post && AllDigits(digits) && (post != [] ==> !IsDigit(post[0]))
    ensures k + |digits| <= |s| && DigitsEnd(s, k) == k + |digits| && s[k..k + |digits|] == digits
  {
    assert s == s[..k] + digits + post;
    DigitsWithin(s, s[..k], digits, post);
  }

  /** A number is read, with what it means, up to what follows it. */
  lemma {:induction false} StrtoulReads(s: string, i: nat, x: Numeral, post: string)
    requires i <= |s| && s[i..] == Spelling(x) + post && WellFormed(x)
    requires post != [] ==> !IsDigit(post[0])
    requires x.Nothing? && post != [] ==> !IsSpace(post[0]) && post[0] != '+' && post[0] != '-'
    ensures Strtoul(s, i) == Number(Meaning(x), i + |Spelling(x)|)
  {
    if x.Nothing? {
      NothingRead(s, i, post);
    } else {
      WrittenRead(s, i, x.blanks, x.sign, x.digits, post);
    }
  }

  lemma {:induction false} NothingRead(s: string, i: nat, post: string)
    requires i <= |s| && s[i..] == [] + post
    requires post != [] ==> !IsDigit(post[0]) && !IsSpace(post[0]) && post[0] != '+' && post[0] != '-'
    ensures Strtoul(s, i) == Number(0, i)
  {
    if i < |s| {
      assert post[0] == s[i..][0] == s[i];
    }
  }

  lemma {:induction false} WrittenRead(s: string, i: nat, blanks: string, sign: string, digits: string, post: string)
    requires i <= |s| && s[i..] == blanks + sign + digits + post && WellFormed(Written(blanks, sign, digits))
    requires post != [] ==> !IsDigit(post[0])
    ensures Strtoul(s, i) == Number(Signed(sign == "-", Value(digits)), i + |blanks + sign + digits|)
  {
    var j := i + |blanks|;
    var k := j + |sign|;
    assert blanks + sign + digits + post == blanks + sign + (digits + post);
    FrontIs(s, i, blanks, sign, digits + post);
    assert (digits + post)[0] == digits[0] && IsDigit(digits[0]);
    TailDigits(s, k, digits, post);
    StrtoulParts(s, i, j, k, k + |digits|, digits);
  }

  lemma {:induction false} SliceSpaces(s: string, i: nat, j: nat)
    requires i <= j <= |s| && forall t | i <= t < j :: IsSpace(s[t])
    ensures forall t | 0 <= t < j - i :: IsSpace(s[i..j][t])
  {}

  lemma {:induction false} SliceSign(s: string, j: nat, k: nat)
    requires j <= k <= |s| && j < |s|
    requires k == if s[j] == '-' || s[j] == '+' then j + 1 else j
    ensures s[j..k] == "" || s[j..k] == "+" || s[j..k] == "-"
    ensures s[j..k] == "-" <==> s[j] == '-'
  {
    if k == j + 1 {
      assert s[j..k] == [s[j]];
    }
  }

  lemma {:induction false} ThreeSlices(s: string, i: nat, j: nat, k: nat, e: nat)
    requires i <= j <= k <= e <= |s|
    ensures s[i..e] == s[i..j] + s[j..k] + s[k..e]
  {}

  /** Whatever strtoul reads is a number of this kind, or nothing. */
  lemma {:induction false} StrtoulNumeral(s: string, i: nat) returns (x: Numeral)
    requires i <= |s|
    ensures WellFormed(x) && Spelling(x) == s[i..Strtoul(s, i).end] && Meaning(x) == Strtoul(s, i).value
  {
    var j := SpacesEnd(s, i);
    var k := if j < |s| && (s[j] == '-' || s[j] == '+') then j + 1 else j;
    var e := DigitsEnd(s, k);
    if e == k {
      x := Nothing;
    } else {
      SpacesBefore(s, i);
      SliceSpaces(s, i, j);
      SliceSign(s, j, k);
      DigitsBefore(s, k);
      ThreeSlices(s, i, j, k, e);
      StrtoulParts(s, i, j, k, e, s[k..e]);
      x := Written(s[i..j], s[j..k], s[k..e]);
    }
  }

  /** A minus is no error: it negates modulo 2^64, unless the digits do not fit, which gives the largest value. */
  lemma {:induction false} MinusNegates(s: string, i: nat, digits: string, post: string)
    requires i <= |s| && s[i..] == "-" + digits + post && digits != [] && AllDigits(digits)
    requires post != [] ==> !IsDigit(post[0])
    ensures var n, r := Value(digits), Strtoul(s, i);
            && r.end == i + 1 + |digits|
            && (if 0 < n < 0x1_0000_0000_0000_0000 then r.value + n == 0x1_0000_0000_0000_0000
                else r.value == if n == 0 then 0 else 0xFFFF_FFFF_FFFF_FFFF)
  {
    assert s[i..] == [] + "-" + digits + post;
    WrittenRead(s, i, [], "-", digits, post);
  }

  /** A number of any size without blanks and sign is read up to what follows it. */
  lemma {:induction false} StrtoulDigits(s: string, pre: string, a: string, post: string)
    requires s == pre + a + post && a != [] && AllDigits(a)
    requires post != [] ==> !IsDigit(post[0])
    ensures |pre| <= |s| && Strtoul(s, |pre|) == Number(Sat(Value(a)), |pre| + |a|)
  {
    DigitsWithin(s, pre, a, post);
    assert s[|pre|] == a[0] && IsDigit(a[0]);
    StrtoulParts(s, |pre|, |pre|, |pre|, |pre| + |a|, a);
  }
}
