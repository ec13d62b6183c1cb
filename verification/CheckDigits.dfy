/** The check digits that `core/dlp.py` verifies before it reports a card number (Luhn, Annex B of ISO/IEC 7812-1),
    an IBAN (MOD 97-10 of ISO/IEC 7064) or a French social-security number.  Digits are the ASCII digits. */
module CheckDigits {

  import opened Basics
  import J = JsonText

  predicate IsLetter(c: char) { 'A' <= c <= 'Z' }

  // ---------------------------------------------------------------- Luhn

  type Digit = d: nat | d < 10

  /** The digits of a text, in order; every other character is skipped. */
  function Digits(value: string): seq<Digit> {
    if value == "" then []
    else Digits(value[..|value| - 1])
         + (if IsDigit(value[|value| - 1]) then [value[|value| - 1] as int - '0' as int] else [])
  }

  /** What a digit adds, doubled or not. */
  function Weight(d: Digit, doubled: bool): (w: Digit) {
    if !doubled then d else if 2 * d > 9 then 2 * d - 9 else 2 * d
  }

  /** The sum of a number: every second digit from the right is doubled. */
  function LuhnSum(ds: seq<Digit>): nat {
    if ds == [] then 0 else Weight(ds[0], (|ds| - 1) % 2 == 1) + LuhnSum(ds[1..])
  }

  predicate LuhnValid(ds: seq<Digit>) { 13 <= |ds| <= 19 && LuhnSum(ds) % 10 == 0 }

  /** `_luhn_ok` */
  method LuhnOk(value: string) returns (ok: bool)
    ensures ok <==> LuhnValid(Digits(value))
  {
    var ds: seq<Digit> := [];
    for i := 0 to |value|
      invariant ds == Digits(value[..i])
    {
      assert value[..i + 1][..i] == value[..i];
      if IsDigit(value[i]) { ds := ds + [value[i] as int - '0' as int]; }
    }
    assert value[..|value|] == value;
    if !(13 <= |ds| <= 19) { return false; }
    var total := 0;
    for i := 0 to |ds|
      invariant total == LuhnSum(ds[|ds| - i..])
    {
      var d: nat := ds[|ds| - 1 - i];
      assert ds[|ds| - 1 - i..][1..] == ds[|ds| - i..];
      if i % 2 == 1 {
        d := d * 2;
        if d > 9 { d := d - 9; }
      }
      total := total + d;
    }
    assert ds[|ds| - |ds|..] == ds;
    ok := total % 10 == 0;
  }

  predicate Doubled(ds: seq<Digit>, i: nat)
    requires i < |ds|
  {
    (|ds| - 1 - i) % 2 == 1
  }

  /** Changing one digit changes the sum by the difference of the weights. */
  lemma {:induction false} SumAfterChange(ds: seq<Digit>, i: nat, d: Digit)
    requires i < |ds|
    ensures LuhnSum(ds[i := d]) == LuhnSum(ds) - Weight(ds[i], Doubled(ds, i)) + Weight(d, Doubled(ds, i))
  {
    if i == 0 {
      assert ds[i := d][1..] == ds[1..];
    } else {
      assert ds[i := d][1..] == ds[1..][i - 1 := d];
      SumAfterChange(ds[1..], i - 1, d);
    }
  }

  lemma NearMultiple(a: int, b: int)
    requires a % 10 == 0 && -10 < b - a < 10
    ensures b % 10 == 0 <==> b == a
  {
  }

  lemma WeightIsInjective(d: Digit, e: Digit, doubled: bool)
    ensures Weight(d, doubled) < 10 && (Weight(d, doubled) == Weight(e, doubled) <==> d == e)
  {
  }

  /** A valid number stays valid under the change of one digit only if the digit stays the same. */
  lemma LuhnDetectsOneDigit(ds: seq<Digit>, i: nat, d: Digit)
    requires LuhnValid(ds) && i < |ds|
    ensures LuhnValid(ds[i := d]) <==> d == ds[i]
  {
    SumAfterChange(ds, i, d);
    WeightIsInjective(ds[i], d, Doubled(ds, i));
    WeightIsInjective(d, ds[i], Doubled(ds, i));
    NearMultiple(LuhnSum(ds), LuhnSum(ds[i := d]));
  }

  /** What doubling adds to a digit separates all digits but 0 and 9. */
  lemma DoublingGain(x: Digit, y: Digit)
    ensures var g, h := Weight(x, true) - x, Weight(y, true) - y;
            -10 < h - g < 10 && (h == g <==> x == y || (x == 0 && y == 9) || (x == 9 && y == 0))
  {
  }

  lemma SumAfterSwap(ds: seq<Digit>, i: nat)
    requires i + 1 < |ds|
    ensures var x, y := ds[i], ds[i + 1];
            var gain := (Weight(y, true) - y) - (Weight(x, true) - x);
            LuhnSum(ds[i := y][i + 1 := x]) == LuhnSum(ds) + (if Doubled(ds, i) then gain else -gain)
  {
    hide LuhnSum, Weight;
    var x, y, d := ds[i], ds[i + 1], Doubled(ds, i);
    var mid := ds[i := y];
    SumAfterChange(ds, i, y);
    SumAfterChange(mid, i + 1, x);
    assert mid[i + 1] == y && Doubled(mid, i + 1) == !d;
    Undoubled(x);
    Undoubled(y);
  }

  lemma Undoubled(d: Digit)
    ensures Weight(d, false) == d
  {
  }

  /** A valid number survives the swap of two neighbours exactly when they are equal, or are 0 and 9. */
  lemma LuhnDetectsSwaps(ds: seq<Digit>, i: nat)
    requires LuhnValid(ds) && i + 1 < |ds|
    ensures LuhnValid(ds[i := ds[i + 1]][i + 1 := ds[i]])
            <==> ds[i] == ds[i + 1] || (ds[i] == 0 && ds[i + 1] == 9) || (ds[i] == 9 && ds[i + 1] == 0)
  {
    SumAfterSwap(ds, i);
    DoublingGain(ds[i], ds[i + 1]);
    NearMultiple(LuhnSum(ds), LuhnSum(ds[i := ds[i + 1]][i + 1 := ds[i]]));
  }

  /** What the digit at place `k` from the right adds: itself, or, at every second place, the digits of its double. */
  function PlaceValue(ds: seq<Digit>, k: nat): nat
    requires k < |ds|
  {
    var d: nat := ds[|ds| - 1 - k];
    if k % 2 == 0 then d else (2 * d) / 10 + (2 * d) % 10
  }

  function PlaceSum(ds: seq<Digit>, n: nat): nat
    requires n <= |ds|
  {
    if n == 0 then 0 else PlaceSum(ds, n - 1) + PlaceValue(ds, n - 1)
  }

  /** The sum of the rule is that of Annex B of ISO/IEC 7812-1, place by place from the right. */
  lemma {:induction false} LuhnSumByPlace(ds: seq<Digit>, n: nat)
    requires n <= |ds|
    ensures LuhnSum(ds[|ds| - n..]) == PlaceSum(ds, n)
  {
    hide Weight, PlaceValue;
    if n > 0 {
      LuhnSumByPlace(ds, n - 1);
      LuhnSumFirst(ds, |ds| - n);
      PlaceIsWeight(ds, n - 1);
    }
  }

  lemma PlaceIsWeight(ds: seq<Digit>, k: nat)
    requires k < |ds|
    ensures PlaceValue(ds, k) == Weight(ds[|ds| - 1 - k], k % 2 == 1)
  {
  }

  lemma LuhnSumFirst(ds: seq<Digit>, i: nat)
    requires i < |ds|
    ensures LuhnSum(ds[i..]) == Weight(ds[i], (|ds| - i - 1) % 2 == 1) + LuhnSum(ds[i + 1..])
  {
    assert ds[i..][1..] == ds[i + 1..];
  }

  /** Of the ten ways to complete a number exactly one is accepted: the check digit that brings the sum to a multiple of
      ten. */
  lemma LuhnCheckDigit(ds: seq<Digit>, d: Digit)
    requires 12 <= |ds| <= 18
    ensures LuhnValid(ds + [d]) <==> d == (10 - PlaceSum(ds + [0], |ds| + 1) % 10) % 10
  {
    hide LuhnSum, PlaceSum;
    var zero: seq<Digit> := ds + [0];
    assert zero[|zero| - |zero|..] == zero;
    LuhnSumByPlace(zero, |zero|);
    SumAfterChange(zero, |ds|, d);
    assert zero[|ds| := d] == ds + [d];
    Undoubled(0);
    Undoubled(d);
    TenComplement(LuhnSum(zero), d);
  }

  lemma TenComplement(sum: nat, d: nat)
    requires d < 10
    ensures (sum + d) % 10 == 0 <==> d == (10 - sum % 10) % 10
  {
    var q, r := sum / 10, sum % 10;
    assert sum + d == 10 * q + (r + d);
    assert r + d < 10 ==> (sum + d) % 10 == r + d;
    assert r + d >= 10 ==> sum + d == 10 * (q + 1) + (r + d - 10);
  }

  /** A change of one digit character in the text is the change of one digit of the number. */
  lemma {:induction false} DigitsAfterChange(value: string, i: nat, c: char)
    requires i < |value| && IsDigit(value[i]) && IsDigit(c)
    ensures var k := |Digits(value[..i])|;
            && k < |Digits(value)| && Digits(value)[k] == value[i] as int - '0' as int
            && Digits(value[i := c]) == Digits(value)[k := c as int - '0' as int]
    decreases |value|
  {
    var front := value[..|value| - 1];
    if i == |front| {
      assert value[i := c][..|value| - 1] == front;
    } else {
      DigitsAfterChange(front, i, c);
      assert value[i := c][..|value| - 1] == front[i := c];
      assert value[..i] == front[..i];
    }
  }

  /** On texts: no other digit in the place of one digit of an accepted card number is accepted. */
  lemma LuhnDetectsOneCharacter(value: string, i: nat, c: char)
    requires LuhnValid(Digits(value)) && i < |value| && IsDigit(value[i]) && IsDigit(c)
    ensures LuhnValid(Digits(value[i := c])) <==> c == value[i]
  {
    DigitsAfterChange(value, i, c);
    LuhnDetectsOneDigit(Digits(value), |Digits(value[..i])|, c as int - '0' as int);
  }

  // ---------------------------------------------------------------- normal form

  /** A text without the dropped characters, in upper case. */
  function Normal(value: string, drop: char -> bool, upper: char -> string): string {
    if value == "" then ""
    else (if drop(value[0]) then "" else upper(value[0])) + Normal(value[1..], drop, upper)
  }

  /** What is assumed of the two: ASCII letters and digits are kept, and only small letters are changed. */
  ghost predicate KeepsAscii(drop: char -> bool, upper: char -> string) {
    forall c :: IsDigit(c) || AsciiLetter(c) ==> !drop(c) && upper(c) == [Up(c)]
  }

  predicate AsciiLetter(c: char) { IsLetter(c) || 'a' <= c <= 'z' }

  function Up(c: char): char { if 'a' <= c <= 'z' then 'A' + (c - 'a') else c }

  /** A change of one letter or digit of the text is the change of one character of its normal form. */
  lemma {:induction false} NormalAfterChange(value: string, i: nat, c: char, drop: char -> bool, upper: char -> string)
      returns (k: nat)
    requires KeepsAscii(drop, upper) && i < |value|
    requires (IsDigit(value[i]) || AsciiLetter(value[i])) && (IsDigit(c) || AsciiLetter(c))
    ensures k < |Normal(value, drop, upper)| && Normal(value, drop, upper)[k] == Up(value[i])
    ensures Normal(value[i := c], drop, upper) == Normal(value, drop, upper)[k := Up(c)]
  {
    var changed := value[i := c];
    if i == 0 {
      assert changed[1..] == value[1..];
      k := 0;
    } else {
      assert changed[1..] == value[1..][i - 1 := c];
      var j := NormalAfterChange(value[1..], i - 1, c, drop, upper);
      k := j + if drop(value[0]) then 0 else |upper(value[0])|;
    }
  }

  // ---------------------------------------------------------------- numbers modulo 97

  predicate AllDigits(s: string) { forall k :: 0 <= k < |s| ==> IsDigit(s[k]) }

  predicate Alnum(s: string) { forall k :: 0 <= k < |s| ==> IsDigit(s[k]) || IsLetter(s[k]) }

  /** `int(c, 36)` */
  function Value36(c: char): (v: nat)
    requires IsDigit(c) || IsLetter(c)
    ensures v < 36 && (v < 10 <==> IsDigit(c))
  {
    if IsDigit(c) then c as int - '0' as int else c as int - 'A' as int + 10
  }

  /** The number whose decimal digits are those of `A = 10` to `Z = 35` and of the digits themselves, in order. */
  function Number(s: string): nat
    requires Alnum(s)
  {
    if s == "" then 0
    else Number(s[..|s| - 1]) * (if IsDigit(s[|s| - 1]) then 10 else 100) + Value36(s[|s| - 1])
  }

  /** The text in which every letter is replaced by its two digits, `A` by 10 to `Z` by 35. */
  function Expanded(s: string): string
    requires Alnum(s)
  {
    if s == "" then ""
    else
      var c := s[|s| - 1];
      Expanded(s[..|s| - 1])
      + (if IsDigit(c) then [c]
         else [J.Digit((c as int - 'A' as int + 10) / 10), J.Digit((c as int - 'A' as int + 10) % 10)])
  }

  /** The number is the decimal value of that text. */
  lemma {:induction false} NumberIsDecimal(s: string)
    requires Alnum(s)
    ensures Number(s) == J.DecimalValue(Expanded(s))
  {
    if s != "" {
      NumberIsDecimal(s[..|s| - 1]);
      if IsDigit(s[|s| - 1]) { DigitStep(s); } else { LetterStep(s); }
    }
  }

  lemma DigitStep(s: string)
    requires Alnum(s) && s != "" && IsDigit(s[|s| - 1])
    ensures Number(s) == 10 * Number(s[..|s| - 1]) + (s[|s| - 1] as int - '0' as int)
    ensures J.DecimalValue(Expanded(s))
            == 10 * J.DecimalValue(Expanded(s[..|s| - 1])) + (s[|s| - 1] as int - '0' as int)
  {
    hide Expanded, J.DecimalValue, Number;
    ExpandedOnce(s);
    DecimalSnoc(Expanded(s[..|s| - 1]), s[|s| - 1]);
  }

  lemma LetterStep(s: string)
    requires Alnum(s) && s != "" && !IsDigit(s[|s| - 1])
    ensures Number(s) == 100 * Number(s[..|s| - 1]) + (s[|s| - 1] as int - 'A' as int + 10)
    ensures J.DecimalValue(Expanded(s))
            == 100 * J.DecimalValue(Expanded(s[..|s| - 1])) + (s[|s| - 1] as int - 'A' as int + 10)
  {
    hide Expanded, J.DecimalValue, Number;
    ExpandedOnce(s);
    TwoDecimals(Expanded(s[..|s| - 1]), s[|s| - 1] as int - 'A' as int + 10);
  }

  lemma ExpandedOnce(s: string)
    requires Alnum(s) && s != ""
    ensures var front, c := s[..|s| - 1], s[|s| - 1];
            && (IsDigit(c) ==> && Expanded(s) == Expanded(front) + [c]
                               && Number(s) == 10 * Number(front) + (c as int - '0' as int))
            && (!IsDigit(c) ==>
                  var v := c as int - 'A' as int + 10;
                  && Expanded(s) == Expanded(front) + [J.Digit(v / 10)] + [J.Digit(v % 10)]
                  && Number(s) == 100 * Number(front) + v)
  {
    hide J.Digit;
    var front, c := s[..|s| - 1], s[|s| - 1];
    if !IsDigit(c) {
      var v := c as int - 'A' as int + 10;
      assert Expanded(s) == Expanded(front) + [J.Digit(v / 10), J.Digit(v % 10)];
    }
  }

  lemma TwoDecimals(s: string, v: nat)
    requires v < 100
    ensures J.DecimalValue(s + [J.Digit(v / 10)] + [J.Digit(v % 10)]) == 100 * J.DecimalValue(s) + v
  {
    hide J.DecimalValue;
    var hi, lo := J.Digit(v / 10), J.Digit(v % 10);
    DecimalSnoc(s, hi);
    DecimalSnoc(s + [hi], lo);
    DigitValue(v / 10);
    DigitValue(v % 10);
  }

  lemma DecimalSnoc(s: string, c: char)
    ensures J.DecimalValue(s + [c]) == 10 * J.DecimalValue(s) + (c as int - '0' as int)
  {
    assert (s + [c])[..|s|] == s;
  }

  lemma DigitValue(d: nat)
    requires d < 10
    ensures J.Digit(d) as int - '0' as int == d
  {
  }

  lemma LastTwo(s: string, a: char, b: char)
    requires Alnum(s) && IsDigit(a) && IsDigit(b)
    ensures Alnum(s + [a, b]) && Number(s + [a, b]) == 100 * Number(s) + 10 * Value36(a) + Value36(b)
  {
    var t := s + [a, b];
    assert t[..|t| - 1] == s + [a] && (s + [a])[..|s|] == s;
  }

  /** 97 is prime and does not divide 10. */
  lemma TenIsInvertible(x: int)
    requires (10 * x) % 97 == 0
    ensures x % 97 == 0
  {
    var q := 10 * x / 97;
    assert 10 * x == 97 * q;
    assert x == 97 * (68 * q - 7 * x);
  }

  lemma ScalingKeepsRemainders(x: int)
    requires x % 97 != 0
    ensures (10 * x) % 97 != 0 && (100 * x) % 97 != 0
  {
    if (10 * x) % 97 == 0 { TenIsInvertible(x); }
    if (10 * (10 * x)) % 97 == 0 { TenIsInvertible(10 * x); }
  }

  lemma SameRemainder(a: int, b: int)
    requires a % 97 == b % 97
    ensures (b - a) % 97 == 0
  {
    assert b - a == 97 * (b / 97 - a / 97);
  }

  predicate SameClass(a: char, b: char) { (IsDigit(a) && IsDigit(b)) || (IsLetter(a) && IsLetter(b)) }

  /** Another digit for a digit, or another letter for a letter, changes the remainder modulo 97. */
  lemma {:induction false} RemainderChanges(s: string, i: nat, c: char)
    requires Alnum(s) && i < |s| && SameClass(s[i], c) && c != s[i]
    ensures Alnum(s[i := c]) && (Number(s[i := c]) - Number(s)) % 97 != 0
  {
    var front, last := s[..|s| - 1], s[|s| - 1];
    var t := s[i := c];
    if i == |front| {
      assert t[..|t| - 1] == front;
    } else {
      assert t[..|t| - 1] == front[i := c];
      RemainderChanges(front, i, c);
      var x := Number(front[i := c]) - Number(front);
      assert Number(t) - Number(s) == if IsDigit(last) then 10 * x else 100 * x;
      ScalingKeepsRemainders(x);
    }
  }

  // ---------------------------------------------------------------- IBAN

  /** Two letters, two digits, then letters and digits. */
  predicate IbanShape(s: string) {
    && 15 <= |s| <= 34 && Alnum(s)
    && IsLetter(s[0]) && IsLetter(s[1]) && IsDigit(s[2]) && IsDigit(s[3])
  }

  /** `_iban_ok` on a normal form. */
  predicate IbanValid(s: string) { IbanShape(s) && Number(s[4..] + s[..4]) % 97 == 1 }

  /** `_iban_ok` */
  predicate IbanOk(value: string, drop: char -> bool, upper: char -> string) { IbanValid(Normal(value, drop, upper)) }

  /** On normal forms: a digit-for-digit or letter-for-letter substitution keeps it valid only if nothing changes. */
  lemma IbanNormalForm(s: string, i: nat, c: char)
    requires IbanValid(s) && i < |s| && SameClass(s[i], c)
    ensures IbanValid(s[i := c]) <==> c == s[i]
  {
    var t := s[i := c];
    var moved := s[4..] + s[..4];
    var j := if i < 4 then |s| - 4 + i else i - 4;
    if c == s[i] {
      assert t == s;
    } else {
      assert t[4..] + t[..4] == moved[j := c];
      RemainderChanges(moved, j, c);
      if Number(moved) % 97 == Number(moved[j := c]) % 97 { SameRemainder(Number(moved), Number(moved[j := c])); }
    }
  }

  /** The two check digits: the one pair that is accepted for a country and an account is 98 less the remainder of the
      number that has zeros in their place, where 01 stands for 98 and 00 for 97, and 99 for 02. */
  lemma IbanCheckDigits(country: string, account: string, a: char, b: char)
    requires |country| == 2 && IsLetter(country[0]) && IsLetter(country[1])
    requires Alnum(account) && 11 <= |account| <= 30 && IsDigit(a) && IsDigit(b)
    ensures Alnum(account + country + "00")
    ensures var check := 98 - Number(account + country + "00") % 97;
            IbanValid(country + [a, b] + account) <==> (10 * Value36(a) + Value36(b) - check) % 97 == 0
  {
    Rearranged(country, account, a, b);
    hide Number, IbanShape, Alnum, Value36;
    var s, n, v := country + [a, b] + account, Number(account + country), 10 * Value36(a) + Value36(b);
    WithZeros(account + country);
    LastTwo(account + country, a, b);
    assert IbanValid(s) <==> (100 * n + v) % 97 == 1;
    RemainderIsOne(n, v);
  }

  lemma WithZeros(s: string)
    requires Alnum(s)
    ensures Alnum(s + "00") && Number(s + "00") == 100 * Number(s)
  {
    assert s + ['0', '0'] == s + "00";
    LastTwo(s, '0', '0');
  }

  lemma Rearranged(country: string, account: string, a: char, b: char)
    requires |country| == 2 && IsLetter(country[0]) && IsLetter(country[1])
    requires Alnum(account) && 11 <= |account| <= 30 && IsDigit(a) && IsDigit(b)
    ensures Alnum(account + country) && Alnum(account + country + [a, b]) && Alnum(account + country + "00")
    ensures var s := country + [a, b] + account; IbanShape(s) && s[4..] + s[..4] == account + country + [a, b]
  {
    var s := country + [a, b] + account;
    assert s[4..] == account && s[..4] == country + [a, b];
  }

  lemma RemainderIsOne(n: nat, v: nat)
    ensures (100 * n + v) % 97 == 1 <==> (v - (98 - 100 * n % 97)) % 97 == 0
  {
    var q, r := 100 * n / 97, 100 * n % 97;
    assert 100 * n == 97 * q + r;
    assert 100 * n + v == 97 * q + (r + v);
    assert (100 * n + v) % 97 == (r + v) % 97;
    assert v - (98 - r) == (r + v) - 98;
  }

  /** On texts as they are found, with any spacing and in either case: another digit for a digit, or another letter for
      a letter, is never accepted. */
  lemma IbanDetectsOneCharacter(value: string, i: nat, c: char, drop: char -> bool, upper: char -> string)
    requires KeepsAscii(drop, upper) && IbanOk(value, drop, upper) && i < |value|
    requires (IsDigit(value[i]) && IsDigit(c)) || (AsciiLetter(value[i]) && AsciiLetter(c))
    ensures IbanOk(value[i := c], drop, upper) <==> Up(c) == Up(value[i])
  {
    var k := NormalAfterChange(value, i, c, drop, upper);
    IbanNormalForm(Normal(value, drop, upper), k, Up(c));
  }

  // ---------------------------------------------------------------- social-security number

  /** Python's `replace` for two characters by two others, from left to right. */
  function ReplacePair(s: string, a: char, b: char, x: char, y: char): string {
    if |s| < 2 then s
    else if s[0] == a && s[1] == b then [x, y] + ReplacePair(s[2..], a, b, x, y)
    else [s[0]] + ReplacePair(s[1..], a, b, x, y)
  }

  /** The Corsican departments 2A and 2B count as 19 and 18. */
  function NirBody(body: string): string { ReplacePair(ReplacePair(body, '2', 'A', '1', '9'), '2', 'B', '1', '8') }

  /** `_nir_ok` on a normal form. */
  predicate NirValid(s: string) {
    |s| == 15 && AllDigits(s[13..]) && AllDigits(NirBody(s[..13])) &&
    Number(s[13..]) == 97 - Number(NirBody(s[..13])) % 97
  }

  /** `_nir_ok` */
  predicate NirOk(value: string, drop: char -> bool, upper: char -> string) { NirValid(Normal(value, drop, upper)) }

  /** The key: a body and two digits are accepted exactly if the body counts as digits, Corsican departments included,
      and the key is between 1 and 97 and completes its number to a multiple of 97. */
  lemma NirKey(body: string, a: char, b: char)
    requires |body| == 13 && IsDigit(a) && IsDigit(b)
    ensures NirValid(body + [a, b]) <==>
              AllDigits(NirBody(body))
              && var key := 10 * Value36(a) + Value36(b);
                 1 <= key <= 97 && (Number(NirBody(body)) + key) % 97 == 0
  {
    var s := body + [a, b];
    assert s[..13] == body && s[13..] == [a, b];
    TwoDigits([a, b]);
    if AllDigits(NirBody(body)) { Completes(Number(NirBody(body)), 10 * Value36(a) + Value36(b)); }
  }

  lemma Completes(n: nat, key: nat)
    ensures key == 97 - n % 97 <==> 1 <= key <= 97 && (n + key) % 97 == 0
  {
    var q, r := n / 97, n % 97;
    assert n + key == 97 * q + (r + key);
    assert (n + key) % 97 == (r + key) % 97;
  }

  /** Position by position: the pairs `2b` become `xy`, and everything else stays. */
  lemma {:induction false} ReplacedAt(s: string, b: char, x: char, y: char, k: nat)
    requires b != '2' && k < |s|
    ensures |ReplacePair(s, '2', b, x, y)| == |s|
    ensures ReplacePair(s, '2', b, x, y)[k]
            == if k + 1 < |s| && s[k] == '2' && s[k + 1] == b then x
               else if k > 0 && s[k - 1] == '2' && s[k] == b then y
               else s[k]
  {
    if |s| >= 2 {
      if s[0] == '2' && s[1] == b {
        ReplacedLength(s[2..], b, x, y);
        if k >= 2 { ReplacedAt(s[2..], b, x, y, k - 2); }
      } else {
        ReplacedLength(s[1..], b, x, y);
        if k >= 1 { ReplacedAt(s[1..], b, x, y, k - 1); }
      }
    }
  }

  lemma {:induction false} ReplacedLength(s: string, b: char, x: char, y: char)
    ensures |ReplacePair(s, '2', b, x, y)| == |s|
  {
    if |s| >= 2 {
      ReplacedLength(s[1..], b, x, y);
      ReplacedLength(s[2..], b, x, y);
    }
  }

  predicate CorsicanLetter(c: char) { c == 'A' || c == 'B' }

  /** The digits that a body counts as, position by position. */
  lemma NirBodyAt(s: string, k: nat)
    requires k < |s|
    ensures |NirBody(s)| == |s|
    ensures NirBody(s)[k]
            == if k + 1 < |s| && s[k] == '2' && CorsicanLetter(s[k + 1]) then '1'
               else if k > 0 && s[k - 1] == '2' && s[k] == 'A' then '9'
               else if k > 0 && s[k - 1] == '2' && s[k] == 'B' then '8'
               else s[k]
  {
    var once := ReplacePair(s, '2', 'A', '1', '9');
    ReplacedAt(s, 'A', '1', '9', k);
    ReplacedAt(once, 'B', '1', '8', k);
    if k > 0 { ReplacedAt(s, 'A', '1', '9', k - 1); }
    if k + 1 < |s| { ReplacedAt(s, 'A', '1', '9', k + 1); }
  }

  /** When the body counts as digits, changing one of its digits and still counting as digits changes that digit only:
      a department letter needs its 2. */
  lemma NirBodyAfterChange(s: string, i: nat, c: char)
    requires i < |s| && IsDigit(s[i]) && IsDigit(c) && c != s[i]
    requires |NirBody(s)| == |NirBody(s[i := c])| == |s| && AllDigits(NirBody(s)) && AllDigits(NirBody(s[i := c]))
    ensures NirBody(s)[i] == s[i] && NirBody(s[i := c]) == NirBody(s)[i := c]
  {
    var t := s[i := c];
    NirBodyAt(s, i);
    NirBodyAt(t, i);
    if i + 1 < |s| {
      NirBodyAt(s, i + 1);
      NirBodyAt(t, i + 1);
      assert !CorsicanLetter(s[i + 1]);
    }
    forall k | 0 <= k < |s| ensures NirBody(t)[k] == NirBody(s)[i := c][k] {
      NirBodyAt(s, k);
      NirBodyAt(t, k);
    }
  }

  lemma TwoDigits(s: string)
    requires |s| == 2 && AllDigits(s)
    ensures Number(s) == 10 * Value36(s[0]) + Value36(s[1])
  {
    assert s[..1][..0] == "";
    assert Number(s[..1]) == Value36(s[0]);
  }

  lemma KeyValues(s: string, t: string)
    requires |s| == |t| == 2 && AllDigits(s) && AllDigits(t) && s != t
    ensures Number(s) != Number(t)
  {
    TwoDigits(s);
    TwoDigits(t);
    if s[0] == t[0] { assert s == [s[0], s[1]] && t == [t[0], t[1]]; }
  }

  /** On texts as they are found: an accepted number, Corsican or not, is never accepted with another digit in the place
      of one of its digits, of the body or of the key. */
  lemma NirDetectsOneDigit(value: string, i: nat, c: char, drop: char -> bool, upper: char -> string)
    requires KeepsAscii(drop, upper) && NirOk(value, drop, upper) && i < |value| && IsDigit(value[i]) && IsDigit(c)
    ensures NirOk(value[i := c], drop, upper) <==> c == value[i]
  {
    var k := NormalAfterChange(value, i, c, drop, upper);
    NirNormalForm(Normal(value, drop, upper), k, c);
  }

  /** On normal forms: the number stays valid under the change of one digit only if the digit stays the same. */
  lemma NirNormalForm(s: string, i: nat, c: char)
    requires NirValid(s) && i < 15 && IsDigit(s[i]) && IsDigit(c)
    ensures NirValid(s[i := c]) <==> c == s[i]
  {
    var t := s[i := c];
    if c == s[i] {
      assert t == s;
    } else if i >= 13 {
      assert t[..13] == s[..13] && t[13..] == s[13..][i - 13 := c];
      if AllDigits(t[13..]) { KeyValues(s[13..], t[13..]); }
    } else {
      assert t[..13] == s[..13][i := c] && t[13..] == s[13..];
      if AllDigits(NirBody(t[..13])) { BodyChangeIsSeen(s[..13], i, c); }
    }
  }

  lemma BodyChangeIsSeen(body: string, i: nat, c: char)
    requires |body| == 13 && i < 13 && IsDigit(body[i]) && IsDigit(c) && c != body[i]
    requires AllDigits(NirBody(body)) && AllDigits(NirBody(body[i := c]))
    ensures Number(NirBody(body)) % 97 != Number(NirBody(body[i := c])) % 97
  {
    NirBodyAt(body, i);
    NirBodyAt(body[i := c], i);
    NirBodyAfterChange(body, i, c);
    var n := NirBody(body);
    RemainderChanges(n, i, c);
    if Number(n) % 97 == Number(n[i := c]) % 97 { SameRemainder(Number(n), Number(n[i := c])); }
  }
}
