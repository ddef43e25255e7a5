/**
 * The CPF (Cadastro de Pessoas Fisicas) number check
 * (src/Customers.Microservice.Domain/SeedWork/CPFValidator.cs).
 *
 * The input is trimmed, every '.' and '-' is deleted, and an 11-character
 * result is accepted when its last two characters are the two mod-11 check
 * digits computed from the first nine. A null input and a non-digit among the
 * first nine characters make the source throw; here they are `Failure`s.
 */
module Cpf {
  import opened Wrappers

  /** The two exceptions `IsCpf` lets escape. */
  datatype CpfError =
    | NullInput    // `Trim` on a null string
    | FormatError  // `int.Parse` on a character that is not an ASCII digit

  /** The weights of the first check digit, 10 down to 2. */
  const Multiply1: seq<int> := [10, 9, 8, 7, 6, 5, 4, 3, 2]

  /** The weights of the second check digit, 11 down to 2. */
  const Multiply2: seq<int> := [11, 10, 9, 8, 7, 6, 5, 4, 3, 2]

  /** The characters .NET's `Char.IsWhiteSpace` accepts, which `Trim` removes. */
  predicate IsWhiteSpace(c: char)
    ensures IsWhiteSpace(c) ==> c != '.' && c != '-'
  {
    || '\U{9}' <= c <= '\U{D}'
    || c == ' ' || c == '\U{85}' || c == '\U{A0}' || c == '\U{1680}'
    || '\U{2000}' <= c <= '\U{200A}'
    || c == '\U{2028}' || c == '\U{2029}' || c == '\U{202F}' || c == '\U{205F}' || c == '\U{3000}'
  }

  /** The characters `int.Parse` accepts when given one character. */
  predicate IsDigit(c: char)
    ensures IsDigit(c) ==> !IsWhiteSpace(c) && c != '.' && c != '-'
  {
    '0' <= c <= '9'
  }

  function DigitValue(c: char): (d: int)
    requires IsDigit(c)
    ensures 0 <= d <= 9
  {
    c as int - '0' as int
  }

  /** The single character `ToString` gives for a value 0..9. */
  function DigitChar(d: int): (c: char)
    requires 0 <= d <= 9
    ensures IsDigit(c) && DigitValue(c) == d
  {
    ('0' as int + d) as char
  }

  /** `TrimStart`: the leading white space dropped. */
  function TrimStart(s: string): (r: string)
    ensures |r| <= |s| && r == s[|s| - |r|..]
    ensures |r| > 0 ==> !IsWhiteSpace(r[0])
  {
    if |s| > 0 && IsWhiteSpace(s[0]) then TrimStart(s[1..]) else s
  }

  /** `TrimEnd`: the trailing white space dropped. */
  function TrimEnd(s: string): (r: string)
    ensures |r| <= |s| && r == s[..|r|]
    ensures |r| > 0 ==> !IsWhiteSpace(r[|r| - 1])
  {
    if |s| > 0 && IsWhiteSpace(s[|s| - 1]) then TrimEnd(s[..|s| - 1]) else s
  }

  /** `Trim`: the input without white space at either end. */
  function Trim(s: string): (r: string)
    ensures |r| <= |s|
    ensures |r| > 0 ==> !IsWhiteSpace(r[0]) && !IsWhiteSpace(r[|r| - 1])
  {
    TrimEnd(TrimStart(s))
  }

  /** `Replace(ch, "")`: every occurrence of `ch` deleted, the other characters kept in order. */
  function RemoveChar(s: string, ch: char): (r: string)
    ensures |r| <= |s|
  {
    if |s| == 0 then ""
    else (if s[0] == ch then "" else [s[0]]) + RemoveChar(s[1..], ch)
  }

  /** `TrimStart` drops white space only. */
  lemma {:induction false} TrimStartDropsWhiteSpace(s: string)
    ensures forall i :: 0 <= i < |s| - |TrimStart(s)| ==> IsWhiteSpace(s[i])
  {
    if |s| > 0 && IsWhiteSpace(s[0]) {
      TrimStartDropsWhiteSpace(s[1..]);
      forall i | 1 <= i < |s| - |TrimStart(s)| ensures IsWhiteSpace(s[i]) {
        assert s[i] == s[1..][i - 1];
      }
    }
  }

  /** `TrimEnd` drops white space only. */
  lemma {:induction false} TrimEndDropsWhiteSpace(s: string)
    ensures forall i :: |TrimEnd(s)| <= i < |s| ==> IsWhiteSpace(s[i])
  {
    if |s| > 0 && IsWhiteSpace(s[|s| - 1]) {
      TrimEndDropsWhiteSpace(s[..|s| - 1]);
      forall i | |TrimEnd(s)| <= i < |s| - 1 ensures IsWhiteSpace(s[i]) {
        assert s[i] == s[..|s| - 1][i];
      }
    }
  }

  /** `Replace(ch, "")` shortens the string by the number of occurrences of `ch`, and by nothing else. */
  lemma {:induction false} RemoveCharLength(s: string, ch: char)
    ensures |RemoveChar(s, ch)| == |s| - multiset(s)[ch]
  {
    if |s| > 0 {
      RemoveCharLength(s[1..], ch);
      assert s == [s[0]] + s[1..];
      assert multiset(s) == multiset{s[0]} + multiset(s[1..]);
    }
  }

  /** The input as the validator reads it: trimmed, then without '.' and '-'. */
  function Normalize(s: string): (r: string)
    ensures '.' !in r && '-' !in r
  {
    var withoutDots := RemoveChar(Trim(s), '.');
    RemoveCharDrops(Trim(s), '.');
    RemoveCharDrops(withoutDots, '-');
    RemoveCharKeepsAbsent(withoutDots, '-', '.');
    RemoveChar(withoutDots, '-')
  }

  /** `Replace(ch, "")` leaves no `ch` behind. */
  lemma {:induction false} RemoveCharDrops(s: string, ch: char)
    ensures ch !in RemoveChar(s, ch)
  {
    if |s| > 0 {
      RemoveCharDrops(s[1..], ch);
    }
  }

  /** Deleting one character never brings in another. */
  lemma {:induction false} RemoveCharKeepsAbsent(s: string, ch: char, other: char)
    requires other !in s
    ensures other !in RemoveChar(s, ch)
  {
    if |s| > 0 {
      assert other !in s[1..] by {
        assert forall i :: 0 <= i < |s[1..]| ==> s[1..][i] == s[i + 1];
      }
      RemoveCharKeepsAbsent(s[1..], ch, other);
    }
  }

  /** The first `k` characters' digit values times the first `k` weights, summed. */
  function WeightedSum(s: string, weights: seq<int>, k: nat): int
    requires k <= |s| && k <= |weights|
    requires forall i :: 0 <= i < k ==> IsDigit(s[i])
  {
    if k == 0 then 0 else WeightedSum(s, weights, k - 1) + DigitValue(s[k - 1]) * weights[k - 1]
  }

  /**
   * A check digit: 0 when the remainder mod 11 is below 2, else 11 minus it.
   * It is a single digit, and it brings the sum to a multiple of 11 except when
   * the remainder is 1 (where 10 would be needed and 0 is used instead).
   */
  function CheckDigit(sum: int): (d: int)
    ensures 0 <= d <= 9
    ensures sum % 11 != 1 ==> (sum + d) % 11 == 0
    ensures sum % 11 == 1 ==> d == 0
  {
    var rest := sum % 11;
    if rest < 2 then 0 else 11 - rest
  }

  /** `EndsWith`, compared character by character. */
  predicate EndsWith(s: string, suffix: string)
    ensures EndsWith(s, suffix) <==>
      |suffix| <= |s| && forall i :: 0 <= i < |suffix| ==> s[|s| - |suffix| + i] == suffix[i]
  {
    |suffix| <= |s| && s[|s| - |suffix|..] == suffix
  }

  /** What `IsCpf` returns, or the exception it throws. */
  function CpfVerdict(cpf: Option<string>): (r: Result<bool, CpfError>)
    ensures r == Failure(NullInput) <==> cpf.None?
  {
    match cpf
    case None => Failure(NullInput)
    case Some(raw) => NormalizedVerdict(Normalize(raw))
  }

  /** The verdict on an already normalised string: the length gate, the parse of the first nine characters and the two check digits. */
  function NormalizedVerdict(n: string): (r: Result<bool, CpfError>)
    ensures |n| != 11 ==> r == Success(false)
    ensures r.Failure? <==> |n| == 11 && exists i :: 0 <= i < 9 && !IsDigit(n[i])
    ensures r.Failure? ==> r.error == FormatError
    ensures r == Success(true) ==> |n| == 11 && AllDigits(n)
  {
    if |n| != 11 then Success(false)
    else if exists i :: 0 <= i < 9 && !IsDigit(n[i]) then Failure(FormatError)
    else
      var head := n[..9];
      var d1 := CheckDigit(WeightedSum(head, Multiply1, 9));
      var temp := head + [DigitChar(d1)];
      var d2 := CheckDigit(WeightedSum(temp, Multiply2, 10));
      Success(EndsWith(n, [DigitChar(d1), DigitChar(d2)]))
  }

  /** The validator: normalise, then check the digits. */
  method IsCpf(cpf: Option<string>) returns (r: Result<bool, CpfError>)
    ensures r == CpfVerdict(cpf)
  {
    if cpf.None? {
      return Failure(NullInput);
    }
    var s := Normalize(cpf.value);
    r := CheckDigits(s);
  }

  /** The length gate and the two weighted-sum loops over the normalised string. */
  method CheckDigits(s: string) returns (r: Result<bool, CpfError>)
    ensures r == NormalizedVerdict(s)
  {
    if |s| != 11 {
      return Success(false);
    }
    var tempCpf := s[..9];
    var sum := 0;
    for i := 0 to 9
      invariant forall j :: 0 <= j < i ==> IsDigit(tempCpf[j])
      invariant sum == WeightedSum(tempCpf, Multiply1, i)
    {
      if !IsDigit(tempCpf[i]) {
        assert !IsDigit(s[i]);
        return Failure(FormatError);
      }
      sum := sum + DigitValue(tempCpf[i]) * Multiply1[i];
    }
    var rest := sum % 11;
    if rest < 2 {
      rest := 0;
    } else {
      rest := 11 - rest;
    }
    ghost var d1 := rest;
    assert d1 == CheckDigit(WeightedSum(s[..9], Multiply1, 9));
    var digit := [DigitChar(rest)];
    tempCpf := tempCpf + digit;
    assert forall j :: 0 <= j < 10 ==> IsDigit(tempCpf[j]);
    sum := 0;
    for i := 0 to 10
      invariant sum == WeightedSum(tempCpf, Multiply2, i)
    {
      sum := sum + DigitValue(tempCpf[i]) * Multiply2[i];
    }
    rest := sum % 11;
    if rest < 2 {
      rest := 0;
    } else {
      rest := 11 - rest;
    }
    assert rest == CheckDigit(WeightedSum(s[..9] + [DigitChar(d1)], Multiply2, 10));
    digit := digit + [DigitChar(rest)];
    assert digit == [DigitChar(d1), DigitChar(rest)];
    assert !exists i :: 0 <= i < 9 && !IsDigit(s[i]);
    return Success(EndsWith(s, digit));
  }

  /** With non-negative weights the weighted sum is non-negative. */
  lemma {:induction false} SumNonNegative(s: string, weights: seq<int>, k: nat)
    requires k <= |s| && k <= |weights|
    requires forall i :: 0 <= i < k ==> IsDigit(s[i])
    requires forall i :: 0 <= i < k ==> weights[i] >= 0
    ensures WeightedSum(s, weights, k) >= 0
  {
    if k > 0 {
      SumNonNegative(s, weights, k - 1);
    }
  }

  // ---------------------------------------------------------------------------
  // The textbook rule, as an independent reference

  /** The first `k` digits weighted `top`, `top - 1`, ... */
  function RefSum(n: string, top: int, k: nat): int
    requires k <= |n|
    requires forall i :: 0 <= i < k ==> IsDigit(n[i])
  {
    if k == 0 then 0 else RefSum(n, top, k - 1) + DigitValue(n[k - 1]) * (top - (k - 1))
  }

  /**
   * The usual statement of the CPF rule: eleven digits, where the tenth is
   * ten times the weighted sum of the first nine, mod 11, mod 10, and the
   * eleventh is the same for the first ten with weights 11 down to 2.
   */
  predicate ReferenceValid(n: string) {
    && |n| == 11
    && (forall i :: 0 <= i < 11 ==> IsDigit(n[i]))
    && DigitValue(n[9]) == (10 * RefSum(n, 10, 9)) % 11 % 10
    && DigitValue(n[10]) == (10 * RefSum(n, 11, 10)) % 11 % 10
  }

  /** The source's check digit is the textbook "ten times the sum, mod 11, mod 10". */
  lemma CheckDigitIsReference(sum: int)
    requires 0 <= sum
    ensures CheckDigit(sum) == (10 * sum) % 11 % 10
  {
    var q, rest := sum / 11, sum % 11;
    var m := 10 * q;
    assert 10 * sum == 11 * m + 10 * rest;
    ModOfMultiplePlus(m, 10 * rest);
    assert (10 * sum) % 11 == (10 * rest) % 11;
    assert CheckDigit(sum) == if rest < 2 then 0 else 11 - rest;
    RemainderTable(rest);
  }

  /** The rule and the textbook formula agree on each of the eleven remainders. */
  lemma RemainderTable(rest: int)
    requires 0 <= rest < 11
    ensures (if rest < 2 then 0 else 11 - rest) == (10 * rest) % 11 % 10
  {
    if rest == 0 {
    } else if rest == 1 {
      assert 10 * rest == 10;
    } else if rest == 2 {
      assert 10 * rest == 20;
    } else if rest == 3 {
      assert 10 * rest == 30;
    } else if rest == 4 {
      assert 10 * rest == 40;
    } else if rest == 5 {
      assert 10 * rest == 50;
    } else if rest == 6 {
      assert 10 * rest == 60;
    } else if rest == 7 {
      assert 10 * rest == 70;
    } else if rest == 8 {
      assert 10 * rest == 80;
    } else if rest == 9 {
      assert 10 * rest == 90;
    } else {
      assert 10 * rest == 100;
    }
  }

  /** Adding a multiple of 11 does not change the remainder. */
  lemma ModOfMultiplePlus(m: int, c: int)
    requires 0 <= c <= 100
    ensures (11 * m + c) % 11 == c % 11
  {
    var q := (11 * m + c) / 11;
    var r := (11 * m + c) % 11;
    assert 11 * (q - m) == c - r;
    assert c / 11 == q - m;
  }

  /** The array weights are the textbook weights, position by position. */
  lemma {:induction false} WeightedSumIsRefSum(s: string, weights: seq<int>, n: string, top: int, k: nat)
    requires k <= |s| && k <= |weights| && k <= |n|
    requires forall i :: 0 <= i < k ==> IsDigit(s[i]) && s[i] == n[i] && weights[i] == top - i
    ensures WeightedSum(s, weights, k) == RefSum(n, top, k)
  {
    if k > 0 {
      WeightedSumIsRefSum(s, weights, n, top, k - 1);
    }
  }

  /** `IsCpf` accepts exactly the inputs whose normalised form satisfies the textbook rule. */
  lemma AcceptsIffReferenceValid(n: string)
    ensures NormalizedVerdict(n) == Success(true) <==> ReferenceValid(n)
  {
    if |n| == 11 && forall i :: 0 <= i < 9 ==> IsDigit(n[i]) {
      var head := n[..9];
      var sum1 := WeightedSum(head, Multiply1, 9);
      WeightedSumIsRefSum(head, Multiply1, n, 10, 9);
      SumNonNegative(head, Multiply1, 9);
      var d1 := CheckDigit(sum1);
      CheckDigitIsReference(sum1);
      var temp := head + [DigitChar(d1)];
      SumNonNegative(temp, Multiply2, 10);
      var d2 := CheckDigit(WeightedSum(temp, Multiply2, 10));
      assert EndsWith(n, [DigitChar(d1), DigitChar(d2)]) <==> n[9] == DigitChar(d1) && n[10] == DigitChar(d2) by {
        assert n[|n| - 2..] == [n[9], n[10]];
      }
      if n[9] == DigitChar(d1) {
        assert temp == n[..10];
        WeightedSumIsRefSum(temp, Multiply2, n, 11, 10);
        CheckDigitIsReference(WeightedSum(temp, Multiply2, 10));
        if IsDigit(n[10]) && DigitValue(n[10]) == d2 {
          assert n[10] == DigitChar(d2) by { DigitRoundTrip(n[10]); }
        }
      } else if IsDigit(n[9]) && DigitValue(n[9]) == d1 {
        DigitRoundTrip(n[9]);
      }
    }
  }

  /** A digit character is the character of its value. */
  lemma DigitRoundTrip(c: char)
    requires IsDigit(c)
    ensures DigitChar(DigitValue(c)) == c
  {
  }

  /** Null input throws, and a normalised length other than 11 is rejected without an exception. */
  lemma ErrorAndLengthCases(raw: string)
    ensures CpfVerdict(None) == Failure(NullInput)
    ensures |Normalize(raw)| != 11 ==> CpfVerdict(Some(raw)) == Success(false)
    ensures |Normalize(raw)| == 11 ==>
      (CpfVerdict(Some(raw)).Failure? <==> exists i :: 0 <= i < 9 && !IsDigit(Normalize(raw)[i]))
  {
  }

  /** `Replace` works piece by piece over a concatenation. */
  lemma {:induction false} RemoveCharConcat(a: string, b: string, ch: char)
    ensures RemoveChar(a + b, ch) == RemoveChar(a, ch) + RemoveChar(b, ch)
  {
    if |a| > 0 {
      assert (a + b)[1..] == a[1..] + b;
      RemoveCharConcat(a[1..], b, ch);
    } else {
      assert a + b == b;
    }
  }

  /** `Replace` of a character that does not occur changes nothing. */
  lemma {:induction false} RemoveCharAbsent(s: string, ch: char)
    requires ch !in s
    ensures RemoveChar(s, ch) == s
  {
    if |s| > 0 {
      assert ch !in s[1..] by {
        assert forall i :: 0 <= i < |s[1..]| ==> s[1..][i] == s[i + 1];
      }
      RemoveCharAbsent(s[1..], ch);
      assert s == [s[0]] + s[1..];
    }
  }

  predicate AllDigits(s: string) {
    forall i :: 0 <= i < |s| ==> IsDigit(s[i])
  }

  /** `Replace` on a single character. */
  lemma RemoveCharSingle(x: char, ch: char)
    ensures RemoveChar([x], ch) == if x == ch then [] else [x]
  {
    assert [x][1..] == [];
  }

  /** A number written in the usual `ddd.ddd.ddd-dd` layout normalises to its bare digits. */
  lemma FormattedNormalizes(a: string, b: string, c: string, d: string)
    requires AllDigits(a) && AllDigits(b) && AllDigits(c) && AllDigits(d)
    requires |a| > 0 && |d| > 0
    ensures Normalize(a + "." + b + "." + c + "-" + d) == a + b + c + d
  {
    var s := a + "." + b + "." + c + "-" + d;
    assert s[0] == a[0] && s[|s| - 1] == d[|d| - 1];
    assert !IsWhiteSpace(s[0]) && !IsWhiteSpace(s[|s| - 1]);
    assert TrimStart(s) == s;
    assert TrimEnd(s) == s;
    DigitsLack(a, '.');
    DigitsLack(b, '.');
    DigitsLack(c, '.');
    DigitsLack(d, '.');
    DotsRemoved(a, b, c, d);
    DigitsLack(a + b + c, '-');
    DigitsLack(d, '-');
    DashRemoved(a + b + c, d);
  }

  /** A string of digits contains no separator. */
  lemma DigitsLack(s: string, ch: char)
    requires AllDigits(s) && !IsDigit(ch)
    ensures ch !in s
  {
  }

  /** The two dots of the layout go, and nothing else does. */
  lemma DotsRemoved(a: string, b: string, c: string, d: string)
    requires '.' !in a && '.' !in b && '.' !in c && '.' !in d
    ensures RemoveChar(a + "." + b + "." + c + "-" + d, '.') == a + b + c + "-" + d
  {
    RemoveCharAbsent(a, '.');
    RemoveCharAbsent(b, '.');
    RemoveCharAbsent(c, '.');
    RemoveCharAbsent(d, '.');
    RemoveCharSingle('.', '.');
    RemoveCharSingle('-', '.');
    var p1 := a + ".";
    RemoveCharConcat(a, ".", '.');
    assert RemoveChar(p1, '.') == a;
    var p2 := p1 + b;
    RemoveCharConcat(p1, b, '.');
    assert RemoveChar(p2, '.') == a + b;
    var p3 := p2 + ".";
    RemoveCharConcat(p2, ".", '.');
    assert RemoveChar(p3, '.') == a + b;
    var p4 := p3 + c;
    RemoveCharConcat(p3, c, '.');
    assert RemoveChar(p4, '.') == a + b + c;
    var p5 := p4 + "-";
    RemoveCharConcat(p4, "-", '.');
    assert RemoveChar(p5, '.') == a + b + c + "-";
    RemoveCharConcat(p5, d, '.');
  }

  /** The dash of the layout goes, and nothing else does. */
  lemma DashRemoved(x: string, d: string)
    requires '-' !in x && '-' !in d
    ensures RemoveChar(x + "-" + d, '-') == x + d
  {
    RemoveCharAbsent(x, '-');
    RemoveCharAbsent(d, '-');
    RemoveCharSingle('-', '-');
    RemoveCharConcat(x, "-", '-');
    assert RemoveChar(x + "-", '-') == x;
    RemoveCharConcat(x + "-", d, '-');
  }

  /** The accepted example number "948.138.820-48", once normalised. */
  lemma AcceptedSample()
    ensures NormalizedVerdict("94813882048") == Success(true)
  {
    var n := "94813882048";
    var head := n[..9];
    assert head == "948138820";
    AcceptedFirstDigit();
    var temp := head + [DigitChar(4)];
    assert temp == "9481388204";
    AcceptedSecondDigit();
    assert n[9..] == [DigitChar(4), DigitChar(8)];
  }

  /** The first check digit of 948138820 is 4. */
  lemma AcceptedFirstDigit()
    ensures CheckDigit(WeightedSum("948138820", Multiply1, 9)) == 4
  {
    var head := "948138820";
    assert WeightedSum(head, Multiply1, 1) == 90;
    assert WeightedSum(head, Multiply1, 2) == 126;
    assert WeightedSum(head, Multiply1, 3) == 190;
    assert WeightedSum(head, Multiply1, 4) == 197;
    assert WeightedSum(head, Multiply1, 5) == 215;
    assert WeightedSum(head, Multiply1, 6) == 255;
    assert WeightedSum(head, Multiply1, 7) == 287;
    assert WeightedSum(head, Multiply1, 8) == 293;
    assert WeightedSum(head, Multiply1, 9) == 293;
  }

  /** The second check digit of 9481388204 is 8. */
  lemma AcceptedSecondDigit()
    ensures CheckDigit(WeightedSum("9481388204", Multiply2, 10)) == 8
  {
    var temp := "9481388204";
    assert WeightedSum(temp, Multiply2, 1) == 99;
    assert WeightedSum(temp, Multiply2, 2) == 139;
    assert WeightedSum(temp, Multiply2, 3) == 211;
    assert WeightedSum(temp, Multiply2, 4) == 219;
    assert WeightedSum(temp, Multiply2, 5) == 240;
    assert WeightedSum(temp, Multiply2, 6) == 288;
    assert WeightedSum(temp, Multiply2, 7) == 328;
    assert WeightedSum(temp, Multiply2, 8) == 336;
    assert WeightedSum(temp, Multiply2, 9) == 336;
    assert WeightedSum(temp, Multiply2, 10) == 344;
  }

  /** The rejected example "000.138.820-48", once normalised: its first check digit is 7, not 4. */
  lemma RejectedSample()
    ensures NormalizedVerdict("00013882048") == Success(false)
  {
    var n := "00013882048";
    var head := n[..9];
    assert head == "000138820";
    RejectedFirstDigit();
    assert n[9] != DigitChar(7);
  }

  /** The rejected test input as written, dots and dash included, is rejected. */
  lemma RejectedTestString()
    ensures CpfVerdict(Some("000.138.820-48")) == Success(false)
  {
    var a, b, c, d := "000", "138", "820", "48";
    assert AllDigits(a) && AllDigits(b) && AllDigits(c) && AllDigits(d);
    assert a + "." + b + "." + c + "-" + d == "000.138.820-48";
    assert a + b + c + d == "00013882048";
    FormattedNormalizes(a, b, c, d);
    RejectedSample();
  }

  /** The first check digit of 000138820 is 7. */
  lemma RejectedFirstDigit()
    ensures CheckDigit(WeightedSum("000138820", Multiply1, 9)) == 7
  {
    var head := "000138820";
    assert WeightedSum(head, Multiply1, 1) == 0;
    assert WeightedSum(head, Multiply1, 2) == 0;
    assert WeightedSum(head, Multiply1, 3) == 0;
    assert WeightedSum(head, Multiply1, 4) == 7;
    assert WeightedSum(head, Multiply1, 5) == 25;
    assert WeightedSum(head, Multiply1, 6) == 65;
    assert WeightedSum(head, Multiply1, 7) == 97;
    assert WeightedSum(head, Multiply1, 8) == 103;
    assert WeightedSum(head, Multiply1, 9) == 103;
  }
}
