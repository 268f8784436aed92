/**
 Printing and parsing EUR budgets with eight decimals
 (src/lib/aiCapacityAdmin.ts, `parseEurBudgetToMicrocents` and `formatMicrocentsAsEur`).
 */
module CapacityBudget {
  import opened Wrappers
  import opened Decimals

  /** The parser's three answers: null, undefined, or an amount in microcents. */
  datatype Parsed = Null | Undefined | Amount(microcents: nat)

  const UNIT: nat := 100000000
  const MAX_SAFE_INTEGER: nat := 9007199254740991

  function Pow10(k: nat): nat {
    if k == 0 then 1 else 10 * Pow10(k - 1)
  }

  function PadStart(text: string, width: nat): string {
    if |text| >= width then text else Zeros(width - |text|) + text
  }

  function PadEnd(text: string, width: nat): (padded: string)
    ensures AllDigits(text) ==> AllDigits(padded)
  {
    if |text| >= width then text else text + Zeros(width - |text|)
  }

  function StripTrailingZeros(text: string): string {
    if text != "" && text[|text| - 1] == '0' then StripTrailingZeros(text[..|text| - 1]) else text
  }

  // ----- the parser -----

  /** White space and line terminators of ECMAScript, which `trim` removes. */
  predicate IsSpace(c: char) {
    c == ' ' || '\t' <= c <= '\r' || c == '\U{A0}' || c == '\U{1680}' || '\U{2000}' <= c <= '\U{200A}' ||
    c == '\U{2028}' ||
    c == '\U{2029}' || c == '\U{202F}' || c == '\U{205F}' || c == '\U{3000}' || c == '\U{FEFF}'
  }

  function TrimStart(text: string): string {
    if text != "" && IsSpace(text[0]) then TrimStart(text[1..]) else text
  }

  function TrimEnd(text: string): string {
    if text != "" && IsSpace(text[|text| - 1]) then TrimEnd(text[..|text| - 1]) else text
  }

  /** `text.replace(",", ".")`: only the first comma. */
  function FirstCommaToDot(text: string): string {
    if text == "" then ""
    else if text[0] == ',' then "." + text[1..]
    else [text[0]] + FirstCommaToDot(text[1..])
  }

  function LeadingDigits(text: string): (n: nat)
    ensures n <= |text| && AllDigits(text[..n])
  {
    if text != "" && IsDigit(text[0]) then
      var n := LeadingDigits(text[1..]);
      assert text[..n + 1] == [text[0]] + text[1..][..n];
      n + 1
    else 0
  }

  /** The pattern `^(\d{1,7})(?:\.(\d{1,8}))?$`: its two groups. */
  function Groups(text: string): (groups: Option<(string, string)>)
    ensures groups.Some? ==>
      AllDigits(groups.value.0) && AllDigits(groups.value.1) && 1 <= |groups.value.0| <= 7 && |groups.value.1| <= 8
  {
    GroupsFrom(text[..LeadingDigits(text)], text[LeadingDigits(text)..])
  }

  /** The groups of a text whose leading digits are `whole` and whose other characters are `rest`. */
  function GroupsFrom(whole: string, rest: string): (groups: Option<(string, string)>)
    requires AllDigits(whole)
    ensures groups.Some? ==>
      AllDigits(groups.value.0) && AllDigits(groups.value.1) && 1 <= |groups.value.0| <= 7 && |groups.value.1| <= 8
  {
    if !(1 <= |whole| <= 7) then None
    else if rest == "" then Some((whole, ""))
    else if rest[0] == '.' && AllDigits(rest[1..]) && 1 <= |rest[1..]| <= 8 then Some((whole, rest[1..]))
    else None
  }

  function Parse(value: Option<string>): Parsed {
    if value.None? then Null
    else
      var normalized := FirstCommaToDot(TrimEnd(TrimStart(value.value)));
      if normalized == "" then Null
      else
        match Groups(normalized)
        case None => Undefined
        case Some((whole, fraction)) => AmountOf(whole, fraction)
  }

  function AmountOf(whole: string, fraction: string): Parsed
    requires AllDigits(whole) && AllDigits(fraction)
  {
    var result := Number(whole) * UNIT + Number(PadEnd(fraction, 8));
    if 0 < result <= MAX_SAFE_INTEGER then Amount(result) else Undefined
  }

  // ----- the printer -----

  function Format(value: Option<nat>): string {
    if value.None? then ""
    else
      var whole := value.value / UNIT;
      var fraction := StripTrailingZeros(PadStart(Digits(value.value % UNIT), 8));
      if fraction != "" then Digits(whole) + "," + fraction else Digits(whole)
  }

  // ----- digits and numbers -----

  /** `String(n)` has at most k digits exactly below 10^k. */
  lemma {:induction false} DigitsLength(n: nat, k: nat)
    requires k >= 1
    ensures |Digits(n)| <= k <==> n < Pow10(k)
  {
    if n >= 10 {
      if k == 1 {
      } else {
        DigitsLength(n / 10, k - 1);
      }
    } else {
      PowAtLeastTen(k);
    }
  }

  lemma {:induction false} PowAtLeastTen(k: nat)
    requires k >= 1
    ensures Pow10(k) >= 10
  {
    if k > 1 { PowAtLeastTen(k - 1); }
  }

  lemma {:induction false} NumberBound(digits: string)
    requires AllDigits(digits)
    ensures Number(digits) < Pow10(|digits|)
  {
    if digits != "" {
      var n := |digits| - 1;
      NumberBound(digits[..n]);
      assert IsDigit(digits[n]) && DigitValue(digits[n]) <= 9;
      assert Pow10(n + 1) == 10 * Pow10(n);
    }
  }

  lemma {:induction false} PowMonotone(a: nat, b: nat)
    requires a <= b
    ensures Pow10(a) <= Pow10(b)
  {
    if a < b { PowMonotone(a, b - 1); }
  }

  /** Removing trailing zeros and filling them up again gives the same text. */
  lemma {:induction false} StripThenPad(text: string)
    ensures PadEnd(StripTrailingZeros(text), |text|) == text
    ensures StripTrailingZeros(text) <= text
  {
    if text != "" && text[|text| - 1] == '0' {
      var front := text[..|text| - 1];
      StripThenPad(front);
      var stripped := StripTrailingZeros(front);
      assert stripped + Zeros(|text| - |stripped|) == stripped + Zeros(|front| - |stripped|) + "0";
    }
  }

  // ----- parsing what was printed -----

  lemma {:induction false} CommaAfterDigits(whole: string, rest: string)
    requires AllDigits(whole)
    ensures FirstCommaToDot(whole + "," + rest) == whole + "." + rest
    ensures FirstCommaToDot(whole) == whole
  {
    if whole == "" {
      assert "" + "," + rest == "," + rest;
      assert (whole + "," + rest)[1..] == rest;
    } else {
      var all := whole + "," + rest;
      assert all[1..] == whole[1..] + "," + rest;
      assert whole[0] in whole && AllDigits(whole[1..]);
      CommaAfterDigits(whole[1..], rest);
      assert [whole[0]] + whole[1..] == whole;
      assert [whole[0]] + (whole[1..] + "." + rest) == whole + "." + rest;
    }
  }

  lemma {:induction false} LeadingDigitsOf(whole: string, rest: string)
    requires AllDigits(whole) && (rest == "" || !IsDigit(rest[0]))
    ensures LeadingDigits(whole + rest) == |whole|
  {
    if whole == "" {
      assert "" + rest == rest;
    } else {
      assert (whole + rest)[1..] == whole[1..] + rest;
      assert whole[0] in whole && AllDigits(whole[1..]);
      LeadingDigitsOf(whole[1..], rest);
    }
  }

  /** Digits, and digits around a comma, survive trimming. */
  lemma NothingToTrim(text: string)
    requires text != "" && IsDigit(text[0]) && IsDigit(text[|text| - 1])
    ensures TrimEnd(TrimStart(text)) == text
  {
  }

  lemma GroupsOfParts(whole: string, rest: string)
    requires AllDigits(whole) && (rest == "" || !IsDigit(rest[0]))
    ensures Groups(whole + rest) == GroupsFrom(whole, rest)
  {
    LeadingDigitsOf(whole, rest);
    assert (whole + rest)[..|whole|] == whole && (whole + rest)[|whole|..] == rest;
  }

  lemma ParsePlain(whole: string)
    requires AllDigits(whole) && whole != ""
    ensures Parse(Some(whole)) == if |whole| <= 7 then AmountOf(whole, "") else Undefined
  {
    NothingToTrim(whole);
    CommaAfterDigits(whole, "");
    GroupsOfParts(whole, "");
    assert whole + "" == whole;
  }

  lemma ParseDecimal(whole: string, fraction: string)
    requires AllDigits(whole) && whole != "" && AllDigits(fraction) && 1 <= |fraction| <= 8
    ensures Parse(Some(whole + "," + fraction)) == if |whole| <= 7 then AmountOf(whole, fraction) else Undefined
  {
    var text, rest := whole + "," + fraction, "." + fraction;
    assert text[|text| - 1] == fraction[|fraction| - 1];
    NothingToTrim(text);
    CommaAfterDigits(whole, fraction);
    assert whole + "." + fraction == whole + rest;
    assert rest[1..] == fraction;
    GroupsOfParts(whole, rest);
  }

  /** The eight printed decimals of a remainder. */
  lemma PaddedRemainder(remainder: nat)
    requires remainder < UNIT
    ensures var padded := PadStart(Digits(remainder), 8);
            |padded| == 8 && AllDigits(padded) && Number(padded) == remainder
  {
    assert Pow10(8) == UNIT by { assert Pow10(4) == 10000; }
    DigitsLength(remainder, 8);
    NumberOfDigits(remainder);
    NumberOfPadded(8 - |Digits(remainder)|, Digits(remainder));
    assert Zeros(0) + Digits(remainder) == Digits(remainder);
  }

  /** Printing and parsing are inverse for every amount from 1 to 10^15 - 1, and larger amounts are refused. */
  lemma RoundTrip(v: nat)
    requires v >= 1
    ensures Parse(Some(Format(Some(v)))) == if v < 1000000000000000 then Amount(v) else Undefined
  {
    var whole, remainder := v / UNIT, v % UNIT;
    var padded := PadStart(Digits(remainder), 8);
    var fraction := StripTrailingZeros(padded);
    PaddedRemainder(remainder);
    StripThenPad(padded);
    NumberOfDigits(whole);
    assert Pow10(7) == 10000000 by { assert Pow10(4) == 10000; }
    DigitsLength(whole, 7);
    assert AllDigits(fraction) by { assert forall c <- fraction :: c in padded; }
    if fraction == "" {
      ParsePlain(Digits(whole));
    } else {
      ParseDecimal(Digits(whole), fraction);
    }
  }

  /** Every intermediate value of an accepted pattern is an exactly representable integer below 10^15. */
  lemma ParsedValuesAreExact(text: string)
    requires Groups(text).Some?
    ensures Number(Groups(text).value.0) < 10000000
    ensures Number(PadEnd(Groups(text).value.1, 8)) < UNIT
    ensures Number(Groups(text).value.0) * UNIT +
      Number(PadEnd(Groups(text).value.1, 8)) < 1000000000000000 < MAX_SAFE_INTEGER
  {
    var (whole, fraction) := Groups(text).value;
    NumberBound(whole);
    NumberBound(PadEnd(fraction, 8));
    PowMonotone(|whole|, 7);
    assert Pow10(7) == 10000000 && Pow10(8) == UNIT by { assert Pow10(4) == 10000; }
  }

  /** Whatever text was accepted, printing its amount and parsing again gives the same amount. */
  lemma ParseFormatParse(text: string)
    requires Parse(Some(text)).Amount?
    ensures Parse(Some(Format(Some(Parse(Some(text)).microcents)))) == Parse(Some(text))
  {
    ParsedValuesAreExact(FirstCommaToDot(TrimEnd(TrimStart(text))));
    RoundTrip(Parse(Some(text)).microcents);
  }

  // ----- exactly which texts denote which amount -----

  /** The white space and the line terminators of ECMAScript. */
  const BLANKS: set<char> := {
    '\t', '\n', '\U{B}', '\U{C}', '\r', ' ', '\U{A0}', '\U{1680}', '\U{2000}', '\U{2001}', '\U{2002}', '\U{2003}',
    '\U{2004}', '\U{2005}', '\U{2006}', '\U{2007}', '\U{2008}', '\U{2009}', '\U{200A}', '\U{2028}', '\U{2029}',
    '\U{202F}', '\U{205F}', '\U{3000}', '\U{FEFF}'}

  ghost predicate Blank(text: string) {
    forall k :: 0 <= k < |text| ==> text[k] in BLANKS
  }

  ghost predicate Decimal(text: string, least: nat, most: nat) {
    least <= |text| <= most && forall k :: 0 <= k < |text| ==> '0' <= text[k] <= '9'
  }

  /** One to seven digits, and perhaps a comma or dot with one to eight digits. */
  ghost predicate Writes(core: string, whole: string, fraction: string) {
    && Decimal(whole, 1, 7) && Decimal(fraction, 0, 8)
    && (if fraction == "" then core == whole else core == whole + "," + fraction || core == whole + "." + fraction)
  }

  /** Units of a hundred million, and the digits of the fraction as hundred-millionths. */
  ghost predicate HasValue(whole: string, fraction: string, amount: nat) {
    AllDigits(whole) && AllDigits(fraction) && |fraction| <= 8 &&
    amount == Number(whole) * 100000000 + Number(fraction) * Pow10(8 - |fraction|)
  }

  ghost predicate Denotes(core: string, amount: nat) {
    exists whole, fraction :: Writes(core, whole, fraction) && HasValue(whole, fraction, amount)
  }

  ghost predicate Wraps(text: string, before: string, core: string, after: string) {
    text == before + core + after && Blank(before) && Blank(after)
  }

  lemma BlanksMean(c: char)
    ensures IsSpace(c) <==> c in BLANKS
  {
  }

  lemma {:induction false} TrimStartDrops(before: string, rest: string)
    requires Blank(before)
    ensures TrimStart(before + rest) == TrimStart(rest)
  {
    if before == "" {
      assert before + rest == rest;
    } else {
      BlanksMean(before[0]);
      assert (before + rest)[1..] == before[1..] + rest;
      TrimStartDrops(before[1..], rest);
    }
  }

  lemma {:induction false} TrimEndDrops(rest: string, after: string)
    requires Blank(after)
    ensures TrimEnd(rest + after) == TrimEnd(rest)
  {
    if after == "" {
      assert rest + after == rest;
    } else {
      var n := |after| - 1;
      BlanksMean(after[n]);
      assert (rest + after)[..|rest| + n] == rest + after[..n];
      TrimEndDrops(rest, after[..n]);
    }
  }

  lemma {:induction false} TrimStartSplits(text: string) returns (before: string)
    ensures text == before + TrimStart(text) && Blank(before)
    ensures TrimStart(text) != "" ==> TrimStart(text)[0] !in BLANKS
  {
    if text != "" && IsSpace(text[0]) {
      BlanksMean(text[0]);
      var rest := TrimStartSplits(text[1..]);
      before := [text[0]] + rest;
    } else {
      if text != "" { BlanksMean(text[0]); }
      before := "";
    }
  }

  lemma {:induction false} TrimEndSplits(text: string) returns (after: string)
    ensures text == TrimEnd(text) + after && Blank(after)
    ensures TrimEnd(text) != "" ==> TrimEnd(text)[|TrimEnd(text)| - 1] !in BLANKS
  {
    if text != "" && IsSpace(text[|text| - 1]) {
      BlanksMean(text[|text| - 1]);
      var rest := TrimEndSplits(text[..|text| - 1]);
      after := rest + [text[|text| - 1]];
    } else {
      if text != "" { BlanksMean(text[|text| - 1]); }
      after := "";
    }
  }

  /** Trimming takes off the blanks on both sides, and nothing else. */
  lemma TrimExactly(text: string) returns (before: string, after: string)
    ensures Wraps(text, before, TrimEnd(TrimStart(text)), after)
    ensures TrimEnd(TrimStart(text)) == "" <==> Blank(text)
  {
    before := TrimStartSplits(text);
    after := TrimEndSplits(TrimStart(text));
    var core := TrimEnd(TrimStart(text));
    assert text == before + core + after;
    if core == "" {
      forall k | 0 <= k < |text| ensures text[k] in BLANKS {
        assert text == before + after;
      }
    } else {
      assert text[|before|] == TrimStart(text)[0];
    }
  }

  lemma TrimUnwraps(text: string, before: string, core: string, after: string)
    requires Wraps(text, before, core, after) && core != "" && core[0] !in BLANKS && core[|core| - 1] !in BLANKS
    ensures TrimEnd(TrimStart(text)) == core
  {
    assert text == before + (core + after);
    TrimStartDrops(before, core + after);
    BlanksMean(core[0]);
    assert TrimStart(core + after) == core + after;
    TrimEndDrops(core, after);
    BlanksMean(core[|core| - 1]);
  }

  lemma DecimalMeans(text: string)
    ensures AllDigits(text) <==> forall k :: 0 <= k < |text| ==> '0' <= text[k] <= '9'
  {
    if forall k :: 0 <= k < |text| ==> '0' <= text[k] <= '9' {
      forall c | c in text ensures IsDigit(c) {
        var k :| 0 <= k < |text| && text[k] == c;
      }
    }
    if AllDigits(text) {
      forall k | 0 <= k < |text| ensures '0' <= text[k] <= '9' { assert text[k] in text; }
    }
  }

  lemma {:induction false} NoCommaStays(text: string)
    requires ',' !in text
    ensures FirstCommaToDot(text) == text
  {
    if text != "" {
      assert text[0] in text;
      NoCommaStays(text[1..]);
    }
  }

  /** A text without a comma after the replacement had at most one, where now is a dot. */
  lemma {:induction false} CommaCameFrom(text: string, whole: string, fraction: string)
    requires AllDigits(whole) && AllDigits(fraction) && FirstCommaToDot(text) == whole + "." + fraction
    ensures text == whole + "," + fraction || text == whole + "." + fraction
  {
    assert whole == "" ==> whole + "." + fraction == "." + fraction;
    if whole != "" {
      assert text != "" && text[0] != ',' by { assert whole[0] in whole && (whole + "." + fraction)[0] == whole[0]; }
      assert (whole + "." + fraction)[1..] == whole[1..] + "." + fraction;
      assert FirstCommaToDot(text)[1..] == FirstCommaToDot(text[1..]);
      CommaCameFrom(text[1..], whole[1..], fraction);
      assert text == [text[0]] + text[1..] && whole == [whole[0]] + whole[1..];
    } else if text[0] == ',' {
      assert text[1..] == fraction by {
        assert ("." + text[1..])[1..] == text[1..];
        assert ("." + fraction)[1..] == fraction;
      }
    } else {
      assert FirstCommaToDot(text[1..]) == fraction by {
        assert ([text[0]] + FirstCommaToDot(text[1..]))[1..] == FirstCommaToDot(text[1..]);
        assert ("." + fraction)[1..] == fraction;
      }
      PlainCameFrom(text[1..], fraction);
    }
  }

  lemma {:induction false} PlainCameFrom(text: string, digits: string)
    requires AllDigits(digits) && FirstCommaToDot(text) == digits
    ensures text == digits
  {
    if text != "" {
      assert digits[0] in digits;
      assert text[0] != ',';
      assert FirstCommaToDot(text)[1..] == FirstCommaToDot(text[1..]);
      PlainCameFrom(text[1..], digits[1..]);
    }
  }

  lemma {:induction false} LeadingStops(text: string)
    ensures LeadingDigits(text) < |text| ==> !IsDigit(text[LeadingDigits(text)])
  {
    if text != "" && IsDigit(text[0]) { LeadingStops(text[1..]); }
  }

  lemma WrittenHasGroups(core: string, whole: string, fraction: string)
    requires Writes(core, whole, fraction)
    ensures Groups(FirstCommaToDot(core)) == Some((whole, fraction))
  {
    DecimalMeans(whole);
    DecimalMeans(fraction);
    if fraction == "" {
      CommaAfterDigits(whole, "");
      GroupsOfParts(whole, "");
      assert whole + "" == whole;
    } else {
      var rest := "." + fraction;
      assert FirstCommaToDot(core) == whole + rest by {
        assert whole + "." + fraction == whole + rest;
        if core == whole + "," + fraction {
          CommaAfterDigits(whole, fraction);
        } else {
          DotHasNoComma(whole, fraction);
          NoCommaStays(core);
        }
      }
      assert rest[1..] == fraction;
      GroupsOfParts(whole, rest);
    }
  }

  lemma DotHasNoComma(whole: string, fraction: string)
    requires AllDigits(whole) && AllDigits(fraction)
    ensures ',' !in whole + "." + fraction
  {
  }

  lemma DotIsWritten(core: string, whole: string, fraction: string)
    requires AllDigits(whole) && AllDigits(fraction) && 1 <= |whole| <= 7 && 1 <= |fraction| <= 8
    requires FirstCommaToDot(core) == whole + "." + fraction
    ensures Writes(core, whole, fraction)
  {
    DecimalMeans(whole);
    DecimalMeans(fraction);
    CommaCameFrom(core, whole, fraction);
  }

  lemma WholeIsWritten(core: string, whole: string)
    requires AllDigits(whole) && 1 <= |whole| <= 7 && FirstCommaToDot(core) == whole
    ensures Writes(core, whole, "")
  {
    DecimalMeans(whole);
    PlainCameFrom(core, whole);
  }

  lemma GroupsAreWritten(core: string, whole: string, fraction: string)
    requires Groups(FirstCommaToDot(core)) == Some((whole, fraction))
    ensures Writes(core, whole, fraction)
  {
    var text := FirstCommaToDot(core);
    var rest := text[LeadingDigits(text)..];
    assert text == whole + rest;
    if rest == "" {
      assert text == whole;
      WholeIsWritten(core, whole);
    } else {
      assert rest == "." + fraction;
      assert whole + rest == whole + "." + fraction;
      DotIsWritten(core, whole, fraction);
    }
  }

  /** The pattern's groups are those of the written form. */
  lemma GroupsExactly(core: string, whole: string, fraction: string)
    ensures Groups(FirstCommaToDot(core)) == Some((whole, fraction)) <==> Writes(core, whole, fraction)
  {
    if Writes(core, whole, fraction) { WrittenHasGroups(core, whole, fraction); }
    if Groups(FirstCommaToDot(core)) == Some((whole, fraction)) { GroupsAreWritten(core, whole, fraction); }
  }

  lemma AppendZero(digits: string)
    requires AllDigits(digits)
    ensures AllDigits(digits + "0") && Number(digits + "0") == Number(digits) * 10
  {
    assert (digits + "0")[..|digits|] == digits;
  }

  lemma TimesTen(a: nat, b: nat)
    ensures a * b * 10 == a * (10 * b)
  {
  }

  lemma {:induction false} PadMultiplies(digits: string, zeros: nat)
    requires AllDigits(digits)
    ensures AllDigits(digits + Zeros(zeros)) && Number(digits + Zeros(zeros)) == Number(digits) * Pow10(zeros)
  {
    if zeros == 0 {
      assert digits + Zeros(0) == digits;
    } else {
      PadMultiplies(digits, zeros - 1);
      var front := digits + Zeros(zeros - 1);
      assert digits + Zeros(zeros) == front + "0";
      AppendZero(front);
      TimesTen(Number(digits), Pow10(zeros - 1));
    }
  }

  lemma PadEndMultiplies(fraction: string)
    requires AllDigits(fraction) && |fraction| <= 8
    ensures AllDigits(PadEnd(fraction, 8)) && Number(PadEnd(fraction, 8)) == Number(fraction) * Pow10(8 - |fraction|)
  {
    PadEndIsZeros(fraction);
    PadMultiplies(fraction, 8 - |fraction|);
    SameNumber(PadEnd(fraction, 8), fraction + Zeros(8 - |fraction|));
  }

  lemma SameNumber(left: string, right: string)
    requires left == right && AllDigits(right)
    ensures AllDigits(left) && Number(left) == Number(right)
  {
  }

  lemma PadEndIsZeros(text: string)
    requires |text| <= 8
    ensures PadEnd(text, 8) == text + Zeros(8 - |text|)
  {
    assert text + Zeros(0) == text;
  }

  lemma SevenAndEight()
    ensures Pow10(7) == 10000000 && Pow10(8) == UNIT
  {
    assert Pow10(4) == 10000;
  }

  lemma AmountIsSafe(whole: nat, fraction: nat)
    requires whole < 10000000 && fraction < UNIT
    ensures whole * UNIT + fraction <= MAX_SAFE_INTEGER
  {
  }

  lemma AmountOfDigits(whole: string, fraction: string)
    requires AllDigits(whole) && AllDigits(fraction) && 1 <= |whole| <= 7 && |fraction| <= 8
    ensures var amount := Number(whole) * UNIT + Number(PadEnd(fraction, 8));
      AmountOf(whole, fraction) == if amount > 0 then Amount(amount) else Undefined
  {
    NumberBound(whole);
    NumberBound(PadEnd(fraction, 8));
    PadEndIsZeros(fraction);
    PowMonotone(|whole|, 7);
    SevenAndEight();
    AmountIsSafe(Number(whole), Number(PadEnd(fraction, 8)));
  }

  lemma WrittenEnds(core: string, whole: string, fraction: string)
    requires Writes(core, whole, fraction)
    ensures core != "" && core[0] !in BLANKS && core[|core| - 1] !in BLANKS
  {
    assert core[0] == whole[0];
    assert core[|core| - 1] == if fraction == "" then whole[|whole| - 1] else fraction[|fraction| - 1];
  }

  lemma WrittenAmount(core: string, whole: string, fraction: string, amount: nat)
    requires Writes(core, whole, fraction)
    ensures AllDigits(whole) && AllDigits(fraction)
    ensures AmountOf(whole, fraction) == Amount(amount) <==> amount > 0 && HasValue(whole, fraction, amount)
    ensures AmountOf(whole, fraction) != Null
  {
    DecimalMeans(whole);
    DecimalMeans(fraction);
    PadEndMultiplies(fraction);
    AmountOfDigits(whole, fraction);
  }

  lemma OneWriting(core: string, whole: string, fraction: string, other: string, more: string)
    requires Writes(core, whole, fraction) && Writes(core, other, more)
    ensures other == whole && more == fraction
  {
    WrittenHasGroups(core, whole, fraction);
    WrittenHasGroups(core, other, more);
  }

  /** The core denotes the one amount that its writing has. */
  lemma OneAmount(core: string, whole: string, fraction: string, amount: nat)
    requires Writes(core, whole, fraction)
    ensures HasValue(whole, fraction, amount) <==> Denotes(core, amount)
  {
    if Denotes(core, amount) {
      var other, more :| Writes(core, other, more) && HasValue(other, more, amount);
      OneWriting(core, whole, fraction, other, more);
    }
  }

  lemma ParsedCore(text: string, core: string)
    requires core == TrimEnd(TrimStart(text)) && core != ""
    ensures Parse(Some(text)) ==
      match Groups(FirstCommaToDot(core))
      case None => Undefined
      case Some((whole, fraction)) => AmountOf(whole, fraction)
  {
    assert FirstCommaToDot(core) != "";
  }

  /** What is parsed from a text, for its trimmed core. */
  lemma CoreDecides(text: string, core: string, amount: nat)
    requires core == TrimEnd(TrimStart(text)) && core != ""
    ensures Parse(Some(text)) != Null
    ensures Parse(Some(text)) == Amount(amount) <==> amount > 0 && Denotes(core, amount)
  {
    ParsedCore(text, core);
    match Groups(FirstCommaToDot(core))
    case None =>
      forall whole, fraction ensures !Writes(core, whole, fraction) { GroupsExactly(core, whole, fraction); }
    case Some((whole, fraction)) =>
      GroupsExactly(core, whole, fraction);
      WrittenAmount(core, whole, fraction, amount);
      OneAmount(core, whole, fraction, amount);
  }

  /**
   Null for an absent or blank value; an amount exactly for a positive decimal with at most seven and eight digits,
   comma or dot, between blanks, and then its value in hundred-millionths; undefined for everything else.
   */
  lemma ParseExactly(value: Option<string>)
    ensures Parse(value) == Null <==> value.None? || Blank(value.value)
    ensures forall amount: nat :: Parse(value) == Amount(amount) <==>
      value.Some? && amount > 0 &&
      exists before, core, after :: Wraps(value.value, before, core, after) && Denotes(core, amount)
  {
    if value.Some? {
      var text := value.value;
      var before, after := TrimExactly(text);
      var core := TrimEnd(TrimStart(text));
      if core != "" { CoreDecides(text, core, 0); }
      forall amount: nat ensures Parse(value) == Amount(amount) <==>
          amount > 0 && exists before, core, after :: Wraps(text, before, core, after) && Denotes(core, amount)
      {
        if core != "" { CoreDecides(text, core, amount); }
        if amount > 0 && exists before, core, after :: Wraps(text, before, core, after) && Denotes(core, amount) {
          var b, c, a :| Wraps(text, b, c, a) && Denotes(c, amount);
          var whole, fraction :| Writes(c, whole, fraction);
          WrittenEnds(c, whole, fraction);
          TrimUnwraps(text, b, c, a);
        }
      }
    }
  }

  lemma {:induction false} NoLeadingZero(n: nat)
    ensures |Digits(n)| > 1 ==> Digits(n)[0] != '0'
  {
    if n >= 10 {
      NoLeadingZero(n / 10);
      if n < 100 { assert Digits(n / 10) == [DigitChar(n / 10)]; }
    }
  }

  lemma {:induction false} NoTrailingZero(text: string)
    ensures var stripped := StripTrailingZeros(text); stripped != "" ==> stripped[|stripped| - 1] != '0'
  {
    if text != "" && text[|text| - 1] == '0' { NoTrailingZero(text[..|text| - 1]); }
  }

  /** The printed text: shortest digits, a comma only before a fraction, and no zero at the fraction's end. */
  lemma FormatExactly(v: nat) returns (whole: string, fraction: string)
    ensures Format(Some(v)) == if fraction == "" then whole else whole + "," + fraction
    ensures AllDigits(whole) && whole != "" && (|whole| > 1 ==> whole[0] != '0')
    ensures AllDigits(fraction) && |fraction| <= 8 && (fraction != "" ==> fraction[|fraction| - 1] != '0')
    ensures HasValue(whole, fraction, v)
  {
    var padded := PadStart(Digits(v % UNIT), 8);
    whole, fraction := Digits(v / UNIT), StripTrailingZeros(padded);
    PaddedRemainder(v % UNIT);
    StripThenPad(padded);
    assert AllDigits(fraction) by { assert forall c <- fraction :: c in padded; }
    NumberOfDigits(v / UNIT);
    NoLeadingZero(v / UNIT);
    NoTrailingZero(padded);
    PadEndMultiplies(fraction);
  }
}
