/** The duration notation of schedules, such as `1h30m` (src/schedule.rs). */
module Duration {
  import opened Basics

  /** Values of `u64`. */
  const U64: nat := 0x1_0000_0000_0000_0000

  datatype DurationError = InvalidNumber | UnknownUnit(unit: char) | TrailingNumber | NotPositive | Overflow

  predicate IsDigit(c: char) {
    '0' <= c <= '9'
  }

  predicate AllDigits(s: string) {
    forall i :: 0 <= i < |s| ==> IsDigit(s[i])
  }

  /** The number that a string of digits writes in base ten. */
  function NumberOf(digits: string): nat
    requires AllDigits(digits)
  {
    if digits == "" then 0
    else
      var last := digits[|digits| - 1];
      10 * NumberOf(digits[..|digits| - 1]) + (last as nat - '0' as nat)
  }

  function UnitSeconds(c: char): Option<nat> {
    match c
    case 's' => Some(1)
    case 'm' => Some(60)
    case 'h' => Some(3_600)
    case 'd' => Some(86_400)
    case _ => None
  }

  /** The result of a `u64` operation: an overflow panics in a build with overflow checks
      and wraps around in one without. */
  function Fit(x: nat, checked: bool): Option<nat> {
    if x < U64 then Some(x) else if checked then None else Some(x % U64)
  }

  /** What is left to do once `total` seconds and the digits in `number` have been read. */
  function Scan(s: string, total: nat, number: string, checked: bool): Result<nat, DurationError>
    requires AllDigits(number)
    decreases |s|
  {
    if s == "" then
      if number != "" then Err(TrailingNumber) else if total == 0 then Err(NotPositive) else Ok(total)
    else if IsDigit(s[0]) then Scan(s[1..], total, number + [s[0]], checked)
    else if number == "" || NumberOf(number) >= U64 then Err(InvalidNumber)
    else if UnitSeconds(s[0]).None? then Err(UnknownUnit(s[0]))
    else
      var product := Fit(NumberOf(number) * UnitSeconds(s[0]).value, checked);
      if product.None? then Err(Overflow)
      else
        var sum := Fit(total + product.value, checked);
        if sum.None? then Err(Overflow) else Scan(s[1..], sum.value, "", checked)
  }

  function Parse(s: string, checked: bool): Result<nat, DurationError> {
    Scan(s, 0, "", checked)
  }

  /** `parse_duration`: one pass over the characters. */
  method ParseDuration(s: string, checked: bool) returns (r: Result<nat, DurationError>)
    ensures r == Parse(s, checked)
  {
    var total := 0;
    var number := "";
    for i := 0 to |s|
      invariant AllDigits(number) && Scan(s[i..], total, number, checked) == Parse(s, checked)
    {
      var ch := s[i];
      assert s[i..][0] == ch && s[i..][1..] == s[i + 1..];
      if IsDigit(ch) {
        number := number + [ch];
      } else {
        if number == "" || NumberOf(number) >= U64 {
          return Err(InvalidNumber);
        }
        var n := NumberOf(number);
        number := "";
        var unit := UnitSeconds(ch);
        if unit.None? {
          return Err(UnknownUnit(ch));
        }
        var product := Fit(n * unit.value, checked);
        if product.None? {
          return Err(Overflow);
        }
        var sum := Fit(total + product.value, checked);
        if sum.None? {
          return Err(Overflow);
        }
        total := sum.value;
      }
    }
    if number != "" {
      return Err(TrailingNumber);
    }
    if total == 0 {
      return Err(NotPositive);
    }
    return Ok(total);
  }

  // ----- The notation and its meaning

  datatype Token = Token(digits: string, unit: char)

  predicate IsToken(t: Token) {
    t.digits != "" && AllDigits(t.digits) && UnitSeconds(t.unit).Some? && NumberOf(t.digits) < U64
  }

  type Tokens = ts: seq<Token> | forall i :: 0 <= i < |ts| ==> IsToken(ts[i])

  function Seconds(t: Token): nat
    requires IsToken(t)
  {
    NumberOf(t.digits) * UnitSeconds(t.unit).value
  }

  function Render(ts: Tokens): string {
    if ts == [] then "" else ts[0].digits + [ts[0].unit] + Render(ts[1..])
  }

  /** The exact sum of the tokens, without any bound. */
  function Total(ts: Tokens): nat {
    if ts == [] then 0 else Seconds(ts[0]) + Total(ts[1..])
  }

  lemma {:induction false} ScanDigits(digits: string, s: string, total: nat, number: string, checked: bool)
    requires AllDigits(digits) && AllDigits(number)
    ensures Scan(digits + s, total, number, checked) == Scan(s, total, number + digits, checked)
    decreases |digits|
  {
    if digits == "" {
      assert digits + s == s && number + digits == number;
    } else {
      assert (digits + s)[1..] == digits[1..] + s;
      assert number + [digits[0]] + digits[1..] == number + digits;
      ScanDigits(digits[1..], s, total, number + [digits[0]], checked);
    }
  }

  /** Sums taken one by one modulo 2^64 are the exact sum modulo 2^64. */
  lemma FitSum(before: nat, x: nat, checked: bool)
    ensures var product := Fit(x, checked);
            var sum := if product.Some? then Fit(before % U64 + product.value, checked) else None;
            && (checked && before < U64 ==> sum == if before + x < U64 then Some(before + x) else None)
            && (!checked ==> sum == Some((before + x) % U64))
  {
  }

  /** What becomes of an exact sum of seconds. */
  function Outcome(exact: nat, checked: bool): Result<nat, DurationError> {
    if checked && exact >= U64 then Err(Overflow)
    else if exact % U64 == 0 then Err(NotPositive)
    else Ok(exact % U64)
  }

  lemma ScanToken(t: Token, s: string, before: nat, checked: bool)
    requires IsToken(t) && (checked ==> before < U64)
    ensures Scan(t.digits + [t.unit] + s, before % U64, "", checked) ==
            if checked && before + Seconds(t) >= U64 then Err(Overflow)
            else Scan(s, (before + Seconds(t)) % U64, "", checked)
  {
    var rest: string := [t.unit] + s;
    assert t.digits + [t.unit] + s == t.digits + rest && rest[1..] == s;
    ScanDigits(t.digits, rest, before % U64, "", checked);
    assert "" + t.digits == t.digits && !IsDigit(t.unit);
    FitSum(before, Seconds(t), checked);
  }

  /** Tokens at the start of a string are read one after the other. */
  lemma {:induction false} ScanTokensFirst(ts: Tokens, rest: string, before: nat, checked: bool)
    requires checked ==> before < U64
    ensures Scan(Render(ts) + rest, before % U64, "", checked) ==
            if checked && before + Total(ts) >= U64 then Err(Overflow)
            else Scan(rest, (before + Total(ts)) % U64, "", checked)
    decreases |ts|
  {
    if ts == [] {
      assert Render(ts) + rest == rest;
    } else {
      var t := ts[0];
      assert Render(ts) + rest == t.digits + [t.unit] + (Render(ts[1..]) + rest);
      ScanToken(t, Render(ts[1..]) + rest, before, checked);
      if !checked || before + Seconds(t) < U64 {
        ScanTokensFirst(ts[1..], rest, before + Seconds(t), checked);
      }
    }
  }

  /** What a string that writes tokens parses to. */
  lemma ScanRendered(ts: Tokens, before: nat, checked: bool)
    requires checked ==> before < U64
    ensures Scan(Render(ts), before % U64, "", checked) == Outcome(before + Total(ts), checked)
  {
    ScanTokensFirst(ts, "", before, checked);
    assert Render(ts) + "" == Render(ts);
  }

  /** The tokens that an accepted string writes. */
  lemma {:induction false} ScanTokens(s: string, before: nat, number: string, checked: bool) returns (ts: Tokens)
    requires AllDigits(number) && (checked ==> before < U64) && Scan(s, before % U64, number, checked).Ok?
    ensures Render(ts) == number + s
    decreases |s|
  {
    if s == "" {
      ts := [];
    } else if IsDigit(s[0]) {
      ts := ScanTokens(s[1..], before, number + [s[0]], checked);
      assert number + [s[0]] + s[1..] == number + s;
    } else {
      var t := Token(number, s[0]);
      FitSum(before, Seconds(t), checked);
      var rest := ScanTokens(s[1..], before + Seconds(t), "", checked);
      ts := [t] + rest;
      assert ts[1..] == rest && number + [s[0]] + ("" + s[1..]) == number + s;
    }
  }

  lemma ParsedTokens(s: string, checked: bool) returns (ts: Tokens)
    requires Parse(s, checked).Ok?
    ensures Render(ts) == s && Parse(s, checked) == Outcome(Total(ts), checked)
  {
    ts := ScanTokens(s, 0, "", checked);
    assert Render(ts) == s;
    ScanRendered(ts, 0, checked);
  }

  lemma OutcomeIsOk(x: nat, checked: bool, n: nat)
    ensures Outcome(x, checked) == Ok(n) <==> n == x % U64 && n > 0 && (checked ==> x < U64)
  {
  }

  /** A string is accepted exactly when it writes a sequence of tokens whose numbers fit in 64
      bits and whose sum is not zero (modulo 2^64), and the result is that sum; with overflow
      checks the exact sum has to fit as well. */
  lemma ParseExactly(s: string, checked: bool, n: nat)
    ensures Parse(s, checked) == Ok(n) <==>
            exists ts: Tokens :: Render(ts) == s && n == Total(ts) % U64 && n > 0 && (checked ==> Total(ts) < U64)
  {
    if Parse(s, checked) == Ok(n) {
      var ts := ParsedTokens(s, checked);
      OutcomeIsOk(Total(ts), checked, n);
    }
    if ts: Tokens :| Render(ts) == s && n == Total(ts) % U64 && n > 0 && (checked ==> Total(ts) < U64) {
      ScanRendered(ts, 0, checked);
      OutcomeIsOk(Total(ts), checked, n);
    }
  }

  // ----- Rejected strings

  /** The string is these tokens, then these digits, and then something that makes no token. */
  predicate Splits(s: string, ts: Tokens, digits: string, rest: string) {
    && s == Render(ts) + (digits + rest) && AllDigits(digits)
    && (rest != "" ==> !IsDigit(rest[0]) && !IsToken(Token(digits, rest[0])))
  }

  /** What such a string parses to. */
  function Verdict(ts: Tokens, digits: string, rest: string, checked: bool): Result<nat, DurationError>
    requires AllDigits(digits)
  {
    if checked && Total(ts) >= U64 then Err(Overflow)
    else if rest != "" then
      if digits == "" || NumberOf(digits) >= U64 then Err(InvalidNumber) else Err(UnknownUnit(rest[0]))
    else if digits != "" then Err(TrailingNumber)
    else Outcome(Total(ts), checked)
  }

  lemma SplitGivesVerdict(s: string, ts: Tokens, digits: string, rest: string, checked: bool)
    requires Splits(s, ts, digits, rest)
    ensures Parse(s, checked) == Verdict(ts, digits, rest, checked)
  {
    ScanTokensFirst(ts, digits + rest, 0, checked);
    if !checked || Total(ts) < U64 {
      ScanDigits(digits, rest, Total(ts) % U64, "", checked);
      assert "" + digits == digits;
    }
  }

  lemma {:induction false} SplitAfter(s: string, number: string) returns (ts: Tokens, digits: string, rest: string)
    requires AllDigits(number)
    ensures Splits(number + s, ts, digits, rest)
    decreases |s|
  {
    if s != "" && IsDigit(s[0]) {
      ts, digits, rest := SplitAfter(s[1..], number + [s[0]]);
      assert number + [s[0]] + s[1..] == number + s;
    } else if s != "" && IsToken(Token(number, s[0])) {
      var t := Token(number, s[0]);
      var ts';
      ts', digits, rest := SplitAfter(s[1..], "");
      ts := [t] + ts';
      assert ts[1..] == ts' && "" + s[1..] == s[1..];
      assert number + s == t.digits + [t.unit] + (Render(ts') + (digits + rest));
      assert Render(ts) + (digits + rest) == t.digits + [t.unit] + (Render(ts') + (digits + rest));
    } else {
      ts, digits, rest := [], number, s;
      assert Render(ts) + (number + s) == number + s;
    }
  }

  /** Every string splits that way, and the split decides the result: an overflow on the way, a
      missing or too large number, an unknown unit, a number without a unit, or the sum. */
  lemma EveryStringHasItsVerdict(s: string, checked: bool)
    ensures exists ts: Tokens, digits, rest :: Splits(s, ts, digits, rest)
    ensures forall ts: Tokens, digits, rest :: Splits(s, ts, digits, rest) ==>
              Parse(s, checked) == Verdict(ts, digits, rest, checked)
  {
    var ts, digits, rest := SplitAfter(s, "");
    assert "" + s == s;
    forall ts: Tokens, digits, rest | Splits(s, ts, digits, rest)
      ensures Parse(s, checked) == Verdict(ts, digits, rest, checked)
    {
      SplitGivesVerdict(s, ts, digits, rest, checked);
    }
  }

  // ----- Numbers and units

  /** A digit more makes a number ten times as large, and adds the digit. */
  lemma NumberOfMore(digits: string, c: char)
    requires AllDigits(digits) && IsDigit(c)
    ensures NumberOf(digits + [c]) == 10 * NumberOf(digits) + (c as nat - '0' as nat)
    ensures NumberOf("") == 0
  {
    assert (digits + [c])[..|digits|] == digits;
  }

  /** Seconds, minutes, hours and days, and nothing else. */
  lemma UnitsAreExactly(c: char)
    ensures UnitSeconds(c).Some? <==> c == 's' || c == 'm' || c == 'h' || c == 'd'
    ensures UnitSeconds('s') == Some(1) && UnitSeconds('m') == Some(60)
    ensures UnitSeconds('h') == Some(3600) && UnitSeconds('d') == Some(86400)
  {
  }

  lemma ParseOneToken(t: Token, checked: bool)
    requires IsToken(t) && Seconds(t) < U64
    ensures Parse(t.digits + [t.unit], checked) == if Seconds(t) == 0 then Err(NotPositive) else Ok(Seconds(t))
  {
    assert Render([t]) == t.digits + [t.unit] + "" && t.digits + [t.unit] + "" == t.digits + [t.unit];
    assert Total([t]) == Seconds(t);
    ScanRendered([t], 0, checked);
  }

  lemma OneDigit(c: char)
    requires IsDigit(c)
    ensures AllDigits([c]) && NumberOf([c]) == c as nat - '0' as nat
  {
    NumberOfMore("", c);
    assert "" + [c] == [c];
  }

  lemma TwoDigits(c: char, d: char)
    requires IsDigit(c) && IsDigit(d)
    ensures AllDigits([c, d]) && NumberOf([c, d]) == 10 * (c as nat - '0' as nat) + (d as nat - '0' as nat)
  {
    OneDigit(c);
    NumberOfMore([c], d);
    assert [c] + [d] == [c, d];
  }

  /** The documented `90s`, in a build of either kind. */
  lemma NinetySeconds(checked: bool)
    ensures Parse("90s", checked) == Ok(90)
  {
    TwoDigits('9', '0');
    ParseOneToken(Token(['9', '0'], 's'), checked);
    assert ['9', '0'] + ['s'] == "90s";
  }

  /** The documented `1h30m`: ninety minutes. */
  lemma NinetyMinutes(checked: bool)
    ensures Parse("1h30m", checked) == Ok(5_400)
  {
    OneDigit('1');
    TwoDigits('3', '0');
    ParseOneToken(Token(['1'], 'h'), checked);
    ParseOneToken(Token(['3', '0'], 'm'), checked);
    ConcatenationAdds(['1'] + ['h'], ['3', '0'] + ['m'], checked);
    assert ['1'] + ['h'] + (['3', '0'] + ['m']) == "1h30m";
  }

  /** The documented `2d12h`: sixty hours. */
  lemma SixtyHours(checked: bool)
    ensures Parse("2d12h", checked) == Ok(216_000)
  {
    OneDigit('2');
    TwoDigits('1', '2');
    ParseOneToken(Token(['2'], 'd'), checked);
    ParseOneToken(Token(['1', '2'], 'h'), checked);
    ConcatenationAdds(['2'] + ['d'], ['1', '2'] + ['h'], checked);
    assert ['2'] + ['d'] + (['1', '2'] + ['h']) == "2d12h";
  }

  /** A sum that outgrows 64 bits is a panic or a wrong duration; any other is exact. */
  lemma ResultIsExactSum(ts: Tokens, checked: bool)
    requires Parse(Render(ts), checked).Ok?
    ensures Parse(Render(ts), checked) == Ok(Total(ts)) <==> Total(ts) < 18446744073709551616
    ensures checked ==> Parse(Render(ts), checked) == Ok(Total(ts))
  {
    ScanRendered(ts, 0, checked);
  }

  lemma {:induction false} TotalAppend(a: Tokens, b: Tokens)
    ensures Total(a + b) == Total(a) + Total(b)
    ensures Render(a + b) == Render(a) + Render(b)
    decreases |a|
  {
    if a == [] {
      assert a + b == b;
    } else {
      assert (a + b)[1..] == a[1..] + b;
      TotalAppend(a[1..], b);
    }
  }

  lemma RemaindersAdd(x: nat, y: nat)
    ensures (x + y) % U64 == (x % U64 + y % U64) % U64
  {
    var q := x / U64 + y / U64;
    assert x + y == (x % U64 + y % U64) + q * U64;
  }

  lemma OutcomeAdds(x: nat, y: nat, checked: bool)
    requires Outcome(x, checked).Ok? && Outcome(y, checked).Ok?
    ensures Outcome(x + y, checked) == Outcome(Outcome(x, checked).value + Outcome(y, checked).value, checked)
  {
    if !checked {
      RemaindersAdd(x, y);
    }
  }

  lemma OutcomeOfSum(x: nat, y: nat, checked: bool)
    requires 0 < x < U64 && 0 < y < U64
    ensures Outcome(x + y, checked) ==
            if x + y < U64 then Ok(x + y) else if checked then Err(Overflow)
            else if x + y == U64 then Err(NotPositive) else Ok(x + y - U64)
  {
  }

  /** Parsing turns concatenation into addition; only the 64-bit range can get in the way. */
  lemma ConcatenationAdds(s: string, t: string, checked: bool)
    requires Parse(s, checked).Ok? && Parse(t, checked).Ok?
    ensures var sum := Parse(s, checked).value + Parse(t, checked).value;
            Parse(s + t, checked) ==
            if sum < U64 then Ok(sum) else if checked then Err(Overflow)
            else if sum == U64 then Err(NotPositive) else Ok(sum - U64)
  {
    var a := ParsedTokens(s, checked);
    var b := ParsedTokens(t, checked);
    TotalAppend(a, b);
    ScanRendered(a + b, 0, checked);
    OutcomeAdds(Total(a), Total(b), checked);
    OutcomeOfSum(Outcome(Total(a), checked).value, Outcome(Total(b), checked).value, checked);
  }
}
