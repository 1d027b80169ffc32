/**
 * The "select first N rows" pop-over: the text field's change filter, the
 * numeric reading of its text, the Submit button's disabled state and the
 * handler's range check.
 *
 * The text is a sequence of UTF-16 code units, as JavaScript holds it; the
 * filter's pattern has no `u` flag, so it matches single code units, and a
 * character outside the Basic Multilingual Plane is two of them (a surrogate
 * pair).
 *
 * The text is read as JavaScript's `Number(text)` reads it, restricted to what
 * matters here: a string of decimal digits denotes its value (the empty string
 * denotes 0), and every other string is not a number (NaN), which fails every
 * comparison.
 */
module BulkInput {
  import opened Wrappers

  /** One UTF-16 code unit. */
  type CodeUnit = u: int | 0 <= u < 0x1_0000

  /** The contents of the text field. */
  type Text = seq<CodeUnit>

  /** `\d` without the `u` flag: the ASCII digits '0' (0x30) to '9' (0x39). */
  predicate IsDigit(u: CodeUnit)
  {
    0x30 <= u <= 0x39
  }

  predicate AllDigits(s: Text)
  {
    forall i :: 0 <= i < |s| ==> IsDigit(s[i])
  }

  /** The first code unit of a pair that encodes a character outside the Basic Multilingual Plane. */
  predicate IsHighSurrogate(u: CodeUnit)
  {
    0xD800 <= u <= 0xDBFF
  }

  /** The second code unit of such a pair. */
  predicate IsLowSurrogate(u: CodeUnit)
  {
    0xDC00 <= u <= 0xDFFF
  }

  /** Position of the first non-digit of s, or |s| when there is none. */
  function FirstNonDigit(s: Text): (i: nat)
    ensures i <= |s| && AllDigits(s[..i])
    ensures i < |s| ==> !IsDigit(s[i])
    ensures i == |s| <==> AllDigits(s)
  {
    if s == [] then 0
    else if !IsDigit(s[0]) then 0
    else
      var j := FirstNonDigit(s[1..]);
      assert s[..j + 1] == [s[0]] + s[1..][..j];
      j + 1
  }

  /**
   * The field's change filter `value.replace(/\D/, '')`: the pattern has no
   * global flag, so only the first non-digit code unit is removed.
   */
  function StripFirstNonDigit(s: Text): (r: Text)
    ensures AllDigits(s) ==> r == s
    ensures !AllDigits(s) ==> |r| == |s| - 1
    ensures var i := FirstNonDigit(s); i < |s| ==> r == s[..i] + s[i + 1..]
  {
    if s == [] then []
    else if !IsDigit(s[0]) then s[1..]
    else [s[0]] + StripFirstNonDigit(s[1..])
  }

  /** After a digit prefix, the first non-digit is the one removed, whatever follows it. */
  lemma {:induction false} StripAfterDigits(before: Text, u: CodeUnit, rest: Text)
    requires AllDigits(before) && !IsDigit(u)
    ensures StripFirstNonDigit(before + [u] + rest) == before + rest
  {
    var s := before + [u] + rest;
    if before == [] {
      assert s == [u] + rest;
      assert s[1..] == rest;
    } else {
      var head, tail := before[0], before[1..];
      assert IsDigit(head) && AllDigits(tail);
      assert s == [head] + (tail + [u] + rest);
      calc {
        StripFirstNonDigit(s);
        [head] + StripFirstNonDigit(tail + [u] + rest);
        { StripAfterDigits(tail, u, rest); }
        [head] + (tail + rest);
        { assert before == [head] + tail; }
        before + rest;
      }
    }
  }

  /**
   * Typing one character of the Basic Multilingual Plane (one code unit)
   * anywhere in digit text: a digit is kept, anything else is dropped, so the
   * text stays digit text.
   */
  lemma KeystrokeKeepsDigits(before: Text, u: CodeUnit, after: Text)
    requires AllDigits(before) && AllDigits(after)
    ensures StripFirstNonDigit(before + [u] + after) ==
            if IsDigit(u) then before + [u] + after else before + after
    ensures AllDigits(StripFirstNonDigit(before + [u] + after))
  {
    var s := before + [u] + after;
    if IsDigit(u) {
      assert forall i :: 0 <= i < |s| ==> IsDigit(s[i]) by {
        forall i | 0 <= i < |s| ensures IsDigit(s[i]) {
          if i < |before| { assert s[i] == before[i]; }
          else if i > |before| { assert s[i] == after[i - |before| - 1]; }
        }
      }
    } else {
      StripAfterDigits(before, u, after);
      assert forall i :: 0 <= i < |before + after| ==> IsDigit((before + after)[i]) by {
        forall i | 0 <= i < |before + after| ensures IsDigit((before + after)[i]) {
          if i < |before| { assert (before + after)[i] == before[i]; }
          else { assert (before + after)[i] == after[i - |before|]; }
        }
      }
    }
  }

  /**
   * Typing a character outside the Basic Multilingual Plane into digit text:
   * only its high surrogate is removed, and the lone low surrogate stays.
   */
  lemma AstralKeystrokeLeavesSurrogate(before: Text, high: CodeUnit, low: CodeUnit, after: Text)
    requires AllDigits(before) && AllDigits(after)
    requires IsHighSurrogate(high) && IsLowSurrogate(low)
    ensures StripFirstNonDigit(before + [high, low] + after) == before + [low] + after
    ensures !AllDigits(StripFirstNonDigit(before + [high, low] + after))
  {
    assert before + [high, low] + after == before + [high] + ([low] + after);
    StripAfterDigits(before, high, [low] + after);
    assert before + ([low] + after) == before + [low] + after;
    assert (before + [low] + after)[|before|] == low;
  }

  /** Pasting text with two non-digits leaves one behind: "a1b" becomes "1b". */
  lemma PasteCanLeaveNonDigit()
    ensures StripFirstNonDigit([0x61, 0x31, 0x62]) == [0x31, 0x62]
    ensures !AllDigits(StripFirstNonDigit([0x61, 0x31, 0x62]))
  {
    assert !AllDigits([0x31, 0x62]) by { assert !IsDigit([0x31, 0x62][1]); }
  }

  /** The value of a digit string. */
  function DigitsValue(s: Text): (n: nat)
    requires AllDigits(s)
  {
    if s == [] then 0
    else DigitsValue(s[..|s| - 1]) * 10 + (s[|s| - 1] - 0x30)
  }

  /** The decimal text of n, without leading zeros. */
  function Decimal(n: nat): (s: Text)
    ensures AllDigits(s) && |s| >= 1
  {
    var d := 0x30 + n % 10;
    if n < 10 then [d] else Decimal(n / 10) + [d]
  }

  /** `Number(text)`: Some(value) for a digit string, None (NaN) for anything else. */
  function ParseCount(s: Text): (r: Option<nat>)
    ensures r.Some? <==> AllDigits(s)
    ensures s == [] ==> r == Some(0)
  {
    if AllDigits(s) then Some(DigitsValue(s)) else None
  }

  /** Every count can be typed: its decimal text reads back as the count. */
  lemma {:induction false} ParseDecimal(n: nat)
    ensures ParseCount(Decimal(n)) == Some(n)
  {
    var s := Decimal(n);
    var d := 0x30 + n % 10;
    if n < 10 {
      assert s == [d] && s[..0] == [];
      assert DigitsValue(s) == DigitsValue([]) * 10 + n % 10;
    } else {
      ParseDecimal(n / 10);
      assert s[..|s| - 1] == Decimal(n / 10) && s[|s| - 1] == d;
      assert DigitsValue(s) == (n / 10) * 10 + n % 10;
    }
  }

  /**
   * The Submit button's `disabled` expression: empty text, or a number below 1
   * or above the collection's total. NaN fails both comparisons, so text that
   * is not a number leaves the button enabled.
   */
  function SubmitDisabled(text: Text, total: int): (disabled: bool)
    ensures disabled <==> text == [] || (AllDigits(text) && !(1 <= DigitsValue(text) <= total))
  {
    text == [] ||
    match ParseCount(text)
    case Some(n) => n < 1 || n > total
    case None => false
  }

  /**
   * The handler's check `numRows >= 1 && numRows <= products.length`: the
   * count of rows to select, or None when the request is ignored.
   */
  function RequestedCount(text: Text, rowsOnPage: nat): (r: Option<nat>)
    ensures r.Some? ==> 1 <= r.value <= rowsOnPage
    ensures r.Some? <==> AllDigits(text) && 1 <= DigitsValue(text) <= rowsOnPage
    ensures r.Some? ==> r.value == DigitsValue(text)
  {
    match ParseCount(text)
    case Some(n) => if 1 <= n <= rowsOnPage then Some(n) else None
    case None => None
  }

  /** Whatever the handler accepts, the button lets through (the page never exceeds the total). */
  lemma AcceptedIsEnabled(text: Text, rowsOnPage: nat, total: int)
    requires rowsOnPage <= total
    requires RequestedCount(text, rowsOnPage).Some?
    ensures !SubmitDisabled(text, total)
  {
  }

  /**
   * The guard checks against the collection's total but the handler against
   * the rows on the page: a count between the two enables Submit and is ignored.
   */
  lemma {:induction false} EnabledButIgnored(n: nat, rowsOnPage: nat, total: int)
    requires rowsOnPage < n <= total
    ensures !SubmitDisabled(Decimal(n), total)
    ensures RequestedCount(Decimal(n), rowsOnPage) == None
  {
    ParseDecimal(n);
  }
}
