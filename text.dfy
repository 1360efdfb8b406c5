/** The few pieces of Python string handling the program relies on:
    `str(n)` and `f"{n:02d}"` for the countdown text, `int(text)` for the
    custom amount, and `str.strip()` for the sound path. */
module Text {
  import opened Wrappers

  /** Python's `str.isspace()`, by code point: the characters `str.strip()` removes. */
  predicate IsSpace(c: char) {
    var n := c as int;
    (9 <= n <= 13) || (28 <= n <= 32) || n == 133 || n == 160 || n == 5760
    || (8192 <= n <= 8202) || n == 8232 || n == 8233 || n == 8239 || n == 8287 || n == 12288
  }

  predicate IsDigit(c: char) {
    '0' <= c <= '9'
  }

  predicate AllDigits(s: string) {
    forall i :: 0 <= i < |s| ==> IsDigit(s[i])
  }

  function DigitValue(c: char): nat
    requires IsDigit(c)
  {
    c as int - '0' as int
  }

  function DigitChar(d: nat): (c: char)
    requires d < 10
    ensures IsDigit(c) && DigitValue(c) == d
  {
    ('0' as int + d) as char
  }

  /** The number a string of decimal digits denotes, most significant digit first. */
  function DigitsValue(s: string): nat
    requires AllDigits(s)
  {
    if s == [] then 0 else DigitsValue(s[..|s| - 1]) * 10 + DigitValue(s[|s| - 1])
  }

  /** `str(n)` for a non-negative `n`: its shortest decimal digits, which read back as `n`. */
  function NatToDecimal(n: nat): (s: string)
    ensures 1 <= |s| && AllDigits(s)
    ensures DigitsValue(s) == n
    ensures s[0] == '0' ==> n == 0
    ensures |s| == 1 <==> n < 10
  {
    if n < 10 then
      [DigitChar(n)]
    else
      var s := NatToDecimal(n / 10) + [DigitChar(n % 10)];
      assert s[..|s| - 1] == NatToDecimal(n / 10);
      s
  }

  /** `str(i)` for any integer: a minus sign before the digits of a negative number. */
  function IntToString(i: int): (s: string)
    ensures |s| >= 1
  {
    if i < 0 then "-" + NatToDecimal(-i) else NatToDecimal(i)
  }

  /** `f"{n:02d}"`: the decimal digits of `n`, padded on the left with '0' to width two. */
  function ZeroPad2(n: nat): (s: string)
    ensures AllDigits(s) && DigitsValue(s) == n
    ensures n < 100 ==> |s| == 2
    ensures 100 <= n ==> s == NatToDecimal(n)
  {
    if n < 10 then
      var s := "0" + NatToDecimal(n);
      assert s[..1] == "0";
      s
    else
      NatToDecimal(n)
  }

  /** What `int()` skips around the number: the whitespace of `IsSpace` except the
      separators U+001C..U+001F. CPython's integer parser passes characters below
      U+007F through unchanged and then skips only ASCII whitespace, so those four
      are not skipped, although `str.strip()` removes them. */
  predicate IsIntPadding(c: char) {
    IsSpace(c) && !(28 <= c as int <= 31)
  }

  /** Drops the leading characters that are `pad`. */
  function TrimStart(s: string, pad: char -> bool): string {
    if s != [] && pad(s[0]) then TrimStart(s[1..], pad) else s
  }

  /** Drops the trailing characters that are `pad`. */
  function TrimEnd(s: string, pad: char -> bool): string {
    if s != [] && pad(s[|s| - 1]) then TrimEnd(s[..|s| - 1], pad) else s
  }

  /** What `TrimStart` removes is a run of `pad` characters, and what it keeps is a
      suffix that does not start with one. */
  lemma {:induction false} TrimStartSpec(s: string, pad: char -> bool)
    ensures var r := TrimStart(s, pad);
      && |r| <= |s| && r == s[|s| - |r|..]
      && (forall k :: 0 <= k < |s| - |r| ==> pad(s[k]))
      && (r == [] || !pad(r[0]))
  {
    if s != [] && pad(s[0]) {
      var tail := s[1..];
      TrimStartSpec(tail, pad);
      var r := TrimStart(tail, pad);
      assert TrimStart(s, pad) == r;
      assert tail[|tail| - |r|..] == s[|s| - |r|..];
      forall k | 0 <= k < |s| - |r|
        ensures pad(s[k])
      {
        if k > 0 {
          assert s[k] == tail[k - 1];
        }
      }
    }
  }

  /** What `TrimEnd` removes is a run of `pad` characters, and what it keeps is a
      prefix that does not end with one. */
  lemma {:induction false} TrimEndSpec(s: string, pad: char -> bool)
    ensures var r := TrimEnd(s, pad);
      && |r| <= |s| && r == s[..|r|]
      && (forall k :: |r| <= k < |s| ==> pad(s[k]))
      && (r == [] || !pad(r[|r| - 1]))
  {
    if s != [] && pad(s[|s| - 1]) {
      var front := s[..|s| - 1];
      TrimEndSpec(front, pad);
      var r := TrimEnd(front, pad);
      assert TrimEnd(s, pad) == r;
      assert front[..|r|] == s[..|r|];
      forall k | |r| <= k < |s|
        ensures pad(s[k])
      {
        if k < |s| - 1 {
          assert s[k] == front[k];
        }
      }
    }
  }

  /** Both ends trimmed: neither end of the result is a `pad` character. */
  function Trim(s: string, pad: char -> bool): (r: string)
    ensures r == [] || (!pad(r[0]) && !pad(r[|r| - 1]))
  {
    var t := TrimStart(s, pad);
    TrimStartSpec(s, pad);
    TrimEndSpec(t, pad);
    TrimEnd(t, pad)
  }

  /** A string whose two ends are not `pad` is left as it is. */
  lemma TrimFixed(s: string, pad: char -> bool)
    requires s != [] && !pad(s[0]) && !pad(s[|s| - 1])
    ensures Trim(s, pad) == s
  {
  }

  /** Trimming keeps the slice `s[i..j]` and removes only `pad` characters: every
      character before `i` and from `j` on is one. */
  lemma TrimSpec(s: string, pad: char -> bool) returns (i: nat, j: nat)
    ensures i <= j <= |s| && Trim(s, pad) == s[i..j]
    ensures forall k :: 0 <= k < i ==> pad(s[k])
    ensures forall k :: j <= k < |s| ==> pad(s[k])
  {
    var t := TrimStart(s, pad);
    TrimStartSpec(s, pad);
    TrimEndSpec(t, pad);
    var r := TrimEnd(t, pad);
    i := |s| - |t|;
    j := i + |r|;
    assert r == t[..|r|];
    forall k | j <= k < |s|
      ensures pad(s[k])
    {
      assert s[k] == t[k - i];
    }
  }

  /** Padding in front is dropped whatever follows it. */
  lemma {:induction false} TrimStartPrefix(pre: string, x: string, pad: char -> bool)
    requires forall k :: 0 <= k < |pre| ==> pad(pre[k])
    ensures TrimStart(pre + x, pad) == TrimStart(x, pad)
  {
    if pre == [] {
      assert pre + x == x;
    } else {
      assert (pre + x)[0] == pre[0];
      assert (pre + x)[1..] == pre[1..] + x;
      assert forall k :: 0 <= k < |pre[1..]| ==> pre[1..][k] == pre[k + 1];
      TrimStartPrefix(pre[1..], x, pad);
    }
  }

  /** Padding at the back is dropped whatever precedes it. */
  lemma {:induction false} TrimEndSuffix(x: string, post: string, pad: char -> bool)
    requires forall k :: 0 <= k < |post| ==> pad(post[k])
    ensures TrimEnd(x + post, pad) == TrimEnd(x, pad)
  {
    if post == [] {
      assert x + post == x;
    } else {
      assert (x + post)[|x + post| - 1] == post[|post| - 1];
      assert (x + post)[..|x + post| - 1] == x + post[..|post| - 1];
      assert forall k :: 0 <= k < |post| - 1 ==> post[..|post| - 1][k] == post[k];
      TrimEndSuffix(x, post[..|post| - 1], pad);
    }
  }

  /** Trimming the start of `s + post` does not reach `post` when `s` has a character
      that is not padding. */
  lemma {:induction false} TrimStartAppend(s: string, post: string, pad: char -> bool)
    requires TrimStart(s, pad) != []
    ensures TrimStart(s + post, pad) == TrimStart(s, pad) + post
  {
    if pad(s[0]) {
      assert (s + post)[1..] == s[1..] + post;
      TrimStartAppend(s[1..], post, pad);
    }
  }

  /** Trimming ignores any padding added around a string. */
  lemma TrimOfPadded(pre: string, s: string, post: string, pad: char -> bool)
    requires forall k :: 0 <= k < |pre| ==> pad(pre[k])
    requires forall k :: 0 <= k < |post| ==> pad(post[k])
    ensures Trim(pre + s + post, pad) == Trim(s, pad)
  {
    assert pre + s + post == pre + (s + post);
    TrimStartPrefix(pre, s + post, pad);
    TrimStartSpec(s, pad);
    if TrimStart(s, pad) != [] {
      TrimStartAppend(s, post, pad);
      TrimEndSuffix(TrimStart(s, pad), post, pad);
    } else {
      assert forall k :: 0 <= k < |s| ==> pad(s[k]);
      assert s + post == (s + post) + [];
      forall k | 0 <= k < |s + post|
        ensures pad((s + post)[k])
      {
        if k >= |s| {
          assert (s + post)[k] == post[k - |s|];
        }
      }
      TrimStartPrefix(s + post, [], pad);
    }
  }

  /** No whitespace at either end: the strings `str.strip()` leaves alone. */
  predicate Unpadded(s: string) {
    s == [] || (!IsSpace(s[0]) && !IsSpace(s[|s| - 1]))
  }

  /** `str.strip()` with no argument. */
  function Strip(s: string): (r: string)
    ensures Unpadded(r)
  {
    Trim(s, IsSpace)
  }

  /** `str.strip()` keeps a slice of its input and removes only whitespace around it. */
  lemma StripSpec(s: string) returns (i: nat, j: nat)
    ensures i <= j <= |s| && Strip(s) == s[i..j]
    ensures forall k :: 0 <= k < i ==> IsSpace(s[k])
    ensures forall k :: j <= k < |s| ==> IsSpace(s[k])
  {
    i, j := TrimSpec(s, IsSpace);
  }

  /** `str.strip()` keeps exactly the unpadded strings unchanged. */
  lemma StripFixedIff(s: string)
    ensures Strip(s) == s <==> Unpadded(s)
  {
    if Unpadded(s) && s != [] {
      TrimFixed(s, IsSpace);
    }
  }

  /** Stripping twice is stripping once. */
  lemma StripIdempotent(s: string)
    ensures Strip(Strip(s)) == Strip(s)
  {
    StripFixedIff(Strip(s));
  }

  /** The integer an already trimmed text denotes: an optional sign and at least one
      decimal digit, of any length; None for anything else. */
  function DecimalValue(t: string): Option<int> {
    if |t| >= 2 && (t[0] == '-' || t[0] == '+') && AllDigits(t[1..]) then
      var magnitude: int := DigitsValue(t[1..]);
      Some(if t[0] == '-' then -magnitude else magnitude)
    else if |t| >= 1 && AllDigits(t) then
      Some(DigitsValue(t))
    else
      None
  }

  /** CPython's default limit on the number of digits `int()` converts from a string
      (`sys.get_int_max_str_digits()`), in force since 3.11 and its security releases
      of 3.7 to 3.10. */
  const MaxStrDigits: nat := 4300

  /** A trimmed text without its leading sign, if it has one. */
  function Unsigned(t: string): string {
    if t != [] && (t[0] == '-' || t[0] == '+') then t[1..] else t
  }

  /** `int(text)`: the surrounding padding is skipped, then an optional sign and at
      least one and at most `MaxStrDigits` decimal digits; anything else is the
      `ValueError` (None). */
  function ParseInt(text: string): Option<int> {
    var t := Trim(text, IsIntPadding);
    if |Unsigned(t)| > MaxStrDigits then None else DecimalValue(t)
  }

  /** `int()` ignores any whitespace around the number (except U+001C..U+001F). */
  lemma ParseIntIgnoresPadding(pre: string, s: string, post: string)
    requires forall k :: 0 <= k < |pre| ==> IsIntPadding(pre[k])
    requires forall k :: 0 <= k < |post| ==> IsIntPadding(post[k])
    ensures ParseInt(pre + s + post) == ParseInt(s)
  {
    TrimOfPadded(pre, s, post, IsIntPadding);
  }

  /** `int()` does not skip U+001C although `str.strip()` does: `int("\x1c5")`
      raises while `int("5")` is 5. */
  lemma ParseIntKeepsSeparators()
    ensures Strip("\U{1c}5") == "5"
    ensures ParseInt("\U{1c}5") == None
    ensures ParseInt("5") == Some(5)
  {
    TrimFixed("\U{1c}5", IsIntPadding);
    assert TrimStart("\U{1c}5", IsSpace) == "5";
  }

  /** The decimal text of any integer denotes that integer. */
  lemma DecimalOfIntToString(i: int)
    ensures DecimalValue(IntToString(i)) == Some(i)
  {
    if i < 0 {
      assert IntToString(i)[1..] == NatToDecimal(-i);
    }
  }

  /** `int(str(i)) == i` for every integer of at most `MaxStrDigits` digits. */
  lemma ParseIntOfIntToString(i: int)
    requires |NatToDecimal(if i < 0 then -i else i)| <= MaxStrDigits
    ensures ParseInt(IntToString(i)) == Some(i)
  {
    var s := IntToString(i);
    assert !IsSpace(s[0]) && !IsSpace(s[|s| - 1]);
    TrimFixed(s, IsIntPadding);
    if i < 0 {
      assert Unsigned(s) == NatToDecimal(-i);
    } else {
      assert Unsigned(s) == NatToDecimal(i);
    }
    DecimalOfIntToString(i);
  }

  /** More than `MaxStrDigits` digits are the `ValueError`, although they denote a
      number. */
  lemma ParseIntRejectsOverlong(text: string)
    requires AllDigits(text) && |text| > MaxStrDigits
    ensures DecimalValue(text).Some?
    ensures ParseInt(text) == None
  {
    TrimFixed(text, IsIntPadding);
  }

  /** A string with a character that is neither a digit, a sign nor padding cannot
      be read as an integer. */
  lemma ParseIntRejectsStray(text: string, k: nat)
    requires k < |text| && !IsDigit(text[k]) && !IsIntPadding(text[k])
    requires text[k] != '-' && text[k] != '+'
    ensures ParseInt(text) == None
  {
    var j := TrimKeeps(text, k, IsIntPadding);
    var t := Trim(text, IsIntPadding);
    if !(|t| >= 2 && (t[0] == '-' || t[0] == '+') && AllDigits(t[1..])) {
      assert !IsDigit(t[j]);
    }
  }

  /** A character that is not `pad` survives trimming, at index `j` of the result. */
  lemma TrimKeeps(text: string, k: nat, pad: char -> bool) returns (j: nat)
    requires k < |text| && !pad(text[k])
    ensures j < |Trim(text, pad)| && Trim(text, pad)[j] == text[k]
  {
    var t := TrimStart(text, pad);
    TrimStartSpec(text, pad);
    var lo := |text| - |t|;
    assert k >= lo;
    j := k - lo;
    assert t[j] == text[k];
    TrimEndSpec(t, pad);
    assert j < |TrimEnd(t, pad)|;
  }
}
