/** The string checks the model layer relies on: the `^[a-zA-Z0-9]+$` pattern,
    `String.trim`, `String.contains`, and `Long.parseLong`. */
module Text {
  import opened Outcomes

  predicate IsAsciiAlphanumeric(c: char) {
    'a' <= c <= 'z' || 'A' <= c <= 'Z' || '0' <= c <= '9'
  }

  /** `s` matches the pattern `^[a-zA-Z0-9]+$`: one or more ASCII letters or digits. */
  predicate IsAlphanumericWord(s: string) {
    |s| > 0 && forall i :: 0 <= i < |s| ==> IsAsciiAlphanumeric(s[i])
  }

  /** How many UTF-16 code units `c` takes: two for a character above U+FFFF
      (a surrogate pair), one otherwise. */
  function CharUnits(c: char): nat {
    if c as int > 0xFFFF then 2 else 1
  }

  /** `String.length()`: the number of UTF-16 code units of `s`, which exceeds
      the number of characters by one per character above U+FFFF, wherever it
      stands. */
  function Utf16Length(s: string): (n: nat)
    ensures |s| <= n <= 2 * |s|
    ensures (exists i :: 0 <= i < |s| && s[i] as int > 0xFFFF) ==> n > |s|
  {
    if s == [] then 0
    else
      assert forall i :: 1 <= i < |s| ==> s[1..][i - 1] == s[i];
      CharUnits(s[0]) + Utf16Length(s[1..])
  }

  /** Below U+10000 every character is one code unit, so an ASCII word, for
      instance, has as many code units as characters. */
  lemma {:induction false} Utf16LengthBmp(s: string)
    requires forall i :: 0 <= i < |s| ==> s[i] as int <= 0xFFFF
    ensures Utf16Length(s) == |s|
  {
    if s != [] {
      Utf16LengthBmp(s[1..]);
    }
  }

  /** An alphanumeric word is counted alike by `String.length()` and by characters. */
  lemma AlphanumericUtf16Length(s: string)
    requires IsAlphanumericWord(s)
    ensures Utf16Length(s) == |s|
  {
    Utf16LengthBmp(s);
  }

  /** The characters `String.trim` strips: every code point up to U+0020. */
  predicate IsTrimmed(c: char) {
    c <= ' '
  }

  /** `s` with its leading trimmed characters removed. */
  function TrimStart(s: string): (t: string)
    ensures |t| <= |s| && t == s[|s| - |t|..]
    ensures t != [] ==> !IsTrimmed(t[0])
    ensures forall k :: 0 <= k < |s| - |t| ==> IsTrimmed(s[k])
  {
    if s != [] && IsTrimmed(s[0]) then TrimStart(s[1..]) else s
  }

  /** `s` with its trailing trimmed characters removed. */
  function TrimEnd(s: string): (t: string)
    ensures |t| <= |s| && t == s[..|t|]
    ensures t != [] ==> !IsTrimmed(t[|t| - 1])
    ensures forall k :: |t| <= k < |s| ==> IsTrimmed(s[k])
  {
    if s != [] && IsTrimmed(s[|s| - 1]) then TrimEnd(s[..|s| - 1]) else s
  }

  /** `String.trim`. */
  function Trim(s: string): (t: string)
  {
    TrimEnd(TrimStart(s))
  }

  /** Where `Trim(s)` starts inside `s`. */
  function TrimOffset(s: string): nat {
    |s| - |TrimStart(s)|
  }

  /** `Trim(s)` sits in `s` at its offset. */
  lemma TrimSliceAt(s: string)
    ensures TrimOffset(s) + |Trim(s)| <= |s|
    ensures Trim(s) == s[TrimOffset(s)..TrimOffset(s) + |Trim(s)|]
  {
    var u := TrimStart(s);
    var i := |s| - |u|;
    var t := TrimEnd(u);
    assert u == s[i..];
    assert t == u[..|t|];
  }

  /** Everything after `Trim(s)` in `s` is a trimmed character. */
  lemma TrimCutAfter(s: string)
    ensures forall k :: TrimOffset(s) + |Trim(s)| <= k < |s| ==> IsTrimmed(s[k])
  {
    var u := TrimStart(s);
    var i := |s| - |u|;
    var t := TrimEnd(u);
    assert u == s[i..];
    forall k | i + |t| <= k < |s| ensures IsTrimmed(s[k]) {
      assert s[k] == u[k - i];
    }
  }

  /** `Trim(s)` is a slice of `s` whose ends are not trimmed characters, and
      everything cut away on either side is a trimmed character. */
  lemma TrimIsSlice(s: string)
    ensures TrimOffset(s) + |Trim(s)| <= |s|
    ensures Trim(s) == s[TrimOffset(s)..TrimOffset(s) + |Trim(s)|]
    ensures forall k :: 0 <= k < TrimOffset(s) ==> IsTrimmed(s[k])
    ensures forall k :: TrimOffset(s) + |Trim(s)| <= k < |s| ==> IsTrimmed(s[k])
    ensures Trim(s) != [] ==> !IsTrimmed(Trim(s)[0]) && !IsTrimmed(Trim(s)[|Trim(s)| - 1])
  {
    TrimSliceAt(s);
    TrimCutAfter(s);
    var u, t := TrimStart(s), Trim(s);
    if t != [] {
      assert t[0] == u[0];
    }
  }

  /** `s.trim().isEmpty()`, stated without trimming (see TrimEmpty). */
  predicate Blank(s: string) {
    forall k :: 0 <= k < |s| ==> IsTrimmed(s[k])
  }

  /** A string trims to nothing exactly when it is blank. */
  lemma TrimEmpty(s: string)
    ensures Trim(s) == [] <==> Blank(s)
  {
    var u := TrimStart(s);
    if Trim(s) == [] {
      assert u == [];
    } else {
      assert !IsTrimmed(u[0]);
      assert u[0] == s[|s| - |u|];
    }
  }

  /** An alphanumeric word survives trimming unchanged, so it is never blank. */
  lemma TrimAlphanumeric(s: string)
    requires IsAlphanumericWord(s)
    ensures Trim(s) == s
  {
    assert !IsTrimmed(s[0]);
    assert TrimStart(s) == s;
    assert !IsTrimmed(s[|s| - 1]);
  }

  /** `needle` occurs in `hay` starting at index `i`. */
  predicate OccursAt(hay: string, needle: string, i: nat) {
    i + |needle| <= |hay| && hay[i..i + |needle|] == needle
  }

  /** `String.contains`. */
  predicate Contains(hay: string, needle: string) {
    exists i: nat :: i <= |hay| && OccursAt(hay, needle, i)
  }

  /** Every string contains the empty string. */
  lemma ContainsEmpty(hay: string)
    ensures Contains(hay, "")
  {
    assert OccursAt(hay, "", 0);
  }

  // ---- Long.parseLong ----

  /** The range of a Java `long`. */
  const LongMin: int := -0x8000_0000_0000_0000
  const LongMax: int := 0x7FFF_FFFF_FFFF_FFFF

  predicate IsDigit(c: char) {
    '0' <= c <= '9'
  }

  predicate AllDigits(s: string) {
    forall i :: 0 <= i < |s| ==> IsDigit(s[i])
  }

  /** The value of a string of decimal digits, most significant first. */
  function DigitsValue(s: string): nat
    requires AllDigits(s)
  {
    if s == [] then 0 else DigitsValue(s[..|s| - 1]) * 10 + (s[|s| - 1] as int - '0' as int)
  }

  /** `s` without a leading `-` or `+`, if it has one. */
  function Unsigned(s: string): (u: string)
    ensures |u| <= |s| && (s != [] && (s[0] == '-' || s[0] == '+') ==> u == s[1..])
  {
    if s != [] && (s[0] == '-' || s[0] == '+') then s[1..] else s
  }

  /** `Long.parseLong(s)`: an optional `-` or `+`, then at least one decimal
      digit, with a value inside the `long` range; `None` where Java throws. */
  function ParseLong(s: string): (r: Option<int>)
    ensures r.Some? ==> LongMin <= r.value <= LongMax
    ensures r.Some? ==> |s| > 0 && |Unsigned(s)| > 0 && AllDigits(Unsigned(s))
    ensures r.Some? ==> r.value == if s[0] == '-' then 0 - DigitsValue(Unsigned(s)) as int else DigitsValue(Unsigned(s))
  {
    if s == [] then None
    else
      var digits := Unsigned(s);
      if digits == [] || !AllDigits(digits) then None
      else
        var v: int := if s[0] == '-' then 0 - DigitsValue(digits) as int else DigitsValue(digits);
        if LongMin <= v <= LongMax then Some(v) else None
  }

  /** The converse of ParseLong's contract: every optional sign followed by one
      or more decimal digits, leading zeros allowed, parses to its signed value
      when that value is a `long`. */
  lemma ParseSignedDigits(sign: string, digits: string)
    requires sign == "" || sign == "-" || sign == "+"
    requires |digits| > 0 && AllDigits(digits)
    requires LongMin <= (if sign == "-" then 0 - DigitsValue(digits) as int else DigitsValue(digits)) <= LongMax
    ensures ParseLong(sign + digits) == Some(if sign == "-" then 0 - DigitsValue(digits) as int else DigitsValue(digits))
  {
    var s := sign + digits;
    if sign == "" {
      assert s == digits;
      assert s[0] != '-' && s[0] != '+';
    } else {
      assert s[1..] == digits;
    }
  }

  /** Leading zeros and an explicit `+` are accepted, as is `-0`; a sign alone
      and a stray character are not. */
  lemma ParseLongExamples()
    ensures ParseLong("+007") == Some(7)
    ensures ParseLong("-0") == Some(0)
    ensures ParseLong("-") == None && ParseLong("") == None
    ensures ParseLong("1a") == None
  {
    assert DigitsValue("007") == 7 by {
      assert "007"[..2] == "00" && "00"[..1] == "0" && "0"[..0] == "";
    }
    ParseSignedDigits("+", "007");
    assert "+" + "007" == "+007";
    ParseSignedDigits("-", "0");
    assert "-" + "0" == "-0";
    assert !IsDigit("1a"[1]);
  }

  /** The decimal digits of `n`, without sign or leading zeros. */
  function DecimalString(n: nat): (s: string)
    ensures |s| > 0 && AllDigits(s)
  {
    var d := ['0' + ((n % 10) as char)];
    if n < 10 then d else DecimalString(n / 10) + d
  }

  lemma {:induction false} DecimalStringValue(n: nat)
    ensures DigitsValue(DecimalString(n)) == n
  {
    var s := DecimalString(n);
    if n >= 10 {
      DecimalStringValue(n / 10);
      assert s[..|s| - 1] == DecimalString(n / 10);
    }
  }

  /** Round trip: parsing the decimal rendering of any `long` gives it back. */
  lemma ParseDecimal(n: int)
    requires LongMin <= n <= LongMax
    ensures n >= 0 ==> ParseLong(DecimalString(n)) == Some(n)
    ensures n < 0 ==> ParseLong("-" + DecimalString(-n)) == Some(n)
  {
    if n >= 0 {
      DecimalStringValue(n);
    } else {
      DecimalStringValue(-n);
      assert ("-" + DecimalString(-n))[1..] == DecimalString(-n);
    }
  }
}
