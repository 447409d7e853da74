/** The string handling the engine relies on: splitting namespaced names such
    as `state:CONFIRMED` on `:`, ASCII lower-casing, and Python's `int()` on a
    string. */
module Text {
  import opened Wrappers
  import opened Faults

  const Colon: char := ':'

  predicate ColonFree(s: string) {
    Colon !in s
  }

  /** How many `:` separators `s` holds. */
  function ColonCount(s: string): nat {
    multiset(s)[Colon]
  }

  /** `target + ':' + action`, the compound `type_` of an activity event. */
  function Join(target: string, action: string): (r: string)
    ensures |r| == |target| + 1 + |action|
    ensures r[..|target|] == target && r[|target|] == Colon && r[|target| + 1..] == action
  {
    target + [Colon] + action
  }

  /** `s.split(':')[0]`: the text before the first `:`, or all of `s` when it
      has none. */
  function FirstSegment(s: string): (r: string)
    ensures r <= s && ColonFree(r)
    ensures |r| < |s| ==> s[|r|] == Colon
  {
    if |s| == 0 || s[0] == Colon then ""
    else [s[0]] + FirstSegment(s[1..])
  }

  /** `s.split(':')[-1]`: the text after the last `:`, or all of `s` when it
      has none. */
  function LastSegment(s: string): (r: string)
    ensures |r| <= |s| && r == s[|s| - |r|..] && ColonFree(r)
    ensures |r| < |s| ==> s[|s| - |r| - 1] == Colon
  {
    if |s| == 0 || s[|s| - 1] == Colon then ""
    else LastSegment(s[..|s| - 1]) + [s[|s| - 1]]
  }

  /** `a, b = s.split(':')`: succeeds exactly when `s` holds one `:`, and then
      yields the parts on either side of it; any other count leaves the
      two-name unpack with the wrong number of values. */
  function SplitPair(s: string): (r: Result<(string, string), Fault>)
    ensures r.Success? <==> ColonCount(s) == 1
    ensures r.Success? ==> Join(r.value.0, r.value.1) == s
    ensures r.Success? ==> ColonFree(r.value.0) && ColonFree(r.value.1)
    ensures r.Failure? ==> r.error == UnpackMismatch
  {
    var head := FirstSegment(s);
    var i := |head|;
    if i == |s| then
      assert s == head;
      Failure(UnpackMismatch)
    else
      var rest := s[i + 1..];
      assert s == head + [Colon] + rest;
      assert multiset(s) == multiset(head) + multiset{Colon} + multiset(rest);
      if Colon in rest then Failure(UnpackMismatch)
      else Success((head, rest))
  }

  /** The colons of `a:b` are those of `a`, the separator, and those of `b`. */
  lemma ColonCountJoin(a: string, b: string)
    ensures ColonCount(Join(a, b)) == ColonCount(a) + 1 + ColonCount(b)
  {
    assert Join(a, b) == a + [Colon] + b;
    assert multiset(Join(a, b)) == multiset(a) + multiset{Colon} + multiset(b);
  }

  /** The first segment of `target:rest` is `target` when `target` holds no
      colon. */
  lemma {:induction false} FirstSegmentOfJoin(target: string, rest: string)
    requires ColonFree(target)
    ensures FirstSegment(Join(target, rest)) == target
  {
    var s := Join(target, rest);
    if |target| > 0 {
      assert s[0] == target[0] && s[0] != Colon;
      assert s[1..] == Join(target[1..], rest);
      FirstSegmentOfJoin(target[1..], rest);
      assert target == [target[0]] + target[1..];
    }
  }

  /** Joining two colon-free tokens and splitting the result gives them back. */
  lemma SplitJoin(target: string, action: string)
    requires ColonFree(target) && ColonFree(action)
    ensures SplitPair(Join(target, action)) == Success((target, action))
  {
    var s := Join(target, action);
    assert s == target + [Colon] + action;
    assert multiset(s) == multiset(target) + multiset{Colon} + multiset(action);
    FirstSegmentOfJoin(target, action);
  }

  // ---- ASCII case mapping ----

  predicate IsUpper(c: char) {
    'A' <= c <= 'Z'
  }

  function LowerChar(c: char): (r: char)
    ensures !IsUpper(r)
    ensures IsUpper(c) ==> r as int == c as int + 32
    ensures !IsUpper(c) ==> r == c
  {
    if IsUpper(c) then (c as int + 32) as char else c
  }

  /** `s.lower()` on ASCII letters: each upper-case letter becomes its
      lower-case form, every other character is kept. */
  function Lower(s: string): (r: string)
    ensures |r| == |s|
    ensures forall i :: 0 <= i < |s| ==> r[i] == LowerChar(s[i])
  {
    seq(|s|, i requires 0 <= i < |s| => LowerChar(s[i]))
  }

  /** Lower-casing keeps `:` where it was, so it keeps a token colon-free. */
  lemma LowerKeepsColonFree(s: string)
    requires ColonFree(s)
    ensures ColonFree(Lower(s))
  {
    forall i | 0 <= i < |s| ensures Lower(s)[i] != Colon {
      assert s[i] in s;
    }
  }

  // ---- Python's int() on a string ----

  predicate IsSpace(c: char) {
    c == ' ' || c == '\t' || c == '\n' || c == '\r' || c == '\U{0B}' || c == '\U{0C}'
  }

  predicate IsDigit(c: char) {
    '0' <= c <= '9'
  }

  predicate AllDigits(s: string) {
    forall i :: 0 <= i < |s| ==> IsDigit(s[i])
  }

  /** How many white-space characters `s` starts with. */
  function LeadingSpace(s: string): (k: nat)
    ensures k <= |s|
    ensures forall i :: 0 <= i < k ==> IsSpace(s[i])
    ensures k < |s| ==> !IsSpace(s[k])
  {
    if |s| == 0 || !IsSpace(s[0]) then 0
    else
      var k := LeadingSpace(s[1..]);
      assert forall i :: 1 <= i < k + 1 ==> s[i] == s[1..][i - 1];
      1 + k
  }

  /** `s` without the white space it ends with. */
  function TrimEnd(s: string): (r: string)
    ensures |r| <= |s| && r == s[..|r|]
    ensures forall i :: |r| <= i < |s| ==> IsSpace(s[i])
    ensures |r| > 0 ==> !IsSpace(r[|r| - 1])
  {
    if |s| == 0 || !IsSpace(s[|s| - 1]) then s
    else
      var r := TrimEnd(s[..|s| - 1]);
      assert r == s[..|r|];
      r
  }

  /** `s.strip()`: the middle of `s` once the white space at both ends is
      dropped. Everything before and after it is white space. */
  function Strip(s: string): (r: string)
    ensures |r| > 0 ==> !IsSpace(r[0]) && !IsSpace(r[|r| - 1])
    ensures LeadingSpace(s) + |r| <= |s|
    ensures r == s[LeadingSpace(s)..LeadingSpace(s) + |r|]
    ensures forall i :: LeadingSpace(s) + |r| <= i < |s| ==> IsSpace(s[i])
  {
    var a := LeadingSpace(s);
    var t := s[a..];
    var r := TrimEnd(t);
    assert |r| > 0 ==> r[0] == s[a];
    assert forall i :: a + |r| <= i < |s| ==> s[i] == t[i - a];
    r
  }

  /** The value of a string of decimal digits. */
  function DigitsValue(s: string): nat
    requires AllDigits(s)
  {
    if |s| == 0 then 0
    else DigitsValue(s[..|s| - 1]) * 10 + (s[|s| - 1] as int - '0' as int)
  }

  function DigitChar(d: nat): (c: char)
    requires d < 10
    ensures IsDigit(c) && c as int - '0' as int == d
  {
    ('0' as int + d) as char
  }

  /** The decimal digits of `n`, most significant first and without leading
      zeros. */
  function Digits(n: nat): (s: string)
    ensures |s| > 0 && AllDigits(s)
    ensures DigitsValue(s) == n
  {
    if n < 10 then [DigitChar(n)]
    else
      var s := Digits(n / 10) + [DigitChar(n % 10)];
      assert s[..|s| - 1] == Digits(n / 10);
      s
  }

  /** `str(n)` for an integer. */
  function Render(n: int): string {
    if n < 0 then "-" + Digits(-n) else Digits(n)
  }

  /** The numerals `int()` accepts once white space is stripped: one or more
      decimal digits, optionally after a sign. */
  predicate Numeral(t: string) {
    || (|t| > 0 && AllDigits(t))
    || (|t| > 1 && (t[0] == '-' || t[0] == '+') && AllDigits(t[1..]))
  }

  /** The value of a stripped numeral, `None` for anything else: the digits'
      decimal value, negated after a `-`. */
  function ParseNumeral(t: string): (r: Option<int>)
    ensures r.Some? <==> Numeral(t)
    ensures |t| > 0 && AllDigits(t) ==> r == Some(DigitsValue(t))
    ensures |t| > 1 && t[0] == '+' && AllDigits(t[1..]) ==> r == Some(DigitsValue(t[1..]))
    ensures |t| > 1 && t[0] == '-' && AllDigits(t[1..]) ==> r == Some(0 - DigitsValue(t[1..]))
  {
    if |t| > 0 && (t[0] == '-' || t[0] == '+') then
      var ds := t[1..];
      if |ds| > 0 && AllDigits(ds) then
        var v: int := DigitsValue(ds);
        Some(if t[0] == '-' then -v else v)
      else None
    else if |t| > 0 && AllDigits(t) then Some(DigitsValue(t))
    else None
  }

  /** `int(s)` for a string: surrounding white space is ignored, then an
      optional sign must be followed by one or more decimal digits and nothing
      else; any other string raises, modelled as `None`. The value is that of
      the digits, negated after a `-`. */
  function ParseInt(s: string): (r: Option<int>)
    ensures r.Some? <==> Numeral(Strip(s))
    ensures var t := Strip(s);
      && (|t| > 0 && AllDigits(t) ==> r == Some(DigitsValue(t)))
      && (|t| > 1 && t[0] == '+' && AllDigits(t[1..]) ==> r == Some(DigitsValue(t[1..])))
      && (|t| > 1 && t[0] == '-' && AllDigits(t[1..]) ==> r == Some(0 - DigitsValue(t[1..])))
  {
    ParseNumeral(Strip(s))
  }

  /** A leading zero does not change a string of digits' value. */
  lemma {:induction false} LeadingZero(ds: string)
    requires AllDigits(ds)
    ensures AllDigits("0" + ds) && DigitsValue("0" + ds) == DigitsValue(ds)
    decreases |ds|
  {
    var z := "0" + ds;
    assert forall i :: 0 <= i < |z| ==> IsDigit(z[i]) by {
      forall i | 0 <= i < |z| ensures IsDigit(z[i]) {
        if i > 0 { assert z[i] == ds[i - 1]; }
      }
    }
    if |ds| > 0 {
      var init := ds[..|ds| - 1];
      assert z[..|z| - 1] == "0" + init;
      assert AllDigits(init) by {
        forall i | 0 <= i < |init| ensures IsDigit(init[i]) { assert init[i] == ds[i]; }
      }
      LeadingZero(init);
    }
  }

  /** A `+` sign or leading zeros in front of a numeral do not change what
      `int()` reads. */
  lemma ParsePlusAndZeros(ds: string)
    requires |ds| > 0 && AllDigits(ds)
    ensures ParseNumeral("+" + ds) == ParseNumeral(ds)
    ensures ParseNumeral("0" + ds) == ParseNumeral(ds)
    ensures ParseNumeral("-0" + ds) == ParseNumeral("-" + ds)
  {
    assert ("+" + ds)[1..] == ds;
    assert ("-" + ds)[1..] == ds;
    assert ("-0" + ds)[1..] == "0" + ds;
    LeadingZero(ds);
  }

  /** The decimal form of an integer reads back as that integer. */
  lemma ParseNumeralRender(n: int)
    ensures ParseNumeral(Render(n)) == Some(n)
  {
    var ds := Digits(if n < 0 then -n else n);
    assert IsDigit(ds[0]);
    if n < 0 {
      assert Render(n)[1..] == ds;
    }
  }

  /** `int(str(n)) == n`. */
  lemma ParseRender(n: int)
    ensures ParseInt(Render(n)) == Some(n)
  {
    var s := Render(n);
    assert IsDigit(Digits(if n < 0 then -n else n)[0]);
    assert !IsSpace(s[0]) && !IsSpace(s[|s| - 1]);
    assert LeadingSpace(s) == 0;
    assert Strip(s) == s;
    ParseNumeralRender(n);
  }

  /** Stripping one white-space character from each end of a string whose
      ends are not white space gives the string back. */
  lemma StripSurrounded(s: string, c: char, d: char)
    requires |s| > 0 && !IsSpace(s[0]) && !IsSpace(s[|s| - 1])
    requires IsSpace(c) && IsSpace(d)
    ensures Strip([c] + s + [d]) == s
  {
    var p := [c] + s + [d];
    assert p[1] == s[0] && p[|p| - 2] == s[|s| - 1];
    assert LeadingSpace(p) == 1;
    assert p[1..|p| - 1] == s;
  }

  /** White space around a number does not change what `int()` reads. */
  lemma ParsePadded(n: int, c: char, d: char)
    requires IsSpace(c) && IsSpace(d)
    ensures ParseInt([c] + Render(n) + [d]) == Some(n)
  {
    var s := Render(n);
    assert !IsSpace(s[0]) && !IsSpace(s[|s| - 1]);
    StripSurrounded(s, c, d);
    ParseRender(n);
    assert LeadingSpace(s) == 0;
    assert Strip(s) == s;
  }
}
