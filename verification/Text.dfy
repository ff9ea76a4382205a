/** The string operations the modelled code takes from Python, over ASCII text. */
module Text {
  import opened Orders

  datatype Option<+T> = None | Some(value: T)

  predicate IsDigit(c: char) {
    '0' <= c <= '9'
  }

  predicate IsAlpha(c: char) {
    'a' <= c <= 'z' || 'A' <= c <= 'Z'
  }

  predicate IsSpace(c: char) {
    9 <= c as int <= 13 || 28 <= c as int <= 32
  }

  function DigitValue(c: char): (d: nat)
    requires IsDigit(c)
    ensures d <= 9
  {
    c as int - '0' as int
  }

  predicate AllDigits(s: string) {
    forall k :: 0 <= k < |s| ==> IsDigit(s[k])
  }

  /** Where the digit run starting at `i` stops. */
  function DigitsEnd(s: string, i: nat := 0): (e: nat)
    requires i <= |s|
    ensures i <= e <= |s|
    ensures forall k :: i <= k < e ==> IsDigit(s[k])
    ensures e < |s| ==> !IsDigit(s[e])
    decreases |s| - i
  {
    if i < |s| && IsDigit(s[i]) then DigitsEnd(s, i + 1) else i
  }

  /** A run of digits ends where the first other character stands. */
  lemma {:induction false} DigitsEndAt(text: string, i: nat, e: nat)
    requires i <= e <= |text| && AllDigits(text[i..e]) && (e < |text| ==> !IsDigit(text[e]))
    ensures DigitsEnd(text, i) == e
    decreases e - i
  {
    if i < e {
      assert text[i] == text[i..e][0];
      assert text[i + 1..e] == text[i..e][1..];
      DigitsEndAt(text, i + 1, e);
    }
  }

  /** `str.isdigit`: at least one character, and every one a digit. */
  predicate IsNumber(s: string) {
    s != "" && AllDigits(s)
  }

  /** `int(s)` of a digit string; 0 for the empty one. */
  function Value(s: string): nat
    requires AllDigits(s)
  {
    if s == "" then 0 else 10 * Value(s[..|s| - 1]) + DigitValue(s[|s| - 1])
  }

  /** The first index of `c` at or after `from`, or the length when there is none. */
  function IndexOf(s: string, c: char, from: nat := 0): (k: nat)
    requires from <= |s|
    ensures from <= k <= |s|
    ensures k < |s| ==> s[k] == c
    ensures forall j :: from <= j < k ==> s[j] != c
    decreases |s| - from
  {
    if from == |s| || s[from] == c then from else IndexOf(s, c, from + 1)
  }

  /** One past the last `c` in `s[..n]`, or 0 when there is none. */
  function AfterLast(s: string, c: char, n: nat): (k: nat)
    requires n <= |s|
    ensures k <= n
    ensures 0 < k ==> s[k - 1] == c
    ensures forall j :: k <= j < n ==> s[j] != c
  {
    if n == 0 || s[n - 1] == c then n else AfterLast(s, c, n - 1)
  }

  lemma AfterLastDash(version: string, release: string)
    requires '-' !in release
    ensures var s := version + "-" + release;
            var after := AfterLast(s, '-', |s|);
            after == |version| + 1 && s[..after - 1] == version && s[after..] == release
  {
    var s := version + "-" + release;
    assert s[|version|] == '-' && s[|version| + 1..] == release && s[..|version|] == version;
    assert forall k :: |version| < k < |s| ==> s[k] == release[k - |version| - 1];
  }

  /** Two parts joined by a dash, or one part alone. */
  function Dashed(front: string, back: Option<string>): string {
    match back
    case None => front
    case Some(s) => front + "-" + s
  }

  lemma FirstColon(head: string, tail: string)
    requires ':' !in head && (head != "" ==> !IsSpace(head[0])) && (tail != "" ==> !IsSpace(tail[|tail| - 1]))
    ensures var s := head + ":" + tail;
            Strip(s) == s && IndexOf(s, ':') == |head| && |head| < |s| && s[..|head|] == head && s[|head| + 1..] == tail
  {
    var s := head + ":" + tail;
    assert s[0] == (head + ":")[0] && s[|s| - 1] == if tail == "" then ':' else tail[|tail| - 1];
    StripNothing(s);
    assert s[|head|] == ':' && s[..|head|] == head && s[|head| + 1..] == tail;
    assert forall k :: 0 <= k < |head| ==> s[k] == head[k];
  }

  predicate OccursAt(s: string, pat: string, k: nat) {
    k + |pat| <= |s| && forall d :: 0 <= d < |pat| ==> s[k + d] == pat[d]
  }

  /** `s.find(pat, from)`: the first index at which `pat` occurs. */
  function Find(s: string, pat: string, from: nat := 0): (r: Option<nat>)
    requires from <= |s|
    ensures r.Some? ==> from <= r.value && OccursAt(s, pat, r.value)
    ensures forall j :: from <= j && (r.Some? ==> j < r.value) ==> !OccursAt(s, pat, j)
    decreases |s| - from
  {
    if OccursAt(s, pat, from) then Some(from)
    else if from == |s| then None
    else Find(s, pat, from + 1)
  }

  predicate Contains(s: string, pat: string) {
    Find(s, pat).Some?
  }

  predicate StartsWith(s: string, prefix: string) {
    OccursAt(s, prefix, 0)
  }

  function LStrip(s: string): (r: string)
    ensures r != "" ==> !IsSpace(r[0])
  {
    if s != "" && IsSpace(s[0]) then LStrip(s[1..]) else s
  }

  function RStrip(s: string): (r: string)
    ensures r <= s
    ensures r != "" ==> !IsSpace(r[|r| - 1])
  {
    if s != "" && IsSpace(s[|s| - 1]) then RStrip(s[..|s| - 1]) else s
  }

  /** `str.strip()`. */
  function Strip(s: string): string {
    RStrip(LStrip(s))
  }

  lemma StripNothing(s: string)
    requires s == "" || (!IsSpace(s[0]) && !IsSpace(s[|s| - 1]))
    ensures Strip(s) == s
  {
  }

  lemma StripFirst(s: string)
    requires s != "" && !IsSpace(s[0])
    ensures Strip(s) != "" && Strip(s)[0] == s[0]
  {
    RStripKeepsFirst(s);
  }

  lemma {:induction false} RStripKeepsFirst(s: string)
    requires s != "" && !IsSpace(s[0])
    ensures RStrip(s) != "" && RStrip(s)[0] == s[0]
  {
    if IsSpace(s[|s| - 1]) {
      RStripKeepsFirst(s[..|s| - 1]);
    }
  }

  lemma StripTwice(s: string)
    ensures Strip(Strip(s)) == Strip(s)
  {
    if LStrip(s) != "" {
      RStripKeepsFirst(LStrip(s));
    }
    StripNothing(Strip(s));
  }

  /** Stripping text that ends in `tail` only removes the whitespace before it. */
  lemma {:induction false} StripBefore(head: string, tail: string)
    requires tail != "" && !IsSpace(tail[0]) && !IsSpace(tail[|tail| - 1])
    ensures Strip(head + tail) == LStrip(head) + tail
  {
    if head == "" {
      assert head + tail == tail;
    } else {
      assert (head + tail)[1..] == head[1..] + tail;
      StripBefore(head[1..], tail);
    }
  }

  /** Stripped text stands somewhere in the text it was stripped from. */
  lemma {:induction false} StripWithin(s: string) returns (i: nat)
    ensures i + |Strip(s)| <= |s| && s[i..i + |Strip(s)|] == Strip(s)
  {
    if s != "" && IsSpace(s[0]) {
      var i' := StripWithin(s[1..]);
      i := i' + 1;
    } else {
      i := 0;
    }
  }

  lemma {:induction false} LStripKeeps(s: string, c: char)
    requires c !in s
    ensures c !in LStrip(s)
  {
    if s != "" && IsSpace(s[0]) {
      LStripKeeps(s[1..], c);
    }
  }

  predicate OneLine(s: string) {
    '\n' !in s
  }

  /** A title a fix note can carry. */
  predicate IsLabel(s: string) {
    s != "" && OneLine(s) && ';' !in s
  }

  function LowerChar(c: char): char {
    if 'A' <= c <= 'Z' then (c as int + 32) as char else c
  }

  function Lower(s: string): string {
    seq(|s|, i requires 0 <= i < |s| => LowerChar(s[i]))
  }

  /** One letter in either case, or one character. */
  predicate CaseAlike(c: char, d: char) {
    || c == d
    || ('A' <= c <= 'Z' && d as int == c as int + 32)
    || ('A' <= d <= 'Z' && c as int == d as int + 32)
  }

  lemma LowerAlike(s: string, t: string)
    ensures Lower(s) == Lower(t) <==> |s| == |t| && forall i :: 0 <= i < |s| ==> CaseAlike(s[i], t[i])
  {
    if Lower(s) == Lower(t) {
      assert |Lower(s)| == |s| && |Lower(t)| == |t|;
      forall i | 0 <= i < |s| ensures CaseAlike(s[i], t[i]) {
        assert Lower(s)[i] == Lower(t)[i];
      }
    }
  }

  function Codes(s: string): seq<int> {
    seq(|s|, i requires 0 <= i < |s| => s[i] as int)
  }

  /** Python's string comparison: by code point, a proper prefix first. */
  function StrCmp(s: string, t: string): int {
    Lex(IntCmp, -1, Codes(s), Codes(t))
  }

  lemma StrCmpZero(s: string, t: string)
    ensures StrCmp(s, t) == 0 <==> s == t
  {
    IntCmpTotal();
    LexZero(IntCmp, -1, Codes(s), Codes(t));
    if StrCmp(s, t) == 0 {
      forall k: nat ensures At(Codes(s), -1, k) == At(Codes(t), -1, k) {}
      assert At(Codes(s), -1, |s|) == At(Codes(t), -1, |s|);
      assert At(Codes(s), -1, |t|) == At(Codes(t), -1, |t|);
      forall k | 0 <= k < |s| && k < |t| ensures s[k] == t[k] {
        assert At(Codes(s), -1, k) == At(Codes(t), -1, k);
      }
      assert s == t;
    }
  }

  lemma StrCmpTotal()
    ensures TotalOrder(StrCmp)
  {
    IntCmpTotal();
    forall s, t ensures Sign(StrCmp(s, t)) == -Sign(StrCmp(t, s)) {
      LexAntisymmetric(IntCmp, -1, Codes(s), Codes(t));
    }
    forall s, t ensures StrCmp(s, t) == 0 <==> s == t {
      StrCmpZero(s, t);
    }
    forall s, t, u | StrCmp(s, t) <= 0 && StrCmp(t, u) <= 0 ensures StrCmp(s, u) <= 0 {
      LexTransitive(IntCmp, -1, Codes(s), Codes(t), Codes(u));
    }
  }

  // Digit runs: what comparing lengths and then characters says about values.

  /** `str.lstrip("0")`. */
  function StripZeros(s: string): (r: string)
    ensures r != "" ==> r[0] != '0'
  {
    if s != "" && s[0] == '0' then StripZeros(s[1..]) else s
  }

  lemma {:induction false} ValuePositive(s: string)
    requires AllDigits(s) && s != "" && s[0] != '0'
    ensures Value(s) > 0
  {
    if |s| > 1 {
      ValuePositive(s[..|s| - 1]);
    }
  }

  /** Without leading zeros the longer digit string is the larger number. */
  lemma {:induction false} LongerIsLarger(s: string, t: string)
    requires AllDigits(s) && AllDigits(t) && |s| > |t| && s[0] != '0'
    ensures Value(s) > Value(t)
  {
    if t == "" {
      ValuePositive(s);
    } else {
      LongerIsLarger(s[..|s| - 1], t[..|t| - 1]);
    }
  }

  lemma {:induction false} DropLeadingZero(s: string)
    requires AllDigits(s) && s != "" && s[0] == '0'
    ensures AllDigits(s[1..]) && Value(s) == Value(s[1..])
  {
    if |s| > 1 {
      DropLeadingZero(s[..|s| - 1]);
      assert s[1..][..|s| - 2] == s[..|s| - 1][1..];
    }
  }

  lemma {:induction false} StripZerosValue(s: string)
    requires AllDigits(s)
    ensures AllDigits(StripZeros(s)) && Value(StripZeros(s)) == Value(s)
  {
    if s != "" && s[0] == '0' {
      DropLeadingZero(s);
      StripZerosValue(s[1..]);
    }
  }

  /** The first place two strings of one length differ decides their values. */
  lemma {:induction false} FirstDifferenceDecides(s: string, t: string, k: nat)
    requires AllDigits(s) && AllDigits(t) && |s| == |t| && k < |s|
    requires s[..k] == t[..k] && s[k] < t[k]
    ensures Value(s) < Value(t)
  {
    var s', t' := s[..|s| - 1], t[..|t| - 1];
    if k == |s| - 1 {
      assert s' == s[..k] && t' == t[..k];
    } else {
      assert s'[..k] == s[..k] && t'[..k] == t[..k];
      FirstDifferenceDecides(s', t', k);
    }
  }

  /** The first difference of two strings of one length is what decides `StrCmp`. */
  lemma {:induction false} StrCmpFirstDifference(s: string, t: string) returns (k: nat)
    requires |s| == |t| && s != t
    ensures k < |s| && s[..k] == t[..k] && s[k] != t[k]
    ensures StrCmp(s, t) == if s[k] < t[k] then -1 else 1
  {
    if s[0] != t[0] {
      k := 0;
    } else {
      assert s == [s[0]] + s[1..] && t == [t[0]] + t[1..];
      var k' := StrCmpFirstDifference(s[1..], t[1..]);
      k := k' + 1;
      assert s[..k] == [s[0]] + s[1..][..k'] && t[..k] == [t[0]] + t[1..][..k'];
      StrCmpRest(s, t);
    }
  }

  lemma {:induction false} StrCmpRest(s: string, t: string)
    requires s != "" && t != "" && s[0] == t[0]
    ensures StrCmp(s, t) == StrCmp(s[1..], t[1..])
  {
    assert Rest(Codes(s)) == Codes(s[1..]) && Rest(Codes(t)) == Codes(t[1..]);
  }

  /** Code points decide at the first difference, and a proper beginning comes first. */
  lemma StrCmpDecides(shared: string, c: char, d: char, s: string, t: string)
    ensures c < d ==> StrCmp(shared + [c] + s, shared + [d] + t) < 0
    ensures StrCmp(shared, shared + [d] + t) < 0
  {
    IntCmpTotal();
    var x, y := [c as int] + Codes(s), [d as int] + Codes(t);
    assert Codes(shared + [c] + s) == Codes(shared) + x && Codes(shared + [d] + t) == Codes(shared) + y;
    assert Codes(shared) == Codes(shared) + [];
    LexPrefix(IntCmp, -1, Codes(shared), x, y);
    LexPrefix(IntCmp, -1, Codes(shared), [], y);
  }

  /** On digit strings of one length, text order is numeric order. */
  lemma EqualLengthByText(s: string, t: string)
    requires AllDigits(s) && AllDigits(t) && |s| == |t|
    ensures StrCmp(s, t) == IntCmp(Value(s), Value(t))
  {
    if s == t {
      StrCmpZero(s, t);
    } else {
      var k := StrCmpFirstDifference(s, t);
      if s[k] < t[k] {
        FirstDifferenceDecides(s, t, k);
      } else {
        FirstDifferenceDecides(t, s, k);
      }
    }
  }

  // Writing numbers.

  function Digit(d: nat): (c: char)
    requires d <= 9
    ensures IsDigit(c) && DigitValue(c) == d
  {
    (d + '0' as int) as char
  }

  /** `str(n)`. */
  function Decimal(n: nat): (s: string)
    ensures IsNumber(s) && Value(s) == n
    ensures n < 100 ==> |s| <= 2
  {
    if n < 10 then OneDigit(Digit(n)); [Digit(n)]
    else Snoc(Decimal(n / 10), Digit(n % 10)); Decimal(n / 10) + [Digit(n % 10)]
  }

  lemma Snoc(s: string, c: char)
    requires AllDigits(s) && IsDigit(c)
    ensures AllDigits(s + [c]) && Value(s + [c]) == 10 * Value(s) + DigitValue(c)
  {
    assert (s + [c])[..|s|] == s;
  }

  lemma OneDigit(c: char)
    requires IsDigit(c)
    ensures AllDigits([c]) && Value([c]) == DigitValue(c)
  {
    Snoc("", c);
    assert "" + [c] == [c];
  }

  /** `f"{n:02d}"` for a number of at most two digits. */
  function TwoDigits(n: nat): (s: string)
    requires n < 100
    ensures |s| == 2 && IsNumber(s) && Value(s) == n
  {
    Snoc([Digit(n / 10)], Digit(n % 10));
    OneDigit(Digit(n / 10));
    [Digit(n / 10)] + [Digit(n % 10)]
  }

  lemma {:induction false} ValueBelow100(s: string)
    requires AllDigits(s) && |s| <= 2
    ensures Value(s) < 100
  {
    if |s| == 2 {
      OneDigit(s[0]);
      Snoc([s[0]], s[1]);
      assert s == [s[0]] + [s[1]];
    } else if |s| == 1 {
      OneDigit(s[0]);
      assert s == [s[0]];
    }
  }
}
