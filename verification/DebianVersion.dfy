/** Debian version ordering (backend/app/scanner/debian_version.py), as in
    section 5.6.12 of the Debian Policy Manual.

    `Verrevcmp` is the source's loop over two indices. It is proved to have the
    sign of a lexicographic comparison of integer keys, each continued for ever
    with zeros, so the order is a total preorder. */
module DebianVersion {
  import opened Orders
  import opened Text

  /** The weight of a character outside a digit run; a digit weighs nothing. */
  function CharOrder(c: char): int {
    if c == '~' then -1
    else if IsDigit(c) then 0
    else if IsAlpha(c) then c as int
    else c as int + 256
  }

  /** The key of `s` from index `i`: the weights of a non-digit run ended by 0,
      then the value of a digit run, and so on to the end of the string. */
  function Key(s: string, i: nat := 0): seq<int>
    requires i <= |s|
    decreases |s| - i
  {
    if i == |s| then []
    else if !IsDigit(s[i]) then [CharOrder(s[i])] + Key(s, i + 1)
    else
      var e := DigitsEnd(s, i);
      [0, Value(s[i..e])] + Key(s, e)
  }

  /** The key from an index where a digit run, possibly empty, is due. */
  function NumberKey(s: string, i: nat): seq<int>
    requires i <= |s|
  {
    var e := DigitsEnd(s, i);
    [Value(s[i..e])] + Key(s, e)
  }

  function KeyCmp(x: seq<int>, y: seq<int>): int {
    Lex(IntCmp, 0, x, y)
  }

  datatype Evr = Evr(epoch: nat, upstream: string, revision: string)

  function Split(version: string): Evr {
    var stripped := Strip(version);
    var colon := IndexOf(stripped, ':');
    var head := stripped[..colon];
    var rest := if colon < |stripped| then stripped[colon + 1..] else stripped;
    var epoch := if colon < |stripped| && IsNumber(head) then Value(head) else 0;
    Parts(epoch, rest)
  }

  /** `rpartition("-")`; what has nothing before its last dash is all upstream. */
  function Parts(epoch: nat, rest: string): Evr {
    var after := AfterLast(rest, '-', |rest|);
    var upstream := if after == 0 then "" else rest[..after - 1];
    if upstream == "" then Evr(epoch, rest[after..], "") else Evr(epoch, upstream, rest[after..])
  }

  function Order(a: string, b: string): int {
    ReadCmp(ReadOf(a), ReadOf(b))
  }

  /** A version as it is compared: its epoch and two keys. */
  datatype Reading = Reading(epoch: nat, upstream: seq<int>, revision: seq<int>)

  function ReadOf(version: string): Reading {
    var x := Split(version);
    Reading(x.epoch, Key(x.upstream), Key(x.revision))
  }

  function ReadCmp(x: Reading, y: Reading): int {
    if x.epoch != y.epoch then IntCmp(x.epoch, y.epoch)
    else
      var c := KeyCmp(x.upstream, y.upstream);
      if c != 0 then c else KeyCmp(x.revision, y.revision)
  }

  // The loops.

  lemma {:induction false} KeyCmpStep(x: seq<int>, y: seq<int>)
    requires At(x, 0, 0) == At(y, 0, 0)
    ensures KeyCmp(x, y) == KeyCmp(Rest(x), Rest(y))
  {
  }

  /** Both strings stand at a digit or at their end: compare from the numbers on. */
  lemma KeyAtNumber(s: string, i: nat)
    requires i <= |s| && (i < |s| ==> IsDigit(s[i]))
    ensures At(Key(s, i), 0, 0) == 0
    ensures i < |s| ==> Rest(Key(s, i)) == NumberKey(s, i)
    ensures i == |s| ==> Rest(Key(s, i)) == [] && NumberKey(s, i) == [0]
  {
    if i == |s| {
      assert s[i..i] == "";
      assert Key(s, i) == [];
    } else {
      assert Key(s, i) == [0] + NumberKey(s, i);
    }
  }

  lemma {:induction false} TrailingZero(y: seq<int>)
    ensures KeyCmp([], y) == KeyCmp([0], y) && KeyCmp(y, []) == KeyCmp(y, [0])
  {
    if |y| != 0 && y[0] == 0 {
      assert Rest([0]) == [] == Rest([]);
    }
  }

  lemma KeyCmpAtNumbers(a: string, i: nat, b: string, j: nat)
    requires i <= |a| && (i < |a| ==> IsDigit(a[i]))
    requires j <= |b| && (j < |b| ==> IsDigit(b[j]))
    ensures KeyCmp(Key(a, i), Key(b, j)) == KeyCmp(NumberKey(a, i), NumberKey(b, j))
  {
    KeyAtNumber(a, i);
    KeyAtNumber(b, j);
    KeyCmpStep(Key(a, i), Key(b, j));
    TrailingZero(Rest(Key(b, j)));
    TrailingZero(Rest(Key(a, i)));
    TrailingZero(NumberKey(a, i));
    TrailingZero(NumberKey(b, j));
  }

  lemma {:induction false} KeyCmpDiffers(x: seq<int>, y: seq<int>)
    requires At(x, 0, 0) != At(y, 0, 0)
    ensures KeyCmp(x, y) == IntCmp(At(x, 0, 0), At(y, 0, 0))
  {
  }

  /** The order value the loop sees; 0 past the end. */
  function Weight(s: string, i: nat): int {
    if i < |s| then CharOrder(s[i]) else 0
  }

  predicate AtNonDigit(s: string, i: nat) {
    i < |s| && !IsDigit(s[i])
  }

  lemma KeyHead(s: string, i: nat)
    requires i <= |s|
    ensures At(Key(s, i), 0, 0) == Weight(s, i)
    ensures AtNonDigit(s, i) <==> Weight(s, i) != 0
    ensures Weight(s, i) != 0 ==> Rest(Key(s, i)) == Key(s, i + 1)
  {
  }

  lemma NonDigitStep(a: string, i: nat, b: string, j: nat)
    requires i <= |a| && j <= |b| && (AtNonDigit(a, i) || AtNonDigit(b, j))
    ensures Weight(a, i) != Weight(b, j) ==>
              KeyCmp(Key(a, i), Key(b, j)) == IntCmp(Weight(a, i), Weight(b, j))
    ensures Weight(a, i) == Weight(b, j) ==>
              i < |a| && j < |b| && KeyCmp(Key(a, i), Key(b, j)) == KeyCmp(Key(a, i + 1), Key(b, j + 1))
  {
    KeyHead(a, i);
    KeyHead(b, j);
    if Weight(a, i) != Weight(b, j) {
      KeyCmpDiffers(Key(a, i), Key(b, j));
    } else {
      KeyCmpStep(Key(a, i), Key(b, j));
    }
  }

  /** The non-digit part. A difference decides; otherwise both indices advance
      together, and neither ever runs past its string. */
  method CompareNonDigits(a: string, i0: nat, b: string, j0: nat) returns (diff: int, i: nat, j: nat)
    requires i0 <= |a| && j0 <= |b|
    ensures i0 <= i <= |a| && j0 <= j <= |b|
    ensures diff != 0 ==> Sign(diff) == KeyCmp(Key(a, i0), Key(b, j0))
    ensures diff == 0 ==> KeyCmp(Key(a, i), Key(b, j)) == KeyCmp(Key(a, i0), Key(b, j0))
    ensures diff == 0 ==> !AtNonDigit(a, i) && !AtNonDigit(b, j)
  {
    i, j, diff := i0, j0, 0;
    while AtNonDigit(a, i) || AtNonDigit(b, j)
      invariant i0 <= i <= |a| && j0 <= j <= |b|
      invariant KeyCmp(Key(a, i), Key(b, j)) == KeyCmp(Key(a, i0), Key(b, j0))
      decreases |a| - i
    {
      var ac, bc := Weight(a, i), Weight(b, j);
      NonDigitStep(a, i, b, j);
      if ac != bc {
        diff := ac - bc;
        return;
      }
      i, j := i + 1, j + 1;
    }
  }

  method SkipZeros(s: string, start: nat) returns (i: nat)
    requires start <= |s|
    ensures start <= i <= |s|
    ensures i < |s| ==> s[i] != '0'
    ensures NumberKey(s, i) == NumberKey(s, start)
  {
    i := start;
    while i < |s| && s[i] == '0'
      invariant start <= i <= |s|
      invariant NumberKey(s, i) == NumberKey(s, start)
    {
      var e := DigitsEnd(s, i);
      DropLeadingZero(s[i..e]);
      assert s[i..e][1..] == s[i + 1..e];
      i := i + 1;
    }
  }

  predicate AtDigit(s: string, i: nat) {
    i < |s| && IsDigit(s[i])
  }

  /** The value of the run's digits before `k`. */
  function ValueTo(s: string, i: nat, k: nat): nat
    requires i <= |s| && i <= k <= DigitsEnd(s, i)
  {
    Value(s[i..k])
  }

  lemma RunMore(s: string, i: nat, k: nat)
    requires i <= |s| && i <= k <= DigitsEnd(s, i) && AtDigit(s, k)
    ensures k < DigitsEnd(s, i) && ValueTo(s, i, k + 1) == 10 * ValueTo(s, i, k) + DigitValue(s[k])
  {
    assert s[i..k + 1][..k - i] == s[i..k];
  }

  /** One more digit on each side leaves the first difference in charge. */
  lemma DigitDecides(v: nat, w: nat, d: nat, e: nat, firstDiff: int)
    requires d <= 9 && e <= 9 && Sign(firstDiff) == IntCmp(v, w)
    ensures Sign(if firstDiff == 0 then d - e else firstDiff) == IntCmp(10 * v + d, 10 * w + e)
  {
  }

  /** Two digit runs side by side, as far as the shorter one: the first difference
      decides their values. */
  method CompareAlongside(a: string, i0: nat, b: string, j0: nat) returns (firstDiff: int, i: nat, j: nat)
    requires i0 <= |a| && j0 <= |b|
    ensures i0 <= i <= DigitsEnd(a, i0) && j0 <= j <= DigitsEnd(b, j0) && i - i0 == j - j0
    ensures !AtDigit(a, i) || !AtDigit(b, j)
    ensures Sign(firstDiff) == IntCmp(ValueTo(a, i0, i), ValueTo(b, j0, j))
  {
    i, j, firstDiff := i0, j0, 0;
    while AtDigit(a, i) && AtDigit(b, j)
      invariant i0 <= i <= DigitsEnd(a, i0) && j0 <= j <= DigitsEnd(b, j0) && i - i0 == j - j0
      invariant Sign(firstDiff) == IntCmp(ValueTo(a, i0, i), ValueTo(b, j0, j))
      decreases |a| - i
    {
      RunMore(a, i0, i);
      RunMore(b, j0, j);
      DigitDecides(ValueTo(a, i0, i), ValueTo(b, j0, j), DigitValue(a[i]), DigitValue(b[j]), firstDiff);
      if firstDiff == 0 {
        firstDiff := a[i] as int - b[j] as int;
      }
      i, j := i + 1, j + 1;
    }
  }

  /** A number's value is the first element of the key that starts there. */
  lemma NumberHead(s: string, i: nat)
    requires i <= |s|
    ensures var e := DigitsEnd(s, i);
            AllDigits(s[i..e]) && At(NumberKey(s, i), 0, 0) == Value(s[i..e]) && Rest(NumberKey(s, i)) == Key(s, e)
  {
  }

  /** The digit part, past its leading zeros: a longer run wins, then the first
      difference. */
  method CompareDigits(a: string, i0: nat, b: string, j0: nat) returns (diff: int, i: nat, j: nat)
    requires i0 <= |a| && (i0 < |a| ==> a[i0] != '0')
    requires j0 <= |b| && (j0 < |b| ==> b[j0] != '0')
    ensures diff != 0 ==> Sign(diff) == KeyCmp(NumberKey(a, i0), NumberKey(b, j0))
    ensures diff == 0 ==> i == DigitsEnd(a, i0) && j == DigitsEnd(b, j0)
    ensures diff == 0 ==> KeyCmp(Key(a, i), Key(b, j)) == KeyCmp(NumberKey(a, i0), NumberKey(b, j0))
  {
    ghost var ea, eb := DigitsEnd(a, i0), DigitsEnd(b, j0);
    NumberHead(a, i0);
    NumberHead(b, j0);
    diff, i, j := CompareAlongside(a, i0, b, j0);
    if i < |a| && IsDigit(a[i]) {
      LongerIsLarger(a[i0..ea], b[j0..eb]);
      diff := 1;
    } else if j < |b| && IsDigit(b[j]) {
      LongerIsLarger(b[j0..eb], a[i0..ea]);
      diff := -1;
    }
    if diff == 0 {
      KeyCmpStep(NumberKey(a, i0), NumberKey(b, j0));
    } else {
      KeyCmpDiffers(NumberKey(a, i0), NumberKey(b, j0));
    }
  }

  method Verrevcmp(a: string, b: string) returns (r: int)
    ensures Sign(r) == KeyCmp(Key(a), Key(b))
  {
    var i: nat, j: nat := 0, 0;
    while i < |a| || j < |b|
      invariant i <= |a| && j <= |b|
      invariant KeyCmp(Key(a, i), Key(b, j)) == KeyCmp(Key(a), Key(b))
      decreases |a| - i + |b| - j
    {
      var diff;
      diff, i, j := CompareNonDigits(a, i, b, j);
      if diff != 0 {
        return diff;
      }
      KeyCmpAtNumbers(a, i, b, j);
      i := SkipZeros(a, i);
      j := SkipZeros(b, j);
      diff, i, j := CompareDigits(a, i, b, j);
      if diff != 0 {
        return diff;
      }
    }
    return 0;
  }

  method CompareVersions(a: string, b: string) returns (r: int)
    ensures Sign(r) == Order(a, b)
  {
    var x, y := Split(a), Split(b);
    if x.epoch != y.epoch {
      return x.epoch - y.epoch;
    }
    r := Verrevcmp(x.upstream, y.upstream);
    if r == 0 {
      r := Verrevcmp(x.revision, y.revision);
    }
  }

  // How a written version is read.

  /** Surrounding whitespace is not part of a version. */
  lemma SplitIgnoresSpace(version: string)
    ensures Split(version) == Split(Strip(version))
  {
    StripTwice(version);
  }

  /** A last dash sets off the revision; with nothing before it, or without one, all is
      upstream. */
  function Named(epoch: nat, upstream: string, revision: Option<string>): Evr {
    match revision
    case None => Evr(epoch, upstream, "")
    case Some(r) => if upstream == "" then Evr(epoch, r, "") else Evr(epoch, upstream, r)
  }

  lemma SplitWithoutEpoch(upstream: string, revision: Option<string>)
    requires Strip(Dashed(upstream, revision)) == Dashed(upstream, revision) && ':' !in Dashed(upstream, revision)
    requires if revision.Some? then '-' !in revision.value else '-' !in upstream
    ensures Split(Dashed(upstream, revision)) == Named(0, upstream, revision)
  {
    assert IndexOf(Dashed(upstream, revision), ':') == |Dashed(upstream, revision)|;
    PartsWritten(0, upstream, revision);
  }

  /** The epoch is what precedes the first colon; one that is no number counts as 0, and
      its text is dropped all the same. */
  lemma SplitWithEpoch(epoch: string, upstream: string, revision: Option<string>)
    requires ':' !in epoch && (epoch != "" ==> !IsSpace(epoch[0]))
    requires if revision.Some? then '-' !in revision.value else '-' !in upstream
    requires var rest := Dashed(upstream, revision); rest != "" ==> !IsSpace(rest[|rest| - 1])
    ensures Split(epoch + ":" + Dashed(upstream, revision)) ==
            Named(if IsNumber(epoch) then Value(epoch) else 0, upstream, revision)
  {
    SplitAtColon(epoch, Dashed(upstream, revision));
    PartsWritten(if IsNumber(epoch) then Value(epoch) else 0, upstream, revision);
  }

  lemma SplitAtColon(epoch: string, rest: string)
    requires ':' !in epoch && (epoch != "" ==> !IsSpace(epoch[0]))
    requires rest != "" ==> !IsSpace(rest[|rest| - 1])
    ensures Split(epoch + ":" + rest) == Parts(if IsNumber(epoch) then Value(epoch) else 0, rest)
  {
    FirstColon(epoch, rest);
  }

  lemma PartsWritten(epoch: nat, upstream: string, revision: Option<string>)
    requires if revision.Some? then '-' !in revision.value else '-' !in upstream
    ensures Parts(epoch, Dashed(upstream, revision)) == Named(epoch, upstream, revision)
  {
    if revision.Some? {
      AfterLastDash(upstream, revision.value);
    }
  }

  // The laws.

  /** Equal once both keys are continued for ever with zeros. */
  ghost predicate SameKey(x: seq<int>, y: seq<int>) {
    forall k: nat :: At(x, 0, k) == At(y, 0, k)
  }

  lemma KeyCmpZero(x: seq<int>, y: seq<int>)
    ensures KeyCmp(x, y) == -KeyCmp(y, x)
    ensures KeyCmp(x, y) == 0 <==> SameKey(x, y)
  {
    IntCmpTotal();
    LexAntisymmetric(IntCmp, 0, x, y);
    LexZero(IntCmp, 0, x, y);
  }

  /** Sign-antisymmetric, and zero exactly when epochs and continued keys agree. */
  lemma OrderZeroAndSign(a: string, b: string)
    ensures Order(a, b) == -Order(b, a)
    ensures Order(a, b) == 0 <==>
              (var x, y := ReadOf(a), ReadOf(b);
               x.epoch == y.epoch && SameKey(x.upstream, y.upstream) && SameKey(x.revision, y.revision))
  {
    KeyCmpZero(ReadOf(a).upstream, ReadOf(b).upstream);
    KeyCmpZero(ReadOf(a).revision, ReadOf(b).revision);
  }

  /** A zero comparison may be replaced on the left of any other. */
  lemma KeyCmpTransitive(u: seq<int>, v: seq<int>, w: seq<int>)
    requires KeyCmp(u, v) <= 0 && KeyCmp(v, w) <= 0
    ensures KeyCmp(u, w) <= 0
    ensures KeyCmp(u, w) == 0 ==> KeyCmp(u, v) == 0 && KeyCmp(v, w) == 0
  {
    IntCmpTotal();
    LexTransitive(IntCmp, 0, u, v, w);
    LexAntisymmetric(IntCmp, 0, u, w);
    LexAntisymmetric(IntCmp, 0, u, v);
    LexAntisymmetric(IntCmp, 0, v, w);
    if KeyCmp(u, w) == 0 {
      LexTransitive(IntCmp, 0, w, u, v);
      LexTransitive(IntCmp, 0, v, w, u);
    }
  }

  lemma ReadTransitive(x: Reading, y: Reading, z: Reading)
    requires ReadCmp(x, y) <= 0 && ReadCmp(y, z) <= 0
    ensures ReadCmp(x, z) <= 0
  {
    if x.epoch == y.epoch == z.epoch {
      KeyCmpTransitive(x.upstream, y.upstream, z.upstream);
      if KeyCmp(x.upstream, z.upstream) == 0 {
        KeyCmpTransitive(x.revision, y.revision, z.revision);
      }
    }
  }

  lemma OrderTransitive(a: string, b: string, c: string)
    requires Order(a, b) <= 0 && Order(b, c) <= 0
    ensures Order(a, c) <= 0
  {
    ReadTransitive(ReadOf(a), ReadOf(b), ReadOf(c));
  }

  // How versions sort, as text.

  /** Whether `b` can follow `a` without going on with a number that `a` ends in. */
  predicate Joins(a: string, b: string) {
    a == "" || b == "" || !IsDigit(a[|a| - 1]) || !IsDigit(b[0])
  }

  lemma {:induction false} DigitsEndFrom(a: string, b: string, i: nat)
    requires i <= |b|
    ensures DigitsEnd(a + b, |a| + i) == |a| + DigitsEnd(b, i)
    decreases |b| - i
  {
    if i < |b| {
      DigitsEndFrom(a, b, i + 1);
    }
  }

  lemma {:induction false} DigitsEndKeeps(a: string, b: string, i: nat)
    requires i <= |a| && (i < |a| ==> Joins(a, b)) && (i == |a| ==> b == "" || !IsDigit(b[0]))
    ensures DigitsEnd(a + b, i) == DigitsEnd(a, i)
    decreases |a| - i
  {
    if i < |a| && IsDigit(a[i]) {
      DigitsEndKeeps(a, b, i + 1);
    }
  }

  /** What the key takes in at an index: a weight or a number, and where it ends. */
  function Next(s: string, i: nat): (r: (seq<int>, nat))
    requires i < |s|
    ensures i < r.1 <= |s|
  {
    if !IsDigit(s[i]) then ([CharOrder(s[i])], i + 1) else ([0, Value(s[i..DigitsEnd(s, i)])], DigitsEnd(s, i))
  }

  lemma KeyNext(s: string, i: nat)
    requires i < |s|
    ensures Key(s, i) == Next(s, i).0 + Key(s, Next(s, i).1)
  {
  }

  lemma NextFrom(a: string, b: string, i: nat)
    requires i < |b|
    ensures Next(a + b, |a| + i) == (Next(b, i).0, |a| + Next(b, i).1)
  {
    var s := a + b;
    DigitsEndFrom(a, b, i);
    assert s[|a| + i] == b[i] && s[|a| + i..|a| + DigitsEnd(b, i)] == b[i..DigitsEnd(b, i)];
  }

  lemma KeyAlike(s: string, i: nat, t: string, j: nat)
    requires i < |s| && j < |t| && Next(s, i).0 == Next(t, j).0 && Key(s, Next(s, i).1) == Key(t, Next(t, j).1)
    ensures Key(s, i) == Key(t, j)
  {
    KeyNext(s, i);
    KeyNext(t, j);
  }

  lemma {:induction false} KeyFrom(a: string, b: string, i: nat)
    requires i <= |b|
    ensures Key(a + b, |a| + i) == Key(b, i)
    decreases |b| - i
  {
    if i < |b| {
      var s, n := a + b, Next(b, i).1;
      NextFrom(a, b, i);
      KeyFrom(a, b, n);
      KeyAlike(s, |a| + i, b, i);
    }
  }

  lemma NextKeeps(a: string, b: string, i: nat)
    requires i < |a| && Joins(a, b)
    ensures Next(a + b, i) == Next(a, i)
  {
    var s := a + b;
    assert s[i] == a[i];
    if IsDigit(a[i]) {
      DigitsEndKeeps(a, b, i);
      assert s[i..DigitsEnd(a, i)] == a[i..DigitsEnd(a, i)];
    }
  }

  lemma {:induction false} KeyJoined(a: string, b: string, i: nat := 0)
    requires i <= |a| && Joins(a, b)
    ensures Key(a + b, i) == Key(a, i) + Key(b)
    decreases |a| - i
  {
    if i == |a| {
      KeyFrom(a, b, 0);
    } else {
      NextKeeps(a, b, i);
      KeyNext(a, i);
      KeyNext(a + b, i);
      KeyJoined(a, b, Next(a, i).1);
    }
  }

  /** What two versions share at the front does not matter. */
  lemma SharedFront(v: string, a: string, b: string)
    requires Joins(v, a) && Joins(v, b)
    ensures KeyCmp(Key(v + a), Key(v + b)) == KeyCmp(Key(a), Key(b))
  {
    KeyJoined(v, a);
    KeyJoined(v, b);
    IntCmpTotal();
    LexPrefix(IntCmp, 0, Key(v), Key(a), Key(b));
  }

  /** At the first difference outside a number: `~` before the end and a digit, those
      before a letter, a letter before anything else, and letters among themselves, like
      the rest among themselves, by code point. */
  predicate Before(a: string, b: string) {
    if a != "" && a[0] == '~' then b == "" || b[0] != '~'
    else if a == "" || IsDigit(a[0]) then b != "" && b[0] != '~' && !IsDigit(b[0])
    else if IsAlpha(a[0]) then b != "" && b[0] != '~' && !IsDigit(b[0]) && (IsAlpha(b[0]) ==> a[0] < b[0])
    else b != "" && b[0] != '~' && !IsDigit(b[0]) && !IsAlpha(b[0]) && a[0] < b[0]
  }

  lemma FirstDifference(v: string, a: string, b: string)
    requires Joins(v, a) && Joins(v, b) && Before(a, b)
    ensures KeyCmp(Key(v + a), Key(v + b)) < 0
  {
    SharedFront(v, a, b);
    KeyHead(a, 0);
    KeyHead(b, 0);
    KeyCmpDiffers(Key(a), Key(b));
  }

  /** `~` sorts before the end, whatever follows it; every other character outside a
      number after it. */
  lemma TildeBeforeEnd(v: string, x: string, c: char, y: string)
    requires !IsDigit(c) && c != '~'
    ensures KeyCmp(Key(v + ("~" + x)), Key(v)) < 0
    ensures KeyCmp(Key(v), Key(v + ([c] + y))) < 0
  {
    assert v + "" == v;
    FirstDifference(v, "~" + x, "");
    FirstDifference(v, "", [c] + y);
  }

  /** Numbers in one place by their value, whatever zeros lead them. */
  lemma NumbersByValue(v: string, m: string, x: string, n: string, y: string)
    requires IsNumber(m) && IsNumber(n) && Value(m) < Value(n) && (v == "" || !IsDigit(v[|v| - 1]))
    requires (x == "" || !IsDigit(x[0])) && (y == "" || !IsDigit(y[0]))
    ensures KeyCmp(Key(v + (m + x)), Key(v + (n + y))) < 0
  {
    SharedFront(v, m + x, n + y);
    NumberFirst(m, x);
    NumberFirst(n, y);
    KeyCmpStep(Key(m + x), Key(n + y));
    KeyCmpDiffers(Rest(Key(m + x)), Rest(Key(n + y)));
  }

  lemma NumberFirst(m: string, x: string)
    requires IsNumber(m) && (x == "" || !IsDigit(x[0]))
    ensures At(Key(m + x), 0, 0) == 0 && At(Rest(Key(m + x)), 0, 0) == Value(m)
  {
    var s := m + x;
    assert s[0..|m|] == m && s[0] == m[0];
    DigitsEndAt(s, 0, |m|);
    KeyNext(s, 0);
  }

  /** Text without the marks that divide a version, or space to strip. */
  predicate Undivided(s: string) {
    forall k :: 0 <= k < |s| ==> s[k] != '-' && s[k] != ':' && !IsSpace(s[k])
  }

  /** `[epoch:]upstream[-revision]`. */
  function Full(epoch: Option<string>, upstream: string, revision: Option<string>): string {
    match epoch
    case None => Dashed(upstream, revision)
    case Some(e) => e + ":" + Dashed(upstream, revision)
  }

  predicate IsFull(epoch: Option<string>, upstream: string, revision: Option<string>) {
    && (epoch.Some? ==> IsNumber(epoch.value)) && upstream != ""
    && Undivided(upstream) && (revision.Some? ==> Undivided(revision.value))
  }

  function EpochOf(epoch: Option<string>): nat
    requires epoch.Some? ==> IsNumber(epoch.value)
  {
    if epoch.Some? then Value(epoch.value) else 0
  }

  lemma FullRead(epoch: Option<string>, upstream: string, revision: Option<string>)
    requires IsFull(epoch, upstream, revision)
    ensures ReadOf(Full(epoch, upstream, revision)) ==
            Reading(EpochOf(epoch), Key(upstream), if revision.Some? then Key(revision.value) else [])
  {
    var rest := Dashed(upstream, revision);
    assert !IsSpace(rest[0]) && !IsSpace(rest[|rest| - 1]);
    assert Key("") == [];
    if epoch.Some? {
      SplitWithEpoch(epoch.value, upstream, revision);
    } else {
      StripNothing(rest);
      assert ':' !in rest;
      SplitWithoutEpoch(upstream, revision);
    }
  }

  /** The greater epoch wins, whatever the upstream versions; then the greater of those,
      whatever the revisions. */
  lemma EpochThenUpstream(e: Option<string>, v: string, r: Option<string>,
                          e': Option<string>, v': string, r': Option<string>)
    requires IsFull(e, v, r) && IsFull(e', v', r')
    requires EpochOf(e) < EpochOf(e') || (EpochOf(e) == EpochOf(e') && KeyCmp(Key(v), Key(v')) < 0)
    ensures Order(Full(e, v, r), Full(e', v', r')) < 0
  {
    FullRead(e, v, r);
    FullRead(e', v', r');
  }

  /** Of one upstream version the greater revision wins; none is an empty one. */
  lemma ThenRevision(e: Option<string>, v: string, r: Option<string>, r': Option<string>)
    requires IsFull(e, v, r) && IsFull(e, v, r')
    requires KeyCmp(if r.Some? then Key(r.value) else [], if r'.Some? then Key(r'.value) else []) < 0
    ensures Order(Full(e, v, r), Full(e, v, r')) < 0
  {
    FullRead(e, v, r);
    FullRead(e, v, r');
    KeyCmpZero(Key(v), Key(v));
  }

  lemma UndividedMore(v: string, x: string)
    requires Undivided(v) && Undivided(x)
    ensures Undivided(v + ("~" + x))
  {
  }

  /** A pre-release of an upstream version comes before it. */
  lemma PreReleaseFirst(e: Option<string>, v: string, x: string, r: Option<string>)
    requires IsFull(e, v, r) && Undivided(x)
    ensures Order(Full(e, v + ("~" + x), r), Full(e, v, r)) < 0
  {
    var before := v + ("~" + x);
    UndividedMore(v, x);
    TildeBeforeEnd(v, x, '.', "");
    EpochThenUpstream(e, before, r, e, v, r);
  }

  /** So does a revision made for an older release, as "-2~deb12u1" before "-2". */
  lemma BackportFirst(e: Option<string>, v: string, r: string, x: string)
    requires IsFull(e, v, Some(r)) && Undivided(x)
    ensures Order(Full(e, v, Some(r + ("~" + x))), Full(e, v, Some(r))) < 0
  {
    var before := r + ("~" + x);
    UndividedMore(r, x);
    TildeBeforeEnd(r, x, '.', "");
    ThenRevision(e, v, Some(before), Some(r));
  }
}
