/** RPM version ordering (backend/app/scanner/rpm_version.py).

    `Rpmvercmp` is the source's two-index loop. It is proved equal to a
    lexicographic comparison of canonical token streams, from which the laws of
    a total preorder follow for the whole `[epoch:]version[-release]` order. */
module RpmVersion {
  import opened Orders
  import opened Text

  /** What a version string means: runs of digits are numbers, everything that is
      neither a run nor one of the two marks only separates. `End` follows the
      last token and is never itself in a stream. */
  datatype Token = Tilde | End | Caret | Letters(run: string) | Number(value: nat)

  function Rank(t: Token): nat {
    match t
    case Tilde => 0
    case End => 1
    case Caret => 2
    case Letters(_) => 3
    case Number(_) => 4
  }

  function TokenCmp(x: Token, y: Token): int {
    match (x, y)
    case (Letters(r), Letters(s)) => StrCmp(r, s)
    case (Number(m), Number(n)) => IntCmp(m, n)
    case _ => IntCmp(Rank(x), Rank(y))
  }

  /** Whether `c` belongs to a run of the given kind. */
  predicate InRun(c: char, numeric: bool) {
    if numeric then IsDigit(c) else IsAlpha(c)
  }

  predicate IsSeparator(c: char) {
    !IsDigit(c) && !IsAlpha(c) && c != '~' && c != '^'
  }

  /** Where the run of the given kind starting at `i` stops. */
  function RunEnd(s: string, i: nat, numeric: bool): (e: nat)
    requires i <= |s|
    ensures i <= e <= |s|
    ensures forall k :: i <= k < e ==> InRun(s[k], numeric)
    ensures e < |s| ==> !InRun(s[e], numeric)
    decreases |s| - i
  {
    if i < |s| && InRun(s[i], numeric) then RunEnd(s, i + 1, numeric) else i
  }

  /** The tokens of `s` from index `i` on. */
  function Tokens(s: string, i: nat := 0): (ts: seq<Token>)
    requires i <= |s|
    ensures End !in ts
    decreases |s| - i
  {
    if i == |s| then []
    else if s[i] == '~' then [Tilde] + Tokens(s, i + 1)
    else if s[i] == '^' then [Caret] + Tokens(s, i + 1)
    else if IsDigit(s[i]) then
      var e := RunEnd(s, i, true);
      [Number(Value(s[i..e]))] + Tokens(s, e)
    else if IsAlpha(s[i]) then
      var e := RunEnd(s, i, false);
      [Letters(s[i..e])] + Tokens(s, e)
    else Tokens(s, i + 1)
  }

  function StreamCmp(x: seq<Token>, y: seq<Token>): int {
    Lex(TokenCmp, End, x, y)
  }

  /** `[epoch:]version[-release]` as the three parts it is compared by. */
  datatype Evr = Evr(epoch: nat, version: string, release: string)

  function Split(version: string): Evr {
    var stripped := Strip(version);
    var colon := IndexOf(stripped, ':');
    var numbered := colon < |stripped| && IsNumber(stripped[..colon]);
    var epoch := if numbered then Value(stripped[..colon]) else 0;
    var rest := if numbered then stripped[colon + 1..] else stripped;
    Parts(epoch, rest)
  }

  function Parts(epoch: nat, rest: string): Evr {
    var after := AfterLast(rest, '-', |rest|);
    if after == 0 then Evr(epoch, rest, "")
    else Evr(epoch, rest[..after - 1], rest[after..])
  }

  /** Epochs first, then the two token streams. */
  function Order(a: string, b: string): int {
    ReadCmp(ReadOf(a), ReadOf(b))
  }

  /** A version as it is compared: its epoch and two token streams. */
  datatype Reading = Reading(epoch: nat, version: seq<Token>, release: seq<Token>)

  function ReadOf(version: string): Reading {
    var x := Split(version);
    Reading(x.epoch, Tokens(x.version), Tokens(x.release))
  }

  function ReadCmp(x: Reading, y: Reading): int {
    if x.epoch != y.epoch then IntCmp(x.epoch, y.epoch)
    else
      var c := StreamCmp(x.version, y.version);
      if c != 0 then c else StreamCmp(x.release, y.release)
  }

  // How a written version is read.

  /** Surrounding whitespace is not part of a version. */
  lemma SplitIgnoresSpace(version: string)
    ensures Split(version) == Split(Strip(version))
  {
    StripTwice(version);
  }

  /** A last dash sets off the release; without one there is none. */
  lemma SplitWithoutEpoch(version: string, release: Option<string>)
    requires Strip(Dashed(version, release)) == Dashed(version, release)
    requires ':' in Dashed(version, release) ==>
               !IsNumber(Dashed(version, release)[..IndexOf(Dashed(version, release), ':')])
    requires if release.Some? then '-' !in release.value else '-' !in version
    ensures Split(Dashed(version, release)) == Evr(0, version, if release.Some? then release.value else "")
  {
    PartsWritten(0, version, release);
  }

  /** A number before the first colon is the epoch, whatever colons follow. */
  lemma SplitWithEpoch(epoch: string, version: string, release: Option<string>)
    requires IsNumber(epoch) && if release.Some? then '-' !in release.value else '-' !in version
    requires var rest := Dashed(version, release); rest != "" ==> !IsSpace(rest[|rest| - 1])
    ensures Split(epoch + ":" + Dashed(version, release)) ==
            Evr(Value(epoch), version, if release.Some? then release.value else "")
  {
    FirstColon(epoch, Dashed(version, release));
    PartsWritten(Value(epoch), version, release);
  }

  lemma PartsWritten(epoch: nat, version: string, release: Option<string>)
    requires if release.Some? then '-' !in release.value else '-' !in version
    ensures Parts(epoch, Dashed(version, release)) == Evr(epoch, version, if release.Some? then release.value else "")
  {
    if release.Some? {
      AfterLastDash(version, release.value);
    }
  }

  // The loops.

  method SkipSeparators(s: string, start: nat) returns (i: nat)
    requires start <= |s|
    ensures start <= i <= |s|
    ensures i < |s| ==> !IsSeparator(s[i])
    ensures Tokens(s, i) == Tokens(s, start)
  {
    i := start;
    while i < |s| && IsSeparator(s[i])
      invariant start <= i <= |s|
      invariant Tokens(s, i) == Tokens(s, start)
    {
      i := i + 1;
    }
  }

  method ScanRun(s: string, start: nat, numeric: bool) returns (i: nat)
    requires start <= |s|
    ensures i == RunEnd(s, start, numeric)
  {
    i := start;
    while i < |s| && InRun(s[i], numeric)
      invariant start <= i <= |s|
      invariant RunEnd(s, i, numeric) == RunEnd(s, start, numeric)
    {
      i := i + 1;
    }
  }

  /** The comparison of two runs of one kind: numbers by length then text. */
  method CompareRuns(runA: string, runB: string, numeric: bool) returns (c: int)
    requires numeric ==> AllDigits(runA) && AllDigits(runB)
    ensures c == if numeric then IntCmp(Value(runA), Value(runB)) else StrCmp(runA, runB)
  {
    var x, y := runA, runB;
    if numeric {
      x, y := StripZeros(runA), StripZeros(runB);
      StripZerosValue(runA);
      StripZerosValue(runB);
      if |x| > |y| {
        LongerIsLarger(x, y);
        return 1;
      } else if |x| < |y| {
        LongerIsLarger(y, x);
        return -1;
      }
      EqualLengthByText(x, y);
    }
    c := StrCmp(x, y);
  }

  /** Two runs of the first one's kind; a run that is empty on the other side decides. */
  method CompareNextRuns(a: string, i0: nat, b: string, j0: nat) returns (c: int, i: nat, j: nat)
    requires i0 < |a| && j0 < |b| && (IsDigit(a[i0]) || IsAlpha(a[i0])) && (IsDigit(b[j0]) || IsAlpha(b[j0]))
    ensures c != 0 ==> c == StreamCmp(Tokens(a, i0), Tokens(b, j0))
    ensures c == 0 ==> i0 < i <= |a| && j0 < j <= |b|
    ensures c == 0 ==> StreamCmp(Tokens(a, i), Tokens(b, j)) == StreamCmp(Tokens(a, i0), Tokens(b, j0))
  {
    var numeric := IsDigit(a[i0]);
    i := ScanRun(a, i0, numeric);
    j := ScanRun(b, j0, numeric);
    if j == j0 {
      return if numeric then 1 else -1, i, j;
    }
    c := CompareRuns(a[i0..i], b[j0..j], numeric);
  }

  method Rpmvercmp(a: string, b: string) returns (r: int)
    ensures r == StreamCmp(Tokens(a), Tokens(b))
  {
    if a == b {
      StreamCmpReflexive(Tokens(a));
      return 0;
    }
    var i: nat, j: nat := 0, 0;
    while i < |a| || j < |b|
      invariant i <= |a| && j <= |b|
      invariant StreamCmp(Tokens(a, i), Tokens(b, j)) == StreamCmp(Tokens(a), Tokens(b))
      decreases |a| - i + |b| - j
    {
      var i0, j0 := i, j;
      i := SkipSeparators(a, i);
      j := SkipSeparators(b, j);

      var oneTilde, twoTilde := i < |a| && a[i] == '~', j < |b| && b[j] == '~';
      if oneTilde || twoTilde {
        if !oneTilde {
          return 1;
        }
        if !twoTilde {
          return -1;
        }
        i, j := i + 1, j + 1;
        continue;
      }

      var oneCaret, twoCaret := i < |a| && a[i] == '^', j < |b| && b[j] == '^';
      if oneCaret || twoCaret {
        if i >= |a| {
          return -1;
        }
        if j >= |b| {
          return 1;
        }
        if !oneCaret {
          return 1;
        }
        if !twoCaret {
          return -1;
        }
        i, j := i + 1, j + 1;
        continue;
      }

      if i >= |a| || j >= |b| {
        break;
      }

      var c;
      c, i, j := CompareNextRuns(a, i, b, j);
      if c != 0 {
        return c;
      }
    }
    if i >= |a| && j >= |b| {
      return 0;
    }
    return if i < |a| then 1 else -1;
  }

  method CompareVersions(a: string, b: string) returns (r: int)
    ensures r == Order(a, b)
  {
    var x, y := Split(a), Split(b);
    if x.epoch != y.epoch {
      return if x.epoch < y.epoch then -1 else 1;
    }
    r := Rpmvercmp(x.version, y.version);
    if r == 0 {
      r := Rpmvercmp(x.release, y.release);
    }
  }

  // The laws.

  lemma TokenCmpTransitive(x: Token, y: Token, z: Token)
    requires TokenCmp(x, y) <= 0 && TokenCmp(y, z) <= 0
    ensures TokenCmp(x, z) <= 0
  {
    if x.Letters? && y.Letters? && z.Letters? {
      StrCmpTotal();
    }
  }

  lemma TokenCmpTotal()
    ensures TotalOrder(TokenCmp)
  {
    forall x, y ensures Sign(TokenCmp(x, y)) == -Sign(TokenCmp(y, x)) {
      if x.Letters? && y.Letters? {
        StrCmpTotal();
      }
    }
    forall x, y ensures TokenCmp(x, y) == 0 <==> x == y {
      if x.Letters? && y.Letters? {
        StrCmpZero(x.run, y.run);
      }
    }
    forall x, y, z | TokenCmp(x, y) <= 0 && TokenCmp(y, z) <= 0 ensures TokenCmp(x, z) <= 0 {
      TokenCmpTransitive(x, y, z);
    }
  }

  lemma StreamCmpReflexive(x: seq<Token>)
    ensures StreamCmp(x, x) == 0
  {
    TokenCmpTotal();
    LexZero(TokenCmp, End, x, x);
  }

  /** Two streams compare equal only when they are the same stream. */
  lemma StreamCmpZero(x: seq<Token>, y: seq<Token>)
    requires End !in x && End !in y
    ensures StreamCmp(x, y) == 0 <==> x == y
  {
    TokenCmpTotal();
    LexZero(TokenCmp, End, x, y);
    if StreamCmp(x, y) == 0 {
      assert At(x, End, |x|) == At(y, End, |x|);
      assert At(x, End, |y|) == At(y, End, |y|);
      forall k | 0 <= k < |x| && k < |y| ensures x[k] == y[k] {
        assert At(x, End, k) == At(y, End, k);
      }
      assert x == y;
    }
  }

  /** Reflexive, sign-antisymmetric, and zero exactly on equal token streams. */
  predicate IsStream(ts: seq<Token>) {
    End !in ts
  }

  lemma ReadZeroAndSign(x: Reading, y: Reading)
    requires IsStream(x.version) && IsStream(x.release) && IsStream(y.version) && IsStream(y.release)
    ensures ReadCmp(x, y) == -ReadCmp(y, x)
    ensures ReadCmp(x, y) == 0 <==> x == y
  {
    TokenCmpTotal();
    LexAntisymmetric(TokenCmp, End, x.version, y.version);
    LexAntisymmetric(TokenCmp, End, x.release, y.release);
    StreamCmpZero(x.version, y.version);
    StreamCmpZero(x.release, y.release);
  }

  lemma OrderZeroAndSign(a: string, b: string)
    ensures Order(a, b) == -Order(b, a)
    ensures Order(a, b) == 0 <==> ReadOf(a) == ReadOf(b)
  {
    ReadZeroAndSign(ReadOf(a), ReadOf(b));
  }

  lemma ReadTransitive(x: Reading, y: Reading, z: Reading)
    requires IsStream(x.version) && IsStream(y.version) && IsStream(z.version)
    requires ReadCmp(x, y) <= 0 && ReadCmp(y, z) <= 0
    ensures ReadCmp(x, z) <= 0
  {
    TokenCmpTotal();
    if x.epoch == y.epoch == z.epoch {
      LexTransitive(TokenCmp, End, x.version, y.version, z.version);
      StreamCmpZero(x.version, y.version);
      StreamCmpZero(y.version, z.version);
      StreamCmpZero(x.version, z.version);
      if x.version == y.version == z.version {
        LexTransitive(TokenCmp, End, x.release, y.release, z.release);
      } else {
        LexAntisymmetric(TokenCmp, End, x.version, y.version);
      }
    }
  }

  lemma OrderTransitive(a: string, b: string, c: string)
    requires Order(a, b) <= 0 && Order(b, c) <= 0
    ensures Order(a, c) <= 0
  {
    ReadTransitive(ReadOf(a), ReadOf(b), ReadOf(c));
  }

  /** What a missing release compares as. The source's own summary says it sorts
      before any release; that holds exactly when the release has a token and
      its first one is not `~`. */
  lemma MissingRelease(epoch: nat, version: string, release: string, a: string, b: string)
    requires Split(a) == Evr(epoch, version, "") && Split(b) == Evr(epoch, version, release)
    ensures Order(a, b) == match At(Tokens(release), End, 0)
                           case Tilde => 1
                           case End => 0
                           case _ => -1
  {
    StreamCmpReflexive(Tokens(version));
    StreamCmpReflexive([]);
    var ts := Tokens(release);
    if ts != [] {
      assert ts[0] != End;
    }
  }

  /** A release that sorts before having none. */
  lemma TildeReleaseSortsFirst()
    ensures Order("1-~1", "1") < 0
  {
    var a, b := "1-~1", "1";
    assert Strip(a) == a;
    assert IndexOf(a, ':') == 4;
    assert AfterLast(a, '-', 4) == 2;
    assert Split(a) == Evr(0, "1", "~1");
    assert AfterLast(b, '-', 1) == 0;
    assert Split(b) == Evr(0, "1", "");
    assert Tokens("~1")[0] == Tilde;
    MissingRelease(0, "1", "~1", b, a);
    OrderZeroAndSign(a, b);
  }

  // What text has which tokens.

  /** Whether a part of a version spells a token: a number may have leading zeros. */
  predicate Spells(part: string, t: Token) {
    match t
    case Tilde => part == "~"
    case Caret => part == "^"
    case Letters(run) => part == run && run != "" && forall k :: 0 <= k < |run| ==> IsAlpha(run[k])
    case Number(n) => IsNumber(part) && Value(part) == n
    case End => false
  }

  /** Parts of a version, each with the separators written before it. */
  datatype Part = Part(before: string, text: string)

  function Laid(parts: seq<Part>, tail: string): string {
    if parts == [] then tail else parts[0].before + (parts[0].text + Laid(parts[1..], tail))
  }

  predicate Separators(s: string) {
    forall k :: 0 <= k < |s| ==> IsSeparator(s[k])
  }

  predicate Opens(text: string, numeric: bool) {
    text != "" && InRun(text[0], numeric)
  }

  /** The parts spell the tokens, and what follows a run is never more of the same kind. */
  predicate Writes(parts: seq<Part>, tail: string, ts: seq<Token>) {
    if parts == [] || ts == [] then parts == [] && ts == [] && Separators(tail)
    else
      var rest := Laid(parts[1..], tail);
      && Separators(parts[0].before) && Spells(parts[0].text, ts[0])
      && (ts[0].Number? ==> !Opens(rest, true)) && (ts[0].Letters? ==> !Opens(rest, false))
      && Writes(parts[1..], tail, ts[1..])
  }

  /** Reading a version from an index is reading what stands there. */
  lemma {:induction false} RunEndFrom(a: string, b: string, i: nat, numeric: bool)
    requires i <= |b|
    ensures RunEnd(a + b, |a| + i, numeric) == |a| + RunEnd(b, i, numeric)
    decreases |b| - i
  {
    if i < |b| {
      RunEndFrom(a, b, i + 1, numeric);
    }
  }

  /** What reading takes in at an index: a token or a separator, and where it ends. */
  function Next(s: string, i: nat): (r: (seq<Token>, nat))
    requires i < |s|
    ensures i < r.1 <= |s|
  {
    if s[i] == '~' then ([Tilde], i + 1)
    else if s[i] == '^' then ([Caret], i + 1)
    else if IsDigit(s[i]) then ([Number(Value(s[i..RunEnd(s, i, true)]))], RunEnd(s, i, true))
    else if IsAlpha(s[i]) then ([Letters(s[i..RunEnd(s, i, false)])], RunEnd(s, i, false))
    else ([], i + 1)
  }

  lemma TokensNext(s: string, i: nat)
    requires i < |s|
    ensures Tokens(s, i) == Next(s, i).0 + Tokens(s, Next(s, i).1)
  {
  }

  lemma NextFrom(a: string, b: string, i: nat)
    requires i < |b|
    ensures Next(a + b, |a| + i) == (Next(b, i).0, |a| + Next(b, i).1)
  {
    var s, numeric := a + b, IsDigit(b[i]);
    RunEndFrom(a, b, i, numeric);
    assert s[|a| + i] == b[i] && s[|a| + i..|a| + RunEnd(b, i, numeric)] == b[i..RunEnd(b, i, numeric)];
  }

  lemma TokensAlike(s: string, i: nat, t: string, j: nat)
    requires i < |s| && j < |t| && Next(s, i).0 == Next(t, j).0
    requires Tokens(s, Next(s, i).1) == Tokens(t, Next(t, j).1)
    ensures Tokens(s, i) == Tokens(t, j)
  {
    TokensNext(s, i);
    TokensNext(t, j);
  }

  lemma {:induction false} TokensFrom(a: string, b: string, i: nat)
    requires i <= |b|
    ensures Tokens(a + b, |a| + i) == Tokens(b, i)
    decreases |b| - i
  {
    if i < |b| {
      var s, n := a + b, Next(b, i).1;
      NextFrom(a, b, i);
      TokensFrom(a, b, n);
      TokensAlike(s, |a| + i, b, i);
    }
  }

  lemma {:induction false} SeparatorsSkipped(before: string, rest: string)
    requires Separators(before)
    ensures Tokens(before + rest) == Tokens(rest)
  {
    if before == "" {
      assert before + rest == rest;
    } else {
      var s, tail := before + rest, before[1..] + rest;
      assert s == before[..1] + tail;
      TokensFrom(before[..1], tail, 0);
      SeparatorsSkipped(before[1..], rest);
      assert IsSeparator(s[0]);
    }
  }

  lemma {:induction false} RunEndWhole(run: string, rest: string, i: nat, numeric: bool)
    requires i <= |run| && !Opens(rest, numeric) && forall k :: 0 <= k < |run| ==> InRun(run[k], numeric)
    ensures RunEnd(run + rest, i, numeric) == |run|
    decreases |run| - i
  {
    if i < |run| {
      RunEndWhole(run, rest, i + 1, numeric);
    }
  }

  lemma PartRead(part: string, rest: string, t: Token)
    requires Spells(part, t)
    requires t.Number? ==> !Opens(rest, true)
    requires t.Letters? ==> !Opens(rest, false)
    ensures Tokens(part + rest) == [t] + Tokens(rest)
  {
    var s := part + rest;
    TokensFrom(part, rest, 0);
    assert s[0] == part[0] && s[0..|part|] == part;
    if t.Number? || t.Letters? {
      RunEndWhole(part, rest, 0, t.Number?);
    }
  }

  /** A version written part by part has exactly the tokens its parts spell, whatever
      separates them. */
  lemma {:induction false} WrittenReads(parts: seq<Part>, tail: string, ts: seq<Token>)
    requires Writes(parts, tail, ts)
    ensures Tokens(Laid(parts, tail)) == ts
  {
    if parts == [] {
      SeparatorsSkipped(tail, "");
      assert tail + "" == tail;
    } else {
      var rest := Laid(parts[1..], tail);
      WrittenReads(parts[1..], tail, ts[1..]);
      PartRead(parts[0].text, rest, ts[0]);
      SeparatorsSkipped(parts[0].before, parts[0].text + rest);
      assert ts == [ts[0]] + ts[1..];
    }
  }

  predicate IsToken(t: Token) {
    match t
    case End => false
    case Letters(run) => run != "" && forall k :: 0 <= k < |run| ==> IsAlpha(run[k])
    case _ => true
  }

  function PartFor(t: Token): (part: string)
    requires IsToken(t)
    ensures Spells(part, t)
  {
    match t
    case Tilde => "~"
    case Caret => "^"
    case Letters(run) => run
    case Number(n) => Decimal(n)
  }

  /** Every stream can be written. */
  lemma {:induction false} EveryStreamWritten(ts: seq<Token>) returns (parts: seq<Part>)
    requires forall t :: t in ts ==> IsToken(t)
    ensures Writes(parts, "", ts)
    ensures ts != [] ==> Laid(parts, "")[0] == '.'
  {
    if ts == [] {
      parts := [];
    } else {
      var rest := EveryStreamWritten(ts[1..]);
      parts := [Part(".", PartFor(ts[0]))] + rest;
      assert parts[1..] == rest;
    }
  }

  // How versions sort, as text.

  predicate IsAlnum(c: char) {
    IsDigit(c) || IsAlpha(c)
  }

  /** A text that does not go on with the run before it. */
  predicate Starts(b: string) {
    b == "" || !IsAlnum(b[0])
  }

  lemma {:induction false} RunEndKeeps(a: string, b: string, i: nat, numeric: bool)
    requires i <= |a| && Starts(b)
    ensures RunEnd(a + b, i, numeric) == RunEnd(a, i, numeric)
    decreases |a| - i
  {
    if i < |a| {
      RunEndKeeps(a, b, i + 1, numeric);
    }
  }

  lemma NextKeeps(a: string, b: string, i: nat)
    requires i < |a| && Starts(b)
    ensures Next(a + b, i) == Next(a, i)
  {
    var s, numeric := a + b, IsDigit(a[i]);
    RunEndKeeps(a, b, i, numeric);
    assert s[i] == a[i] && s[i..RunEnd(a, i, numeric)] == a[i..RunEnd(a, i, numeric)];
  }

  lemma {:induction false} TokensJoined(a: string, b: string, i: nat := 0)
    requires i <= |a| && Starts(b)
    ensures Tokens(a + b, i) == Tokens(a, i) + Tokens(b)
    decreases |a| - i
  {
    if i == |a| {
      TokensFrom(a, b, 0);
    } else {
      NextKeeps(a, b, i);
      TokensNext(a, i);
      TokensNext(a + b, i);
      TokensJoined(a, b, Next(a, i).1);
    }
  }

  /** What two versions share at the front does not matter, when neither goes on with the
      run it ends in. */
  lemma SharedFront(v: string, a: string, b: string)
    requires Starts(a) && Starts(b)
    ensures StreamCmp(Tokens(v + a), Tokens(v + b)) == StreamCmp(Tokens(a), Tokens(b))
  {
    TokensJoined(v, a);
    TokensJoined(v, b);
    TokenCmpTotal();
    LexPrefix(TokenCmp, End, Tokens(v), Tokens(a), Tokens(b));
  }

  lemma FirstToken(part: string, rest: string, t: Token)
    requires Spells(part, t) && (t.Number? ==> !Opens(rest, true)) && (t.Letters? ==> !Opens(rest, false))
    ensures Tokens(part + rest) != [] && Tokens(part + rest)[0] == t
    ensures Tokens("." + (part + rest)) == Tokens(part + rest)
  {
    PartRead(part, rest, t);
    SeparatorsSkipped(".", part + rest);
  }

  /** `~` sorts before the end, whatever follows it, and `^` after it. */
  lemma TildeBeforeEnd(v: string, x: string)
    ensures StreamCmp(Tokens(v + ("~" + x)), Tokens(v)) < 0
    ensures StreamCmp(Tokens(v), Tokens(v + ("^" + x))) < 0
  {
    FirstToken("~", x, Tilde);
    FirstToken("^", x, Caret);
    assert v + "" == v && Tokens("") == [];
    SharedFront(v, "~" + x, "");
    SharedFront(v, "", "^" + x);
  }

  /** `^` sorts before any further run. */
  lemma CaretBeforeMore(v: string, x: string, part: string, rest: string, t: Token)
    requires Spells(part, t) && (t.Number? || t.Letters?)
    requires (t.Number? ==> !Opens(rest, true)) && (t.Letters? ==> !Opens(rest, false))
    ensures StreamCmp(Tokens(v + ("^" + x)), Tokens(v + ("." + (part + rest)))) < 0
  {
    FirstToken("^", x, Caret);
    FirstToken(part, rest, t);
    SharedFront(v, "^" + x, "." + (part + rest));
  }

  /** Runs in one place: letters before numbers, numbers by their value whatever zeros
      lead them, letters by code point. */
  lemma RunsDecide(v: string, p: string, x: string, s: Token, q: string, y: string, t: Token)
    requires Spells(p, s) && (s.Number? ==> !Opens(x, true)) && (s.Letters? ==> !Opens(x, false))
    requires Spells(q, t) && (t.Number? ==> !Opens(y, true)) && (t.Letters? ==> !Opens(y, false))
    requires || (s.Letters? && t.Number?)
             || (s.Number? && t.Number? && s.value < t.value)
             || (s.Letters? && t.Letters? && StrCmp(p, q) < 0)
    ensures StreamCmp(Tokens(v + ("." + (p + x))), Tokens(v + ("." + (q + y)))) < 0
  {
    FirstToken(p, x, s);
    FirstToken(q, y, t);
    SharedFront(v, "." + (p + x), "." + (q + y));
  }

  /** Text without the marks that divide a version, or space to strip. */
  predicate Undivided(s: string) {
    forall k :: 0 <= k < |s| ==> s[k] != '-' && s[k] != ':' && !IsSpace(s[k])
  }

  /** `[epoch:]version[-release]`. */
  function Full(epoch: Option<string>, version: string, release: Option<string>): string {
    match epoch
    case None => Dashed(version, release)
    case Some(e) => e + ":" + Dashed(version, release)
  }

  predicate IsFull(epoch: Option<string>, version: string, release: Option<string>) {
    && (epoch.Some? ==> IsNumber(epoch.value))
    && Undivided(version) && (release.Some? ==> Undivided(release.value))
  }

  function EpochOf(epoch: Option<string>): nat
    requires epoch.Some? ==> IsNumber(epoch.value)
  {
    if epoch.Some? then Value(epoch.value) else 0
  }

  lemma FullRead(epoch: Option<string>, version: string, release: Option<string>)
    requires IsFull(epoch, version, release)
    ensures ReadOf(Full(epoch, version, release)) ==
            Reading(EpochOf(epoch), Tokens(version), if release.Some? then Tokens(release.value) else [])
  {
    var rest := Dashed(version, release);
    assert rest != "" ==> !IsSpace(rest[0]) && !IsSpace(rest[|rest| - 1]);
    assert Tokens("") == [];
    if epoch.Some? {
      SplitWithEpoch(epoch.value, version, release);
    } else {
      StripNothing(rest);
      assert ':' !in rest;
      SplitWithoutEpoch(version, release);
    }
  }

  /** The greater epoch wins, whatever the versions; then the greater version, whatever
      the releases. */
  lemma EpochThenVersion(e: Option<string>, v: string, r: Option<string>,
                         e': Option<string>, v': string, r': Option<string>)
    requires IsFull(e, v, r) && IsFull(e', v', r')
    requires EpochOf(e) < EpochOf(e') || (EpochOf(e) == EpochOf(e') && StreamCmp(Tokens(v), Tokens(v')) < 0)
    ensures Order(Full(e, v, r), Full(e', v', r')) < 0
  {
    FullRead(e, v, r);
    FullRead(e', v', r');
  }

  /** Of one version the greater release wins. */
  lemma ThenRelease(e: Option<string>, v: string, r: string, r': string)
    requires IsFull(e, v, Some(r)) && IsFull(e, v, Some(r')) && StreamCmp(Tokens(r), Tokens(r')) < 0
    ensures Order(Full(e, v, Some(r)), Full(e, v, Some(r'))) < 0
  {
    FullRead(e, v, Some(r));
    FullRead(e, v, Some(r'));
    StreamCmpReflexive(Tokens(v));
  }

  lemma UndividedMore(v: string, mark: char, x: string)
    requires Undivided(v) && Undivided(x) && mark in {'~', '^'}
    ensures Undivided(v + ([mark] + x))
  {
  }

  /** A pre-release of a version comes before it, a snapshot taken after it comes after. */
  lemma PreReleaseFirst(e: Option<string>, v: string, x: string, r: Option<string>)
    requires IsFull(e, v, r) && Undivided(x)
    ensures Order(Full(e, v + ("~" + x), r), Full(e, v, r)) < 0
    ensures Order(Full(e, v, r), Full(e, v + ("^" + x), r)) < 0
  {
    var before, after := v + ("~" + x), v + ("^" + x);
    UndividedMore(v, '~', x);
    UndividedMore(v, '^', x);
    TildeBeforeEnd(v, x);
    SameEpoch(e, before, v, r);
    SameEpoch(e, v, after, r);
  }

  lemma SameEpoch(e: Option<string>, v: string, w: string, r: Option<string>)
    requires IsFull(e, v, r) && IsFull(e, w, r) && StreamCmp(Tokens(v), Tokens(w)) < 0
    ensures Order(Full(e, v, r), Full(e, w, r)) < 0
  {
    EpochThenVersion(e, v, r, e, w, r);
  }

  /** So do those of a release. */
  lemma PreReleaseOfRelease(e: Option<string>, v: string, r: string, x: string)
    requires IsFull(e, v, Some(r)) && Undivided(x)
    ensures Order(Full(e, v, Some(r + ("~" + x))), Full(e, v, Some(r))) < 0
    ensures Order(Full(e, v, Some(r)), Full(e, v, Some(r + ("^" + x)))) < 0
  {
    var before, after := r + ("~" + x), r + ("^" + x);
    UndividedMore(r, '~', x);
    UndividedMore(r, '^', x);
    TildeBeforeEnd(r, x);
    ThenRelease(e, v, before, r);
    ThenRelease(e, v, r, after);
  }
}
