/** Package identifiers and the fix notes written after them
    (backend/app/package_identifier.py).

    `Identifier` writes an ecosystem, a name and a version, and `Spell` the note after
    them. Reading goes from the right, since only the name is free of colons; notes are
    read by three patterns tried in a fixed order. */
module PackageIdentifier {
  import opened Text

  // Names and versions.

  /** The identifier without its note. */
  function WithoutNote(token: string): string {
    match Find(token, " (")
    case Some(k) => token[..k]
    case None => token
  }

  predicate IsBlank(identifier: Option<string>) {
    identifier.None? || Strip(identifier.value) == ""
  }

  function NonEmpty(s: string): Option<string> {
    if s == "" then None else Some(s)
  }

  /** What lies between the last colon and the last "@", unless that "@" directly follows
      a colon. */
  function NameIn(token: string): Option<string> {
    var at := AfterLast(token, '@', |token|);
    var base := if at > 1 && token[at - 2] != ':' then token[..at - 1] else token;
    NonEmpty(Strip(base[AfterLast(base, ':', |base|)..]))
  }

  function VersionIn(token: string): Option<string> {
    var at := AfterLast(token, '@', |token|);
    if at <= 1 || token[at - 2] == ':' then None else NonEmpty(Strip(token[at..]))
  }

  function ParsePackageName(identifier: Option<string>): Option<string> {
    if IsBlank(identifier) then None else NameIn(WithoutNote(Strip(identifier.value)))
  }

  function ParsePackageVersion(identifier: Option<string>): Option<string> {
    if IsBlank(identifier) then None else VersionIn(WithoutNote(Strip(identifier.value)))
  }

  // The kernel, whose installed versions are packages of their own.

  const KERNEL_BINARIES: set<string> := {
    "kernel", "kernel-default", "linux-lts", "linux-virt", "linux",
    "kernel-uek", "linux-zen", "linux-hardened"
  }

  const KERNEL_PREFIXES: seq<string> := [
    "linux-image-", "linux-headers-", "linux-modules-", "linux-kbuild-",
    "kernel-core", "kernel-modules", "kernel-uek-core", "kernel-uek-modules"
  ]

  predicate IsModuleSuffix(s: string) {
    StartsWith(s, "-modules") &&
    forall k :: 8 <= k < |s| ==> IsAlpha(s[k]) || IsDigit(s[k]) || s[k] in {'_', '.', '-'}
  }

  /** `kernel6.12` and its modules: a kernel series under a name of its own. */
  predicate IsVersionedKernel(s: string) {
    StartsWith(s, "kernel") &&
    var major := DigitsEnd(s, 6);
    6 < major < |s| && s[major] == '.' &&
    var minor := DigitsEnd(s, major + 1);
    major + 1 < minor && (minor == |s| || IsModuleSuffix(s[minor..]))
  }

  predicate IsKernelPackage(name: string) {
    var lowered := Lower(name);
    || lowered in KERNEL_BINARIES
    || (exists k :: 0 <= k < |KERNEL_PREFIXES| && StartsWith(lowered, KERNEL_PREFIXES[k]))
    || IsVersionedKernel(lowered)
  }

  /** The part of an identifier that tells findings apart; kernels add their version. */
  function FindingPackage(identifier: Option<string>): Option<string> {
    var name := ParsePackageName(identifier);
    if name.None? || !IsKernelPackage(name.value) then name
    else
      match ParsePackageVersion(identifier)
      case None => name
      case Some(version) => Some(name.value + "@" + version)
  }

  // Fix notes.

  /** The answers of `ParseFix`; `NotStated` is for a blank identifier. */
  datatype Fix =
    | Available(version: string)
    | NewerRelease(release: string, version: string)
    | Upstream(release: string, version: string)
    | NoFix
    | NotStated

  const FIXED_IN := "(fixed in "
  const NO_FIX_IN := "(no fix in "
  const ELSEWHERE := "; fixed only in "
  const UPSTREAM := "(not confirmed" + (" for this release" + "; upstream fix in ")

  predicate NoSpace(s: string) {
    forall k :: 0 <= k < |s| ==> !IsSpace(s[k])
  }

  /** One past the last whitespace of `s[..n]`, or, with `closing`, past the last
      whitespace or closing parenthesis: where a version run must start. */
  function RunStart(s: string, n: nat, closing: bool): (k: nat)
    requires n <= |s|
    ensures k <= n
    ensures forall j :: k <= j < n ==> !IsSpace(s[j]) && (closing ==> s[j] != ')')
    ensures 0 < k ==> IsSpace(s[k - 1]) || (closing && s[k - 1] == ')')
  {
    if n == 0 || IsSpace(s[n - 1]) || (closing && s[n - 1] == ')') then n
    else RunStart(s, n - 1, closing)
  }

  predicate EndsWithParen(text: string) {
    text != "" && text[|text| - 1] == ')'
  }

  /** The first pattern: `(fixed in V)` at the end, V free of spaces and `)`. */
  function MatchAvailable(text: string): Option<string> {
    if !EndsWithParen(text) then None
    else
      var n := |text| - 1;
      var k := RunStart(text, n, true);
      if 10 <= k < n && OccursAt(text, FIXED_IN, k - 10) then Some(text[k..n]) else None
  }

  /** Where the other two patterns' version starts: after the last space, which
      a colon must precede. 0 when there is none. */
  function LabelledVersion(text: string): (k: nat)
    ensures 0 < k ==> 2 <= k < |text| - 1 && text[k - 2] == ':' && text[k - 1] == ' '
  {
    if !EndsWithParen(text) then 0
    else
      var n := |text| - 1;
      var k := RunStart(text, n, false);
      if 2 <= k < n && text[k - 2] == ':' && text[k - 1] == ' ' then k else 0
  }

  /** The label of `<opening><host><mark><label>: <version>)` when the pattern
      matches at `p` with its version at `k`; the host is as short as it can be. */
  function MarkedAt(text: string, opening: string, mark: string, p: nat, k: nat): Option<string>
    requires 2 <= k <= |text|
  {
    var host := p + |opening|;
    if !OccursAt(text, opening, p) || |text| < host + 1 then None
    else
      match Find(text, mark, host + 1)
      case None => None
      case Some(m) =>
        if m + |mark| < k - 2 && OneLine(text[host..k - 2]) then Some(text[m + |mark|..k - 2]) else None
  }

  /** The leftmost match decides. */
  function MarkedFrom(text: string, opening: string, mark: string, p: nat, k: nat): Option<string>
    requires 2 <= k <= |text| && p <= |text|
    decreases |text| - p
  {
    var found := MarkedAt(text, opening, mark, p, k);
    if found.Some? || p == |text| then found else MarkedFrom(text, opening, mark, p + 1, k)
  }

  /** The label of `<opening><label>: <version>)` when the pattern matches at `p`. */
  function PlainAt(text: string, opening: string, p: nat, k: nat): Option<string>
    requires 2 <= k <= |text|
  {
    var start := p + |opening|;
    if OccursAt(text, opening, p) && start < k - 2 && OneLine(text[start..k - 2])
    then Some(text[start..k - 2]) else None
  }

  function PlainFrom(text: string, opening: string, p: nat, k: nat): Option<string>
    requires 2 <= k <= |text| && p <= |text|
    decreases |text| - p
  {
    var found := PlainAt(text, opening, p, k);
    if found.Some? || p == |text| then found else PlainFrom(text, opening, p + 1, k)
  }

  /** The second pattern, the third, or neither. */
  function ParseLabelled(text: string, k: nat): Fix
    requires 2 <= k < |text|
  {
    var version := text[k..|text| - 1];
    match MarkedFrom(text, NO_FIX_IN, ELSEWHERE, 0, k)
    case Some(release) => NewerRelease(release, version)
    case None =>
      match PlainFrom(text, UPSTREAM, 0, k)
      case Some(release) => Upstream(release, version)
      case None => NoFix
  }

  /** The three patterns, in the order they are tried. */
  function ParseText(text: string): Fix {
    match MatchAvailable(text)
    case Some(version) => Available(version)
    case None =>
      var k := LabelledVersion(text);
      if k == 0 then NoFix else ParseLabelled(text, k)
  }

  function ParseFix(identifier: Option<string>): Fix {
    if IsBlank(identifier) then NotStated else ParseText(Strip(identifier.value))
  }

  // What is written, and that it reads back.

  /** The note a finding carries, before it is spelled. */
  datatype Note =
    | Nothing
    | FixedIn(version: string)
    | FixedElsewhere(host: string, release: string, version: string)
    | FixedUpstream(release: string, version: string)

  function Spell(note: Note): string {
    match note
    case Nothing => ""
    case FixedIn(version) => " " + FIXED_IN + version + ")"
    case FixedElsewhere(host, release, version) =>
      " " + (NO_FIX_IN + host + ELSEWHERE + release + Stated(version))
    case FixedUpstream(release, version) => " " + (UPSTREAM + release + Stated(version))
  }

  /** How the two labelled notes end. */
  function Stated(version: string): string {
    ": " + version + ")"
  }

  /** The three notes, letter for letter. */
  lemma AvailableSpelled(version: string)
    ensures Spell(FixedIn(version)) == " (fixed in " + version + ")"
  {
    assert " " + FIXED_IN == " (fixed in ";
  }

  lemma ElsewhereSpelled(host: string, release: string, version: string)
    ensures Spell(FixedElsewhere(host, release, version)) ==
            " " + ("(no fix in " + host + "; fixed only in " + release + (": " + version + ")"))
  {
    assert NO_FIX_IN == "(no fix in " && ELSEWHERE == "; fixed only in " && Stated(version) == ": " + version + ")";
  }

  lemma UpstreamSpelled(release: string, version: string)
    ensures Spell(FixedUpstream(release, version)) ==
            " " + ("(not confirmed" + (" for this release" + "; upstream fix in ") + release + (": " + version + ")"))
  {
    assert UPSTREAM == "(not confirmed" + (" for this release" + "; upstream fix in ");
    assert Stated(version) == ": " + version + ")";
  }

  function Meaning(note: Note): Fix {
    match note
    case Nothing => NoFix
    case FixedIn(version) => Available(version)
    case FixedElsewhere(_, release, version) => NewerRelease(release, version)
    case FixedUpstream(release, version) => Upstream(release, version)
  }

  predicate Readable(note: Note) {
    match note
    case Nothing => true
    case FixedIn(version) => version != "" && NoSpace(version) && ')' !in version
    case FixedElsewhere(host, release, version) =>
      IsLabel(host) && IsLabel(release) && version != "" && NoSpace(version)
    case FixedUpstream(release, version) => IsLabel(release) && version != "" && NoSpace(version)
  }

  /** The first pattern says what it looks like it says. */
  lemma MatchAvailableMeaning(text: string, version: string)
    ensures MatchAvailable(text) == Some(version) <==>
              && version != "" && NoSpace(version) && ')' !in version
              && (exists before: string :: text == before + (FIXED_IN + version + ")"))
  {
    if MatchAvailable(text) == Some(version) {
      var before := AvailableBefore(text, version);
    }
    if version != "" && NoSpace(version) && ')' !in version {
      forall before: string | text == before + (FIXED_IN + version + ")")
        ensures MatchAvailable(text) == Some(version)
      {
        AvailableReadsBack(before, version);
      }
    }
  }

  lemma AvailableBefore(text: string, version: string) returns (before: string)
    requires MatchAvailable(text) == Some(version)
    ensures version != "" && NoSpace(version) && ')' !in version && text == before + (FIXED_IN + version + ")")
  {
    var n := |text| - 1;
    var k := RunStart(text, n, true);
    before := text[..k - 10];
    OccursSlice(text, FIXED_IN, k - 10);
    assert |FIXED_IN| == 10 && text[k - 10..k] == FIXED_IN && text[k..n] == version && text[n..] == ")";
    assert text == before + (text[k - 10..k] + text[k..n] + text[n..]);
  }

  lemma AvailableReadsBack(before: string, version: string)
    requires version != "" && NoSpace(version) && ')' !in version
    ensures MatchAvailable(before + (FIXED_IN + version + ")")) == Some(version)
  {
    var text, start := AvailableLayout(before, version);
    AvailableAt(text, start);
  }

  lemma AvailableAt(text: string, start: nat)
    requires EndsWithParen(text) && 10 <= start < |text| - 1 && text[start - 1] == ' '
    requires forall j :: start <= j < |text| - 1 ==> !IsSpace(text[j]) && text[j] != ')'
    requires OccursAt(text, FIXED_IN, start - 10)
    ensures MatchAvailable(text) == Some(text[start..|text| - 1])
  {
    RunStartIs(text, |text| - 1, true, start);
  }

  /** A run starts right after the last character that cannot be in it. */
  lemma RunStartIs(s: string, n: nat, closing: bool, start: nat)
    requires 0 < start <= n <= |s| && IsSpace(s[start - 1])
    requires forall j :: start <= j < n ==> !IsSpace(s[j]) && (closing ==> s[j] != ')')
    ensures RunStart(s, n, closing) == start
  {
  }

  lemma AvailableLayout(before: string, version: string) returns (text: string, start: nat)
    requires version != "" && NoSpace(version) && ')' !in version
    ensures text == before + (FIXED_IN + version + ")") && EndsWithParen(text)
    ensures 10 <= start < |text| - 1 && text[start - 1] == ' ' && text[start..|text| - 1] == version
    ensures forall j :: start <= j < |text| - 1 ==> !IsSpace(text[j]) && text[j] != ')'
    ensures OccursAt(text, FIXED_IN, start - 10)
  {
    text, start := before + (FIXED_IN + version + ")"), |before| + 10;
    assert text[start..|text| - 1] == version;
    assert forall j :: start <= j < |text| - 1 ==> text[j] == version[j - start];
  }

  lemma OccursCharacter(s: string, pat: string, k: nat, d: nat)
    requires OccursAt(s, pat, k) && d < |pat|
    ensures s[k + d] == pat[d]
  {
  }

  /** A labelled note's version starts after its last space, and such a note never
      matches the first pattern. */
  lemma LabelledReadsBack(text: string, start: nat)
    requires EndsWithParen(text) && 2 <= start < |text| - 1
    requires text[start - 2] == ':' && text[start - 1] == ' '
    requires forall j :: start <= j < |text| - 1 ==> !IsSpace(text[j])
    ensures LabelledVersion(text) == start && MatchAvailable(text) == None
  {
    RunStartIs(text, |text| - 1, false, start);
    var k := RunStart(text, |text| - 1, true);
    if 10 <= k && OccursAt(text, FIXED_IN, k - 10) {
      OccursCharacter(text, FIXED_IN, k - 10, 8);
      OccursCharacter(text, FIXED_IN, k - 10, 9);
    }
  }

  /** A pattern that opens with a parenthesis matches at the first one or later. */
  lemma {:induction false} NothingBefore(text: string, opening: string, mark: string, start: nat, k: nat, p: nat := 0)
    requires 2 <= k <= |text| && p <= start <= |text| && opening != "" && opening[0] == '('
    requires forall j :: p <= j < start ==> text[j] != '('
    ensures MarkedFrom(text, opening, mark, p, k) == MarkedFrom(text, opening, mark, start, k)
    ensures PlainFrom(text, opening, p, k) == PlainFrom(text, opening, start, k)
    decreases start - p
  {
    if p < start {
      if OccursAt(text, opening, p) {
        OccursCharacter(text, opening, p, 0);
      }
      NothingBefore(text, opening, mark, start, k, p + 1);
    }
  }

  lemma {:induction false} NothingWithoutMark(text: string, opening: string, mark: string, p: nat, k: nat)
    requires 2 <= k <= |text| && p <= |text|
    requires forall m :: p < m ==> !OccursAt(text, mark, m)
    ensures MarkedFrom(text, opening, mark, p, k) == None
    decreases |text| - p
  {
    if p < |text| {
      NothingWithoutMark(text, opening, mark, p + 1, k);
    }
  }

  lemma OccursSlice(s: string, pat: string, k: nat)
    requires OccursAt(s, pat, k)
    ensures s[k..k + |pat|] == pat
  {
  }

  /** What occurs at `k` has none of the characters that `pat` has not. */
  lemma OccursWithout(s: string, pat: string, k: nat, c: char)
    requires OccursAt(s, pat, k) && c !in pat
    ensures forall j :: k <= j < k + |pat| ==> s[j] != c
  {
    forall j | k <= j < k + |pat| ensures s[j] != c {
      assert s[j] == pat[j - k];
    }
  }

  /** The mark is found right after a host that has no semicolon. */
  lemma FirstMark(text: string, mark: string, h: nat, m: nat)
    requires h < m && OccursAt(text, mark, m) && mark != "" && mark[0] == ';'
    requires forall j :: h <= j < m ==> text[j] != ';'
    ensures Find(text, mark, h + 1) == Some(m)
  {
    OccursFirst(text, mark);
  }

  lemma OccursFirst(text: string, pat: string)
    requires pat != ""
    ensures forall j: nat :: OccursAt(text, pat, j) ==> text[j] == pat[0]
  {
    forall j: nat | OccursAt(text, pat, j) ensures text[j] == pat[0] {
      OccursCharacter(text, pat, j, 0);
    }
  }

  /** Host, mark and label stand on one line when each of them does. */
  lemma SpanOneLine(text: string, h: nat, host: string, mark: string, release: string)
    requires OccursAt(text, host, h) && OccursAt(text, mark, h + |host|)
    requires OccursAt(text, release, h + |host| + |mark|)
    requires OneLine(host) && OneLine(mark) && OneLine(release)
    ensures OneLine(text[h..h + |host| + |mark| + |release|])
  {
    OccursWithout(text, host, h, '\n');
    OccursWithout(text, mark, h + |host|, '\n');
    OccursWithout(text, release, h + |host| + |mark|, '\n');
  }

  lemma MarkedHere(text: string, opening: string, mark: string, p: nat, host: string, release: string, k: nat)
    requires mark != "" && mark[0] == ';' && OneLine(mark)
    requires OccursAt(text, opening, p) && OccursAt(text, host, p + |opening|)
    requires OccursAt(text, mark, p + |opening| + |host|)
    requires OccursAt(text, release, p + |opening| + |host| + |mark|)
    requires k - 2 == p + |opening| + |host| + |mark| + |release| && k <= |text|
    requires IsLabel(host) && IsLabel(release)
    ensures MarkedAt(text, opening, mark, p, k) == Some(release)
  {
    var h := p + |opening|;
    var m := h + |host|;
    OccursWithout(text, host, h, ';');
    FirstMark(text, mark, h, m);
    OccursSlice(text, release, m + |mark|);
    SpanOneLine(text, h, host, mark, release);
    MarkedBetween(text, opening, mark, p, k, m);
  }

  lemma MarkedBetween(text: string, opening: string, mark: string, p: nat, k: nat, m: nat)
    requires 2 <= k <= |text| && OccursAt(text, opening, p) && p + |opening| < |text|
    requires Find(text, mark, p + |opening| + 1) == Some(m) && m + |mark| < k - 2
    requires OneLine(text[p + |opening|..k - 2])
    ensures MarkedAt(text, opening, mark, p, k) == Some(text[m + |mark|..k - 2])
  {
  }

  /** The marked pattern reads the label back from between its mark and the version. */
  lemma MarkedReadsBack(text: string, opening: string, mark: string, p: nat, host: string, release: string, k: nat)
    requires opening != "" && opening[0] == '(' && mark != "" && mark[0] == ';' && OneLine(mark)
    requires forall j :: 0 <= j < p && j < |text| ==> text[j] != '('
    requires OccursAt(text, opening, p) && OccursAt(text, host, p + |opening|)
    requires OccursAt(text, mark, p + |opening| + |host|)
    requires OccursAt(text, release, p + |opening| + |host| + |mark|)
    requires k - 2 == p + |opening| + |host| + |mark| + |release| && k <= |text|
    requires IsLabel(host) && IsLabel(release)
    ensures MarkedFrom(text, opening, mark, 0, k) == Some(release)
  {
    NothingBefore(text, opening, mark, p, k);
    MarkedHere(text, opening, mark, p, host, release, k);
  }

  /** The mark's first three characters cannot be found inside the plain note. */
  lemma MarkNotInPlain(text: string, opening: string, mark: string, p: nat, release: string, k: nat, m: nat)
    requires 3 <= |mark| && mark[0] == ';' && mark[1] == ' '
    requires forall i :: 0 <= i < |opening| && opening[i] == ';' ==> i + 2 < |opening| && opening[i + 2] != mark[2]
    requires OccursAt(text, opening, p) && OccursAt(text, release, p + |opening|)
    requires k - 2 == p + |opening| + |release| && k <= |text| && text[k - 2] == ':' && text[k - 1] == ' '
    requires forall j :: k <= j < |text| ==> !IsSpace(text[j])
    requires ';' !in release && p < m
    ensures !OccursAt(text, mark, m)
  {
    if OccursAt(text, mark, m) {
      OccursCharacter(text, mark, m, 0);
      OccursCharacter(text, mark, m, 1);
      OccursCharacter(text, mark, m, 2);
      OccursWithout(text, release, p + |opening|, ';');
      if m < p + |opening| {
        OccursCharacter(text, opening, p, m - p);
        OccursCharacter(text, opening, p, m - p + 2);
      }
    }
  }

  /** The plain pattern reads its label back, and the marked one stays silent. */
  lemma PlainReadsBack(text: string, opening: string, other: string, mark: string, p: nat, release: string, k: nat)
    requires opening != "" && opening[0] == '(' && other != "" && other[0] == '('
    requires 3 <= |mark| && mark[0] == ';' && mark[1] == ' '
    requires forall i :: 0 <= i < |opening| && opening[i] == ';' ==> i + 2 < |opening| && opening[i + 2] != mark[2]
    requires forall j :: 0 <= j < p && j < |text| ==> text[j] != '('
    requires OccursAt(text, opening, p) && OccursAt(text, release, p + |opening|)
    requires k - 2 == p + |opening| + |release| && k <= |text| && text[k - 2] == ':' && text[k - 1] == ' '
    requires forall j :: k <= j < |text| ==> !IsSpace(text[j])
    requires IsLabel(release)
    ensures MarkedFrom(text, other, mark, 0, k) == None
    ensures PlainFrom(text, opening, 0, k) == Some(release)
  {
    NothingBefore(text, opening, mark, p, k);
    NothingBefore(text, other, mark, p, k);
    NoMark(text, opening, mark, p, release, k);
    NothingWithoutMark(text, other, mark, p, k);
    PlainHere(text, opening, p, release, k);
  }

  lemma PlainHere(text: string, opening: string, p: nat, release: string, k: nat)
    requires OccursAt(text, opening, p) && OccursAt(text, release, p + |opening|)
    requires k - 2 == p + |opening| + |release| && k <= |text| && IsLabel(release)
    ensures PlainAt(text, opening, p, k) == Some(release)
  {
    OccursSlice(text, release, p + |opening|);
  }

  lemma NoMark(text: string, opening: string, mark: string, p: nat, release: string, k: nat)
    requires 3 <= |mark| && mark[0] == ';' && mark[1] == ' '
    requires forall i :: 0 <= i < |opening| && opening[i] == ';' ==> i + 2 < |opening| && opening[i + 2] != mark[2]
    requires OccursAt(text, opening, p) && OccursAt(text, release, p + |opening|)
    requires k - 2 == p + |opening| + |release| && k <= |text| && text[k - 2] == ':' && text[k - 1] == ' '
    requires forall j :: k <= j < |text| ==> !IsSpace(text[j])
    requires ';' !in release
    ensures forall m :: p < m ==> !OccursAt(text, mark, m)
  {
    forall m | p < m ensures !OccursAt(text, mark, m) {
      MarkNotInPlain(text, opening, mark, p, release, k, m);
    }
  }

  lemma TailReadsBack(text: string, h: nat, version: string)
    requires version != "" && NoSpace(version)
    requires OccursAt(text, Stated(version), h) && h + |version| + 3 == |text|
    ensures LabelledVersion(text) == h + 2 && MatchAvailable(text) == None
    ensures text[h + 2..|text| - 1] == version && text[h] == ':' && text[h + 1] == ' '
    ensures forall j :: h + 2 <= j < |text| ==> !IsSpace(text[j])
  {
    var tail := Stated(version);
    OccursSlice(text, tail, h);
    assert text[h..] == tail;
    assert tail[0] == ':' && tail[1] == ' ' && tail[|tail| - 1] == ')' && tail[2..|tail| - 1] == version;
    assert text[h + 2..|text| - 1] == version;
    assert forall j :: h + 2 <= j < |text| - 1 ==> text[j] == version[j - h - 2];
    LabelledReadsBack(text, h + 2);
  }

  lemma OccursNext(a: string, b: string)
    ensures OccursAt(a + b, a, 0) && OccursAt(a + b, b, |a|)
  {
  }

  lemma OccursInside(text: string, part: string, k: nat, pat: string, d: nat)
    requires OccursAt(text, part, k) && OccursAt(part, pat, d)
    ensures OccursAt(text, pat, k + d)
  {
    forall i | 0 <= i < |pat| ensures text[k + d + i] == pat[i] {
      assert part[d + i] == pat[i];
    }
  }

  /** Where each of two parts lies inside their concatenation, inside a text. */
  lemma OccursParts(text: string, k: nat, a: string, b: string)
    requires OccursAt(text, a + b, k)
    ensures OccursAt(text, a, k) && OccursAt(text, b, k + |a|)
  {
    OccursNext(a, b);
    OccursInside(text, a + b, k, a, 0);
    OccursInside(text, a + b, k, b, |a|);
  }

  /** Where the five parts of a note lie inside a text that has the note at `k`. */
  lemma Layout(text: string, k: nat, x: string, b: string, y: string, c: string, z: string)
    requires OccursAt(text, x + b + y + c + z, k)
    ensures OccursAt(text, x, k) && OccursAt(text, b, k + |x|) && OccursAt(text, y, k + |x| + |b|)
    ensures OccursAt(text, c, k + |x| + |b| + |y|) && OccursAt(text, z, k + |x| + |b| + |y| + |c|)
  {
    OccursParts(text, k, x + b + y + c, z);
    OccursParts(text, k, x + b + y, c);
    OccursParts(text, k, x + b, y);
    OccursParts(text, k, x, b);
  }

  /** The marked pattern decides once the first one is silent. */
  lemma ParsedAsMarked(text: string, k: nat, release: string)
    requires MatchAvailable(text) == None && LabelledVersion(text) == k && 2 <= k < |text|
    requires MarkedFrom(text, NO_FIX_IN, ELSEWHERE, 0, k) == Some(release)
    ensures ParseText(text) == NewerRelease(release, text[k..|text| - 1])
  {
  }

  /** A marked note at `p`, with nothing parenthesised before it, reads as written. */
  lemma MarkedNote(text: string, p: nat, x: string, host: string, y: string, release: string, version: string)
    returns (k: nat)
    requires x != "" && x[0] == '(' && y != "" && y[0] == ';' && OneLine(y)
    requires forall j :: 0 <= j < p && j < |text| ==> text[j] != '('
    requires Readable(FixedElsewhere(host, release, version))
    requires OccursAt(text, x, p) && OccursAt(text, host, p + |x|) && OccursAt(text, y, p + |x| + |host|)
    requires OccursAt(text, release, p + |x| + |host| + |y|)
    requires OccursAt(text, Stated(version), p + |x| + |host| + |y| + |release|)
    requires |text| == p + |x| + |host| + |y| + |release| + |Stated(version)|
    ensures 2 <= k < |text| && LabelledVersion(text) == k && MatchAvailable(text) == None
    ensures MarkedFrom(text, x, y, 0, k) == Some(release) && text[k..|text| - 1] == version
  {
    var h := p + |x| + |host| + |y| + |release|;
    TailReadsBack(text, h, version);
    MarkedReadsBack(text, x, y, p, host, release, h + 2);
    k := h + 2;
  }

  lemma ParsePlain(text: string, p: nat, release: string, version: string)
    requires forall j :: 0 <= j < p && j < |text| ==> text[j] != '('
    requires Readable(FixedUpstream(release, version))
    requires OccursAt(text, UPSTREAM, p) && OccursAt(text, release, p + |UPSTREAM|)
    requires OccursAt(text, Stated(version), p + |UPSTREAM| + |release|)
    requires |text| == p + |UPSTREAM| + |release| + 3 + |version|
    ensures ParseText(text) == Upstream(release, version)
  {
    var h := p + |UPSTREAM| + |release|;
    UpstreamCharacters();
    assert NO_FIX_IN[0] == '(' && ELSEWHERE[0] == ';' && ELSEWHERE[1] == ' ' && ELSEWHERE[2] == 'f';
    TailReadsBack(text, h, version);
    PlainReadsBack(text, UPSTREAM, NO_FIX_IN, ELSEWHERE, p, release, h + 2);
  }

  /** Reading starts after the identifier's own leading space, with the note intact. */
  lemma NoteSurvivesStrip(base: string, note: string)
    requires note != "" && !IsSpace(note[0]) && note[|note| - 1] == ')' && '(' !in base
    ensures Strip(base + (" " + note)) == LStrip(base + " ") + note && '(' !in LStrip(base + " ")
  {
    assert base + (" " + note) == (base + " ") + note;
    StripBefore(base + " ", note);
    LStripKeeps(base + " ", '(');
  }

  lemma UpstreamCharacters()
    ensures UPSTREAM != "" && UPSTREAM[0] == '('
    ensures forall k :: 0 <= k < |UPSTREAM| && UPSTREAM[k] == ';' ==> k + 2 < |UPSTREAM| && UPSTREAM[k + 2] == 'u'
  {
    var subject, release, verdict := "(not confirmed", " for this release", "; upstream fix in ";
    assert subject[0] == '(' && ';' !in subject && ';' !in release;
    assert |verdict| == 18 && verdict[2] == 'u' && ';' !in verdict[1..];
  }

  /** The stripped identifier ends in the note, with nothing parenthesised before it;
      `p` is where the note starts. */
  lemma NoteAtEnd(base: string, note: string) returns (text: string, p: nat)
    requires note != "" && note[0] == '(' && note[|note| - 1] == ')' && '(' !in base
    ensures text == Strip(base + (" " + note)) && text != ""
    ensures OccursAt(text, note, p) && |text| == p + |note|
    ensures forall j :: 0 <= j < p ==> text[j] != '('
  {
    var before := LStrip(base + " ");
    NoteSurvivesStrip(base, note);
    text, p := before + note, |before|;
    OccursNext(before, note);
    OccursWithout(text, before, 0, '(');
  }

  /** A note of five parts opens and closes with its first and last part. */
  lemma NoteEnds(x: string, b: string, y: string, c: string, z: string)
    requires x != "" && z != ""
    ensures var note := x + b + y + c + z;
            note != "" && note[0] == x[0] && note[|note| - 1] == z[|z| - 1]
  {
  }

  /** The five parts of a note in the text it is read from. */
  lemma NoteParts(base: string, x: string, b: string, y: string, c: string, z: string) returns (text: string, p: nat)
    requires x != "" && x[0] == '(' && z != "" && z[|z| - 1] == ')' && '(' !in base
    ensures text == Strip(base + (" " + (x + b + y + c + z))) && text != ""
    ensures forall j :: 0 <= j < p && j < |text| ==> text[j] != '('
    ensures OccursAt(text, x, p) && OccursAt(text, b, p + |x|) && OccursAt(text, y, p + |x| + |b|)
    ensures OccursAt(text, c, p + |x| + |b| + |y|) && OccursAt(text, z, p + |x| + |b| + |y| + |c|)
    ensures |text| == p + |x| + |b| + |y| + |c| + |z|
  {
    NoteEnds(x, b, y, c, z);
    text, p := NoteAtEnd(base, x + b + y + c + z);
    Layout(text, p, x, b, y, c, z);
  }

  lemma ParseFixOf(identifier: string)
    requires Strip(identifier) != ""
    ensures ParseFix(Some(identifier)) == ParseText(Strip(identifier))
  {
  }

  lemma ElsewhereReads(base: string, x: string, host: string, y: string, release: string, z: string, version: string)
    returns (text: string)
    requires x == NO_FIX_IN && y == ELSEWHERE && z == Stated(version)
    requires '(' !in base && Readable(FixedElsewhere(host, release, version))
    ensures text == Strip(base + (" " + (x + host + y + release + z))) && text != ""
    ensures ParseText(text) == NewerRelease(release, version)
  {
    assert NO_FIX_IN[0] == '(' && ELSEWHERE[0] == ';' && OneLine(ELSEWHERE);
    var p;
    text, p := NoteParts(base, x, host, y, release, z);
    var k := MarkedNote(text, p, x, host, y, release, version);
    ParsedAsMarked(text, k, release);
  }

  lemma ElsewhereRoundTrip(base: string, host: string, release: string, version: string)
    requires '(' !in base && Readable(FixedElsewhere(host, release, version))
    ensures ParseFix(Some(base + Spell(FixedElsewhere(host, release, version)))) == NewerRelease(release, version)
  {
    var text := ElsewhereReads(base, NO_FIX_IN, host, ELSEWHERE, release, Stated(version), version);
    ParseFixOf(base + Spell(FixedElsewhere(host, release, version)));
  }

  lemma UpstreamRoundTrip(base: string, release: string, version: string)
    requires '(' !in base && Readable(FixedUpstream(release, version))
    ensures ParseFix(Some(base + Spell(FixedUpstream(release, version)))) == Upstream(release, version)
  {
    UpstreamCharacters();
    var note := UPSTREAM + release + Stated(version);
    var text, p := NoteAtEnd(base, note);
    OccursParts(text, p, UPSTREAM + release, Stated(version));
    OccursParts(text, p, UPSTREAM, release);
    ParsePlain(text, p, release, version);
  }

  lemma AvailableRoundTrip(base: string, version: string)
    requires Readable(FixedIn(version))
    ensures ParseFix(Some(base + Spell(FixedIn(version)))) == Available(version)
  {
    var tail := FIXED_IN + version + ")";
    assert base + Spell(FixedIn(version)) == (base + " ") + tail;
    StripBefore(base + " ", tail);
    AvailableReadsBack(LStrip(base + " "), version);
  }

  /** Spelled after an identifier, a note reads as what was meant by it: `ParseFix`
      undoes `Spell`, returning status, release and version. */
  lemma FixRoundTrip(base: string, note: Note)
    requires Strip(base) != "" && '(' !in base && Readable(note)
    ensures ParseFix(Some(base + Spell(note))) == Meaning(note)
  {
    match note {
      case Nothing =>
        assert base + "" == base;
        NoNoteNoFix(base);
      case FixedIn(version) => AvailableRoundTrip(base, version);
      case FixedElsewhere(host, release, version) => ElsewhereRoundTrip(base, host, release, version);
      case FixedUpstream(release, version) => UpstreamRoundTrip(base, release, version);
    }
  }

  lemma NoNoteNoFix(base: string)
    requires Strip(base) != "" && '(' !in base
    ensures ParseFix(Some(base)) == NoFix
  {
    LStripKeeps(base, '(');
    var text := Strip(base);
    assert forall j :: 0 <= j < |text| ==> text[j] == LStrip(base)[j];
    NotAvailable(text);
    if LabelledVersion(text) != 0 {
      NotLabelled(text, LabelledVersion(text));
    }
  }

  lemma NotAvailable(text: string)
    requires '(' !in text
    ensures MatchAvailable(text) == None
  {
    assert FIXED_IN[0] == '(';
    OccursFirst(text, FIXED_IN);
  }

  lemma NotLabelled(text: string, start: nat)
    requires '(' !in text && 2 <= start < |text|
    ensures ParseLabelled(text, start) == NoFix
  {
    UpstreamCharacters();
    assert NO_FIX_IN[0] == '(';
    NothingBefore(text, NO_FIX_IN, ELSEWHERE, |text|, start);
    NothingBefore(text, UPSTREAM, ELSEWHERE, |text|, start);
  }

  /** A fix that is available reads so exactly when its version is one the first
      pattern accepts. */
  lemma AvailableExactly(base: string, version: string)
    requires Strip(base) != "" && '(' !in base
    ensures ParseFix(Some(base + Spell(FixedIn(version)))) == Available(version) <==> Readable(FixedIn(version))
  {
    if Readable(FixedIn(version)) {
      FixRoundTrip(base, FixedIn(version));
    } else if ParseFix(Some(base + Spell(FixedIn(version)))) == Available(version) {
      MatchAvailableMeaning(Strip(base + Spell(FixedIn(version))), version);
    }
  }

  // Identifiers.

  function Identifier(ecosystem: string, name: string, version: string): string {
    ecosystem + ":" + name + "@" + version
  }

  predicate IsWord(s: string) {
    s != "" && NoSpace(s) && '(' !in s
  }

  /** The parts an identifier can be read back from: colons in the ecosystem, an npm
      scope in the name and an epoch in the version are fine; a colon in the name or an
      "@" in the version is not. */
  predicate Canonical(ecosystem: string, name: string, version: string) {
    '(' !in ecosystem && IsWord(name) && ':' !in name && IsWord(version) && '@' !in version
  }

  /** What may follow an identifier: nothing, or a parenthesised note. */
  predicate IsNote(spelled: string) {
    spelled == "" || (|spelled| >= 2 && spelled[0] == ' ' && spelled[1] == '(' && EndsWithParen(spelled))
  }

  lemma SpellIsNote(note: Note)
    ensures IsNote(Spell(note))
  {
    UpstreamCharacters();
    match note {
      case FixedElsewhere(host, release, version) =>
        NoteEnds(NO_FIX_IN, host, ELSEWHERE, release, Stated(version));
      case _ =>
    }
  }

  /** A note is cut off where it starts. */
  lemma WithoutNoteCuts(base: string, spelled: string)
    requires '(' !in base && IsNote(spelled)
    ensures WithoutNote(base + spelled) == base
    ensures spelled != "" ==> Find(base + spelled, " (") == Some(|base|)
    ensures spelled == "" ==> Find(base + spelled, " (") == None
  {
    var text := base + spelled;
    forall j: nat | OccursAt(text, " (", j) ensures j >= |base| && spelled != "" {
      OccursCharacter(text, " (", j, 1);
    }
    if spelled != "" {
      assert OccursAt(text, " (", |base|);
    }
  }

  lemma Regroup(a: string, b: string, c: string, d: string, e: string, f: string)
    ensures a + b + c + d + e + f == a + (b + c + d + e + f)
  {
  }

  /** The token an identifier is read from, its own leading space and its note gone. */
  lemma TokenOf(ecosystem: string, name: string, version: string, spelled: string)
    requires Canonical(ecosystem, name, version) && IsNote(spelled)
    ensures var text := Identifier(ecosystem, name, version) + spelled;
            && !IsBlank(Some(text))
            && WithoutNote(Strip(text)) == Identifier(LStrip(ecosystem), name, version)
  {
    var e := LStrip(ecosystem);
    Regroup(ecosystem, ":", name, "@", version, spelled);
    Regroup(e, ":", name, "@", version, spelled);
    NoteEnds(":", name, "@", version, if spelled == "" then version else spelled);
    if spelled == "" {
      StripBeforeWord(ecosystem, ":" + name + "@" + version);
    } else {
      StripBefore(ecosystem, ":" + name + "@" + version + spelled);
    }
    LStripKeeps(ecosystem, '(');
    IdentifierHasNoParen(e, name, version);
    WithoutNoteCuts(Identifier(e, name, version), spelled);
  }

  lemma StripBeforeWord(head: string, tail: string)
    requires tail != "" && !IsSpace(tail[0]) && !IsSpace(tail[|tail| - 1])
    ensures Strip(head + (tail + "")) == LStrip(head) + (tail + "")
  {
    assert tail + "" == tail;
    StripBefore(head, tail);
  }

  lemma IdentifierHasNoParen(ecosystem: string, name: string, version: string)
    requires Canonical(ecosystem, name, version)
    ensures '(' !in Identifier(ecosystem, name, version)
  {
  }

  /** Where the separators of an identifier are found from the right. */
  lemma Separators(ecosystem: string, name: string, version: string)
    requires IsWord(name) && ':' !in name && IsWord(version) && '@' !in version
    ensures var token := Identifier(ecosystem, name, version);
            var at := AfterLast(token, '@', |token|);
            && at == |ecosystem| + |name| + 2 && token[at - 2] != ':'
            && token[at..] == version && token[..at - 1] == ecosystem + ":" + name
            && AfterLast(token, ':', at - 1) == |ecosystem| + 1
  {
    var token := Identifier(ecosystem, name, version);
    var at := |ecosystem| + |name| + 2;
    assert token[at..] == version && token[at - 1] == '@' && token[..at - 1] == ecosystem + ":" + name;
    assert forall j :: at <= j < |token| ==> token[j] == version[j - at];
    assert token[|ecosystem|] == ':';
    assert forall j :: |ecosystem| < j < at - 1 ==> token[j] == name[j - |ecosystem| - 1];
  }

  lemma LastColon(ecosystem: string, name: string)
    requires ':' !in name
    ensures var base := ecosystem + ":" + name;
            var k := AfterLast(base, ':', |base|);
            k == |ecosystem| + 1 && base[k..] == name
  {
    var base := ecosystem + ":" + name;
    assert base[|ecosystem|] == ':';
    assert forall j :: |ecosystem| < j < |base| ==> base[j] == name[j - |ecosystem| - 1];
  }

  /** The name and version are what stands on either side of the last "@". */
  lemma NameAt(token: string, base: string, at: nat)
    requires AfterLast(token, '@', |token|) == at && 1 < at <= |token| && token[at - 2] != ':'
    requires token[..at - 1] == base
    ensures NameIn(token) == NonEmpty(Strip(base[AfterLast(base, ':', |base|)..]))
  {
  }

  lemma VersionAt(token: string, version: string, at: nat)
    requires AfterLast(token, '@', |token|) == at && 1 < at <= |token| && token[at - 2] != ':'
    requires token[at..] == version && IsWord(version)
    ensures VersionIn(token) == Some(version)
  {
    StripNothing(version);
  }

  lemma PartsIn(ecosystem: string, name: string, version: string)
    requires IsWord(name) && ':' !in name && IsWord(version) && '@' !in version
    ensures NameIn(Identifier(ecosystem, name, version)) == Some(name)
    ensures VersionIn(Identifier(ecosystem, name, version)) == Some(version)
  {
    Separators(ecosystem, name, version);
    LastColon(ecosystem, name);
    StripNothing(name);
    var token, base := Identifier(ecosystem, name, version), ecosystem + ":" + name;
    NameAt(token, base, AfterLast(token, '@', |token|));
    VersionAt(token, version, AfterLast(token, '@', |token|));
  }

  /** An identifier parses back to its name and version, whatever note follows it. */
  lemma IdentifierRoundTrip(ecosystem: string, name: string, version: string, spelled: string)
    requires Canonical(ecosystem, name, version) && IsNote(spelled)
    ensures var text := Some(Identifier(ecosystem, name, version) + spelled);
            && ParsePackageName(text) == Some(name) && ParsePackageVersion(text) == Some(version)
  {
    TokenOf(ecosystem, name, version, spelled);
    PartsIn(LStrip(ecosystem), name, version);
  }

  /** A finding's package is its name; each installed kernel is a package of its own. */
  lemma FindingPackageOf(ecosystem: string, name: string, version: string, spelled: string)
    requires Canonical(ecosystem, name, version) && IsNote(spelled)
    ensures FindingPackage(Some(Identifier(ecosystem, name, version) + spelled)) ==
            Some(if IsKernelPackage(name) then name + "@" + version else name)
  {
    IdentifierRoundTrip(ecosystem, name, version, spelled);
  }

  /** Whether two names and versions are one package to a finding. Only a name that
      looks like a kernel's with its version on is ever taken for another's. */
  predicate SamePackage(name: string, version: string, other: string, otherVersion: string) {
    if IsKernelPackage(name) == IsKernelPackage(other) then
      name == other && (IsKernelPackage(name) ==> version == otherVersion)
    else if IsKernelPackage(name) then other == name + "@" + version
    else name == other + "@" + otherVersion
  }

  /** Identifiers name one package exactly when names, and for kernels versions, agree,
      whatever the ecosystem and the note say. */
  lemma PackagesTold(ecosystem: string, name: string, version: string, spelled: string,
                     ecosystem': string, name': string, version': string, spelled': string)
    requires Canonical(ecosystem, name, version) && IsNote(spelled)
    requires Canonical(ecosystem', name', version') && IsNote(spelled')
    ensures FindingPackage(Some(Identifier(ecosystem, name, version) + spelled)) ==
            FindingPackage(Some(Identifier(ecosystem', name', version') + spelled')) <==>
              SamePackage(name, version, name', version')
  {
    FindingPackageOf(ecosystem, name, version, spelled);
    FindingPackageOf(ecosystem', name', version', spelled');
    if name + "@" + version == name' + "@" + version' {
      LastAt(name, version);
      LastAt(name', version');
    }
  }

  lemma LastAt(name: string, version: string)
    requires '@' !in version
    ensures var s := name + "@" + version;
            AfterLast(s, '@', |s|) == |name| + 1 && s[..|name|] == name && s[|name| + 1..] == version
  {
    var s := name + "@" + version;
    assert s[|name|] == '@' && s[|name| + 1..] == version;
    assert forall j :: |name| < j < |s| ==> s[j] == version[j - |name| - 1];
  }

  /** A name without an inner "@" is never taken for another: an npm scope's is first. */
  lemma NamesToldApart(name: string, version: string, other: string, otherVersion: string)
    requires name != "" && other != "" && '@' !in name[1..] && '@' !in other[1..]
    ensures SamePackage(name, version, other, otherVersion) <==>
              name == other && (IsKernelPackage(name) ==> version == otherVersion)
  {
    InnerAt(name, version);
    InnerAt(other, otherVersion);
  }

  lemma InnerAt(name: string, version: string)
    requires name != ""
    ensures '@' in (name + "@" + version)[1..]
  {
    assert (name + "@" + version)[1..][|name| - 1] == '@';
  }

  // Which packages are kernels.

  lemma LowerParts(a: string, b: string)
    ensures Lower(a + b) == Lower(a) + Lower(b)
  {
  }

  lemma LowerTwice(s: string)
    ensures Lower(Lower(s)) == Lower(s)
  {
  }

  lemma {:induction false} NoCapitals(s: string)
    requires forall i :: 0 <= i < |s| ==> !('A' <= s[i] <= 'Z')
    ensures Lower(s) == s
  {
  }

  lemma PartOfKernel(k: nat, rest: string)
    requires k < |KERNEL_PREFIXES|
    ensures IsKernelPackage(KERNEL_PREFIXES[k] + rest)
  {
    var prefix := KERNEL_PREFIXES[k];
    NoCapitals(prefix);
    LowerParts(prefix, rest);
    assert StartsWith(Lower(prefix + rest), KERNEL_PREFIXES[k]);
  }

  /** Whatever follows, these are parts of a kernel: */
  lemma LinuxParts(rest: string)
    ensures IsKernelPackage("linux-image-" + rest) && IsKernelPackage("linux-headers-" + rest)
    ensures IsKernelPackage("linux-modules-" + rest) && IsKernelPackage("linux-kbuild-" + rest)
  {
    PartOfKernel(0, rest);
    PartOfKernel(1, rest);
    PartOfKernel(2, rest);
    PartOfKernel(3, rest);
  }

  /** ... and these. */
  lemma KernelParts(rest: string)
    ensures IsKernelPackage("kernel-core" + rest) && IsKernelPackage("kernel-modules" + rest)
    ensures IsKernelPackage("kernel-uek-core" + rest) && IsKernelPackage("kernel-uek-modules" + rest)
  {
    PartOfKernel(4, rest);
    PartOfKernel(5, rest);
    PartOfKernel(6, rest);
    PartOfKernel(7, rest);
  }

  /** A kernel series under a name of its own, and its modules. */
  lemma KernelSeries(major: string, minor: string)
    requires IsNumber(major) && IsNumber(minor)
    ensures IsVersionedKernel("kernel" + major + "." + minor)
    ensures IsVersionedKernel("kernel" + major + "." + minor + "-modules")
  {
    SeriesRead(major, minor, "");
    SeriesRead(major, minor, "-modules");
    assert "kernel" + major + "." + minor + "" == "kernel" + major + "." + minor;
  }

  lemma SeriesRead(major: string, minor: string, rest: string)
    requires IsNumber(major) && IsNumber(minor) && rest in {"", "-modules"}
    ensures IsVersionedKernel("kernel" + major + "." + minor + rest)
  {
    var s := "kernel" + major + "." + minor + rest;
    var a, b := 6 + |major|, 7 + |major| + |minor|;
    assert s[6..a] == major && s[a] == '.' && s[a + 1..b] == minor && s[b..] == rest;
    assert s[..6] == "kernel" && forall d :: 0 <= d < 6 ==> s[d] == "kernel"[d];
    assert b < |s| ==> s[b] == rest[0];
    DigitsEndAt(s, 6, a);
    DigitsEndAt(s, a + 1, b);
  }

  /** Nothing whose name does not begin with one of two words is a kernel. */
  lemma OtherNames(name: string)
    requires !StartsWith(Lower(name), "linux") && !StartsWith(Lower(name), "kernel")
    ensures !IsKernelPackage(name)
  {
    var lowered := Lower(name);
    forall k | 0 <= k < |KERNEL_PREFIXES| ensures !StartsWith(lowered, KERNEL_PREFIXES[k]) {
      var opening := if k < 4 then "linux" else "kernel";
      assert opening <= KERNEL_PREFIXES[k];
      OpeningFirst(lowered, KERNEL_PREFIXES[k], opening);
    }
  }

  lemma OpeningFirst(s: string, prefix: string, opening: string)
    requires opening <= prefix
    ensures StartsWith(s, prefix) ==> StartsWith(s, opening)
  {
    forall d | 0 <= d < |opening| ensures opening[d] == prefix[d] {
    }
  }

  /** A scoped name without a version is all name: its "@" is no separator. */
  lemma ScopedWithoutVersion(ecosystem: string, name: string)
    requires '(' !in ecosystem && '@' !in ecosystem && (ecosystem != "" ==> !IsSpace(ecosystem[0]))
    requires IsWord(name) && name[0] == '@' && '@' !in name[1..] && ':' !in name
    ensures var text := Some(ecosystem + ":" + name);
            ParsePackageName(text) == Some(name) && ParsePackageVersion(text) == None
  {
    var token := ecosystem + ":" + name;
    LastColon(ecosystem, name);
    StripNothing(name);
    assert token[0] == (ecosystem + ":")[0] && token[|token| - 1] == name[|name| - 1];
    StripNothing(token);
    assert token + "" == token;
    WithoutNoteCuts(token, "");
    ScopeMark(token, ecosystem, name);
  }

  lemma ScopeMark(token: string, ecosystem: string, name: string)
    requires token == ecosystem + ":" + name && name != "" && name[0] == '@' && '@' !in name[1..]
    ensures AfterLast(token, '@', |token|) == |ecosystem| + 2 && token[|ecosystem|] == ':'
  {
    assert token[|ecosystem| + 1] == '@';
    forall j | |ecosystem| + 2 <= j < |token| ensures token[j] != '@' {
      assert token[j] == name[1..][j - |ecosystem| - 2];
    }
  }
}
