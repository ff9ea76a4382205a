/** Distribution releases as OSV names them (backend/app/scanner/releases.py). */
module Releases {
  import opened Orders
  import opened Text

  datatype Family = Debian | Ubuntu | Alpine | AlmaLinux | RockyLinux | RedHat | OpenSuseLeap

  datatype Release = Release(family: Family, key: seq<nat>, title: string, subscription: bool := false)

  /** What follows `prefix`, when the text starts with it. */
  function After(text: string, prefix: string): Option<string> {
    if prefix <= text then Some(text[|prefix|..]) else None
  }

  predicate Plain(s: string) {
    OneLine(s) && ';' !in s
  }

  /** A title made of a name, the part of the ecosystem it shows, and an ending. */
  function Titled(name: string, shown: string, ending: string := ""): (t: string)
    requires IsLabel(name) && Plain(shown) && Plain(ending)
    ensures IsLabel(t)
  {
    name + shown + ending
  }

  /** `\d+\.\d+` over the whole text, as its two numbers' digits. */
  function Dotted(text: string): (r: Option<(string, string)>)
    ensures r.Some? ==> IsNumber(r.value.0) && IsNumber(r.value.1) && text == r.value.0 + "." + r.value.1
    ensures r.Some? ==> Plain(text)
  {
    var e := DigitsEnd(text);
    if 0 < e < |text| && text[e] == '.' && IsNumber(text[e + 1..]) then Some((text[..e], text[e + 1..])) else None
  }

  function PairKey(pair: (string, string)): seq<nat>
    requires IsNumber(pair.0) && IsNumber(pair.1)
  {
    [Value(pair.0), Value(pair.1)]
  }

  function WithoutLts(text: string): (string, bool) {
    if |text| >= 4 && text[|text| - 4..] == ":LTS" then (text[..|text| - 4], true) else (text, false)
  }

  predicate IsYearMonth(r: Option<(string, string)>) {
    r.Some? && |r.value.0| == 2 && |r.value.1| == 2
  }

  function LettersEnd(s: string, i: nat := 0): (e: nat)
    requires i <= |s|
    ensures i <= e <= |s|
    decreases |s| - i
  {
    if i < |s| && (IsAlpha(s[i]) || s[i] == '-') then LettersEnd(s, i + 1) else i
  }

  /** `(?:[A-Za-z-]+:)?` dropped from the front. */
  function WithoutFlavour(text: string): string {
    var e := LettersEnd(text);
    if 0 < e < |text| && text[e] == ':' then text[e + 1..] else text
  }

  // One pattern each, in the order they are tried.

  function ParseDebian(eco: string): (r: Option<Release>)
    ensures r.Some? ==> IsLabel(r.value.title)
    ensures r.Some? ==> "D" <= eco && |r.value.key| == 1 && r.value.key[0] < 100
    ensures r.Some? ==> r.value.family == Debian && !r.value.subscription
  {
    match After(eco, "Debian:")
    case Some(major) =>
      if IsNumber(major) && |major| <= 2 then
        ValueBelow100(major);
        Some(Release(Debian, [Value(major)], Titled("Debian ", major)))
      else None
    case None => None
  }

  const PRO := "Ubuntu:Pro:"

  function ParseUbuntuPro(eco: string): (r: Option<Release>)
    ensures r.Some? ==> IsLabel(r.value.title)
    ensures r.Some? ==> PRO <= eco && |r.value.key| == 2 && r.value.subscription && r.value.family == Ubuntu
  {
    match After(eco, PRO)
    case Some(rest) =>
      var version := WithoutLts(WithoutFlavour(rest)).0;
      var parts := Dotted(version);
      if IsYearMonth(parts) then
        Some(Release(Ubuntu, PairKey(parts.value), Titled("Ubuntu Pro (", version, ")"), true))
      else None
    case None => None
  }

  function ParseUbuntu(eco: string): (r: Option<Release>)
    ensures r.Some? ==> IsLabel(r.value.title)
    ensures r.Some? ==> "U" <= eco && |r.value.key| == 2 && r.value.key[0] < 100 && r.value.key[1] < 100
    ensures r.Some? ==> r.value.family == Ubuntu && !r.value.subscription
  {
    match After(eco, "Ubuntu:")
    case Some(rest) =>
      var (version, lts) := WithoutLts(rest);
      var parts := Dotted(version);
      if IsYearMonth(parts) then
        ValueBelow100(parts.value.0);
        ValueBelow100(parts.value.1);
        Some(Release(Ubuntu, PairKey(parts.value), Titled("Ubuntu ", version, if lts then " LTS" else "")))
      else None
    case None => None
  }

  function ParseAlpine(eco: string): (r: Option<Release>)
    ensures r.Some? ==> IsLabel(r.value.title)
    ensures r.Some? ==> "Alp" <= eco && |r.value.key| == 2 && r.value.family == Alpine && !r.value.subscription
  {
    match After(eco, "Alpine:v")
    case Some(version) =>
      var parts := Dotted(version);
      if parts.Some? then Some(Release(Alpine, PairKey(parts.value), Titled("Alpine ", version))) else None
    case None => None
  }

  /** `AlmaLinux:9`, `Rocky Linux:9`: the family's name and a major version. */
  function ParseMajor(eco: string, family: Family, name: string): (r: Option<Release>)
    requires IsLabel(name)
    ensures r.Some? ==> IsLabel(r.value.title)
    ensures r.Some? ==> name <= eco && |r.value.key| == 1 && r.value.family == family && !r.value.subscription
  {
    match After(eco, name + ":")
    case Some(major) => if IsNumber(major) then Some(Release(family, [Value(major)], Titled(name, " ", major))) else None
    case None => None
  }

  function ParseRedHatStream(eco: string): (r: Option<Release>)
    ensures r.Some? ==> IsLabel(r.value.title)
    ensures r.Some? ==> "Re" <= eco && |r.value.key| == 1 && r.value.family == RedHat && !r.value.subscription
  {
    match After(eco, "Red Hat:enterprise_linux:")
    case Some(rest) =>
      var e := DigitsEnd(rest);
      if 0 < e && e + 2 < |rest| && rest[e..e + 2] == "::" &&
         (forall k :: e + 2 <= k < |rest| ==> 'a' <= rest[k] <= 'z' || rest[k] == '_')
      then Some(Release(RedHat, [Value(rest[..e])], Titled("RHEL ", rest[..e]))) else None
    case None => None
  }

  function ParseRedHat(eco: string): (r: Option<Release>)
    ensures r.Some? ==> IsLabel(r.value.title)
    ensures r.Some? ==> "Re" <= eco && |r.value.key| == 1 && r.value.family == RedHat && !r.value.subscription
  {
    match After(eco, "Red Hat:")
    case Some(major) => if IsNumber(major) then Some(Release(RedHat, [Value(major)], Titled("RHEL ", major))) else None
    case None => None
  }

  function ParseLeap(eco: string): (r: Option<Release>)
    ensures r.Some? ==> IsLabel(r.value.title)
    ensures r.Some? ==> "o" <= eco && |r.value.key| == 2 && r.value.family == OpenSuseLeap && !r.value.subscription
  {
    match After(eco, "openSUSE:Leap ")
    case Some(version) =>
      var parts := Dotted(version);
      if parts.Some? then Some(Release(OpenSuseLeap, PairKey(parts.value), Titled("openSUSE Leap ", version))) else None
    case None => None
  }

  function Pattern(k: nat, eco: string): Option<Release>
    requires k < 9
  {
    match k
    case 0 => ParseDebian(eco)
    case 1 => ParseUbuntuPro(eco)
    case 2 => ParseUbuntu(eco)
    case 3 => ParseAlpine(eco)
    case 4 => ParseMajor(eco, AlmaLinux, "AlmaLinux")
    case 5 => ParseMajor(eco, RockyLinux, "Rocky Linux")
    case 6 => ParseRedHatStream(eco)
    case 7 => ParseRedHat(eco)
    case 8 => ParseLeap(eco)
  }

  /** The first of the patterns from the k-th on that matches. */
  function FirstMatch(eco: string, k: nat := 0): Option<Release>
    requires k <= 9
    decreases 9 - k
  {
    if k == 9 then None
    else
      var r := Pattern(k, eco);
      if r.Some? then r else FirstMatch(eco, k + 1)
  }

  /** `FirstMatch` on the stripped text. */
  function ParseRelease(ecosystem: string): Option<Release> {
    FirstMatch(Strip(ecosystem))
  }

  function Parsed(names: seq<string>): seq<Release> {
    if names == [] then []
    else
      var r := ParseRelease(names[0]);
      (if r.Some? then [r.value] else []) + Parsed(names[1..])
  }

  /** For the three rebuilds of RHEL, the names whose releases count as the host's; empty
      for every other host. */
  function RebuildNames(eco: string): seq<string> {
    var alma, rocky, oracle := After(eco, "AlmaLinux:"), After(eco, "Rocky Linux:"), After(eco, "Oracle Linux:");
    if alma.Some? && IsNumber(alma.value) then [eco, "Red Hat:" + alma.value]
    else if rocky.Some? && IsNumber(rocky.value) then [eco, "Red Hat:" + rocky.value]
    else if oracle.Some? && IsNumber(oracle.value) then
      ["AlmaLinux:" + oracle.value, "Rocky Linux:" + oracle.value, "Red Hat:" + oracle.value]
    else []
  }

  function OwnRelease(eco: string): seq<Release> {
    var r := ParseRelease(eco);
    if r.Some? && !r.value.subscription then [r.value] else []
  }

  /** The releases behind `RebuildNames`, or the host's own alone. */
  function HostReleases(ecosystem: string): seq<Release> {
    var eco := Strip(ecosystem);
    var names := RebuildNames(eco);
    if names != [] then Parsed(names) else OwnRelease(eco)
  }

  /** April releases of even years are long-term; `None` for other months. */
  function UbuntuEcosystem(version: string): Option<string> {
    var parts := Dotted(version);
    if IsYearMonth(parts) && parts.value.1 in {"04", "10"} then
      if parts.value.1 == "04" && Value(parts.value.0) % 2 == 0 then Some("Ubuntu:" + version + ":LTS")
      else Some("Ubuntu:" + version)
    else None
  }

  const RHEL_STREAMS: seq<string> := ["baseos", "appstream", "crb"]

  /** The key each family's ecosystems are written with. */
  predicate WellKeyed(r: Release) {
    !r.subscription &&
    match r.family
    case Debian => |r.key| == 1 && r.key[0] < 100
    case Ubuntu => |r.key| == 2 && r.key[0] < 100 && r.key[1] < 100
    case Alpine => |r.key| == 2
    case OpenSuseLeap => |r.key| == 2
    case _ => |r.key| == 1
  }

  function UbuntuQuery(key: seq<nat>): string
    requires |key| == 2 && key[0] < 100 && key[1] < 100
  {
    var version := TwoDigits(key[0]) + "." + TwoDigits(key[1]);
    var known := UbuntuEcosystem(version);
    if known.Some? then known.value else "Ubuntu:" + version
  }

  /** The ecosystems OSV is asked about for one release. */
  function QueriesFor(r: Release): seq<string>
    requires WellKeyed(r)
  {
    match r.family
    case Debian => ["Debian:" + Decimal(r.key[0])]
    case Ubuntu => [UbuntuQuery(r.key)]
    case Alpine => ["Alpine:v" + Decimal(r.key[0]) + "." + Decimal(r.key[1])]
    case AlmaLinux => ["AlmaLinux:" + Decimal(r.key[0])]
    case RockyLinux => ["Rocky Linux:" + Decimal(r.key[0])]
    case RedHat => seq(|RHEL_STREAMS|, i requires 0 <= i < |RHEL_STREAMS| =>
                         "Red Hat:enterprise_linux:" + Decimal(r.key[0]) + "::" + RHEL_STREAMS[i])
    case OpenSuseLeap => ["openSUSE:Leap " + Decimal(r.key[0]) + "." + Decimal(r.key[1])]
  }

  /** `list(dict.fromkeys(queries))`: first occurrences, in order. */
  function Distinct(queries: seq<string>): (r: seq<string>)
    ensures forall q :: q in r <==> q in queries
    ensures forall i, j :: 0 <= i < j < |r| ==> r[i] != r[j]
  {
    if queries == [] then []
    else
      var init := Distinct(queries[..|queries| - 1]);
      var last := queries[|queries| - 1];
      if last in init then init else init + [last]
  }

  /** Drops a written zero epoch. */
  function DisplayVersion(version: string): string {
    if "0:" <= version then version[2..] else version
  }

  function AllQueries(releases: seq<Release>): seq<string>
    requires forall r :: r in releases ==> WellKeyed(r)
  {
    if releases == [] then []
    else AllQueries(releases[..|releases| - 1]) + QueriesFor(releases[|releases| - 1])
  }

  /** The release-specific ecosystems OSV is asked about for a host. */
  method ReleaseQueryEcosystems(host: string) returns (queries: seq<string>)
    ensures forall r :: r in HostReleases(host) ==> WellKeyed(r)
    ensures queries == Distinct(AllQueries(HostReleases(host)))
  {
    HostReleasesWellKeyed(host);
    var releases := HostReleases(host);
    var all: seq<string> := [];
    for i := 0 to |releases|
      invariant all == AllQueries(releases[..i])
    {
      assert releases[..i + 1][..i] == releases[..i];
      all := all + QueriesFor(releases[i]);
    }
    assert releases[..|releases|] == releases;
    queries := Distinct(all);
  }

  // Reading back what is asked.

  lemma AfterPrefix(prefix: string, rest: string)
    ensures After(prefix + rest, prefix) == Some(rest)
  {
  }

  lemma DottedReadsBack(a: string, b: string)
    requires IsNumber(a) && IsNumber(b)
    ensures Dotted(a + "." + b) == Some((a, b))
  {
    var text := a + "." + b;
    assert text[|a|] == '.' && text[0..|a|] == a && text[|a| + 1..] == b;
    DigitsEndAt(text, 0, |a|);
  }

  lemma PatternWellKeyed(k: nat, eco: string)
    requires k < 9
    ensures var r := Pattern(k, eco);
            r.Some? ==> if r.value.subscription then r.value.family == Ubuntu && PRO <= eco else WellKeyed(r.value)
  {
  }

  lemma {:induction false} FirstMatchWellKeyed(eco: string, k: nat)
    requires k <= 9
    ensures var r := FirstMatch(eco, k);
            r.Some? ==> if r.value.subscription then r.value.family == Ubuntu && PRO <= eco else WellKeyed(r.value)
    decreases 9 - k
  {
    if k < 9 {
      PatternWellKeyed(k, eco);
      FirstMatchWellKeyed(eco, k + 1);
    }
  }

  /** Only an Ubuntu Pro name reads as a subscription; every other release has the key
      its family is asked about by. */
  lemma ParsedWellKeyed(ecosystem: string)
    ensures var r := ParseRelease(ecosystem);
            r.Some? ==> if r.value.subscription then r.value.family == Ubuntu && PRO <= Strip(ecosystem)
                        else WellKeyed(r.value)
  {
    FirstMatchWellKeyed(Strip(ecosystem), 0);
  }

  /** No other pattern reads an Ubuntu Pro name. */
  lemma ProOnly(eco: string, k: nat)
    requires PRO <= eco && k < 9 && k != 1
    ensures Pattern(k, eco) == None
  {
    assert eco[0] == 'U' && eco[7] == 'P';
  }

  /** ... and every Ubuntu Pro name that reads as a release reads as a subscription. */
  lemma ProIsSubscription(ecosystem: string)
    requires PRO <= Strip(ecosystem) && ParseRelease(ecosystem).Some?
    ensures ParseRelease(ecosystem).value.subscription
  {
    var eco := Strip(ecosystem);
    forall i | 0 <= i < 9 && i != 1 ensures Pattern(i, eco).None? {
      ProOnly(eco, i);
    }
    if Pattern(1, eco).Some? {
      FirstMatchIs(eco, 0, 1);
    } else {
      FirstMatchNone(eco, 0);
    }
  }

  predicate NotUbuntu(name: string) {
    name != "" && !IsSpace(name[0]) && name[0] != 'U'
  }

  lemma ParsedElsewhere(name: string)
    requires NotUbuntu(name)
    ensures var r := ParseRelease(name); r.Some? ==> WellKeyed(r.value)
  {
    StripFirst(name);
    ParsedWellKeyed(name);
    assert PRO[0] == 'U';
  }

  lemma {:induction false} ParsedNamesWellKeyed(names: seq<string>)
    requires forall n :: n in names ==> NotUbuntu(n)
    ensures forall r :: r in Parsed(names) ==> WellKeyed(r)
  {
    if names != [] {
      assert NotUbuntu(names[0]);
      ParsedElsewhere(names[0]);
      ParsedNamesWellKeyed(names[1..]);
    }
  }

  lemma RebuildNamesNotUbuntu(eco: string)
    ensures forall n :: n in RebuildNames(eco) ==> NotUbuntu(n)
  {
  }

  lemma HostReleasesWellKeyed(host: string)
    ensures forall r :: r in HostReleases(host) ==> WellKeyed(r)
  {
    var eco := Strip(host);
    RebuildNamesNotUbuntu(eco);
    ParsedNamesWellKeyed(RebuildNames(eco));
    ParsedWellKeyed(eco);
  }

  /** The same release, whatever title it goes by. */
  predicate SameRelease(r: Release, s: Release) {
    r.family == s.family && r.key == s.key && !s.subscription
  }

  predicate Names(query: string, r: Release) {
    var parsed := ParseRelease(query);
    parsed.Some? && SameRelease(r, parsed.value)
  }

  /** How a release is called in a note. */
  predicate TitleIs(ecosystem: string, title: string) {
    ParseRelease(ecosystem).Some? && ParseRelease(ecosystem).value.title == title
  }

  /** How every string a pattern matches begins. */
  function Opening(k: nat): string
    requires k < 9
  {
    ["D", "Ubuntu:P", "U", "Alp", "Alm", "Ro", "Re", "Re", "o"][k]
  }

  lemma PatternOpening(k: nat, eco: string)
    requires k < 9 && Pattern(k, eco).Some?
    ensures Opening(k) <= eco
  {
  }

  lemma {:induction false} FirstMatchNone(eco: string, k: nat)
    requires k <= 9 && forall i :: k <= i < 9 ==> Pattern(i, eco).None?
    ensures FirstMatch(eco, k) == None
    decreases 9 - k
  {
    if k < 9 {
      FirstMatchNone(eco, k + 1);
    }
  }

  /** A rolling distribution's name is no release. */
  lemma TumbleweedIsNoRelease()
    ensures ParseRelease("openSUSE:Tumbleweed") == None
  {
    var eco := "openSUSE:Tumbleweed";
    StripNothing(eco);
    assert eco[9] == 'T' && "openSUSE:Leap "[9] == 'L';
    forall i | 0 <= i < 9 ensures Pattern(i, eco).None? {
      if i < 8 && Pattern(i, eco).Some? {
        PatternOpening(i, eco);
      }
    }
    FirstMatchNone(eco, 0);
  }

  lemma {:induction false} FirstMatchIs(eco: string, k: nat, n: nat)
    requires k <= n < 9 && Pattern(n, eco).Some?
    requires forall i :: k <= i < n ==> Pattern(i, eco).None?
    ensures FirstMatch(eco, k) == Pattern(n, eco)
    decreases n - k
  {
    if k < n {
      FirstMatchIs(eco, k + 1, n);
    }
  }

  /** The first characters that leave the n-th pattern as the first that can open. */
  predicate FirstOpened(query: string, n: nat) {
    |query| >= 8 &&
    match n
    case 0 => true
    case 2 => query[0] == 'U' && query[7] != 'P'
    case 3 => query[0] == 'A' && query[2] == 'p'
    case 4 => query[0] == 'A' && query[2] == 'm'
    case 5 => query[0] == 'R'
    case 6 => query[0] == 'R' && query[1] == 'e'
    case 8 => query[0] == 'o'
    case _ => false
  }

  lemma NothingOpensBefore(query: string, n: nat, i: nat)
    requires i < n < 9 && FirstOpened(query, n)
    ensures !(Opening(i) <= query)
  {
    assert Opening(1)[7] == 'P' && Opening(3)[2] == 'p';
  }

  /** A query that one pattern reads as `r`, and that no earlier pattern can open. */
  lemma NamedBy(query: string, n: nat, r: Release)
    requires n < 9 && Pattern(n, query).Some? && SameRelease(r, Pattern(n, query).value)
    requires Strip(query) == query && FirstOpened(query, n)
    ensures Names(query, r) && ParseRelease(query) == Pattern(n, query)
  {
    forall i | 0 <= i < n ensures Pattern(i, query).None? {
      if Pattern(i, query).Some? {
        PatternOpening(i, query);
        NothingOpensBefore(query, n, i);
      }
    }
    FirstMatchIs(query, 0, n);
  }

  lemma EndsWithNumber(prefix: string, number: string)
    requires prefix != "" && !IsSpace(prefix[0]) && IsNumber(number)
    ensures Strip(prefix + number) == prefix + number
  {
    StripNothing(prefix + number);
  }

  lemma DebianNames(n: nat)
    requires n < 100
    ensures Names("Debian:" + Decimal(n), Release(Debian, [n], ""))
    ensures TitleIs("Debian:" + Decimal(n), "Debian " + Decimal(n))
  {
    var p := "Debian:";
    EndsWithNumber(p, Decimal(n));
    AfterPrefix(p, Decimal(n));
    NamedBy(p + Decimal(n), 0, Release(Debian, [n], ""));
  }

  lemma AlmaNames(n: nat)
    ensures Names("AlmaLinux:" + Decimal(n), Release(AlmaLinux, [n], ""))
    ensures TitleIs("AlmaLinux:" + Decimal(n), "AlmaLinux" + " " + Decimal(n))
  {
    var p := "AlmaLinux" + ":";
    assert p == "AlmaLinux:";
    EndsWithNumber(p, Decimal(n));
    AfterPrefix(p, Decimal(n));
    NamedBy(p + Decimal(n), 4, Release(AlmaLinux, [n], ""));
  }

  lemma RockyNames(n: nat)
    ensures Names("Rocky Linux:" + Decimal(n), Release(RockyLinux, [n], ""))
    ensures TitleIs("Rocky Linux:" + Decimal(n), "Rocky Linux" + " " + Decimal(n))
  {
    var p := "Rocky Linux" + ":";
    assert p == "Rocky Linux:";
    EndsWithNumber(p, Decimal(n));
    AfterPrefix(p, Decimal(n));
    NamedBy(p + Decimal(n), 5, Release(RockyLinux, [n], ""));
  }

  lemma DottedQuery(prefix: string, a: nat, b: nat) returns (query: string)
    requires prefix != "" && !IsSpace(prefix[0])
    ensures query == prefix + Decimal(a) + "." + Decimal(b)
    ensures Strip(query) == query && prefix <= query
    ensures After(query, prefix).Some?
    ensures Dotted(After(query, prefix).value) == Some((Decimal(a), Decimal(b)))
    ensures After(query, prefix).value == Decimal(a) + "." + Decimal(b)
  {
    query := prefix + Decimal(a) + "." + Decimal(b);
    assert query == prefix + (Decimal(a) + "." + Decimal(b));
    EndsWithNumber(prefix + Decimal(a) + ".", Decimal(b));
    AfterPrefix(prefix, Decimal(a) + "." + Decimal(b));
    DottedReadsBack(Decimal(a), Decimal(b));
  }

  lemma AlpineReads(query: string, x: string, y: string)
    requires IsNumber(x) && IsNumber(y) && "Alpine:v" <= query
    requires After(query, "Alpine:v").Some? && Dotted(After(query, "Alpine:v").value) == Some((x, y))
    ensures FirstOpened(query, 3) && ParseAlpine(query).Some?
    ensures ParseAlpine(query).value.family == Alpine && ParseAlpine(query).value.key == [Value(x), Value(y)]
    ensures ParseAlpine(query).value.title == "Alpine " + After(query, "Alpine:v").value
  {
  }

  lemma LeapReads(query: string, x: string, y: string)
    requires IsNumber(x) && IsNumber(y) && "openSUSE:Leap " <= query
    requires After(query, "openSUSE:Leap ").Some? && Dotted(After(query, "openSUSE:Leap ").value) == Some((x, y))
    ensures FirstOpened(query, 8) && ParseLeap(query).Some?
    ensures ParseLeap(query).value.family == OpenSuseLeap && ParseLeap(query).value.key == [Value(x), Value(y)]
    ensures ParseLeap(query).value.title == "openSUSE Leap " + After(query, "openSUSE:Leap ").value
  {
  }

  lemma AlpineNames(a: nat, b: nat)
    ensures Names("Alpine:v" + Decimal(a) + "." + Decimal(b), Release(Alpine, [a, b], ""))
    ensures TitleIs("Alpine:v" + Decimal(a) + "." + Decimal(b), "Alpine " + (Decimal(a) + "." + Decimal(b)))
  {
    var query := DottedQuery("Alpine:v", a, b);
    AlpineReads(query, Decimal(a), Decimal(b));
    NamedBy(query, 3, Release(Alpine, [a, b], ""));
  }

  lemma LeapNames(a: nat, b: nat)
    ensures Names("openSUSE:Leap " + Decimal(a) + "." + Decimal(b), Release(OpenSuseLeap, [a, b], ""))
    ensures TitleIs("openSUSE:Leap " + Decimal(a) + "." + Decimal(b), "openSUSE Leap " + (Decimal(a) + "." + Decimal(b)))
  {
    var query := DottedQuery("openSUSE:Leap ", a, b);
    LeapReads(query, Decimal(a), Decimal(b));
    NamedBy(query, 8, Release(OpenSuseLeap, [a, b], ""));
  }

  lemma StreamQuery(prefix: string, n: nat, stream: string) returns (query: string, rest: string)
    requires prefix != "" && !IsSpace(prefix[0])
    requires stream != "" && forall k :: 0 <= k < |stream| ==> 'a' <= stream[k] <= 'z' || stream[k] == '_'
    ensures query == prefix + Decimal(n) + "::" + stream && prefix <= query
    ensures Strip(query) == query && After(query, prefix) == Some(rest)
    ensures var e := DigitsEnd(rest);
            && 0 < e && e + 2 < |rest| && rest[..e] == Decimal(n) && rest[e..e + 2] == "::"
            && forall k :: e + 2 <= k < |rest| ==> 'a' <= rest[k] <= 'z' || rest[k] == '_'
  {
    var d := Decimal(n);
    rest := StreamRest(d, stream);
    query := prefix + d + "::" + stream;
    assert query == prefix + rest;
    AfterPrefix(prefix, rest);
    StripNothing(query);
  }

  lemma StreamRest(d: string, stream: string) returns (rest: string)
    requires IsNumber(d) && stream != "" && forall k :: 0 <= k < |stream| ==> 'a' <= stream[k] <= 'z' || stream[k] == '_'
    ensures rest == d + "::" + stream && rest[|rest| - 1] == stream[|stream| - 1]
    ensures var e := DigitsEnd(rest);
            && 0 < e && e + 2 < |rest| && rest[..e] == d && rest[e..e + 2] == "::"
            && forall k :: e + 2 <= k < |rest| ==> 'a' <= rest[k] <= 'z' || rest[k] == '_'
  {
    rest := d + "::" + stream;
    assert rest[0..|d|] == d && rest[|d|..|d| + 2] == "::";
    DigitsEndAt(rest, 0, |d|);
    assert forall k :: |d| + 2 <= k < |rest| ==> rest[k] == stream[k - |d| - 2];
  }

  lemma StreamReads(query: string, rest: string, n: nat)
    requires "Red Hat:enterprise_linux:" <= query && After(query, "Red Hat:enterprise_linux:") == Some(rest)
    requires var e := DigitsEnd(rest);
             && 0 < e && e + 2 < |rest| && rest[..e] == Decimal(n) && rest[e..e + 2] == "::"
             && forall k :: e + 2 <= k < |rest| ==> 'a' <= rest[k] <= 'z' || rest[k] == '_'
    ensures FirstOpened(query, 6) && ParseRedHatStream(query).Some?
    ensures ParseRedHatStream(query).value.key == [n] && ParseRedHatStream(query).value.family == RedHat
    ensures ParseRedHatStream(query).value.title == "RHEL " + Decimal(n)
  {
  }

  lemma RedHatNames(n: nat, i: nat)
    requires i < |RHEL_STREAMS|
    ensures Names("Red Hat:enterprise_linux:" + Decimal(n) + "::" + RHEL_STREAMS[i], Release(RedHat, [n], ""))
    ensures TitleIs("Red Hat:enterprise_linux:" + Decimal(n) + "::" + RHEL_STREAMS[i], "RHEL " + Decimal(n))
  {
    var query, rest := StreamQuery("Red Hat:enterprise_linux:", n, RHEL_STREAMS[i]);
    StreamReads(query, rest, n);
    NamedBy(query, 6, Release(RedHat, [n], ""));
  }

  lemma UbuntuNames(y: nat, m: nat)
    requires y < 100 && m < 100
    ensures var version := TwoDigits(y) + "." + TwoDigits(m);
            && Names("Ubuntu:" + version, Release(Ubuntu, [y, m], ""))
            && Names("Ubuntu:" + version + ":LTS", Release(Ubuntu, [y, m], ""))
            && TitleIs("Ubuntu:" + version, "Ubuntu " + version)
            && TitleIs("Ubuntu:" + version + ":LTS", "Ubuntu " + version + " LTS")
  {
    var prefix := "Ubuntu:";
    var version := TwoDigits(y) + "." + TwoDigits(m);
    DottedReadsBack(TwoDigits(y), TwoDigits(m));
    UbuntuNamesWith(version, [y, m], "");
    UbuntuNamesWith(version, [y, m], ":LTS");
    assert prefix + version + "" == prefix + version && "Ubuntu " + version + "" == "Ubuntu " + version;
  }

  lemma UbuntuNamesWith(version: string, key: seq<nat>, lts: string)
    requires IsYearMonth(Dotted(version)) && key == PairKey(Dotted(version).value)
    requires lts in {"", ":LTS"}
    ensures Names("Ubuntu:" + version + lts, Release(Ubuntu, key, ""))
    ensures TitleIs("Ubuntu:" + version + lts, "Ubuntu " + version + if lts == "" then "" else " LTS")
  {
    var prefix, rest := "Ubuntu:", version + lts;
    var query := prefix + version + lts;
    assert query == prefix + rest;
    AfterPrefix(prefix, rest);
    StripNothing(query);
    assert rest[|version|..] == lts && rest[..|version|] == version;
    assert query[7] == version[0];
    assert WithoutLts(rest).0 == version;
    NamedBy(query, 2, Release(Ubuntu, key, ""));
  }

  lemma UbuntuQueryNames(key: seq<nat>)
    requires |key| == 2 && key[0] < 100 && key[1] < 100
    ensures Names(UbuntuQuery(key), Release(Ubuntu, key, ""))
  {
    UbuntuNames(key[0], key[1]);
    assert key == [key[0], key[1]];
  }

  /** Every ecosystem asked about for a release reads back as that release. */
  lemma QueriesName(r: Release, query: string)
    requires WellKeyed(r) && query in QueriesFor(r)
    ensures Names(query, r)
  {
    match r.family {
      case Debian => DebianNames(r.key[0]);
      case Ubuntu => UbuntuQueryNames(r.key);
      case Alpine => AlpineNames(r.key[0], r.key[1]);
      case AlmaLinux => AlmaNames(r.key[0]);
      case RockyLinux => RockyNames(r.key[0]);
      case OpenSuseLeap => LeapNames(r.key[0], r.key[1]);
      case RedHat =>
        var i :| 0 <= i < |RHEL_STREAMS| && query == QueriesFor(r)[i];
        RedHatNames(r.key[0], i);
    }
    assert |r.key| == 1 ==> r.key == [r.key[0]];
    assert |r.key| == 2 ==> r.key == [r.key[0], r.key[1]];
  }

  // Which releases apply to a host of a rebuild.

  /** The ninth character tells a host's RHEL release from a stream's. */
  lemma NoStream(query: string)
    requires |query| > 8 && IsDigit(query[8])
    ensures ParseRedHatStream(query) == None
  {
    assert "Red Hat:enterprise_linux:"[8] == 'e';
  }

  lemma NamedByRedHat(query: string, r: Release)
    requires ParseRedHatStream(query) == None && ParseRedHat(query).Some? && SameRelease(r, ParseRedHat(query).value)
    requires Strip(query) == query && FirstOpened(query, 6)
    ensures Names(query, r) && ParseRelease(query) == ParseRedHat(query)
  {
    forall i | 0 <= i < 6 ensures Pattern(i, query).None? {
      if Pattern(i, query).Some? {
        PatternOpening(i, query);
        NothingOpensBefore(query, 6, i);
      }
    }
    FirstMatchIs(query, 0, 7);
  }

  lemma RedHatHostNames(n: nat)
    ensures Names("Red Hat:" + Decimal(n), Release(RedHat, [n], ""))
    ensures TitleIs("Red Hat:" + Decimal(n), "RHEL " + Decimal(n))
  {
    var p := "Red Hat:";
    EndsWithNumber(p, Decimal(n));
    AfterPrefix(p, Decimal(n));
    NoStream(p + Decimal(n));
    NamedByRedHat(p + Decimal(n), Release(RedHat, [n], ""));
  }

  lemma HostOf(eco: string)
    requires Strip(eco) == eco && RebuildNames(eco) != []
    ensures HostReleases(eco) == Parsed(RebuildNames(eco))
  {
  }

  lemma AlmaRebuild(number: string)
    requires IsNumber(number)
    ensures RebuildNames("AlmaLinux:" + number) == ["AlmaLinux:" + number, "Red Hat:" + number]
  {
    AfterPrefix("AlmaLinux:", number);
  }

  lemma RockyRebuild(number: string)
    requires IsNumber(number)
    ensures RebuildNames("Rocky Linux:" + number) == ["Rocky Linux:" + number, "Red Hat:" + number]
  {
    AfterPrefix("Rocky Linux:", number);
    assert "Rocky Linux:"[0] == 'R' && "AlmaLinux:"[0] == 'A';
  }

  lemma OracleRebuild(number: string)
    requires IsNumber(number)
    ensures RebuildNames("Oracle Linux:" + number) == ["AlmaLinux:" + number, "Rocky Linux:" + number, "Red Hat:" + number]
  {
    AfterPrefix("Oracle Linux:", number);
    assert "Oracle Linux:"[0] == 'O' && "AlmaLinux:"[0] == 'A' && "Rocky Linux:"[0] == 'R';
  }

  /** Names read one after the other as the releases given. */
  ghost predicate ReadAs(releases: seq<Release>, expected: seq<Release>) {
    |releases| == |expected| && forall i :: 0 <= i < |releases| ==> SameRelease(expected[i], releases[i])
  }

  lemma ParsedTwo(a: string, b: string, r: Release, s: Release)
    requires Names(a, r) && Names(b, s)
    ensures ReadAs(Parsed([a, b]), [r, s])
  {
    assert [a, b][1..] == [b] && [b][1..] == [];
    assert Parsed([b]) == [ParseRelease(b).value];
  }

  lemma ParsedThree(a: string, b: string, c: string, r: Release, s: Release, t: Release)
    requires Names(a, r) && Names(b, s) && Names(c, t)
    ensures ReadAs(Parsed([a, b, c]), [r, s, t])
  {
    assert [a, b, c][1..] == [b, c];
    ParsedTwo(b, c, s, t);
  }

  /** Two releases for AlmaLinux, its own before RHEL's. */
  lemma AlmaHost(n: nat)
    ensures ReadAs(HostReleases("AlmaLinux:" + Decimal(n)), [Release(AlmaLinux, [n], ""), Release(RedHat, [n], "")])
  {
    EndsWithNumber("AlmaLinux:", Decimal(n));
    AlmaRebuild(Decimal(n));
    HostOf("AlmaLinux:" + Decimal(n));
    AlmaNames(n);
    RedHatHostNames(n);
    ParsedTwo("AlmaLinux:" + Decimal(n), "Red Hat:" + Decimal(n), Release(AlmaLinux, [n], ""), Release(RedHat, [n], ""));
  }

  /** Two for Rocky Linux. */
  lemma RockyHost(n: nat)
    ensures ReadAs(HostReleases("Rocky Linux:" + Decimal(n)), [Release(RockyLinux, [n], ""), Release(RedHat, [n], "")])
  {
    EndsWithNumber("Rocky Linux:", Decimal(n));
    RockyRebuild(Decimal(n));
    HostOf("Rocky Linux:" + Decimal(n));
    RockyNames(n);
    RedHatHostNames(n);
    ParsedTwo("Rocky Linux:" + Decimal(n), "Red Hat:" + Decimal(n), Release(RockyLinux, [n], ""), Release(RedHat, [n], ""));
  }

  /** Three for Oracle Linux, none of them its own. */
  lemma OracleHost(n: nat)
    ensures ReadAs(HostReleases("Oracle Linux:" + Decimal(n)),
                   [Release(AlmaLinux, [n], ""), Release(RockyLinux, [n], ""), Release(RedHat, [n], "")])
  {
    EndsWithNumber("Oracle Linux:", Decimal(n));
    OracleRebuild(Decimal(n));
    HostOf("Oracle Linux:" + Decimal(n));
    AlmaNames(n);
    RockyNames(n);
    RedHatHostNames(n);
    ParsedThree("AlmaLinux:" + Decimal(n), "Rocky Linux:" + Decimal(n), "Red Hat:" + Decimal(n),
                Release(AlmaLinux, [n], ""), Release(RockyLinux, [n], ""), Release(RedHat, [n], ""));
  }

  ghost predicate NamesOneOf(query: string, releases: seq<Release>) {
    exists k :: 0 <= k < |releases| && Names(query, releases[k])
  }

  lemma {:induction false} AllQueriesName(releases: seq<Release>, query: string)
    requires forall r :: r in releases ==> WellKeyed(r)
    requires query in AllQueries(releases)
    ensures NamesOneOf(query, releases)
  {
    var n := |releases| - 1;
    var init, last := releases[..n], releases[n];
    if query in QueriesFor(last) {
      QueriesName(last, query);
      assert Names(query, releases[n]);
    } else {
      AllQueriesName(init, query);
      var k :| 0 <= k < |init| && Names(query, init[k]);
      assert Names(query, releases[k]);
    }
  }

  /** Every release-specific ecosystem asked about a host names one of the host's own
      releases. */
  lemma QueriedEcosystemsAreTheHosts(host: string)
    ensures forall r :: r in HostReleases(host) ==> WellKeyed(r)
    ensures forall q :: q in Distinct(AllQueries(HostReleases(host))) ==> NamesOneOf(q, HostReleases(host))
  {
    HostReleasesWellKeyed(host);
    forall q | q in Distinct(AllQueries(HostReleases(host))) ensures NamesOneOf(q, HostReleases(host)) {
      AllQueriesName(HostReleases(host), q);
    }
  }

  ghost predicate AskedAbout(queries: seq<string>, r: Release) {
    exists q :: q in queries && Names(q, r)
  }

  lemma SomethingAsked(r: Release)
    requires WellKeyed(r)
    ensures QueriesFor(r) != [] && AskedAbout(QueriesFor(r), r)
  {
    var q := QueriesFor(r)[0];
    QueriesName(r, q);
  }

  lemma {:induction false} AllAsked(releases: seq<Release>, r: Release, query: string)
    requires (forall s :: s in releases ==> WellKeyed(s)) && r in releases && query in QueriesFor(r)
    ensures query in AllQueries(releases)
  {
    var n := |releases| - 1;
    if r != releases[n] {
      assert r in releases[..n];
      AllAsked(releases[..n], r, query);
    }
  }

  /** And about every one of the host's releases something is asked: for RHEL all three
      streams. */
  lemma EveryReleaseAsked(host: string, r: Release)
    requires (forall s :: s in HostReleases(host) ==> WellKeyed(s)) && r in HostReleases(host)
    ensures AskedAbout(Distinct(AllQueries(HostReleases(host))), r)
    ensures r.family == RedHat ==> forall stream :: stream in {"baseos", "appstream", "crb"} ==>
              "Red Hat:enterprise_linux:" + Decimal(r.key[0]) + "::" + stream in Distinct(AllQueries(HostReleases(host)))
  {
    forall q | q in QueriesFor(r) ensures q in AllQueries(HostReleases(host)) {
      AllAsked(HostReleases(host), r, q);
    }
    SomethingAsked(r);
    var q :| q in QueriesFor(r) && Names(q, r);
    if r.family == RedHat {
      StreamsAsked(r);
    }
  }

  lemma StreamsAsked(r: Release)
    requires WellKeyed(r) && r.family == RedHat
    ensures forall stream :: stream in {"baseos", "appstream", "crb"} ==>
              "Red Hat:enterprise_linux:" + Decimal(r.key[0]) + "::" + stream in QueriesFor(r)
  {
    var queries := QueriesFor(r);
    assert |queries| == |RHEL_STREAMS| == 3;
    forall i | 0 <= i < 3 ensures "Red Hat:enterprise_linux:" + Decimal(r.key[0]) + "::" + RHEL_STREAMS[i] in queries {
      assert queries[i] in queries;
    }
    assert RHEL_STREAMS[0] == "baseos" && RHEL_STREAMS[1] == "appstream" && RHEL_STREAMS[2] == "crb";
  }

  /** April releases of even years are asked about as long-term ones, no others. */
  lemma LongTermReleases(year: nat, month: nat)
    requires year < 100 && month < 100
    ensures UbuntuQuery([year, month]) ==
            if month == 4 && year % 2 == 0 then "Ubuntu:" + (TwoDigits(year) + "." + TwoDigits(month)) + ":LTS"
            else "Ubuntu:" + (TwoDigits(year) + "." + TwoDigits(month))
  {
    DottedReadsBack(TwoDigits(year), TwoDigits(month));
    assert TwoDigits(4) == "04" && TwoDigits(10) == "10";
    assert TwoDigits(month) == "04" ==> Value(TwoDigits(month)) == Value(TwoDigits(4));
  }

  // Hosts with no release but their own.

  lemma OwnHost(eco: string, r: Release)
    requires Strip(eco) == eco && Names(eco, r) && RebuildNames(eco) == []
    ensures ReadAs(HostReleases(eco), [r])
  {
  }

  /** A host of a distribution that rebuilds no other has its own release. */
  lemma DebianHost(n: nat)
    requires n < 100
    ensures ReadAs(HostReleases("Debian:" + Decimal(n)), [Release(Debian, [n], "")])
  {
    EndsWithNumber("Debian:", Decimal(n));
    DebianNames(n);
    OwnHost("Debian:" + Decimal(n), Release(Debian, [n], ""));
  }

  lemma RedHatHost(n: nat)
    ensures ReadAs(HostReleases("Red Hat:" + Decimal(n)), [Release(RedHat, [n], "")])
  {
    var eco := "Red Hat:" + Decimal(n);
    EndsWithNumber("Red Hat:", Decimal(n));
    RedHatHostNames(n);
    assert eco[1] == 'e' && "Rocky Linux:"[1] == 'o';
    OwnHost(eco, Release(RedHat, [n], ""));
  }

  lemma UbuntuHost(year: nat, month: nat)
    requires year < 100 && month < 100
    ensures ReadAs(HostReleases("Ubuntu:" + (TwoDigits(year) + "." + TwoDigits(month))), [Release(Ubuntu, [year, month], "")])
  {
    var version := TwoDigits(year) + "." + TwoDigits(month);
    UbuntuNames(year, month);
    StripNothing("Ubuntu:" + version);
    OwnHost("Ubuntu:" + version, Release(Ubuntu, [year, month], ""));
  }

  lemma NoRebuild(eco: string)
    requires |eco| > 2 && (eco[0] == 'A' ==> eco[2] == 'p') && eco[0] != 'R' && eco[0] != 'O'
    ensures RebuildNames(eco) == []
  {
    assert "AlmaLinux:"[2] == 'm';
  }

  lemma AlpineHost(a: nat, b: nat)
    ensures ReadAs(HostReleases("Alpine:v" + Decimal(a) + "." + Decimal(b)), [Release(Alpine, [a, b], "")])
  {
    var eco := DottedQuery("Alpine:v", a, b);
    AlpineNames(a, b);
    NoRebuild(eco);
    OwnHost(eco, Release(Alpine, [a, b], ""));
  }

  lemma LeapHost(a: nat, b: nat)
    ensures ReadAs(HostReleases("openSUSE:Leap " + Decimal(a) + "." + Decimal(b)), [Release(OpenSuseLeap, [a, b], "")])
  {
    var eco := DottedQuery("openSUSE:Leap ", a, b);
    LeapNames(a, b);
    NoRebuild(eco);
    OwnHost(eco, Release(OpenSuseLeap, [a, b], ""));
  }

  // Ubuntu Pro.

  lemma {:induction false} LettersEndAt(text: string, i: nat, e: nat)
    requires i <= e < |text| && text[e] == ':' && forall k :: i <= k < e ==> IsAlpha(text[k]) || text[k] == '-'
    ensures LettersEnd(text, i) == e
    decreases e - i
  {
    if i < e {
      LettersEndAt(text, i + 1, e);
    }
  }

  /** A subscription stream's name, with or without a flavour and a long-term mark, reads
      as the stream of that year and month. */
  lemma ProNames(flavour: string, year: nat, month: nat, lts: string)
    requires year < 100 && month < 100 && lts in {"", ":LTS"}
    requires flavour != "" ==> forall k :: 0 <= k < |flavour| ==> IsAlpha(flavour[k]) || flavour[k] == '-'
    ensures var version := TwoDigits(year) + "." + TwoDigits(month);
            var parsed := ParseRelease(PRO + ((if flavour == "" then "" else flavour + ":") + (version + lts)));
            parsed == Some(Release(Ubuntu, [year, month], "Ubuntu Pro (" + version + ")", true))
  {
    var version := TwoDigits(year) + "." + TwoDigits(month);
    var rest := (if flavour == "" then "" else flavour + ":") + (version + lts);
    DottedReadsBack(TwoDigits(year), TwoDigits(month));
    FlavourDropped(flavour, version + lts);
    LtsDropped(version, lts);
    ProReads(rest, version, year, month);
  }

  lemma FlavourDropped(flavour: string, rest: string)
    requires forall k :: 0 <= k < |flavour| ==> IsAlpha(flavour[k]) || flavour[k] == '-'
    requires rest != "" && IsDigit(rest[0])
    ensures WithoutFlavour((if flavour == "" then "" else flavour + ":") + rest) == rest
  {
    if flavour == "" {
      assert "" + rest == rest;
    } else {
      var text := flavour + ":" + rest;
      assert text[|flavour|] == ':' && text[|flavour| + 1..] == rest;
      LettersEndAt(text, 0, |flavour|);
    }
  }

  lemma LtsDropped(version: string, lts: string)
    requires lts in {"", ":LTS"} && |version| == 5 && IsDigit(version[1])
    ensures WithoutLts(version + lts).0 == version
  {
    var text := version + lts;
    assert text[|version|..] == lts && text[..|version|] == version;
  }

  lemma ProReads(rest: string, version: string, year: nat, month: nat)
    requires year < 100 && month < 100 && version == TwoDigits(year) + "." + TwoDigits(month)
    requires WithoutLts(WithoutFlavour(rest)).0 == version && Dotted(version) == Some((TwoDigits(year), TwoDigits(month)))
    requires rest != "" && !IsSpace(rest[|rest| - 1])
    ensures ParseRelease(PRO + rest) == Some(Release(Ubuntu, [year, month], "Ubuntu Pro (" + version + ")", true))
  {
    var eco := PRO + rest;
    AfterPrefix(PRO, rest);
    StripNothing(eco);
    ProOnly(eco, 0);
    FirstMatchIs(eco, 0, 1);
  }

  /** A written zero epoch is not shown; nothing else is taken off. */
  lemma ZeroEpochNotShown(version: string)
    ensures DisplayVersion("0:" + version) == version
    ensures !("0:" <= version) ==> DisplayVersion(version) == version
  {
  }

  /** The first place a query is asked. */
  predicate FirstAsked(queries: seq<string>, i: nat) {
    i < |queries| && forall j :: 0 <= j < i ==> queries[j] != queries[i]
  }

  /** Asking each once keeps the order in which they were first due. */
  lemma {:induction false} DistinctInOrder(queries: seq<string>, a: nat, b: nat) returns (i: nat, j: nat)
    requires a <= b < |Distinct(queries)|
    ensures FirstAsked(queries, i) && queries[i] == Distinct(queries)[a]
    ensures FirstAsked(queries, j) && queries[j] == Distinct(queries)[b]
    ensures a < b ==> i < j
  {
    var n := |queries| - 1;
    var init := Distinct(queries[..n]);
    if b < |init| {
      i, j := DistinctInOrder(queries[..n], a, b);
    } else {
      j := n;
      if a < |init| {
        var same;
        i, same := DistinctInOrder(queries[..n], a, a);
      } else {
        i := n;
      }
    }
  }
}
