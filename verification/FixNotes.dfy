/** What is said about a fix for a package on a host: `fix_suffix` in
    backend/app/scanner/osv_client.py, and what `ParseFix` then makes of it. */
module FixNotes {
  import opened Orders
  import opened Text
  import opened PackageIdentifier
  import opened Releases

  /** One affected entry of an advisory: the package it names, its ecosystem, and the
      first fixed version of its ranges. */
  datatype Block = Block(name: string, ecosystem: string, fixed: Option<string>)

  /** What is known about the host: its releases, and the ecosystems asked about them. */
  datatype Host = Host(releases: seq<Release>, asked: set<string>)

  predicate HasFix(b: Block) {
    b.fixed.Some? && b.fixed.value != ""
  }

  function PackageBlocks(affected: seq<Block>, package: string): seq<Block> {
    if affected == [] then []
    else
      var rest := PackageBlocks(affected[1..], package);
      var name := Lower(affected[0].name);
      if name != "" && name != Lower(package) then rest else [affected[0]] + rest
  }

  /** Whether an entry is about one of the host's own releases. */
  predicate IsOwn(ecosystem: string, host: Host) {
    || Lower(ecosystem) in host.asked
    || (var r := ParseRelease(ecosystem);
        && r.Some? && !r.value.subscription
        && exists k :: 0 <= k < |host.releases|
             && host.releases[k].family == r.value.family && host.releases[k].key == r.value.key)
  }

  predicate OwnBlock(b: Block, host: Host) {
    IsOwn(b.ecosystem, host)
  }

  predicate ExactBlock(b: Block, queried: string) {
    Lower(b.ecosystem) == Lower(queried)
  }

  function FirstFix(blocks: seq<Block>, keep: Block -> bool): (r: Option<Block>)
    ensures r.Some? ==> HasFix(r.value)
  {
    if blocks == [] then None
    else if HasFix(blocks[0]) && keep(blocks[0]) then Some(blocks[0])
    else FirstFix(blocks[1..], keep)
  }

  /** A fix in a release the host does not run: a later release before a subscription
      stream for the host's own, then by release, title and version. */
  datatype Newer = Newer(stream: nat, key: seq<nat>, title: string, fixed: string)

  /** Python's tuple comparison of release keys. */
  function ReleaseKeyCmp(x: seq<nat>, y: seq<nat>): int {
    Lex<int>(IntCmp, -1, x, y)
  }

  function NewerCmp(x: Newer, y: Newer): int {
    if x.stream != y.stream then IntCmp(x.stream, y.stream)
    else if ReleaseKeyCmp(x.key, y.key) != 0 then ReleaseKeyCmp(x.key, y.key)
    else if StrCmp(x.title, y.title) != 0 then StrCmp(x.title, y.title)
    else StrCmp(x.fixed, y.fixed)
  }

  /** Whether a release is one the host could move to, or pay for. */
  predicate IsLater(r: Release, h: Release) {
    r.family == h.family && if r.subscription then r.key == h.key else ReleaseKeyCmp(r.key, h.key) > 0
  }

  /** The candidates a fix in release `r` makes, one for each host release it is
      later than. */
  function NewerThan(r: Release, fixed: string, releases: seq<Release>): seq<Newer> {
    if releases == [] then []
    else
      (if IsLater(r, releases[0]) then [Newer(if r.subscription then 1 else 0, r.key, r.title, fixed)] else [])
      + NewerThan(r, fixed, releases[1..])
  }

  function Candidates(b: Block, releases: seq<Release>): seq<Newer> {
    var r := ParseRelease(b.ecosystem);
    if HasFix(b) && r.Some? then NewerThan(r.value, b.fixed.value, releases) else []
  }

  function NewerFixes(blocks: seq<Block>, releases: seq<Release>): seq<Newer> {
    if blocks == [] then []
    else
      var n := |blocks| - 1;
      NewerFixes(blocks[..n], releases) + Candidates(blocks[n], releases)
  }

  /** The note a finding carries. `display` names an ecosystem for a reader. */
  function FixNote(blocks: seq<Block>, host: Host, queried: string, display: string -> string): Note {
    if exists k :: 0 <= k < |blocks| && OwnBlock(blocks[k], host) then
      match FirstFix(blocks, b => OwnBlock(b, host))
      case Some(b) => FixedIn(b.fixed.value)
      case None =>
        var newer := NewerFixes(blocks, host.releases);
        if newer == [] || host.releases == [] then Nothing
        else
          var least := Least(NewerCmp, newer);
          FixedElsewhere(host.releases[0].title, least.title, DisplayVersion(least.fixed))
    else
      var exact := if host.releases == [] then FirstFix(blocks, b => ExactBlock(b, queried)) else None;
      match exact
      case Some(b) => FixedIn(b.fixed.value)
      case None =>
        match FirstFix(blocks, b => true)
        case Some(b) =>
          FixedUpstream(if b.ecosystem == "" then queried else display(b.ecosystem), DisplayVersion(b.fixed.value))
        case None => Nothing
  }

  // The two nested loops that gather the candidates.

  method CollectFrom(r: Release, fixed: string, releases: seq<Release>) returns (newer: seq<Newer>)
    ensures newer == NewerThan(r, fixed, releases)
  {
    newer := [];
    for j := 0 to |releases|
      invariant newer + NewerThan(r, fixed, releases[j..]) == NewerThan(r, fixed, releases)
    {
      assert releases[j..][1..] == releases[j + 1..];
      if IsLater(r, releases[j]) {
        newer := newer + [Newer(if r.subscription then 1 else 0, r.key, r.title, fixed)];
      }
    }
  }

  method CollectBlock(b: Block, releases: seq<Release>) returns (newer: seq<Newer>)
    ensures newer == Candidates(b, releases)
  {
    var r := ParseRelease(b.ecosystem);
    if !HasFix(b) || r.None? {
      return [];
    }
    newer := CollectFrom(r.value, b.fixed.value, releases);
  }

  method CollectNewer(blocks: seq<Block>, releases: seq<Release>) returns (newer: seq<Newer>)
    ensures newer == NewerFixes(blocks, releases)
  {
    newer := [];
    for i := 0 to |blocks|
      invariant newer == NewerFixes(blocks[..i], releases)
    {
      assert blocks[..i + 1][..i] == blocks[..i];
      var more := CollectBlock(blocks[i], releases);
      newer := newer + more;
    }
    assert blocks[..|blocks|] == blocks;
  }

  // What the choice means.

  lemma {:induction false} FirstFixIs(blocks: seq<Block>, keep: Block -> bool)
    ensures FirstFix(blocks, keep).None? <==> forall b :: b in blocks && HasFix(b) ==> !keep(b)
    ensures FirstFix(blocks, keep).Some? ==>
              var b := FirstFix(blocks, keep).value; b in blocks && HasFix(b) && keep(b)
  {
    if blocks != [] {
      FirstFixIs(blocks[1..], keep);
      assert forall b :: b in blocks ==> b == blocks[0] || b in blocks[1..];
    }
  }

  /** The k-th entry is the first with a fix among those kept. */
  predicate FixesFirst(blocks: seq<Block>, keep: Block -> bool, k: nat) {
    && k < |blocks| && HasFix(blocks[k]) && keep(blocks[k])
    && forall j :: 0 <= j < k && HasFix(blocks[j]) ==> !keep(blocks[j])
  }

  lemma {:induction false} FirstFixAt(blocks: seq<Block>, keep: Block -> bool) returns (k: nat)
    requires FirstFix(blocks, keep).Some?
    ensures FixesFirst(blocks, keep, k) && blocks[k] == FirstFix(blocks, keep).value
  {
    if HasFix(blocks[0]) && keep(blocks[0]) {
      k := 0;
    } else {
      var k' := FirstFixAt(blocks[1..], keep);
      k := k' + 1;
    }
  }

  /** One release key after another: greater at the first place they differ, or longer. */
  ghost predicate KeyAfter(x: seq<nat>, y: seq<nat>) {
    exists k :: 0 <= k < |x| && k <= |y| && x[..k] == y[..k] && (k < |y| ==> x[k] > y[k])
  }

  /** A release of the same family that comes after the host's, or the subscription stream
      of the very one it has. */
  ghost predicate MovesOn(r: Release, h: Release) {
    r.family == h.family && if r.subscription then r.key == h.key else KeyAfter(r.key, h.key)
  }

  lemma KeyCmpRest(x: seq<nat>, y: seq<nat>)
    requires x != [] && y != [] && x[0] == y[0]
    ensures ReleaseKeyCmp(x, y) == ReleaseKeyCmp(x[1..], y[1..])
    ensures KeyAfter(x, y) <==> KeyAfter(x[1..], y[1..])
  {
    if k :| 0 <= k < |x| && k <= |y| && x[..k] == y[..k] && (k < |y| ==> x[k] > y[k]) {
      assert k > 0 && x[1..][..k - 1] == x[..k][1..] && y[1..][..k - 1] == y[..k][1..];
    }
    var s, t := x[1..], y[1..];
    if k :| 0 <= k < |s| && k <= |t| && s[..k] == t[..k] && (k < |t| ==> s[k] > t[k]) {
      assert x[..k + 1] == [x[0]] + s[..k] && y[..k + 1] == [y[0]] + t[..k];
    }
  }

  lemma {:induction false} KeyAfterExactly(x: seq<nat>, y: seq<nat>)
    ensures ReleaseKeyCmp(x, y) > 0 <==> KeyAfter(x, y)
  {
    SameFront(x, y);
    if x != [] && y != [] && x[0] == y[0] {
      KeyCmpRest(x, y);
      KeyAfterExactly(x[1..], y[1..]);
    }
  }

  lemma SameFront(x: seq<nat>, y: seq<nat>)
    ensures x[..0] == y[..0]
    ensures forall k :: 0 < k <= |x| && k <= |y| && x[..k] == y[..k] ==> x[0] == y[0]
  {
    forall k | 0 < k <= |x| && k <= |y| && x[..k] == y[..k] ensures x[0] == y[0] {
      assert x[..k][0] == y[..k][0];
    }
  }

  lemma LaterExactly(r: Release, h: Release)
    ensures IsLater(r, h) <==> MovesOn(r, h)
  {
    KeyAfterExactly(r.key, h.key);
  }

  /** An entry with a fix for a release the host could move to, or pay for. */
  ghost predicate Movable(b: Block, releases: seq<Release>) {
    var r := ParseRelease(b.ecosystem);
    HasFix(b) && r.Some? && exists h :: h in releases && MovesOn(r.value, h)
  }

  /** A candidate is made by an entry with a fix for a release the host could move to. */
  ghost predicate Carries(b: Block, n: Newer, releases: seq<Release>) {
    Movable(b, releases) && n == CandidateOf(b)
  }

  function CandidateOf(b: Block): Newer
    requires HasFix(b) && ParseRelease(b.ecosystem).Some?
  {
    var r := ParseRelease(b.ecosystem).value;
    Newer(if r.subscription then 1 else 0, r.key, r.title, b.fixed.value)
  }

  lemma {:induction false} NewerThanCarries(r: Release, fixed: string, releases: seq<Release>)
    ensures forall n :: n in NewerThan(r, fixed, releases) <==>
              n == Newer(if r.subscription then 1 else 0, r.key, r.title, fixed)
              && exists h :: h in releases && MovesOn(r, h)
  {
    if releases != [] {
      NewerThanCarries(r, fixed, releases[1..]);
      LaterExactly(r, releases[0]);
      assert forall h :: h in releases <==> h == releases[0] || h in releases[1..];
    }
  }

  lemma CandidatesAre(b: Block, releases: seq<Release>)
    ensures forall n :: n in Candidates(b, releases) <==> Carries(b, n, releases)
  {
    if HasFix(b) && ParseRelease(b.ecosystem).Some? {
      NewerThanCarries(ParseRelease(b.ecosystem).value, b.fixed.value, releases);
    }
  }

  /** The candidates are those the movable entries make, and no others. */
  lemma {:induction false} NewerFixesCarried(blocks: seq<Block>, releases: seq<Release>)
    ensures forall n :: n in NewerFixes(blocks, releases) <==> exists b :: b in blocks && Carries(b, n, releases)
  {
    if blocks != [] {
      var n := |blocks| - 1;
      CandidatesAre(blocks[n], releases);
      NewerFixesCarried(blocks[..n], releases);
      assert forall b :: b in blocks <==> b == blocks[n] || b in blocks[..n];
    }
  }

  // Titles can be printed and read back.

  lemma PatternTitle(k: nat, eco: string)
    requires k < 9 && Pattern(k, eco).Some?
    ensures IsLabel(Pattern(k, eco).value.title)
  {
  }

  lemma {:induction false} FirstMatchTitle(eco: string, k: nat)
    requires k <= 9 && FirstMatch(eco, k).Some?
    ensures IsLabel(FirstMatch(eco, k).value.title)
    decreases 9 - k
  {
    if Pattern(k, eco).Some? {
      PatternTitle(k, eco);
    } else {
      FirstMatchTitle(eco, k + 1);
    }
  }

  lemma {:induction false} ParsedTitles(names: seq<string>)
    ensures forall r :: r in Parsed(names) ==> IsLabel(r.title)
  {
    if names != [] {
      if ParseRelease(names[0]).Some? {
        FirstMatchTitle(Strip(names[0]), 0);
      }
      ParsedTitles(names[1..]);
    }
  }

  lemma HostTitles(ecosystem: string)
    ensures forall r :: r in HostReleases(ecosystem) ==> IsLabel(r.title)
  {
    var eco := Strip(ecosystem);
    ParsedTitles(RebuildNames(eco));
    if ParseRelease(eco).Some? {
      FirstMatchTitle(Strip(eco), 0);
    }
  }

  // The note, read back.

  ghost predicate OwnFixed(blocks: seq<Block>, host: Host) {
    exists b :: b in blocks && HasFix(b) && OwnBlock(b, host)
  }

  ghost predicate ExactFixed(blocks: seq<Block>, host: Host, queried: string) {
    && host.releases == [] && (forall b :: b in blocks ==> !OwnBlock(b, host))
    && exists b :: b in blocks && HasFix(b) && ExactBlock(b, queried)
  }

  /** Enough for every note to be readable: each fixed version survives printing, and so
      does the name shown for every ecosystem that is named. */
  ghost predicate Printable(blocks: seq<Block>, host: Host, queried: string, display: string -> string) {
    && (forall b :: b in blocks && HasFix(b) ==>
          && Readable(FixedIn(b.fixed.value)) && DisplayVersion(b.fixed.value) != ""
          && (b.ecosystem != "" ==> IsLabel(display(b.ecosystem))))
    && IsLabel(queried) && (forall h :: h in host.releases ==> IsLabel(h.title))
  }

  lemma DisplayedReadable(version: string)
    requires Readable(FixedIn(version)) && DisplayVersion(version) != ""
    ensures Readable(FixedIn(DisplayVersion(version)))
  {
  }

  lemma OwnSomewhere(blocks: seq<Block>, host: Host)
    ensures (exists k :: 0 <= k < |blocks| && OwnBlock(blocks[k], host)) <==> exists b :: b in blocks && OwnBlock(b, host)
  {
  }

  /** `FixedIn` is written in two cases only: `OwnFixed` and `ExactFixed`. */
  lemma NoteIsFixedIn(blocks: seq<Block>, host: Host, queried: string, display: string -> string)
    ensures FixNote(blocks, host, queried, display).FixedIn? <==>
              OwnFixed(blocks, host) || ExactFixed(blocks, host, queried)
  {
    FirstFixIs(blocks, b => OwnBlock(b, host));
    FirstFixIs(blocks, b => ExactBlock(b, queried));
    OwnSomewhere(blocks, host);
  }

  lemma NoteReadable(blocks: seq<Block>, host: Host, queried: string, display: string -> string)
    requires Printable(blocks, host, queried, display)
    ensures Readable(FixNote(blocks, host, queried, display))
  {
    FirstFixIs(blocks, b => OwnBlock(b, host));
    FirstFixIs(blocks, b => ExactBlock(b, queried));
    FirstFixIs(blocks, b => true);
    var note := FixNote(blocks, host, queried, display);
    var newer := NewerFixes(blocks, host.releases);
    match note {
      case FixedElsewhere(_, title, version) =>
        NewerFixesCarried(blocks, host.releases);
        var b :| b in blocks && Carries(b, Least(NewerCmp, newer), host.releases);
        FirstMatchTitle(Strip(b.ecosystem), 0);
        DisplayedReadable(b.fixed.value);
        assert host.releases[0] in host.releases;
      case FixedUpstream(title, version) =>
        DisplayedReadable(FirstFix(blocks, b => true).value.fixed.value);
      case _ =>
    }
  }

  lemma ReleaseKeyCmpLaws(x: seq<nat>, y: seq<nat>, z: seq<nat>)
    ensures ReleaseKeyCmp(x, y) == -ReleaseKeyCmp(y, x)
    ensures ReleaseKeyCmp(x, y) <= 0 && ReleaseKeyCmp(y, z) <= 0 ==> ReleaseKeyCmp(x, z) <= 0
    ensures ReleaseKeyCmp(x, z) == 0 && ReleaseKeyCmp(x, y) <= 0 && ReleaseKeyCmp(y, z) <= 0 ==>
              ReleaseKeyCmp(x, y) == 0 && ReleaseKeyCmp(y, z) == 0
  {
    IntCmpTotal();
    LexAntisymmetric<int>(IntCmp, -1, x, y);
    LexAntisymmetric<int>(IntCmp, -1, x, z);
    LexAntisymmetric<int>(IntCmp, -1, y, z);
    if ReleaseKeyCmp(x, y) <= 0 && ReleaseKeyCmp(y, z) <= 0 {
      LexTransitive<int>(IntCmp, -1, x, y, z);
      if ReleaseKeyCmp(x, z) == 0 {
        LexTransitive<int>(IntCmp, -1, z, x, y);
        LexTransitive<int>(IntCmp, -1, y, z, x);
      }
    }
  }

  lemma NewerCmpLaws(x: Newer, y: Newer, z: Newer)
    ensures Sign(NewerCmp(x, y)) == -Sign(NewerCmp(y, x))
    ensures NewerCmp(x, y) <= 0 && NewerCmp(y, z) <= 0 ==> NewerCmp(x, z) <= 0
  {
    ReleaseKeyCmpLaws(x.key, y.key, z.key);
    ReleaseKeyCmpLaws(x.key, z.key, y.key);
    ReleaseKeyCmpLaws(y.key, z.key, x.key);
    StrCmpTotal();
  }

  lemma NewerCmpTotal()
    ensures TotalPreorder(NewerCmp)
  {
    forall x, y ensures Sign(NewerCmp(x, y)) == -Sign(NewerCmp(y, x)) {
      NewerCmpLaws(x, y, y);
    }
    forall x, y, z | NewerCmp(x, y) <= 0 && NewerCmp(y, z) <= 0 ensures NewerCmp(x, z) <= 0 {
      NewerCmpLaws(x, y, z);
    }
  }

  lemma LeastNewer(newer: seq<Newer>)
    requires newer != []
    ensures forall n :: n in newer ==> NewerCmp(Least(NewerCmp, newer), n) <= 0
  {
    NewerCmpTotal();
    LeastIsLeast(NewerCmp, newer);
  }

  /** What reading the stored note back tells about the advisory it was made from. */
  lemma AvailableMeans(base: string, blocks: seq<Block>, host: Host, queried: string, display: string -> string)
    requires Strip(base) != "" && '(' !in base && Readable(FixNote(blocks, host, queried, display))
    ensures ParseFix(Some(base + Spell(FixNote(blocks, host, queried, display)))).Available? <==>
              OwnFixed(blocks, host) || ExactFixed(blocks, host, queried)
  {
    NoteIsFixedIn(blocks, host, queried, display);
    FixRoundTrip(base, FixNote(blocks, host, queried, display));
  }

  /** Of two entries the host could move on with, the one named first: a release before a
      subscription stream, then the earlier release. */
  ghost predicate Preferred(b: Block, other: Block)
    requires ParseRelease(b.ecosystem).Some? && ParseRelease(other.ecosystem).Some?
  {
    var r, s := ParseRelease(b.ecosystem).value, ParseRelease(other.ecosystem).value;
    if r.subscription == s.subscription then KeyAfter(s.key, r.key) else !r.subscription
  }

  predicate NamesRelease(b: Block) {
    HasFix(b) && ParseRelease(b.ecosystem).Some?
  }

  lemma LeastIsPreferred(b: Block, other: Block)
    requires NamesRelease(b) && NamesRelease(other) && NewerCmp(CandidateOf(b), CandidateOf(other)) <= 0
    ensures !Preferred(other, b)
  {
    var x, y := CandidateOf(b), CandidateOf(other);
    KeyAfterExactly(x.key, y.key);
    KeyAfterExactly(y.key, x.key);
    ReleaseKeyCmpLaws(x.key, y.key, x.key);
  }

  /** A finding reported as fixed only in a newer release names the fix of an entry the
      host could move on with, and no entry preferred to it is among those. */
  lemma NewerReleaseMeans(base: string, blocks: seq<Block>, host: Host, queried: string, display: string -> string)
    returns (b: Block)
    requires Strip(base) != "" && '(' !in base && Readable(FixNote(blocks, host, queried, display))
    requires ParseFix(Some(base + Spell(FixNote(blocks, host, queried, display)))).NewerRelease?
    ensures !OwnFixed(blocks, host)
    ensures b in blocks && Movable(b, host.releases)
    ensures ParseFix(Some(base + Spell(FixNote(blocks, host, queried, display)))) ==
            NewerRelease(ParseRelease(b.ecosystem).value.title, DisplayVersion(b.fixed.value))
    ensures var note := FixNote(blocks, host, queried, display);
            note.FixedElsewhere? && host.releases != [] && note.host == host.releases[0].title
    ensures forall other :: other in blocks && Movable(other, host.releases) ==> !Preferred(other, b)
  {
    NoteIsFixedIn(blocks, host, queried, display);
    FixRoundTrip(base, FixNote(blocks, host, queried, display));
    b := NewestFix(blocks, host.releases);
  }

  lemma MovableMakes(blocks: seq<Block>, releases: seq<Release>, b: Block)
    requires b in blocks && Movable(b, releases)
    ensures CandidateOf(b) in NewerFixes(blocks, releases)
  {
    NewerFixesCarried(blocks, releases);
    assert Carries(b, CandidateOf(b), releases);
  }

  lemma MadeBy(blocks: seq<Block>, releases: seq<Release>, n: Newer) returns (b: Block)
    requires n in NewerFixes(blocks, releases)
    ensures b in blocks && Movable(b, releases) && CandidateOf(b) == n
  {
    NewerFixesCarried(blocks, releases);
    b :| b in blocks && Carries(b, n, releases);
  }

  lemma NewestFix(blocks: seq<Block>, releases: seq<Release>) returns (b: Block)
    requires NewerFixes(blocks, releases) != []
    ensures b in blocks && Movable(b, releases) && CandidateOf(b) == Least(NewerCmp, NewerFixes(blocks, releases))
    ensures forall other :: other in blocks && Movable(other, releases) ==> !Preferred(other, b)
  {
    LeastNewer(NewerFixes(blocks, releases));
    b := MadeBy(blocks, releases, Least(NewerCmp, NewerFixes(blocks, releases)));
    forall other | other in blocks && Movable(other, releases) ensures !Preferred(other, b) {
      MovableMakes(blocks, releases, other);
      LeastIsPreferred(b, other);
    }
  }

  /** Whoever reads "available" gets the version of the first own entry that has one or,
      where no release is known, of the first whose entry has exactly the queried
      ecosystem. */
  lemma AvailableIsOwn(base: string, blocks: seq<Block>, host: Host, queried: string,
                       display: string -> string, version: string) returns (k: nat)
    requires Strip(base) != "" && '(' !in base && Readable(FixNote(blocks, host, queried, display))
    requires ParseFix(Some(base + Spell(FixNote(blocks, host, queried, display)))) == Available(version)
    ensures k < |blocks| && HasFix(blocks[k]) && blocks[k].fixed.value == version
    ensures || FixesFirst(blocks, b => OwnBlock(b, host), k)
            || (host.releases == [] && FixesFirst(blocks, b => ExactBlock(b, queried), k))
  {
    FixRoundTrip(base, FixNote(blocks, host, queried, display));
    if FirstFix(blocks, b => OwnBlock(b, host)).Some? {
      FirstFixIs(blocks, b => OwnBlock(b, host));
      k := FirstFixAt(blocks, b => OwnBlock(b, host));
    } else {
      k := FirstFixAt(blocks, b => ExactBlock(b, queried));
    }
  }

  /** An "upstream" answer means no entry is the host's own, and names the first fix there
      is. */
  lemma UpstreamMeans(base: string, blocks: seq<Block>, host: Host, queried: string, display: string -> string,
                      release: string, version: string) returns (k: nat)
    requires Strip(base) != "" && '(' !in base && Readable(FixNote(blocks, host, queried, display))
    requires ParseFix(Some(base + Spell(FixNote(blocks, host, queried, display)))) == Upstream(release, version)
    ensures forall b :: b in blocks ==> !OwnBlock(b, host)
    ensures k < |blocks| && HasFix(blocks[k]) && forall j :: 0 <= j < k ==> !HasFix(blocks[j])
    ensures version == DisplayVersion(blocks[k].fixed.value)
    ensures release == if blocks[k].ecosystem == "" then queried else display(blocks[k].ecosystem)
  {
    FixRoundTrip(base, FixNote(blocks, host, queried, display));
    OwnSomewhere(blocks, host);
    k := FirstFixAt(blocks, b => true);
  }

  // Which entries are the host's own.

  /** Every ecosystem asked about for one of a host's releases is the host's own, whatever
      else it was asked about. */
  lemma QueriedIsOwn(host: string, asked: set<string>, query: string)
    requires (forall r :: r in HostReleases(host) ==> WellKeyed(r)) && query in AllQueries(HostReleases(host))
    ensures IsOwn(query, Host(HostReleases(host), asked))
  {
    AllQueriesName(HostReleases(host), query);
  }

  /** So is every ecosystem asked about, in either case. */
  lemma AskedIsOwn(asked: string, ecosystem: string, host: Host)
    requires Lower(asked) in host.asked
    requires |asked| == |ecosystem| && forall i :: 0 <= i < |asked| ==> CaseAlike(asked[i], ecosystem[i])
    ensures IsOwn(ecosystem, host)
  {
    LowerAlike(asked, ecosystem);
  }

  /** An entry names the queried ecosystem exactly when it does letter for letter, in
      either case. */
  lemma ExactMeans(b: Block, queried: string)
    ensures ExactBlock(b, queried) <==>
              |b.ecosystem| == |queried| && forall i :: 0 <= i < |queried| ==> CaseAlike(b.ecosystem[i], queried[i])
  {
    LowerAlike(b.ecosystem, queried);
  }

  /** A name that was not asked about and reads as no release of the host is not: neither
      another release's, nor a subscription stream's, nor one that is no release. */
  lemma OthersAreNot(ecosystem: string, host: Host)
    requires Lower(ecosystem) !in host.asked
    requires forall h :: h in host.releases ==> !Names(ecosystem, h)
    ensures !IsOwn(ecosystem, host)
  {
    forall k | 0 <= k < |host.releases| ensures !Names(ecosystem, host.releases[k]) {
      assert host.releases[k] in host.releases;
    }
  }

  lemma SubscriptionIsNot(ecosystem: string, host: Host)
    requires Lower(ecosystem) !in host.asked && PRO <= Strip(ecosystem)
    ensures !IsOwn(ecosystem, host)
  {
    if ParseRelease(ecosystem).Some? {
      ProIsSubscription(ecosystem);
    }
  }

  /** The entries looked at are those that name the package, whatever the case, or none. */
  lemma {:induction false} PackageBlocksAre(affected: seq<Block>, package: string)
    ensures forall b :: b in PackageBlocks(affected, package) <==>
              b in affected && (b.name == "" || Lower(b.name) == Lower(package))
  {
    if affected != [] {
      PackageBlocksAre(affected[1..], package);
      assert forall b :: b in affected <==> b == affected[0] || b in affected[1..];
    }
  }

  lemma NewerFixesExactly(blocks: seq<Block>, releases: seq<Release>)
    ensures NewerFixes(blocks, releases) == [] <==> forall b :: b in blocks ==> !Movable(b, releases)
  {
    if NewerFixes(blocks, releases) != [] {
      var b := MadeBy(blocks, releases, NewerFixes(blocks, releases)[0]);
    } else {
      forall b | b in blocks && Movable(b, releases) ensures false {
        MovableMakes(blocks, releases, b);
      }
    }
  }

  /** When nothing is said about a fix. The source's own summary says no fix is then
      published anywhere; that is so exactly when no entry is the host's own, or no other
      entry has a fix either. */
  lemma NothingMeans(blocks: seq<Block>, host: Host, queried: string, display: string -> string)
    ensures FixNote(blocks, host, queried, display) == Nothing <==>
              if exists b :: b in blocks && OwnBlock(b, host)
              then !OwnFixed(blocks, host) && forall b :: b in blocks ==> !Movable(b, host.releases)
              else forall b :: b in blocks ==> !HasFix(b)
  {
    FirstFixIs(blocks, b => OwnBlock(b, host));
    FirstFixIs(blocks, b => ExactBlock(b, queried));
    FirstFixIs(blocks, b => true);
    NewerFixesExactly(blocks, host.releases);
    if host.releases == [] {
      assert forall b :: b in blocks ==> !Movable(b, host.releases);
    }
    OwnSomewhere(blocks, host);
  }

  /** Against that summary: with the host's release listed unfixed, a fix published for
      anything that is no release goes unsaid. */
  lemma PublishedFixUnsaid(own: Block, other: Block, host: Host, queried: string, display: string -> string)
    requires OwnBlock(own, host) && !HasFix(own)
    requires HasFix(other) && !OwnBlock(other, host) && ParseRelease(other.ecosystem) == None
    ensures FixNote([own, other], host, queried, display) == Nothing
  {
    var blocks := [own, other];
    assert own in blocks;
    assert forall b :: b in blocks ==> b == own || b == other;
    NothingMeans(blocks, host, queried, display);
  }

  /** Such a host and such entries: Debian 13 listed unfixed, the fix published for
      openSUSE Tumbleweed. */
  lemma UnsaidExample(name: string, fixed: string, queried: string, display: string -> string)
    requires fixed != ""
    ensures FixNote([Block(name, "Debian:13", None), Block(name, "openSUSE:Tumbleweed", Some(fixed))],
                    Host(HostReleases("Debian:13"), {Lower("Debian:13")}), queried, display) == Nothing
  {
    var host := Host(HostReleases("Debian:13"), {Lower("Debian:13")});
    var own, other := Block(name, "Debian:13", None), Block(name, "openSUSE:Tumbleweed", Some(fixed));
    TumbleweedIsNoRelease();
    assert |Lower("openSUSE:Tumbleweed")| != |Lower("Debian:13")|;
    PublishedFixUnsaid(own, other, host, queried, display);
  }
}
