/** Kernel advisories from the distributions' own feeds
    (backend/app/scanner/kernel_feeds.py): folding a stream of advisories to one row
    per CVE, and judging an upstream kernel against the kernel CNA's ranges. */
module KernelFeeds {
  import opened Orders
  import opened Text
  import Rpm = RpmVersion

  /** One range of an upstream record: introduced, fixed, last affected; "" is absent. */
  datatype Range = Range(introduced: string, fixed: string, last: string)

  /** A feed's record of a CVE; `fixed` is empty in an upstream record, which has ranges. */
  datatype Entry = Entry(cve: string, fixed: string, ranges: seq<Range>)

  // What the readers hand on: advisories that name a build.

  /** An advisory the two distribution readers keep: one that names a build. */
  type Advisory = e: Entry | e.fixed != "" witness Entry("", "-", [])

  function AdvisoriesFor(cves: seq<string>, build: string): (r: seq<Advisory>)
    requires build != ""
    ensures |r| == |cves| && forall i :: 0 <= i < |cves| ==> r[i] == Entry(cves[i], build, [])
  {
    seq(|cves|, i requires 0 <= i < |cves| => Entry(cves[i], build, []))
  }

  /** One test of an Oracle definition: left out unless it has a build of this release. */
  function OracleAdvisories(cves: seq<string>, evr: string, ours: string -> bool): (r: seq<Advisory>)
    ensures |r| == if evr == "" || !ours(evr) then 0 else |cves|
    ensures forall i :: 0 <= i < |r| ==> r[i].cve == cves[i] && r[i].fixed == evr && ours(r[i].fixed)
  {
    if evr == "" || !ours(evr) then [] else AdvisoriesFor(cves, evr)
  }

  /** One package of an Amazon update: without a version and a release the reader gives
      the whole feed up. */
  function AmazonAdvisories(cves: seq<string>, epoch: string, version: string, release: string)
    : (r: Option<seq<Advisory>>)
    ensures r.None? <==> version == "" || release == ""
    ensures r.Some? ==> |r.value| == |cves| && forall i :: 0 <= i < |cves| ==> r.value[i].cve == cves[i]
    ensures r.Some? && ':' !in epoch && ':' !in version + "-" + release ==>
              forall e :: e in r.value ==> Bare(e.fixed) == version + "-" + release
  {
    if version == "" || release == "" then None
    else
      BuildRead(epoch, version + "-" + release);
      Some(AdvisoriesFor(cves, Numbered(epoch, version + "-" + release)))
  }

  /** A build with its epoch in front, unless that is nought. */
  function Numbered(epoch: string, build: string): string {
    if epoch != "" && epoch != "0" then epoch + ":" + build else build
  }

  lemma BuildRead(epoch: string, build: string)
    requires build != ""
    ensures ':' !in epoch && ':' !in build ==> Bare(Numbered(epoch, build)) == build
  {
    if ':' !in epoch && ':' !in build {
      BareIs(epoch, build);
    }
  }

  // Builds: folding a stream into rows, and asking the rows about a host.

  function Bare(evr: string): string {
    var colon := IndexOf(evr, ':');
    if colon < |evr| then evr[colon + 1..] else evr
  }

  /** The rpm order on builds, the epoch written before a feed's version set aside. */
  function BuildOrder(a: string, b: string): int {
    Rpm.Order(Bare(a), Bare(b))
  }

  method CompareBuilds(a: string, b: string) returns (c: int)
    ensures c == BuildOrder(a, b)
  {
    c := Rpm.CompareVersions(Bare(a), Bare(b));
  }

  lemma BuildOrderTotal()
    ensures TotalPreorder(BuildOrder)
  {
    forall a, b ensures Sign(BuildOrder(a, b)) == -Sign(BuildOrder(b, a)) {
      Rpm.OrderZeroAndSign(Bare(a), Bare(b));
    }
    forall a, b, c | BuildOrder(a, b) <= 0 && BuildOrder(b, c) <= 0 ensures BuildOrder(a, c) <= 0 {
      Rpm.OrderTransitive(Bare(a), Bare(b), Bare(c));
    }
  }

  type Rows = map<string, Entry>

  type VersionOrder = (string, string) -> int

  /** The row that stays when one more entry is read: the first of the highest. */
  function Kept(order: VersionOrder, rows: Rows, entry: Entry): Rows {
    if entry.cve !in rows || order(entry.fixed, rows[entry.cve].fixed) > 0 then rows[entry.cve := entry] else rows
  }

  function Folded(order: VersionOrder, stream: seq<Entry>): Rows {
    if stream == [] then map[]
    else Kept(order, Folded(order, stream[..|stream| - 1]), stream[|stream| - 1])
  }

  /** A feed's rows for one stream, updated in place as its advisories are read. */
  class Table {
    var rows: Rows

    constructor ()
      ensures rows == map[]
    {
      rows := map[];
    }

    method KeepHighest(entry: Entry)
      modifies this
      ensures rows == Kept(BuildOrder, old(rows), entry)
    {
      var c := 1;
      if entry.cve in rows {
        c := CompareBuilds(entry.fixed, rows[entry.cve].fixed);
      }
      if c > 0 {
        rows := rows[entry.cve := entry];
      }
    }

    method Read(stream: seq<Advisory>)
      requires rows == map[]
      modifies this
      ensures rows == Folded(BuildOrder, stream)
    {
      for i := 0 to |stream|
        invariant rows == Folded(BuildOrder, stream[..i])
      {
        assert stream[..i + 1][..i] == stream[..i];
        KeepHighest(stream[i]);
      }
      assert stream[..|stream|] == stream;
    }
  }

  /** Whether an entry names a build newer than the installed one. */
  predicate Behind(order: VersionOrder, installed: string, entry: Entry) {
    entry.fixed != "" && order(installed, entry.fixed) < 0
  }

  method IsBehind(installed: string, entry: Entry) returns (behind: bool)
    ensures behind == Behind(BuildOrder, installed, entry)
  {
    var c := CompareBuilds(installed, entry.fixed);
    behind := entry.fixed != "" && c < 0;
  }

  function Affecting(order: VersionOrder, installed: string, entries: seq<Entry>): seq<Entry> {
    if entries == [] then []
    else
      var last := entries[|entries| - 1];
      Affecting(order, installed, entries[..|entries| - 1]) + if Behind(order, installed, last) then [last] else []
  }

  method RpmAffecting(installed: string, entries: seq<Entry>) returns (affecting: seq<Entry>)
    ensures affecting == Affecting(BuildOrder, installed, entries)
  {
    affecting := [];
    for i := 0 to |entries|
      invariant affecting == Affecting(BuildOrder, installed, entries[..i])
    {
      assert entries[..i + 1][..i] == entries[..i];
      var behind := IsBehind(installed, entries[i]);
      if behind {
        affecting := affecting + [entries[i]];
      }
    }
    assert entries[..|entries|] == entries;
  }

  lemma {:induction false} AffectingMembers(order: VersionOrder, installed: string, entries: seq<Entry>)
    ensures forall e :: e in Affecting(order, installed, entries) <==> e in entries && Behind(order, installed, e)
  {
    if entries != [] {
      var n := |entries| - 1;
      AffectingMembers(order, installed, entries[..n]);
      assert entries == entries[..n] + [entries[n]];
    }
  }

  /** A CVE is reported when its stored row is among those affecting the host. */
  ghost predicate Reported(order: VersionOrder, installed: string, rows: Rows, cve: string) {
    cve in rows && Behind(order, installed, rows[cve])
  }

  ghost predicate NamedBehind(order: VersionOrder, installed: string, stream: seq<Entry>, cve: string) {
    exists e :: e in stream && e.cve == cve && Behind(order, installed, e)
  }

  /** The row kept for a CVE is one the stream carried, and no advisory of that CVE in
      the stream names a higher build. */
  lemma {:induction false} FoldedIsHighest(order: VersionOrder, stream: seq<Entry>)
    requires TotalPreorder(order)
    ensures forall cve :: cve in Folded(order, stream) ==>
              Folded(order, stream)[cve] in stream && Folded(order, stream)[cve].cve == cve
    ensures forall e :: e in stream ==>
              e.cve in Folded(order, stream) && order(e.fixed, Folded(order, stream)[e.cve].fixed) <= 0
  {
    if stream != [] {
      var n := |stream| - 1;
      var init, last := stream[..n], stream[n];
      FoldedIsHighest(order, init);
      assert stream == init + [last];
      assert Sign(order(last.fixed, last.fixed)) == -Sign(order(last.fixed, last.fixed));
      if last.cve in Folded(order, init) {
        var kept := Folded(order, init)[last.cve].fixed;
        assert Sign(order(last.fixed, kept)) == -Sign(order(kept, last.fixed));
      }
    }
  }

  /** Of several advisories of a CVE that name the highest build, the first is kept. */
  lemma {:induction false} FoldedIsFirst(order: VersionOrder, stream: seq<Entry>, cve: string) returns (j: nat)
    requires TotalPreorder(order) && cve in Folded(order, stream)
    ensures j < |stream| && stream[j].cve == cve && Folded(order, stream)[cve] == stream[j]
    ensures forall i :: 0 <= i < j && stream[i].cve == cve ==> order(stream[i].fixed, stream[j].fixed) < 0
  {
    var n := |stream| - 1;
    if Displaces(order, Folded(order, stream[..n]), stream[n]) && stream[n].cve == cve {
      j := n;
      NewHighest(order, stream[..n], stream[n]);
    } else {
      j := FoldedIsFirst(order, stream[..n], cve);
    }
  }

  predicate Displaces(order: VersionOrder, rows: Rows, entry: Entry) {
    entry.cve !in rows || order(entry.fixed, rows[entry.cve].fixed) > 0
  }

  lemma NewHighest(order: VersionOrder, init: seq<Entry>, last: Entry)
    requires TotalPreorder(order) && Displaces(order, Folded(order, init), last)
    ensures forall i :: 0 <= i < |init| && init[i].cve == last.cve ==> order(init[i].fixed, last.fixed) < 0
  {
    FoldedIsHighest(order, init);
    forall i | 0 <= i < |init| && init[i].cve == last.cve ensures order(init[i].fixed, last.fixed) < 0 {
      assert init[i] in init;
      BelowHigher(order, init[i].fixed, Folded(order, init)[last.cve].fixed, last.fixed);
    }
  }

  lemma BelowHigher(order: VersionOrder, x: string, y: string, z: string)
    requires TotalPreorder(order) && order(x, y) <= 0 && order(z, y) > 0
    ensures order(x, z) < 0
  {
    assert Sign(order(z, y)) == -Sign(order(y, z)) && Sign(order(x, z)) == -Sign(order(z, x));
    assert order(z, x) <= 0 ==> order(z, y) <= 0;
  }

  /** Compaction loses no affected CVE and invents none. */
  lemma CompactionExact(installed: string, stream: seq<Advisory>, cve: string)
    ensures Reported(BuildOrder, installed, Folded(BuildOrder, stream), cve) <==>
              NamedBehind(BuildOrder, installed, stream, cve)
  {
    BareFoldExact(installed, stream, cve);
  }

  /** On its own the fold also takes entries without a build. It is then exact for every
      installed build that does not sort before having no version at all. */
  lemma BareFoldExact(installed: string, stream: seq<Entry>, cve: string)
    requires (forall e :: e in stream ==> e.fixed != "") || BuildOrder(installed, "") >= 0
    ensures Reported(BuildOrder, installed, Folded(BuildOrder, stream), cve) <==>
              NamedBehind(BuildOrder, installed, stream, cve)
  {
    BuildOrderTotal();
    CompactionExactFor(BuildOrder, installed, stream, cve);
  }

  lemma CompactionExactFor(order: VersionOrder, installed: string, stream: seq<Entry>, cve: string)
    requires TotalPreorder(order)
    requires (forall e :: e in stream ==> e.fixed != "") || order(installed, "") >= 0
    ensures Reported(order, installed, Folded(order, stream), cve) <==> NamedBehind(order, installed, stream, cve)
  {
    FoldedIsHighest(order, stream);
    if NamedBehind(order, installed, stream, cve) {
      var e :| e in stream && e.cve == cve && Behind(order, installed, e);
      PreorderStrict(order, installed, e.fixed, Folded(order, stream)[cve].fixed);
    }
  }

  /** ... and for no other: what the readers leave out is what keeps the fold exact. */
  lemma CompactionCanLose(installed: string, cve: string) returns (stream: seq<Entry>)
    requires BuildOrder(installed, "") < 0
    ensures NamedBehind(BuildOrder, installed, stream, cve)
    ensures !Reported(BuildOrder, installed, Folded(BuildOrder, stream), cve)
  {
    BuildOrderTotal();
    DashIsEmpty();
    stream := LosingStream(BuildOrder, installed, cve);
  }

  lemma LosingStream(order: VersionOrder, installed: string, cve: string) returns (stream: seq<Entry>)
    requires TotalPreorder(order) && order(installed, "") < 0
    requires order("", "-") == 0 && order("-", "") == 0
    ensures NamedBehind(order, installed, stream, cve)
    ensures !Reported(order, installed, Folded(order, stream), cve)
  {
    var unfixed, fixed := Entry(cve, "", []), Entry(cve, "-", []);
    stream := [unfixed] + [fixed];
    PreorderStrict(order, installed, "", "-");
    assert [unfixed][..0] == [] && stream[..1] == [unfixed];
    assert Folded(order, [unfixed]) == map[cve := unfixed];
    assert Folded(order, stream)[cve] == unfixed;
    assert fixed in stream && Behind(order, installed, fixed);
  }

  lemma DashIsEmpty()
    ensures BuildOrder("", "-") == 0 && BuildOrder("-", "") == 0
  {
    assert Bare("-") == "-" && Bare("") == "";
    assert Strip("-") == "-";
    assert AfterLast("-", '-', 1) == 1;
    assert Rpm.Split("-") == Rpm.Evr(0, "", "");
    assert Rpm.Split("") == Rpm.Evr(0, "", "");
    Rpm.OrderZeroAndSign("", "-");
  }

  /** So a CVE is reported exactly for the hosts whose build is below one some advisory
      names: at or above all of them, as a host is that installed the fix, it is not. */
  lemma ReportedBelowTheFix(installed: string, stream: seq<Advisory>, cve: string)
    ensures Reported(BuildOrder, installed, Folded(BuildOrder, stream), cve) <==>
              exists e :: e in stream && e.cve == cve && BuildOrder(e.fixed, installed) > 0
    ensures (forall e :: e in stream && e.cve == cve ==> e.fixed == installed) ==>
              !Reported(BuildOrder, installed, Folded(BuildOrder, stream), cve)
  {
    CompactionExact(installed, stream, cve);
    forall e | e in stream ensures Behind(BuildOrder, installed, e) <==> BuildOrder(e.fixed, installed) > 0 {
      Rpm.OrderZeroAndSign(Bare(installed), Bare(e.fixed));
    }
    Rpm.OrderZeroAndSign(Bare(installed), Bare(installed));
  }

  /** An epoch that only one of two builds is written with makes no difference. */
  lemma EpochSetAside(epoch: string, build: string, other: string)
    requires ':' !in epoch && ':' !in build
    ensures BuildOrder(epoch + ":" + build, other) == BuildOrder(build, other)
    ensures BuildOrder(other, epoch + ":" + build) == BuildOrder(other, build)
    ensures BuildOrder(epoch + ":" + build, build) == 0
  {
    BareIs(epoch, build);
    Rpm.OrderZeroAndSign(build, build);
  }

  lemma BareIs(epoch: string, build: string)
    requires ':' !in epoch && ':' !in build
    ensures Bare(epoch + ":" + build) == build && Bare(build) == build
  {
    var written := epoch + ":" + build;
    assert written[|epoch|] == ':' && written[|epoch| + 1..] == build;
    assert forall j :: 0 <= j < |epoch| ==> written[j] == epoch[j];
  }

  /** The order in which advisories arrive, and how often, does not matter to what is
      reported. */
  lemma CompactionOrderFree(installed: string, stream: seq<Advisory>, other: seq<Advisory>, cve: string)
    requires forall e :: e in stream <==> e in other
    ensures Reported(BuildOrder, installed, Folded(BuildOrder, stream), cve) <==>
            Reported(BuildOrder, installed, Folded(BuildOrder, other), cve)
  {
    CompactionExact(installed, stream, cve);
    CompactionExact(installed, other, cve);
  }

  /** Asking over a table's rows, in whatever order they are listed, reports exactly
      the CVEs whose stored row is behind. */
  lemma ReportedIsAffecting(installed: string, rows: Rows, listed: seq<Entry>, cve: string)
    requires forall c :: c in rows ==> rows[c].cve == c
    requires forall e :: e in listed <==> e.cve in rows && rows[e.cve] == e
    ensures Reported(BuildOrder, installed, rows, cve) <==>
              exists e :: e in Affecting(BuildOrder, installed, listed) && e.cve == cve
  {
    AffectingMembers(BuildOrder, installed, listed);
    if cve in rows {
      assert rows[cve] in listed;
    }
  }

  // Upstream versions, and verdicts on them.

  datatype Kernel = Kernel(major: nat, minor: nat, patch: nat)

  predicate Below(v: Kernel, w: Kernel) {
    v.major < w.major || (v.major == w.major && (v.minor < w.minor || (v.minor == w.minor && v.patch < w.patch)))
  }

  predicate SameSeries(v: Kernel, w: Kernel) {
    v.major == w.major && v.minor == w.minor
  }

  predicate NewerSeries(v: Kernel, w: Kernel) {
    w.major < v.major || (v.major == w.major && w.minor < v.minor)
  }

  /** `major.minor[.patch]` at the start of the text; anything may follow. */
  function ParseKernel(version: string): Option<Kernel> {
    KernelAt(Strip(version))
  }

  function KernelAt(text: string): Option<Kernel> {
    var a := DigitsEnd(text, 0);
    if a == 0 || a == |text| || text[a] != '.' then None
    else
      var b := DigitsEnd(text, a + 1);
      if b == a + 1 then None
      else
        var c := if b < |text| && text[b] == '.' then DigitsEnd(text, b + 1) else b;
        Some(Kernel(Value(text[0..a]), Value(text[a + 1..b]), if c <= b + 1 then 0 else Value(text[b + 1..c])))
  }

  /** A written version reads back, whatever text that is not its own follows it. */
  lemma KernelWritten(v: Kernel, rest: string)
    requires rest == "" || (!IsDigit(rest[0]) && !IsSpace(rest[|rest| - 1]))
    ensures ParseKernel(Decimal(v.major) + "." + Decimal(v.minor) + "." + Decimal(v.patch) + rest) == Some(v)
  {
    var x, y, z := Decimal(v.major), Decimal(v.minor), Decimal(v.patch);
    KernelDigits(x, y, z, rest);
    var text := x + "." + y + "." + z + rest;
    assert text[0] == x[0] && text[|text| - 1] == if rest == "" then z[|z| - 1] else rest[|rest| - 1];
    StripNothing(text);
  }

  /** So does one of two numbers, as the first of its series. */
  lemma SeriesWritten(major: nat, minor: nat, rest: string)
    requires rest == "" || (!IsDigit(rest[0]) && rest[0] != '.' && !IsSpace(rest[|rest| - 1]))
    ensures ParseKernel(Decimal(major) + "." + Decimal(minor) + rest) == Some(Kernel(major, minor, 0))
  {
    var x, y := Decimal(major), Decimal(minor);
    var text, a, b := SeriesLayout(x, y, rest);
    StripNothing(text);
    DigitsEndAt(text, 0, a);
    DigitsEndAt(text, a + 1, b);
  }

  lemma SeriesLayout(x: string, y: string, rest: string) returns (text: string, a: nat, b: nat)
    requires x != "" && y != ""
    ensures text == x + "." + y + rest && 0 < a && a + 1 < b <= |text| && text[a] == '.'
    ensures text[0..a] == x && text[a + 1..b] == y && (b < |text| ==> rest != "" && text[b] == rest[0])
    ensures text[0] == x[0] && text[|text| - 1] == if rest == "" then y[|y| - 1] else rest[|rest| - 1]
  {
    text := x + "." + y + rest;
    a, b := |x|, |x| + 1 + |y|;
  }

  /** A version as it is written. */
  function KernelText(v: Kernel): string {
    Decimal(v.major) + ("." + (Decimal(v.minor) + ("." + Decimal(v.patch))))
  }

  lemma KernelTokens(v: Kernel)
    ensures Rpm.Tokens(KernelText(v)) == [Rpm.Number(v.major), Rpm.Number(v.minor), Rpm.Number(v.patch)]
  {
    var x, y, z := Decimal(v.major), Decimal(v.minor), Decimal(v.patch);
    assert z + "" == z && Rpm.Tokens("") == [];
    Rpm.PartRead(z, "", Rpm.Number(v.patch));
    Rpm.SeparatorsSkipped(".", z);
    Rpm.PartRead(y, "." + z, Rpm.Number(v.minor));
    Rpm.SeparatorsSkipped(".", y + ("." + z));
    Rpm.PartRead(x, "." + (y + ("." + z)), Rpm.Number(v.major));
  }

  /** Kernels are ordered as the versions they are written as are by rpm. */
  lemma BelowIsOrder(v: Kernel, w: Kernel)
    ensures Below(v, w) <==> Rpm.StreamCmp(Rpm.Tokens(KernelText(v)), Rpm.Tokens(KernelText(w))) < 0
  {
    KernelTokens(v);
    KernelTokens(w);
    NumbersCompared(v.patch, w.patch, [], []);
    NumbersCompared(v.minor, w.minor, [Rpm.Number(v.patch)], [Rpm.Number(w.patch)]);
    NumbersCompared(v.major, w.major, [Rpm.Number(v.minor), Rpm.Number(v.patch)], [Rpm.Number(w.minor), Rpm.Number(w.patch)]);
  }

  lemma NumbersCompared(m: nat, n: nat, x: seq<Rpm.Token>, y: seq<Rpm.Token>)
    ensures Rpm.StreamCmp([Rpm.Number(m)] + x, [Rpm.Number(n)] + y) ==
            if m == n then Rpm.StreamCmp(x, y) else IntCmp(m, n)
  {
    assert Rest([Rpm.Number(m)] + x) == x && Rest([Rpm.Number(n)] + y) == y;
  }

  /** Where the three numbers of a written version stand. */
  lemma KernelLayout(x: string, y: string, z: string, rest: string) returns (text: string, a: nat, b: nat, c: nat)
    requires x != "" && y != "" && z != ""
    ensures text == x + "." + y + "." + z + rest
    ensures 0 < a && a + 1 < b && b + 1 < c <= |text| && text[a] == '.' && text[b] == '.'
    ensures text[0..a] == x && text[a + 1..b] == y && text[b + 1..c] == z
    ensures c < |text| ==> rest != "" && text[c] == rest[0]
  {
    text := x + "." + y + "." + z + rest;
    a, b, c := |x|, |x| + 1 + |y|, |x| + 2 + |y| + |z|;
  }

  lemma KernelFrom(text: string, a: nat, b: nat, c: nat)
    requires 0 < a && a + 1 < b && b + 1 < c <= |text| && text[a] == '.' && text[b] == '.'
    requires AllDigits(text[0..a]) && AllDigits(text[a + 1..b]) && AllDigits(text[b + 1..c])
    requires c < |text| ==> !IsDigit(text[c])
    ensures KernelAt(text) == Some(Kernel(Value(text[0..a]), Value(text[a + 1..b]), Value(text[b + 1..c])))
  {
    DigitsEndAt(text, 0, a);
    DigitsEndAt(text, a + 1, b);
    DigitsEndAt(text, b + 1, c);
  }

  lemma KernelDigits(x: string, y: string, z: string, rest: string)
    requires IsNumber(x) && IsNumber(y) && IsNumber(z) && (rest == "" || !IsDigit(rest[0]))
    ensures KernelAt(x + "." + y + "." + z + rest) == Some(Kernel(Value(x), Value(y), Value(z)))
  {
    var text, a, b, c := KernelLayout(x, y, z, rest);
    KernelFrom(text, a, b, c);
  }

  predicate IsKernel(version: string) {
    ParseKernel(version).Some?
  }

  function KernelOf(version: string): Kernel
    requires IsKernel(version)
  {
    ParseKernel(version).value
  }

  /** What the reader of the records checks before it keeps one: every bound is a
      version, except an introduction at "0". */
  predicate WellFormed(entry: Entry) {
    forall r :: r in entry.ranges ==>
      && (r.introduced != "" && r.introduced != "0" ==> IsKernel(r.introduced))
      && (r.fixed != "" ==> IsKernel(r.fixed))
      && (r.last != "" ==> IsKernel(r.last))
  }

  datatype Verdict = Verdict(entry: Entry, fixed: Option<string>, elsewhere: Option<string>)

  /** Whether a range covers the kernel. */
  predicate InRange(v: Kernel, r: Range)
    requires r.introduced != "" && r.introduced != "0" ==> IsKernel(r.introduced)
    requires r.fixed != "" ==> IsKernel(r.fixed)
    requires r.last != "" ==> IsKernel(r.last)
  {
    && (r.introduced != "" && r.introduced != "0" ==> !Below(v, KernelOf(r.introduced)))
    && (r.fixed != "" ==> Below(v, KernelOf(r.fixed)))
    && (r.last != "" ==> !Below(KernelOf(r.last), v))
  }

  /** A listed fix, with the kernel it parses to. */
  datatype Fix = Fix(version: string, kernel: Kernel)

  predicate FixesParse(ranges: seq<Range>) {
    forall r :: r in ranges && r.fixed != "" ==> IsKernel(r.fixed)
  }

  /** The fixes an entry lists, in order. */
  function Fixes(ranges: seq<Range>): (fixes: seq<Fix>)
    requires FixesParse(ranges)
    ensures forall f :: f in fixes ==> ParseKernel(f.version) == Some(f.kernel)
    ensures forall r :: r in ranges && r.fixed != "" ==> Fix(r.fixed, KernelOf(r.fixed)) in fixes
    ensures forall f :: f in fixes ==> f.version != "" && exists r :: r in ranges && r.fixed == f.version
  {
    if ranges == [] then []
    else
      assert FixesParse(ranges[1..]);
      var f := ranges[0].fixed;
      (if f != "" then [Fix(f, KernelOf(f))] else []) + Fixes(ranges[1..])
  }

  function InSeries(fixes: seq<Fix>, v: Kernel): (own: seq<Fix>)
    ensures forall f :: f in own <==> f in fixes && SameSeries(f.kernel, v)
  {
    if fixes == [] then []
    else (if SameSeries(fixes[0].kernel, v) then [fixes[0]] else []) + InSeries(fixes[1..], v)
  }

  function BeyondSeries(fixes: seq<Fix>, v: Kernel): (newer: seq<Fix>)
    ensures forall f :: f in newer <==> f in fixes && NewerSeries(f.kernel, v)
  {
    if fixes == [] then []
    else (if NewerSeries(fixes[0].kernel, v) then [fixes[0]] else []) + BeyondSeries(fixes[1..], v)
  }

  /** `min(versions, key=_vkey)`: the first of the lowest. */
  function Earliest(fixes: seq<Fix>): (m: Fix)
    requires fixes != []
    ensures m in fixes
    ensures forall f :: f in fixes ==> !Below(f.kernel, m.kernel)
  {
    if |fixes| == 1 then fixes[0]
    else
      var m := Earliest(fixes[1..]);
      if Below(m.kernel, fixes[0].kernel) then m else fixes[0]
  }

  function EarliestOffer(newer: seq<Fix>): Option<string> {
    if newer != [] then Some(Earliest(newer).version) else None
  }

  /** How one CVE stands for one kernel: its own series' fix decides when there is one,
      the ranges otherwise. */
  function Judge(v: Kernel, entry: Entry): Option<Verdict>
    requires WellFormed(entry)
  {
    var fixes := Fixes(entry.ranges);
    var own := InSeries(fixes, v);
    if own != [] then
      if Below(v, Earliest(own).kernel) then Some(Verdict(entry, Some(Earliest(own).version), None)) else None
    else if exists r :: r in entry.ranges && InRange(v, r) then
      Some(Verdict(entry, None, EarliestOffer(BeyondSeries(fixes, v))))
    else None
  }

  /** The loop over an entry's ranges that stops at the first hit. */
  method AnyRange(v: Kernel, entry: Entry) returns (hit: bool)
    requires WellFormed(entry)
    ensures hit <==> exists r :: r in entry.ranges && InRange(v, r)
  {
    hit := false;
    for i := 0 to |entry.ranges|
      invariant forall k :: 0 <= k < i ==> !InRange(v, entry.ranges[k])
    {
      var r := entry.ranges[i];
      var low := if r.introduced != "" && r.introduced != "0" then KernelOf(r.introduced) else Kernel(0, 0, 0);
      if Below(v, low) {
        continue;
      }
      if r.fixed != "" && !Below(v, KernelOf(r.fixed)) {
        continue;
      }
      if r.last != "" && Below(KernelOf(r.last), v) {
        continue;
      }
      hit := true;
      return;
    }
  }

  method JudgeEntry(v: Kernel, entry: Entry) returns (verdict: Option<Verdict>)
    requires WellFormed(entry)
    ensures verdict == Judge(v, entry)
  {
    var fixes := Fixes(entry.ranges);
    var own := InSeries(fixes, v);
    if own != [] {
      var first := Earliest(own);
      return if Below(v, first.kernel) then Some(Verdict(entry, Some(first.version), None)) else None;
    }
    var hit := AnyRange(v, entry);
    if !hit {
      return None;
    }
    var newer := BeyondSeries(fixes, v);
    return Some(Verdict(entry, None, EarliestOffer(newer)));
  }

  function Verdicts(v: Kernel, entries: seq<Entry>): seq<Verdict>
    requires forall e :: e in entries ==> WellFormed(e)
  {
    if entries == [] then []
    else
      var n := |entries| - 1;
      var last := Judge(v, entries[n]);
      Verdicts(v, entries[..n]) + if last.Some? then [last.value] else []
  }

  method JudgeAll(v: Kernel, entries: seq<Entry>) returns (out: seq<Verdict>)
    requires forall e :: e in entries ==> WellFormed(e)
    ensures out == Verdicts(v, entries)
  {
    out := [];
    for i := 0 to |entries|
      invariant out == Verdicts(v, entries[..i])
    {
      assert entries[..i + 1][..i] == entries[..i];
      var verdict := JudgeEntry(v, entries[i]);
      if verdict.Some? {
        out := out + [verdict.value];
      }
    }
    assert entries[..|entries|] == entries;
  }

  /** The CVEs affecting an upstream kernel. A version that is not one is refused. */
  method UpstreamAffecting(version: string, entries: seq<Entry>) returns (r: Option<seq<Verdict>>)
    requires forall e :: e in entries ==> WellFormed(e)
    ensures r.None? <==> !IsKernel(version)
    ensures r.Some? ==> r.value == Verdicts(KernelOf(version), entries)
  {
    if !IsKernel(version) {
      return None;
    }
    var out := JudgeAll(KernelOf(version), entries);
    return Some(out);
  }

  // What a verdict promises.

  predicate Offers(verdict: Verdict, version: string) {
    verdict.fixed == Some(version) || verdict.elsewhere == Some(version)
  }

  lemma NotBelowBoth(a: Kernel, b: Kernel)
    requires !Below(a, b) && !Below(b, a)
    ensures a == b
  {
  }

  /** The version a verdict offers is above the kernel asked about, and a kernel at that
      version has no verdict for the entry: the offer really clears it. */
  lemma OfferClears(v: Kernel, entry: Entry, version: string)
    requires WellFormed(entry)
    requires Judge(v, entry).Some? && Offers(Judge(v, entry).value, version)
    ensures IsKernel(version) && Below(v, KernelOf(version))
    ensures Judge(KernelOf(version), entry) == None
    ensures Judge(v, entry).value.fixed == Some(version) ==> SameSeries(KernelOf(version), v)
    ensures Judge(v, entry).value.elsewhere == Some(version) ==> NewerSeries(KernelOf(version), v)
  {
    var fixes := Fixes(entry.ranges);
    var own := InSeries(fixes, v);
    var offered := if own != [] then Earliest(own) else Earliest(BeyondSeries(fixes, v));
    assert offered.version == version && offered in fixes;
    OfferIsLeast(fixes, v, offered);
  }

  /** What is offered from elsewhere is the lowest fix of any newer series, where the own
      one lists none and some newer one does. */
  lemma ElsewhereIsEarliest(v: Kernel, entry: Entry)
    requires WellFormed(entry) && Judge(v, entry).Some?
    ensures Judge(v, entry).value.elsewhere.Some? <==>
              && (forall r :: r in entry.ranges && r.fixed != "" ==> !SameSeries(KernelOf(r.fixed), v))
              && (exists r :: r in entry.ranges && r.fixed != "" && NewerSeries(KernelOf(r.fixed), v))
    ensures Judge(v, entry).value.elsewhere.Some? ==>
              var version := Judge(v, entry).value.elsewhere.value;
              && IsKernel(version) && (exists r :: r in entry.ranges && r.fixed == version)
              && forall r :: r in entry.ranges && r.fixed != "" && NewerSeries(KernelOf(r.fixed), v) ==>
                   !Below(KernelOf(r.fixed), KernelOf(version))
  {
    var fixes := Fixes(entry.ranges);
    SomeMember(InSeries(fixes, v));
    SomeMember(BeyondSeries(fixes, v));
  }

  /** The offered fix is the lowest of its own series. */
  lemma OfferIsLeast(fixes: seq<Fix>, v: Kernel, offered: Fix)
    requires if InSeries(fixes, v) != [] then offered == Earliest(InSeries(fixes, v))
             else BeyondSeries(fixes, v) != [] && offered == Earliest(BeyondSeries(fixes, v))
    ensures InSeries(fixes, offered.kernel) != []
    ensures Earliest(InSeries(fixes, offered.kernel)).kernel == offered.kernel
  {
    assert offered in InSeries(fixes, offered.kernel);
    var first := Earliest(InSeries(fixes, offered.kernel));
    if InSeries(fixes, v) != [] {
      assert first in InSeries(fixes, v);
    } else {
      assert first in BeyondSeries(fixes, v);
    }
    NotBelowBoth(first.kernel, offered.kernel);
  }

  /** The edges of a range, where no fix in its own series decides: affected from the
      introduction on, up to but not at the fix, and up to and at the last affected. */
  lemma RangeEdges(v: Kernel, entry: Entry, r: Range)
    requires WellFormed(entry) && entry.ranges == [r]
    requires r.fixed != "" ==> !SameSeries(KernelOf(r.fixed), v)
    ensures r.introduced in {"", "0"} && r.fixed == "" && r.last == "" ==> Judge(v, entry).Some?
    ensures r.introduced !in {"", "0"} && KernelOf(r.introduced) == v && r.fixed == "" && r.last == "" ==>
              Judge(v, entry).Some?
    ensures r.introduced !in {"", "0"} && Below(v, KernelOf(r.introduced)) ==> Judge(v, entry).None?
    ensures r.introduced in {"", "0"} && r.fixed != "" && r.last == "" ==>
              (Judge(v, entry).Some? <==> Below(v, KernelOf(r.fixed)))
    ensures r.fixed != "" && Below(KernelOf(r.fixed), v) ==> Judge(v, entry).None?
    ensures r.introduced in {"", "0"} && r.fixed == "" && r.last != "" ==>
              (Judge(v, entry).Some? <==> v == KernelOf(r.last) || Below(v, KernelOf(r.last)))
  {
    OnlyRange(v, entry, r);
  }

  lemma OnlyRange(v: Kernel, entry: Entry, r: Range)
    requires WellFormed(entry) && entry.ranges == [r] && r in entry.ranges
    requires r.fixed != "" ==> !SameSeries(KernelOf(r.fixed), v)
    ensures Judge(v, entry).Some? <==> InRange(v, r)
  {
    SomeMember(InSeries(Fixes(entry.ranges), v));
  }

  lemma SomeMember(fixes: seq<Fix>)
    ensures fixes == [] || exists f :: f in fixes
  {
    assert fixes != [] ==> fixes[0] in fixes;
  }

  /** With a least fix in the series of `v`, the ranges play no part: only standing below
      that fix gives a verdict. */
  lemma OwnSeriesDecides(v: Kernel, entry: Entry, least: Fix)
    requires WellFormed(entry)
    requires least in Fixes(entry.ranges) && SameSeries(least.kernel, v)
    requires forall f :: f in Fixes(entry.ranges) && SameSeries(f.kernel, v) ==> !Below(f.kernel, least.kernel)
    ensures Judge(v, entry).Some? <==> Below(v, least.kernel)
  {
    var own := InSeries(Fixes(entry.ranges), v);
    assert least in own;
    NotBelowBoth(Earliest(own).kernel, least.kernel);
  }

  lemma {:induction false} VerdictsAre(v: Kernel, entries: seq<Entry>)
    requires forall e :: e in entries ==> WellFormed(e)
    ensures forall d :: d in Verdicts(v, entries) ==> d.entry in entries && Judge(v, d.entry) == Some(d)
    ensures forall e :: e in entries && Judge(v, e).Some? ==> Judge(v, e).value in Verdicts(v, entries)
  {
    if entries != [] {
      var n := |entries| - 1;
      VerdictsAre(v, entries[..n]);
      assert entries == entries[..n] + [entries[n]];
    }
  }

  /** Whether a kernel is reported for a CVE. */
  ghost predicate Blames(v: Kernel, entries: seq<Entry>, cve: string)
    requires forall e :: e in entries ==> WellFormed(e)
  {
    exists d :: d in Verdicts(v, entries) && d.entry.cve == cve
  }

  /** Whether another record of the same CVE judges the kernel affected. */
  ghost predicate JudgedByAnother(v: Kernel, entries: seq<Entry>, entry: Entry)
    requires forall e :: e in entries ==> WellFormed(e)
  {
    exists e :: e in entries && e.cve == entry.cve && e != entry && Judge(v, e).Some?
  }

  lemma VerdictOfAnother(v: Kernel, entries: seq<Entry>, entry: Entry, d: Verdict)
    requires forall e :: e in entries ==> WellFormed(e)
    requires WellFormed(entry) && Judge(v, entry) == None && d in Verdicts(v, entries)
    ensures d.entry in entries && d.entry != entry && Judge(v, d.entry).Some?
  {
    VerdictsAre(v, entries);
  }

  lemma AnotherHasVerdict(v: Kernel, entries: seq<Entry>, e: Entry) returns (d: Verdict)
    requires forall e :: e in entries ==> WellFormed(e)
    requires e in entries && Judge(v, e).Some?
    ensures d in Verdicts(v, entries) && d.entry == e
  {
    VerdictsAre(v, entries);
    d := Judge(v, e).value;
  }

  lemma BlamedByAnother(v: Kernel, entries: seq<Entry>, entry: Entry)
    requires forall e :: e in entries ==> WellFormed(e)
    requires WellFormed(entry) && Judge(v, entry) == None
    ensures forall d :: d in Verdicts(v, entries) ==> d.entry != entry
    ensures Blames(v, entries, entry.cve) <==> JudgedByAnother(v, entries, entry)
  {
    forall d | d in Verdicts(v, entries) ensures d.entry in entries && d.entry != entry && Judge(v, d.entry).Some? {
      VerdictOfAnother(v, entries, entry, d);
    }
    if JudgedByAnother(v, entries, entry) {
      var e :| e in entries && e.cve == entry.cve && e != entry && Judge(v, e).Some?;
      var d := AnotherHasVerdict(v, entries, e);
    }
  }

  /** Over a whole feed: after following an offer the CVE is reported only by another
      record of it that the offered version does not clear, and so not at all where the
      feed has one record for it. */
  lemma FollowingAnOfferClears(v: Kernel, entries: seq<Entry>, d: Verdict, version: string)
    requires forall e :: e in entries ==> WellFormed(e)
    requires d in Verdicts(v, entries) && Offers(d, version)
    ensures IsKernel(version) && Below(v, KernelOf(version))
    ensures forall again :: again in Verdicts(KernelOf(version), entries) ==> again.entry != d.entry
    ensures Blames(KernelOf(version), entries, d.entry.cve) <==> JudgedByAnother(KernelOf(version), entries, d.entry)
    ensures (forall e :: e in entries && e.cve == d.entry.cve ==> e == d.entry) ==>
              !Blames(KernelOf(version), entries, d.entry.cve)
  {
    VerdictsAre(v, entries);
    OfferClears(v, d.entry, version);
    BlamedByAnother(KernelOf(version), entries, d.entry);
  }
}
