/** Asking about installed packages under their source names, and reporting once per
    source (`_match_by_source` and `_representative` in backend/app/scanner/osv_client.py). */
module SourceQueries {
  import opened Orders
  import opened Text
  import opened PackageIdentifier
  import opened Merging

  /** An installed binary, or a source asked about in its place. */
  datatype Package = Package(ecosystem: string, name: string, version: string)

  function NameAtVersion(p: Package): string {
    p.name + "@" + p.version
  }

  predicate Installed(packages: seq<Package>, p: Package) {
    p in packages && p.name != "" && p.version != ""
  }

  /** A source and the installed binaries built from it. */
  datatype Source = Source(package: Package, binaries: seq<Package>)

  function Members(s: Source): seq<Package> {
    [s.package] + s.binaries
  }

  function NameCmp(a: Package, b: Package): int {
    StrCmp(a.name, b.name)
  }

  function Images(binaries: seq<Package>, image: string -> bool): (images: seq<Package>)
    ensures forall b :: b in images ==> b in binaries && image(b.name)
  {
    if binaries == [] then []
    else (if image(binaries[0].name) then [binaries[0]] else []) + Images(binaries[1..], image)
  }

  function Namesake(name: string, binaries: seq<Package>): (r: Option<Package>)
    ensures r.Some? ==> r.value in binaries && r.value.name == name
  {
    if binaries == [] then None
    else if binaries[0].name == name then Some(binaries[0])
    else Namesake(name, binaries[1..])
  }

  /** Which of a source's binaries stands for it; see `RepresentativeIs`. */
  function Representative(s: Source, image: string -> bool): (b: Package)
    requires s.binaries != []
    ensures b in s.binaries
  {
    var images := Images(s.binaries, image);
    if images != [] then Least(NameCmp, images)
    else
      match Namesake(s.package.name, s.binaries)
      case Some(b) => b
      case None => Least(NameCmp, s.binaries)
  }

  ghost predicate HasImage(s: Source, image: string -> bool) {
    exists b :: b in s.binaries && image(b.name)
  }

  ghost predicate HasNamesake(s: Source) {
    exists b :: b in s.binaries && b.name == s.package.name
  }

  lemma NamePreorder()
    ensures TotalPreorder(NameCmp)
  {
    StrCmpTotal();
  }

  lemma {:induction false} ImagesAre(binaries: seq<Package>, image: string -> bool)
    ensures forall b :: b in Images(binaries, image) <==> b in binaries && image(b.name)
  {
    if binaries != [] {
      ImagesAre(binaries[1..], image);
      assert forall b :: b in binaries <==> b == binaries[0] || b in binaries[1..];
    }
  }

  lemma {:induction false} NamesakeIs(name: string, binaries: seq<Package>)
    ensures Namesake(name, binaries).None? <==> forall b :: b in binaries ==> b.name != name
  {
    if binaries != [] {
      NamesakeIs(name, binaries[1..]);
      assert forall b :: b in binaries <==> b == binaries[0] || b in binaries[1..];
    }
  }

  /** Which binary is chosen: the kernel image with the least name when there is one,
      else the source's namesake when it is installed, else the least name of all. */
  lemma RepresentativeIs(s: Source, image: string -> bool)
    requires s.binaries != []
    ensures var r := Representative(s, image);
            if HasImage(s, image) then
              image(r.name) && forall b :: b in s.binaries && image(b.name) ==> NameCmp(r, b) <= 0
            else if HasNamesake(s) then r.name == s.package.name
            else forall b :: b in s.binaries ==> NameCmp(r, b) <= 0
  {
    var images := Images(s.binaries, image);
    NamePreorder();
    ImagesAre(s.binaries, image);
    NamesakeIs(s.package.name, s.binaries);
    if images != [] {
      assert images[0] in images;
      LeastIsLeast(NameCmp, images);
    } else {
      LeastIsLeast(NameCmp, s.binaries);
    }
  }

  /** So the name reported does not depend on the order packages are listed in. */
  lemma RepresentativeOrderFree(s: Source, t: Source, image: string -> bool)
    requires s.package == t.package && s.binaries != []
    requires forall b :: b in s.binaries <==> b in t.binaries
    ensures t.binaries != [] && Representative(s, image).name == Representative(t, image).name
  {
    assert s.binaries[0] in t.binaries;
    RepresentativeIs(s, image);
    RepresentativeIs(t, image);
    var x, y := Representative(s, image), Representative(t, image);
    NamePreorder();
    assert NameCmp(x, y) <= 0 && NameCmp(y, x) <= 0 ==> NameCmp(x, y) == 0 by {
      assert Sign(NameCmp(x, y)) == -Sign(NameCmp(y, x));
    }
    StrCmpZero(x.name, y.name);
  }

  function Reported(s: Source, image: string -> bool): string
    requires s.binaries != []
  {
    NameAtVersion(Representative(s, image))
  }

  /** Where an advisory asked for under a name is reported. */
  function Target(remap: map<string, string>, asked: string): string {
    if asked in remap then remap[asked] else asked
  }

  /** Groups in order of arrival; `source` says what a binary was built from. */
  ghost predicate Grouped(packages: seq<Package>, source: Package -> Package, sources: seq<Source>) {
    && (forall s :: s in sources ==>
          (s.binaries != [] && forall b :: b in s.binaries ==> Installed(packages, b) && source(b) == s.package))
    && (forall p :: Installed(packages, p) ==> exists s :: s in sources && p in s.binaries)
    && (forall i, j :: 0 <= i < j < |sources| ==> sources[i].package != sources[j].package)
  }

  method GroupBySource(packages: seq<Package>, source: Package -> Package) returns (sources: seq<Source>)
    ensures Grouped(packages, source, sources)
  {
    var order: seq<Package> := [];
    var groups: map<Package, seq<Package>> := map[];
    for i := 0 to |packages|
      invariant forall k :: k in order <==> k in groups
      invariant forall j, k :: 0 <= j < k < |order| ==> order[j] != order[k]
      invariant forall k :: k in groups ==>
                  (groups[k] != [] && forall b :: b in groups[k] ==> Installed(packages[..i], b) && source(b) == k)
      invariant forall p :: Installed(packages[..i], p) ==> source(p) in groups && p in groups[source(p)]
    {
      var p := packages[i];
      assert packages[..i + 1] == packages[..i] + [p];
      if p.name != "" && p.version != "" {
        var key := source(p);
        if key !in groups {
          order := order + [key];
          groups := groups[key := []];
        }
        groups := groups[key := groups[key] + [p]];
      }
    }
    assert packages[..|packages|] == packages;
    sources := seq(|order|, i requires 0 <= i < |order| && (forall k :: k in order ==> k in groups) =>
                 Source(order[i], groups[order[i]]));
    forall p | Installed(packages, p) ensures exists s :: s in sources && p in s.binaries {
      var i :| 0 <= i < |order| && order[i] == source(p);
      assert sources[i] in sources;
    }
  }

  /** An advisory asked for under `asked` is reported under `reported` because some
      source goes by the one name and has the other as its representative. */
  ghost predicate From(sources: seq<Source>, image: string -> bool, asked: string, reported: string) {
    exists s, q :: s in sources && q in Members(s) && s.binaries != []
                   && NameAtVersion(q) == asked && Reported(s, image) == reported
  }

  /** Where a name may be reported. */
  type Sending = (string, string) -> bool

  ghost function Senders(sources: seq<Source>, image: string -> bool): Sending {
    (asked, reported) => From(sources, image, asked, reported)
  }

  lemma AllFromMembers(sources: seq<Source>, image: string -> bool, s: Source)
    requires s in sources && s.binaries != []
    ensures forall q :: q in Members(s) ==> Senders(sources, image)(NameAtVersion(q), Reported(s, image))
  {
  }

  /** What has been asked for, in order, and what is reported under another name. */
  datatype Asking = Asking(queries: seq<Package>, remap: map<string, string>)

  /** One name, skipped when it was asked before; a name keeps the first place it was
      sent to. */
  function Asked(asking: Asking, query: Package, reported: string): Asking {
    var asked := NameAtVersion(query);
    if query in asking.queries then asking
    else
      Asking(asking.queries + [query],
             if asked != reported && asked !in asking.remap then asking.remap[asked := reported] else asking.remap)
  }

  function AskedAll(asking: Asking, members: seq<Package>, reported: string): Asking {
    if members == [] then asking
    else
      var n := |members| - 1;
      Asked(AskedAll(asking, members[..n], reported), members[n], reported)
  }

  predicate HaveBinaries(sources: seq<Source>) {
    forall i :: 0 <= i < |sources| ==> sources[i].binaries != []
  }

  /** Every source in turn, its own name before its binaries'. */
  function PlanOf(sources: seq<Source>, image: string -> bool): Asking
    requires HaveBinaries(sources)
  {
    if sources == [] then Asking([], map[])
    else
      var n := |sources| - 1;
      AskedAll(PlanOf(sources[..n], image), Members(sources[n]), Reported(sources[n], image))
  }

  method AskSource(members: seq<Package>, reported: string, before: Asking) returns (asking: Asking)
    ensures asking == AskedAll(before, members, reported)
  {
    var queries, remap := before.queries, before.remap;
    for i := 0 to |members|
      invariant Asking(queries, remap) == AskedAll(before, members[..i], reported)
    {
      assert members[..i + 1][..i] == members[..i];
      var query := members[i];
      if query !in queries {
        queries := queries + [query];
        var asked := NameAtVersion(query);
        if asked != reported && asked !in remap {
          remap := remap[asked := reported];
        }
      }
    }
    assert members[..|members|] == members;
    asking := Asking(queries, remap);
  }

  /** Every installed package and every source is asked about once, and what is asked
      under any name of a source is reported under the representative of a source with
      that name. */
  ghost predicate PlanFits(packages: seq<Package>, source: Package -> Package, image: string -> bool,
                           sources: seq<Source>, asking: Asking) {
    && (forall q :: q in asking.queries <==>
          Installed(packages, q) || exists p :: Installed(packages, p) && source(p) == q)
    && (forall i, j :: 0 <= i < j < |asking.queries| ==> asking.queries[i] != asking.queries[j])
    && (forall q :: q in asking.queries ==>
          From(sources, image, NameAtVersion(q), Target(asking.remap, NameAtVersion(q))))
    && (forall t :: t in asking.remap ==> From(sources, image, t, asking.remap[t]))
  }

  /** Which queries to ask, and what to report their advisories under. */
  method Plan(packages: seq<Package>, source: Package -> Package, image: string -> bool)
    returns (ghost sources: seq<Source>, asking: Asking)
    ensures Grouped(packages, source, sources) && HaveBinaries(sources)
    ensures asking == PlanOf(sources, image)
    ensures PlanFits(packages, source, image, sources, asking)
  {
    var found := GroupBySource(packages, source);
    sources := found;
    asking := AskSources(found, image);
    PlanMeets(packages, source, image, found);
  }

  lemma PlanMeets(packages: seq<Package>, source: Package -> Package, image: string -> bool, sources: seq<Source>)
    requires Grouped(packages, source, sources) && HaveBinaries(sources)
    ensures PlanFits(packages, source, image, sources, PlanOf(sources, image))
  {
    PlanReports(sources, image);
    ReportsFit(packages, source, image, sources, PlanOf(sources, image));
  }

  lemma ReportsFit(packages: seq<Package>, source: Package -> Package, image: string -> bool,
                   sources: seq<Source>, asking: Asking)
    requires Grouped(packages, source, sources) && Reports(sources, image, asking)
    ensures PlanFits(packages, source, image, sources, asking)
  {
    AllAsked(packages, source, sources, asking.queries);
  }

  method AskSources(sources: seq<Source>, image: string -> bool) returns (asking: Asking)
    requires HaveBinaries(sources)
    ensures asking == PlanOf(sources, image)
  {
    asking := Asking([], map[]);
    for i := 0 to |sources|
      invariant asking == PlanOf(sources[..i], image)
    {
      assert sources[..i + 1][..i] == sources[..i];
      asking := AskSource(Members(sources[i]), Reported(sources[i], image), asking);
    }
    assert sources[..|sources|] == sources;
  }

  /** Exactly the sources' names are asked for, each once, and each is reported under the
      representative of a source it names. */
  ghost predicate Reports(sources: seq<Source>, image: string -> bool, asking: Asking) {
    && (forall q :: q in asking.queries <==> exists s :: s in sources && q in Members(s))
    && (forall i, j :: 0 <= i < j < |asking.queries| ==> asking.queries[i] != asking.queries[j])
    && (forall q :: q in asking.queries ==>
          From(sources, image, NameAtVersion(q), Target(asking.remap, NameAtVersion(q))))
    && (forall t :: t in asking.remap ==> From(sources, image, t, asking.remap[t]))
  }

  lemma PlanReports(sources: seq<Source>, image: string -> bool)
    requires HaveBinaries(sources)
    ensures Reports(sources, image, PlanOf(sources, image))
  {
    PlanIsSound(sources, image);
    SoundReports(Senders(sources, image), PlanOf(sources, image));
  }

  lemma SoundReports(from: Sending, asking: Asking)
    requires Sound(from, asking)
    ensures forall q :: q in asking.queries ==> from(NameAtVersion(q), Target(asking.remap, NameAtVersion(q)))
  {
  }

  /** Names asked for so far go where they may. */
  ghost predicate Sound(from: Sending, asking: Asking) {
    && (forall t :: t in asking.remap ==> from(t, asking.remap[t]))
    && (forall q :: q in asking.queries ==>
          NameAtVersion(q) in asking.remap || from(NameAtVersion(q), NameAtVersion(q)))
    && (forall i, j :: 0 <= i < j < |asking.queries| ==> asking.queries[i] != asking.queries[j])
  }

  lemma AskedSound(from: Sending, asking: Asking, query: Package, reported: string)
    requires Sound(from, asking) && from(NameAtVersion(query), reported)
    ensures Sound(from, Asked(asking, query, reported))
    ensures forall q :: q in Asked(asking, query, reported).queries <==> q in asking.queries || q == query
  {
  }

  lemma {:induction false} AskedAllSound(from: Sending, asking: Asking, members: seq<Package>, reported: string)
    requires Sound(from, asking) && forall q :: q in members ==> from(NameAtVersion(q), reported)
    ensures Sound(from, AskedAll(asking, members, reported))
    ensures forall q :: q in AskedAll(asking, members, reported).queries <==> q in asking.queries || q in members
  {
    if members != [] {
      var n := |members| - 1;
      AskedAllSound(from, asking, members[..n], reported);
      AskedSound(from, AskedAll(asking, members[..n], reported), members[n], reported);
      assert members == members[..n] + [members[n]];
    }
  }

  lemma {:induction false} PlanSound(from: Sending, sources: seq<Source>, image: string -> bool)
    requires HaveBinaries(sources)
    requires forall s, q :: s in sources && q in Members(s) && s.binaries != [] ==>
               from(NameAtVersion(q), Reported(s, image))
    ensures Sound(from, PlanOf(sources, image))
    ensures forall q :: q in PlanOf(sources, image).queries <==> exists s :: s in sources && q in Members(s)
  {
    if sources != [] {
      var n := |sources| - 1;
      assert sources == sources[..n] + [sources[n]];
      PlanSound(from, sources[..n], image);
      AskedAllSound(from, PlanOf(sources[..n], image), Members(sources[n]), Reported(sources[n], image));
    }
  }

  lemma PlanIsSound(sources: seq<Source>, image: string -> bool)
    requires HaveBinaries(sources)
    ensures Sound(Senders(sources, image), PlanOf(sources, image))
    ensures forall q :: q in PlanOf(sources, image).queries <==> exists s :: s in sources && q in Members(s)
  {
    forall s, q | s in sources && q in Members(s) && s.binaries != []
      ensures Senders(sources, image)(NameAtVersion(q), Reported(s, image))
    {
      AllFromMembers(sources, image, s);
    }
    PlanSound(Senders(sources, image), sources, image);
  }

  lemma AllAsked(packages: seq<Package>, source: Package -> Package, sources: seq<Source>, queries: seq<Package>)
    requires Grouped(packages, source, sources)
    requires forall q :: q in queries <==> exists s :: s in sources && q in Members(s)
    ensures forall q :: q in queries <==> Installed(packages, q) || exists p :: Installed(packages, p) && source(p) == q
  {
    forall q ensures q in queries <==> Installed(packages, q) || exists p :: Installed(packages, p) && source(p) == q {
      if q in queries {
        var s :| s in sources && q in Members(s);
        if q !in s.binaries {
          assert s.binaries[0] in s.binaries && source(s.binaries[0]) == q;
        }
      }
      if Installed(packages, q) {
        var s :| s in sources && q in s.binaries;
        assert q in Members(s);
      }
      if p :| Installed(packages, p) && source(p) == q {
        var s :| s in sources && p in s.binaries;
        assert q in Members(s);
      }
    }
  }

  // Moving an advisory from the source package it was asked under to the binary.

  /** Where the `name@version` starts: after the last colon before the last "@". */
  function TailStart(base: string): (k: nat)
    ensures k <= |base|
  {
    var at := AfterLast(base, '@', |base|);
    if at == 0 then 0 else AfterLast(base, ':', at - 1)
  }

  /** Looks the text from `TailStart` to the note up in the remap. */
  function Reattribute(a: RawAdvisory, remap: map<string, string>): RawAdvisory {
    if a.identifier == "" then a
    else
      var note := Find(a.identifier, " (");
      var base := if note.None? then a.identifier else a.identifier[..note.value];
      var suffix := if note.None? then "" else a.identifier[note.value..];
      var colon := TailStart(base);
      if base[colon..] !in remap then a
      else a.(identifier := base[..colon] + remap[base[colon..]] + suffix)
  }

  function ReattributeAll(advisories: seq<RawAdvisory>, remap: map<string, string>): seq<RawAdvisory> {
    seq(|advisories|, i requires 0 <= i < |advisories| => Reattribute(advisories[i], remap))
  }

  /** The name and version are replaced, the ecosystem and the note stay. */
  lemma ReattributeRewrites(a: RawAdvisory, ecosystem: string, name: string, version: string, spelled: string,
                            remap: map<string, string>)
    requires Canonical(ecosystem, name, version) && IsNote(spelled)
    requires a.identifier == Identifier(ecosystem, name, version) + spelled
    ensures var tail := name + "@" + version;
            Reattribute(a, remap) ==
            if tail in remap then a.(identifier := ecosystem + ":" + remap[tail] + spelled) else a
  {
    var base := Identifier(ecosystem, name, version);
    IdentifierHasNoParen(ecosystem, name, version);
    TailOf(ecosystem, name, version);
    RewritesBase(a, base, spelled, remap);
  }

  lemma TailOf(ecosystem: string, name: string, version: string)
    requires Canonical(ecosystem, name, version)
    ensures var base := Identifier(ecosystem, name, version);
            var k := TailStart(base);
            base[..k] == ecosystem + ":" && base[k..] == name + "@" + version
  {
    var base := Identifier(ecosystem, name, version);
    Separators(ecosystem, name, version);
    assert TailStart(base) == |ecosystem| + 1;
  }

  lemma RewritesBase(a: RawAdvisory, base: string, spelled: string, remap: map<string, string>)
    requires base != "" && '(' !in base && IsNote(spelled) && a.identifier == base + spelled
    ensures var k := TailStart(base);
            Reattribute(a, remap) ==
            if base[k..] in remap then a.(identifier := base[..k] + remap[base[k..]] + spelled) else a
  {
    WithoutNoteCuts(base, spelled);
    assert spelled == "" ==> a.identifier == base;
    assert a.identifier[..|base|] == base && a.identifier[|base|..] == spelled;
  }

  /** What can be read from the finding afterwards: the binary's name and version, and
      the same answer about its fix. */
  lemma ReattributeReads(a: RawAdvisory, ecosystem: string, name: string, version: string, note: Note,
                         remap: map<string, string>, binary: string, installed: string)
    requires Canonical(ecosystem, name, version) && Canonical(ecosystem, binary, installed) && Readable(note)
    requires a.identifier == Identifier(ecosystem, name, version) + Spell(note)
    requires name + "@" + version in remap && remap[name + "@" + version] == binary + "@" + installed
    ensures var moved := Reattribute(a, remap);
            && moved == a.(identifier := Identifier(ecosystem, binary, installed) + Spell(note))
            && ParsePackageName(Some(moved.identifier)) == Some(binary)
            && ParsePackageVersion(Some(moved.identifier)) == Some(installed)
            && ParseFix(Some(moved.identifier)) == ParseFix(Some(a.identifier)) == Meaning(note)
  {
    SpellIsNote(note);
    ReattributeRewrites(a, ecosystem, name, version, Spell(note), remap);
    assert ecosystem + ":" + (binary + "@" + installed) == Identifier(ecosystem, binary, installed);
    IdentifierRoundTrip(ecosystem, binary, installed, Spell(note));
    ReadsNote(ecosystem, name, version, note);
    ReadsNote(ecosystem, binary, installed, note);
  }

  lemma ReadsNote(ecosystem: string, name: string, version: string, note: Note)
    requires Canonical(ecosystem, name, version) && Readable(note)
    ensures ParseFix(Some(Identifier(ecosystem, name, version) + Spell(note))) == Meaning(note)
  {
    IdentifierHasNoParen(ecosystem, name, version);
    TokenOf(ecosystem, name, version, "");
    assert Identifier(ecosystem, name, version) + "" == Identifier(ecosystem, name, version);
    FixRoundTrip(Identifier(ecosystem, name, version), note);
  }

  lemma MovedFrom(advisories: seq<RawAdvisory>, remap: map<string, string>, c: RawAdvisory) returns (b: RawAdvisory)
    requires c in ReattributeAll(advisories, remap)
    ensures b in advisories && c.cve == b.cve && SameRating(c, b)
  {
    var i :| 0 <= i < |advisories| && ReattributeAll(advisories, remap)[i] == c;
    b := advisories[i];
  }

  lemma MovedTo(advisories: seq<RawAdvisory>, remap: map<string, string>, a: RawAdvisory) returns (c: RawAdvisory)
    requires a in advisories
    ensures c in ReattributeAll(advisories, remap) && c.cve == a.cve && SameRating(c, a)
  {
    var i :| 0 <= i < |advisories| && advisories[i] == a;
    c := ReattributeAll(advisories, remap)[i];
  }

  /** Whatever is moved where, no vulnerability is lost, and none rated better than any
      record of it or unlike every record of it. */
  lemma NoCveLost(r: Rules, advisories: seq<RawAdvisory>, remap: map<string, string>, a: RawAdvisory)
    returns (f: RawAdvisory, b: RawAdvisory)
    requires Lawful(r) && a in advisories
    ensures f in Deduplicated(r, ReattributeAll(advisories, remap)) && f.cve == a.cve && r.rank(f, a) <= 0
    ensures b in advisories && b.cve == a.cve && SameRating(b, f)
  {
    var c := MovedTo(advisories, remap, a);
    var moved := ReattributeAll(advisories, remap);
    f := OnlyOne(r, moved, c);
    RatingKept(r, f, c, a);
    var d :| d in moved && KeyOf(r, d) == KeyOf(r, f) && SameRating(d, f);
    b := MovedFrom(advisories, remap, d);
  }

  lemma RatingKept(r: Rules, f: RawAdvisory, moved: RawAdvisory, a: RawAdvisory)
    requires Lawful(r) && SameRating(moved, a) && r.rank(f, moved) <= 0
    ensures r.rank(f, a) <= 0
  {
    assert Sign(r.rank(f, a)) == -Sign(r.rank(a, f)) && Sign(r.rank(f, moved)) == -Sign(r.rank(moved, f));
  }

  // Where findings end up.

  /** Findings always name an installed package at its installed version. */
  lemma ReportsInstalled(packages: seq<Package>, source: Package -> Package, sources: seq<Source>, image: string -> bool,
                         asked: string, reported: string) returns (p: Package)
    requires Grouped(packages, source, sources) && From(sources, image, asked, reported)
    ensures Installed(packages, p) && NameAtVersion(p) == reported
  {
    var s, q :| s in sources && q in Members(s) && s.binaries != []
                && NameAtVersion(q) == asked && Reported(s, image) == reported;
    p := Representative(s, image);
  }

  /** An advisory for something asked is moved to an installed package of the same
      ecosystem, with its fix as it was. */
  lemma MovedToInstalled(packages: seq<Package>, source: Package -> Package, sources: seq<Source>, image: string -> bool,
                         a: RawAdvisory, ecosystem: string, q: Package, note: Note, remap: map<string, string>)
    returns (p: Package)
    requires Grouped(packages, source, sources)
    requires From(sources, image, NameAtVersion(q), Target(remap, NameAtVersion(q)))
    requires Canonical(ecosystem, q.name, q.version) && Readable(note)
    requires forall b :: Installed(packages, b) && NameAtVersion(b) == Target(remap, NameAtVersion(q)) ==>
               Canonical(ecosystem, b.name, b.version)
    requires a.identifier == Identifier(ecosystem, q.name, q.version) + Spell(note)
    ensures Installed(packages, p)
    ensures Reattribute(a, remap).identifier == Identifier(ecosystem, p.name, p.version) + Spell(note)
    ensures ParsePackageName(Some(Reattribute(a, remap).identifier)) == Some(p.name)
    ensures ParsePackageVersion(Some(Reattribute(a, remap).identifier)) == Some(p.version)
    ensures ParseFix(Some(Reattribute(a, remap).identifier)) == ParseFix(Some(a.identifier))
  {
    var asked := NameAtVersion(q);
    p := ReportsInstalled(packages, source, sources, image, asked, Target(remap, asked));
    if asked in remap {
      ReattributeReads(a, ecosystem, q.name, q.version, note, remap, p.name, p.version);
    } else {
      SpellIsNote(note);
      ReattributeRewrites(a, ecosystem, q.name, q.version, Spell(note), remap);
      IdentifierAt(ecosystem, q);
      IdentifierAt(ecosystem, p);
      IdentifierRoundTrip(ecosystem, p.name, p.version, Spell(note));
    }
  }

  lemma IdentifierAt(ecosystem: string, p: Package)
    ensures Identifier(ecosystem, p.name, p.version) == ecosystem + ":" + NameAtVersion(p)
  {
  }

  // Where the names asked for lead.

  /** The n-th source is the first to go by some package that is written so. */
  ghost predicate Opens(sources: seq<Source>, n: nat, asked: string)
    requires n < |sources|
  {
    exists q :: q in Members(sources[n]) && NameAtVersion(q) == asked && Unasked(sources, n, q)
  }

  ghost predicate Unasked(sources: seq<Source>, n: nat, q: Package)
    requires n <= |sources|
  {
    forall m :: 0 <= m < n ==> q !in Members(sources[m])
  }

  /** ... and its representative is called otherwise. */
  ghost predicate Diverts(sources: seq<Source>, image: string -> bool, n: nat, asked: string)
    requires HaveBinaries(sources) && n < |sources|
  {
    Opens(sources, n, asked) && Reported(sources[n], image) != asked
  }

  ghost predicate Undiverted(sources: seq<Source>, image: string -> bool, n: nat, asked: string)
    requires HaveBinaries(sources) && n <= |sources|
  {
    forall m :: 0 <= m < n ==> !Diverts(sources, image, m, asked)
  }

  ghost predicate DivertsFirst(sources: seq<Source>, image: string -> bool, n: nat, asked: string)
    requires HaveBinaries(sources) && n < |sources|
  {
    Diverts(sources, image, n, asked) && Undiverted(sources, image, n, asked)
  }

  /** The first source to divert a name has the representative given, or none diverts it
      and it is the name itself. */
  ghost predicate LeadsTo(sources: seq<Source>, image: string -> bool, asked: string, reported: string)
    requires HaveBinaries(sources)
  {
    if asked == reported then Undiverted(sources, image, |sources|, asked)
    else
      exists n :: 0 <= n < |sources| && DivertsFirst(sources, image, n, asked) && Reported(sources[n], image) == reported
  }

  ghost predicate Fresh(asking: Asking, members: seq<Package>, asked: string) {
    exists q :: q in members && NameAtVersion(q) == asked && q !in asking.queries
  }

  lemma {:induction false} AskedAllTarget(asking: Asking, members: seq<Package>, reported: string, asked: string)
    ensures forall q :: q in AskedAll(asking, members, reported).queries <==> q in asking.queries || q in members
    ensures Target(AskedAll(asking, members, reported).remap, asked) ==
            if asked !in asking.remap && Fresh(asking, members, asked) then reported else Target(asking.remap, asked)
    ensures asked in AskedAll(asking, members, reported).remap <==>
              asked in asking.remap || (Fresh(asking, members, asked) && reported != asked)
  {
    if members != [] {
      var n := |members| - 1;
      assert members == members[..n] + [members[n]];
      AskedAllTarget(asking, members[..n], reported, asked);
      AskedTarget(asking, members[..n], members[n], reported, asked);
    }
  }

  lemma AskedTarget(asking: Asking, members: seq<Package>, last: Package, reported: string, asked: string)
    ensures Fresh(asking, members + [last], asked) <==>
              Fresh(asking, members, asked) || (NameAtVersion(last) == asked && last !in asking.queries)
  {
    if NameAtVersion(last) == asked && last !in asking.queries {
      assert last in members + [last];
    }
    if Fresh(asking, members, asked) {
      var q :| q in members && NameAtVersion(q) == asked && q !in asking.queries;
      assert q in members + [last];
    }
  }

  lemma UnaskedPrefix(sources: seq<Source>, n: nat, m: nat, q: Package)
    requires m <= n <= |sources|
    ensures Unasked(sources[..n], m, q) <==> Unasked(sources, m, q)
  {
    forall k | 0 <= k < m ensures sources[..n][k] == sources[k] {
    }
  }

  lemma DivertsPrefix(sources: seq<Source>, image: string -> bool, n: nat, m: nat, asked: string)
    requires HaveBinaries(sources) && m < n <= |sources|
    ensures Diverts(sources[..n], image, m, asked) <==> Diverts(sources, image, m, asked)
  {
    forall q ensures Unasked(sources[..n], m, q) <==> Unasked(sources, m, q) {
      UnaskedPrefix(sources, n, m, q);
    }
    assert sources[..n][m] == sources[m];
  }

  lemma UndivertedPrefix(sources: seq<Source>, image: string -> bool, n: nat, m: nat, asked: string)
    requires HaveBinaries(sources) && m <= n <= |sources|
    ensures Undiverted(sources[..n], image, m, asked) <==> Undiverted(sources, image, m, asked)
  {
    forall k | 0 <= k < m ensures Diverts(sources[..n], image, k, asked) <==> Diverts(sources, image, k, asked) {
      DivertsPrefix(sources, image, n, k, asked);
    }
  }

  lemma FreshOpens(sources: seq<Source>, image: string -> bool, n: nat, asked: string)
    requires HaveBinaries(sources) && n < |sources|
    ensures Fresh(PlanOf(sources[..n], image), Members(sources[n]), asked) <==> Opens(sources, n, asked)
  {
    PlanIsSound(sources[..n], image);
    forall q ensures q !in PlanOf(sources[..n], image).queries <==> Unasked(sources, n, q) {
      NotAsked(sources, n, q);
    }
  }

  lemma NotAsked(sources: seq<Source>, n: nat, q: Package)
    requires n <= |sources|
    ensures Unasked(sources, n, q) <==> !exists s :: s in sources[..n] && q in Members(s)
  {
    forall m | 0 <= m < n ensures sources[m] in sources[..n] {
      assert sources[..n][m] == sources[m];
    }
  }

  lemma LeadsFurther(sources: seq<Source>, image: string -> bool, n: nat, asked: string, reported: string)
    requires HaveBinaries(sources) && n <= |sources| && !Undiverted(sources[..n], image, n, asked)
    requires LeadsTo(sources[..n], image, asked, reported)
    ensures LeadsTo(sources, image, asked, reported) && asked != reported
  {
    var m :| 0 <= m < n && DivertsFirst(sources[..n], image, m, asked) && Reported(sources[..n][m], image) == reported;
    DivertsPrefix(sources, image, n, m, asked);
    UndivertedPrefix(sources, image, n, m, asked);
  }

  lemma LeadsLast(sources: seq<Source>, image: string -> bool, asked: string)
    requires HaveBinaries(sources) && sources != [] && Undiverted(sources, image, |sources| - 1, asked)
    ensures var n := |sources| - 1;
            var target := if Opens(sources, n, asked) then Reported(sources[n], image) else asked;
            LeadsTo(sources, image, asked, target) && (Undiverted(sources, image, |sources|, asked) <==> target == asked)
  {
    var n := |sources| - 1;
    UndivertedMore(sources, image, n, asked);
    if Diverts(sources, image, n, asked) {
      assert DivertsFirst(sources, image, n, asked);
    }
  }

  lemma UndivertedMore(sources: seq<Source>, image: string -> bool, n: nat, asked: string)
    requires HaveBinaries(sources) && n < |sources| && Undiverted(sources, image, n, asked)
    ensures Undiverted(sources, image, n + 1, asked) <==> !Diverts(sources, image, n, asked)
  {
  }

  lemma StillDiverted(sources: seq<Source>, image: string -> bool, n: nat, asked: string)
    requires HaveBinaries(sources) && n <= |sources| && !Undiverted(sources, image, n, asked)
    ensures !Undiverted(sources, image, |sources|, asked)
  {
  }

  /** Every name leads where the first source to divert it says, and is remapped exactly
      when some source does. */
  lemma {:induction false} NamesLead(sources: seq<Source>, image: string -> bool, asked: string)
    requires HaveBinaries(sources)
    ensures asked in PlanOf(sources, image).remap <==> !Undiverted(sources, image, |sources|, asked)
    ensures LeadsTo(sources, image, asked, Target(PlanOf(sources, image).remap, asked))
  {
    if sources != [] {
      var n := |sources| - 1;
      var before := PlanOf(sources[..n], image);
      NamesLead(sources[..n], image, asked);
      UndivertedPrefix(sources, image, n, n, asked);
      PlanMore(sources, image, asked);
      if asked in before.remap {
        LeadsFurther(sources, image, n, asked, before.remap[asked]);
        StillDiverted(sources, image, n, asked);
      } else {
        LeadsLast(sources, image, asked);
      }
    }
  }

  lemma PlanMore(sources: seq<Source>, image: string -> bool, asked: string)
    requires HaveBinaries(sources) && sources != []
    ensures var n := |sources| - 1;
            var before, after := PlanOf(sources[..n], image).remap, PlanOf(sources, image).remap;
            && (asked in before ==> asked in after && after[asked] == before[asked])
            && (asked !in before ==>
                  && Target(after, asked) == (if Opens(sources, n, asked) then Reported(sources[n], image) else asked)
                  && (asked in after <==> Target(after, asked) != asked))
  {
    var n := |sources| - 1;
    FreshOpens(sources, image, n, asked);
    AskedAllTarget(PlanOf(sources[..n], image), Members(sources[n]), Reported(sources[n], image), asked);
  }

  lemma LeadsOnce(sources: seq<Source>, image: string -> bool, asked: string, one: string, other: string)
    requires HaveBinaries(sources) && LeadsTo(sources, image, asked, one) && LeadsTo(sources, image, asked, other)
    ensures one == other
  {
    if one == asked || other == asked {
      assert Undiverted(sources, image, |sources|, asked);
    } else {
      var m :| 0 <= m < |sources| && DivertsFirst(sources, image, m, asked) && Reported(sources[m], image) == one;
      var n :| 0 <= n < |sources| && DivertsFirst(sources, image, n, asked) && Reported(sources[n], image) == other;
      OneFirst(sources, image, m, n, asked);
    }
  }

  lemma LeadsExactly(sources: seq<Source>, image: string -> bool, asked: string, reported: string)
    requires HaveBinaries(sources)
    ensures LeadsTo(sources, image, asked, reported) <==> Target(PlanOf(sources, image).remap, asked) == reported
  {
    var target := Target(PlanOf(sources, image).remap, asked);
    NamesLead(sources, image, asked);
    if LeadsTo(sources, image, asked, reported) {
      LeadsOnce(sources, image, asked, reported, target);
    }
  }

  lemma OneFirst(sources: seq<Source>, image: string -> bool, m: nat, n: nat, asked: string)
    requires HaveBinaries(sources) && m < |sources| && n < |sources|
    requires DivertsFirst(sources, image, m, asked) && DivertsFirst(sources, image, n, asked)
    ensures m == n
  {
  }

  // Once per source.

  /** A record about a package under the name and version it was asked for. */
  predicate Names(a: RawAdvisory, ecosystem: string, p: Package, note: Note) {
    && Canonical(ecosystem, p.name, p.version) && Readable(note)
    && a.identifier == Identifier(ecosystem, p.name, p.version) + Spell(note)
  }

  /** A record published under the source's name or that of one of its binaries. */
  ghost predicate PublishedUnder(s: Source, a: RawAdvisory) {
    exists ecosystem, q, note :: q in Members(s) && Names(a, ecosystem, q, note)
  }

  /** No other source goes by any of the source's names. */
  ghost predicate NamesUnshared(sources: seq<Source>, s: Source) {
    forall other, o, q ::
      other in sources && o in Members(other) && q in Members(s) && NameAtVersion(o) == NameAtVersion(q) ==> other == s
  }

  /** For every name of the source, the first source to divert it has a representative
      called as this one's is. */
  ghost predicate NamesKept(sources: seq<Source>, image: string -> bool, s: Source)
    requires HaveBinaries(sources) && s.binaries != []
  {
    forall q :: q in Members(s) ==> LeadsTo(sources, image, NameAtVersion(q), Reported(s, image))
  }

  /** That is when the plan sends everything asked for under them to the representative. */
  lemma SentExactly(sources: seq<Source>, image: string -> bool, s: Source)
    requires HaveBinaries(sources) && s.binaries != []
    ensures NamesKept(sources, image, s) <==>
              forall q :: q in Members(s) ==> Target(PlanOf(sources, image).remap, NameAtVersion(q)) == Reported(s, image)
  {
    forall q | q in Members(s)
      ensures LeadsTo(sources, image, NameAtVersion(q), Reported(s, image)) <==>
                Target(PlanOf(sources, image).remap, NameAtVersion(q)) == Reported(s, image)
    {
      LeadsExactly(sources, image, NameAtVersion(q), Reported(s, image));
    }
  }

  /** A source that shares no name keeps its names. */
  lemma UnsharedKept(sources: seq<Source>, image: string -> bool, s: Source)
    requires HaveBinaries(sources) && s in sources && s.binaries != [] && NamesUnshared(sources, s)
    ensures NamesKept(sources, image, s)
  {
    PlanReports(sources, image);
    forall q | q in Members(s) ensures Target(PlanOf(sources, image).remap, NameAtVersion(q)) == Reported(s, image) {
      OnlyFrom(sources, image, s, q, Target(PlanOf(sources, image).remap, NameAtVersion(q)));
    }
    SentExactly(sources, image, s);
  }

  lemma OnlyFrom(sources: seq<Source>, image: string -> bool, s: Source, q: Package, reported: string)
    requires s in sources && s.binaries != [] && NamesUnshared(sources, s) && q in Members(s)
    requires From(sources, image, NameAtVersion(q), reported)
    ensures reported == Reported(s, image)
  {
  }

  /** What moving makes of a record whose name is sent to an installed binary. */
  lemma MovedNames(a: RawAdvisory, ecosystem: string, q: Package, note: Note, remap: map<string, string>, b: Package)
    requires Names(a, ecosystem, q, note) && Canonical("", b.name, b.version)
    requires Target(remap, NameAtVersion(q)) == NameAtVersion(b)
    ensures Names(Reattribute(a, remap), ecosystem, b, note)
  {
    SpellIsNote(note);
    ReattributeRewrites(a, ecosystem, q.name, q.version, Spell(note), remap);
    IdentifierAt(ecosystem, q);
    IdentifierAt(ecosystem, b);
  }

  /** The package a finding about a binary is grouped under. */
  function GroupName(b: Package): string {
    if IsKernelPackage(b.name) then b.name + "@" + b.version else b.name
  }

  lemma NamesReads(a: RawAdvisory, ecosystem: string, b: Package, note: Note)
    requires Names(a, ecosystem, b, note)
    ensures ParsePackageName(Some(a.identifier)) == Some(b.name)
    ensures ParsePackageVersion(Some(a.identifier)) == Some(b.version)
    ensures PackageOf(a.identifier) == GroupName(b)
  {
    SpellIsNote(note);
    IdentifierRoundTrip(ecosystem, b.name, b.version, Spell(note));
    FindingPackageOf(ecosystem, b.name, b.version, Spell(note));
  }

  /** Records of one vulnerability that are all about one package make one finding. */
  lemma OneFindingFor(r: Rules, records: seq<RawAdvisory>, cve: string, package: string, m: RawAdvisory)
    returns (f: RawAdvisory, from: RawAdvisory)
    requires Lawful(r) && m in records && m.cve == cve
    requires forall c :: c in records && c.cve == cve ==> r.package(c.identifier) == package
    ensures f in Deduplicated(r, records) && f.cve == cve
    ensures forall g :: g in Deduplicated(r, records) && g.cve == cve ==> g == f
    ensures from in records && from.cve == cve && from.identifier == f.identifier
  {
    f := OnlyOne(r, records, m);
    DeduplicatedRepresents(r, records);
    assert FromRecord(r, f, records);
    from :| from in records && from.cve == f.cve && from.identifier == f.identifier;
    forall g | g in Deduplicated(r, records) && g.cve == cve ensures g == f {
      assert FromRecord(r, g, records);
      var c :| c in records && c.cve == g.cve && c.identifier == g.identifier;
      assert KeyOf(r, g) == KeyOf(r, m);
    }
  }

  lemma MovedUnder(s: Source, a: RawAdvisory, remap: map<string, string>, b: Package)
    requires PublishedUnder(s, a) && SendsTo(s, remap, b)
    ensures About(Reattribute(a, remap), b)
  {
    var ecosystem, q, note :| q in Members(s) && Names(a, ecosystem, q, note);
    MovedNames(a, ecosystem, q, note, remap, b);
    NamesReads(Reattribute(a, remap), ecosystem, b, note);
  }

  /** The names of a source all lead to one binary, in a plan. */
  ghost predicate SendsTo(s: Source, remap: map<string, string>, b: Package) {
    && Canonical("", b.name, b.version)
    && forall q :: q in Members(s) ==> Target(remap, NameAtVersion(q)) == NameAtVersion(b)
  }

  lemma SendsToRepresentative(sources: seq<Source>, image: string -> bool, s: Source)
    requires HaveBinaries(sources) && s.binaries != [] && NamesKept(sources, image, s)
    requires var b := Representative(s, image); Canonical("", b.name, b.version)
    ensures SendsTo(s, PlanOf(sources, image).remap, Representative(s, image))
  {
    SentExactly(sources, image, s);
  }

  /** A record that names an installed binary as its own. */
  predicate About(a: RawAdvisory, b: Package) {
    && ParsePackageName(Some(a.identifier)) == Some(b.name) && ParsePackageVersion(Some(a.identifier)) == Some(b.version)
    && PackageOf(a.identifier) == GroupName(b)
  }

  lemma AllMovedUnder(s: Source, remap: map<string, string>, b: Package, advisories: seq<RawAdvisory>, cve: string)
    requires SendsTo(s, remap, b) && forall c :: c in advisories && c.cve == cve ==> PublishedUnder(s, c)
    ensures forall m :: m in ReattributeAll(advisories, remap) && m.cve == cve ==> About(m, b)
  {
    var moved := ReattributeAll(advisories, remap);
    forall m | m in moved && m.cve == cve ensures About(m, b) {
      var i :| 0 <= i < |advisories| && moved[i] == m;
      MovedUnder(s, advisories[i], remap, b);
    }
  }

  /** However many of a source's names a vulnerability is published under, it is reported
      exactly once, against the source's representative at its installed version. */
  lemma OncePerSource(sources: seq<Source>, image: string -> bool, s: Source,
                      advisories: seq<RawAdvisory>, a: RawAdvisory)
    returns (f: RawAdvisory)
    requires HaveBinaries(sources) && s in sources && s.binaries != [] && NamesKept(sources, image, s)
    requires var b := Representative(s, image); Canonical("", b.name, b.version)
    requires a in advisories && forall c :: c in advisories && c.cve == a.cve ==> PublishedUnder(s, c)
    ensures var findings := Deduplicated(OSV, ReattributeAll(advisories, PlanOf(sources, image).remap));
            && f in findings && f.cve == a.cve && (forall g :: g in findings && g.cve == a.cve ==> g == f)
            && About(f, Representative(s, image))
  {
    var b, remap := Representative(s, image), PlanOf(sources, image).remap;
    SendsToRepresentative(sources, image, s);
    AllMovedUnder(s, remap, b, advisories, a.cve);
    f := OneMoved(OSV, advisories, remap, a, b);
  }

  /** The one finding of a vulnerability is there, and it is about the binary. */
  ghost predicate OnceAbout(findings: seq<RawAdvisory>, cve: string, b: Package) {
    exists f :: f in findings && f.cve == cve && (forall g :: g in findings && g.cve == cve ==> g == f) && About(f, b)
  }

  /** Whatever is published under the source's names is reported so. */
  ghost predicate AlwaysOnce(sources: seq<Source>, image: string -> bool, s: Source)
    requires HaveBinaries(sources) && s.binaries != []
  {
    forall advisories, a :: AllUnder(s, advisories, a) ==>
      OnceAbout(Deduplicated(OSV, ReattributeAll(advisories, PlanOf(sources, image).remap)), a.cve,
                Representative(s, image))
  }

  ghost predicate AllUnder(s: Source, advisories: seq<RawAdvisory>, a: RawAdvisory) {
    a in advisories && forall c :: c in advisories && c.cve == a.cve ==> PublishedUnder(s, c)
  }

  ghost predicate AllCanonical(sources: seq<Source>) {
    forall s, q :: s in sources && q in Members(s) ==> Canonical("", q.name, q.version)
  }

  /** A source's vulnerabilities are always reported once and against its representative
      exactly when it keeps its names. */
  lemma OncePerSourceExactly(sources: seq<Source>, image: string -> bool, s: Source)
    requires HaveBinaries(sources) && AllCanonical(sources) && s in sources && s.binaries != []
    ensures AlwaysOnce(sources, image, s) <==> NamesKept(sources, image, s)
  {
    if NamesKept(sources, image, s) {
      forall advisories, a | AllUnder(s, advisories, a)
        ensures OnceAbout(Deduplicated(OSV, ReattributeAll(advisories, PlanOf(sources, image).remap)), a.cve,
                          Representative(s, image))
      {
        var f := OncePerSource(sources, image, s, advisories, a);
      }
    } else {
      SentExactly(sources, image, s);
      var q :| q in Members(s) && Target(PlanOf(sources, image).remap, NameAtVersion(q)) != Reported(s, image);
      SentAstray(sources, image, s, q);
    }
  }

  /** A record under a name that leads elsewhere is reported elsewhere. */
  lemma SentAstray(sources: seq<Source>, image: string -> bool, s: Source, q: Package)
    requires HaveBinaries(sources) && AllCanonical(sources) && s in sources && s.binaries != [] && q in Members(s)
    requires Target(PlanOf(sources, image).remap, NameAtVersion(q)) != Reported(s, image)
    ensures !AlwaysOnce(sources, image, s)
  {
    PlanReports(sources, image);
    var p := SenderOf(sources, image, NameAtVersion(q), Target(PlanOf(sources, image).remap, NameAtVersion(q)));
    var a := MovedAway(s, q, PlanOf(sources, image).remap, p, Representative(s, image));
  }

  lemma MovedAway(s: Source, q: Package, remap: map<string, string>, p: Package, b: Package) returns (a: RawAdvisory)
    requires q in Members(s) && Canonical("", q.name, q.version) && Canonical("", p.name, p.version)
    requires Target(remap, NameAtVersion(q)) == NameAtVersion(p) != NameAtVersion(b)
    ensures AllUnder(s, [a], a) && !OnceAbout(Deduplicated(OSV, ReattributeAll([a], remap)), a.cve, b)
  {
    a := RawAdvisory("", None, None, Identifier("", q.name, q.version) + Spell(Nothing));
    assert Names(a, "", q, Nothing);
    OnlyRecord(s, a);
    MovedNames(a, "", q, Nothing, remap, p);
    NamesReads(Reattribute(a, remap), "", p, Nothing);
    AllAbout(a, remap, p);
    OsvIsLawful();
    FoundAs(OSV, ReattributeAll([a], remap), a.cve, p, b);
  }

  lemma AllAbout(a: RawAdvisory, remap: map<string, string>, p: Package)
    requires About(Reattribute(a, remap), p)
    ensures forall m :: m in ReattributeAll([a], remap) ==> About(m, p)
  {
  }

  lemma OnlyRecord(s: Source, a: RawAdvisory)
    requires PublishedUnder(s, a)
    ensures AllUnder(s, [a], a)
  {
  }

  lemma SenderOf(sources: seq<Source>, image: string -> bool, asked: string, reported: string) returns (p: Package)
    requires AllCanonical(sources) && From(sources, image, asked, reported)
    ensures NameAtVersion(p) == reported && Canonical("", p.name, p.version)
  {
    var s, q :| s in sources && q in Members(s) && s.binaries != []
                && NameAtVersion(q) == asked && Reported(s, image) == reported;
    p := Representative(s, image);
    assert p in Members(s);
  }

  /** Records about one package make no finding about another. */
  lemma FoundAs(r: Rules, records: seq<RawAdvisory>, cve: string, p: Package, b: Package)
    requires Lawful(r) && NameAtVersion(p) != NameAtVersion(b) && forall m :: m in records ==> About(m, p)
    ensures !OnceAbout(Deduplicated(r, records), cve, b)
  {
    DeduplicatedRepresents(r, records);
    forall f | f in Deduplicated(r, records) ensures !About(f, b) {
      assert FromRecord(r, f, records);
      var m :| m in records && m.cve == f.cve && m.identifier == f.identifier;
    }
  }

  lemma OneMoved(r: Rules, advisories: seq<RawAdvisory>, remap: map<string, string>, a: RawAdvisory, b: Package)
    returns (f: RawAdvisory)
    requires r == OSV && a in advisories
    requires forall m :: m in ReattributeAll(advisories, remap) && m.cve == a.cve ==> About(m, b)
    ensures var findings := Deduplicated(r, ReattributeAll(advisories, remap));
            f in findings && f.cve == a.cve && (forall g :: g in findings && g.cve == a.cve ==> g == f)
    ensures About(f, b)
  {
    OsvIsLawful();
    var c := MovedTo(advisories, remap, a);
    var from;
    f, from := OneFindingFor(r, ReattributeAll(advisories, remap), a.cve, GroupName(b), c);
  }

  /** The same among other sources' records of the vulnerability: all those published under
      the source's names fall together in one finding for its representative. */
  lemma OneFindingForSource(sources: seq<Source>, image: string -> bool, s: Source,
                            advisories: seq<RawAdvisory>, a: RawAdvisory)
    returns (f: RawAdvisory)
    requires HaveBinaries(sources) && s in sources && s.binaries != [] && NamesKept(sources, image, s)
    requires var b := Representative(s, image); Canonical("", b.name, b.version)
    requires a in advisories && PublishedUnder(s, a)
    ensures var remap := PlanOf(sources, image).remap;
            var findings := Deduplicated(OSV, ReattributeAll(advisories, remap));
            var key := (a.cve, GroupName(Representative(s, image)));
            && f in findings && KeyOf(OSV, f) == key && (forall g :: g in findings && KeyOf(OSV, g) == key ==> g == f)
            && forall c :: c in advisories && c.cve == a.cve && PublishedUnder(s, c) ==>
                 KeyOf(OSV, Reattribute(c, remap)) == key
  {
    var b, remap := Representative(s, image), PlanOf(sources, image).remap;
    SendsToRepresentative(sources, image, s);
    forall c | c in advisories && c.cve == a.cve && PublishedUnder(s, c)
      ensures KeyOf(OSV, Reattribute(c, remap)) == (a.cve, GroupName(b))
    {
      MovedUnder(s, c, remap, b);
      assert Reattribute(c, remap).cve == c.cve;
    }
    OsvIsLawful();
    var i :| 0 <= i < |advisories| && advisories[i] == a;
    var moved := ReattributeAll(advisories, remap);
    assert moved[i] in moved && moved[i] == Reattribute(a, remap);
    f := OnlyOne(OSV, moved, moved[i]);
  }

  lemma AskedTwo(asking: Asking, p: Package, q: Package, reported: string)
    ensures AskedAll(asking, [p, q], reported) == Asked(Asked(asking, p, reported), q, reported)
  {
    assert [p, q][..1] == [p] && [p][..0] == [];
    assert AskedAll(asking, [p], reported) == Asked(asking, p, reported);
  }

  lemma NamesApart(p: Package, q: Package)
    requires p.name != "" && q.name != "" && p.name[0] != q.name[0]
    ensures NameAtVersion(p) != NameAtVersion(q)
  {
    assert NameAtVersion(p)[0] == p.name[0] && NameAtVersion(q)[0] == q.name[0];
  }

  /** A source with one binary, and a second one called like that binary. */
  lemma TwoSources(a: Package, y: Package, z: Package, image: string -> bool) returns (sources: seq<Source>)
    requires NameAtVersion(a) != NameAtVersion(y) && NameAtVersion(y) != NameAtVersion(z) && a != y
    requires NameAtVersion(a) != NameAtVersion(z)
    ensures sources == [Source(a, [y]), Source(y, [z])] && HaveBinaries(sources)
    ensures PlanOf(sources, image).remap == map[NameAtVersion(a) := NameAtVersion(y)]
  {
    sources := [Source(a, [y]), Source(y, [z])];
    var none, one := Asking([], map[]), Asking([a, y], map[NameAtVersion(a) := NameAtVersion(y)]);
    OneBinary(none, a, y, image);
    assert Asked(Asked(none, a, NameAtVersion(y)), y, NameAtVersion(y)) == one;
    PlanOfOne(Source(a, [y]), image);
    assert sources[..1] == [Source(a, [y])];
    OneBinary(one, y, z, image);
  }

  lemma PlanOfOne(s: Source, image: string -> bool)
    requires s.binaries != []
    ensures PlanOf([s], image) == AskedAll(Asking([], map[]), Members(s), Reported(s, image))
  {
    assert [s][..0] == [];
  }

  lemma OneBinary(asking: Asking, p: Package, b: Package, image: string -> bool)
    ensures AskedAll(asking, Members(Source(p, [b])), Reported(Source(p, [b]), image)) ==
            Asked(Asked(asking, p, NameAtVersion(b)), b, NameAtVersion(b))
  {
    var s := Source(p, [b]);
    assert Representative(s, image) == b;
    assert Members(s) == [p, b];
    AskedTwo(asking, p, b, NameAtVersion(b));
  }

  lemma GroupedTwo(a: Package, y: Package, z: Package, source: Package -> Package, sources: seq<Source>)
    requires y != a && y.name != "" && y.version != "" && z.name != "" && z.version != ""
    requires source(y) == a && source(z) == y && sources == [Source(a, [y]), Source(y, [z])]
    ensures Grouped([y, z], source, sources)
  {
    assert [y, z][0] == y && [y, z][1] == z;
    assert sources[0].binaries[0] == y && sources[1].binaries[0] == z;
    assert sources[0] in sources && sources[1] in sources;
  }

  /** Records of one vulnerability, all under names of the source. */
  ghost predicate AllPublished(s: Source, advisories: seq<RawAdvisory>, cve: string) {
    forall c :: c in advisories ==> c.cve == cve && PublishedUnder(s, c)
  }

  /** Two findings of one vulnerability. */
  ghost predicate Twice(findings: seq<RawAdvisory>, cve: string) {
    exists f, g :: f in findings && g in findings && f.cve == g.cve == cve && f != g
  }

  /** Otherwise a source can be reported twice: its own name is sent to the binary of
      another source that is called so, its binaries to its own representative. */
  lemma SharedNameReportsTwice(ecosystem: string, version: string, image: string -> bool, cve: string)
    returns (packages: seq<Package>, source: Package -> Package, sources: seq<Source>, s: Source,
             advisories: seq<RawAdvisory>)
    requires Canonical("", "y", version)
    ensures Grouped(packages, source, sources) && HaveBinaries(sources) && s in sources
    ensures AllPublished(s, advisories, cve)
    ensures Twice(Deduplicated(OSV, ReattributeAll(advisories, PlanOf(sources, image).remap)), cve)
  {
    var y, z := Package(ecosystem, "y", version), Package(ecosystem, "z", version);
    packages, source := [y, z], p => if p == y then Package(ecosystem, "a", version) else y;
    sources := Sharing(y, z, source, image);
    s := sources[1];
    GroupsApart(y, z);
    assert s == Source(y, [z]) && y in Members(s) && z in Members(s);
    advisories := BothReported(s, y, z, PlanOf(sources, image).remap, cve);
  }

  /** One source has the binary another is called like, and an own name asked before. */
  lemma Sharing(y: Package, z: Package, source: Package -> Package, image: string -> bool) returns (sources: seq<Source>)
    requires y.name == "y" && z.name == "z" && y.version != "" && z.version != ""
    requires source(y).name == "a" && source(z) == y
    ensures sources == [Source(source(y), [y]), Source(y, [z])]
    ensures Grouped([y, z], source, sources) && HaveBinaries(sources)
    ensures var remap := PlanOf(sources, image).remap;
            Target(remap, NameAtVersion(y)) == NameAtVersion(y) && Target(remap, NameAtVersion(z)) == NameAtVersion(z)
  {
    NamesApart(source(y), y);
    NamesApart(source(y), z);
    NamesApart(y, z);
    sources := TwoSources(source(y), y, z, image);
    GroupedTwo(source(y), y, z, source, sources);
  }

  lemma KeptApart(s: Source, y: Package, z: Package, remap: map<string, string>, cve: string)
    returns (c: RawAdvisory, d: RawAdvisory)
    requires Stays(s, y, remap) && Stays(s, z, remap) && GroupName(y) != GroupName(z)
    ensures AllPublished(s, [c, d], cve)
    ensures Apart(remap, c, d)
  {
    c := StaysAbout(s, y, remap, cve);
    d := StaysAbout(s, z, remap, cve);
  }

  lemma GroupsApart(y: Package, z: Package)
    requires y.name != "" && z.name != "" && y.name[0] != z.name[0]
    ensures GroupName(y) != GroupName(z)
  {
    assert GroupName(y)[0] == y.name[0] && GroupName(z)[0] == z.name[0];
  }

  /** A name of the source that is not remapped. */
  predicate Stays(s: Source, q: Package, remap: map<string, string>) {
    q in Members(s) && Target(remap, NameAtVersion(q)) == NameAtVersion(q) && Canonical("", q.name, q.version)
  }

  /** A record published under such a name stays where it is. */
  lemma StaysAbout(s: Source, q: Package, remap: map<string, string>, cve: string) returns (a: RawAdvisory)
    requires Stays(s, q, remap)
    ensures a.cve == cve && PublishedUnder(s, a) && PackageOf(Reattribute(a, remap).identifier) == GroupName(q)
  {
    a := RawAdvisory(cve, None, None, Identifier("", q.name, q.version) + Spell(Nothing));
    assert Names(a, "", q, Nothing);
    MovedNames(a, "", q, Nothing, remap, q);
    NamesReads(Reattribute(a, remap), "", q, Nothing);
  }

  /** Records that are moved to different packages. */
  predicate Apart(remap: map<string, string>, c: RawAdvisory, d: RawAdvisory) {
    PackageOf(Reattribute(c, remap).identifier) != PackageOf(Reattribute(d, remap).identifier)
  }

  lemma BothReported(s: Source, y: Package, z: Package, remap: map<string, string>, cve: string)
    returns (advisories: seq<RawAdvisory>)
    requires Stays(s, y, remap) && Stays(s, z, remap) && GroupName(y) != GroupName(z)
    ensures AllPublished(s, advisories, cve)
    ensures Twice(Deduplicated(OSV, ReattributeAll(advisories, remap)), cve)
  {
    var c, d := KeptApart(s, y, z, remap, cve);
    advisories := [c, d];
    ApartTwice(s, remap, c, d, cve);
  }

  lemma ApartTwice(s: Source, remap: map<string, string>, c: RawAdvisory, d: RawAdvisory, cve: string)
    requires AllPublished(s, [c, d], cve) && Apart(remap, c, d)
    ensures Twice(Deduplicated(OSV, ReattributeAll([c, d], remap)), cve)
  {
    OsvIsLawful();
    assert c in [c, d] && d in [c, d];
    TwoFindings(OSV, [c, d], remap, c, d);
  }

  lemma TwoFindings(r: Rules, advisories: seq<RawAdvisory>, remap: map<string, string>, c: RawAdvisory, d: RawAdvisory)
    requires Lawful(r) && c in advisories && d in advisories && c.cve == d.cve
    requires r.package(Reattribute(c, remap).identifier) != r.package(Reattribute(d, remap).identifier)
    ensures Twice(Deduplicated(r, ReattributeAll(advisories, remap)), c.cve)
  {
    var i :| 0 <= i < |advisories| && advisories[i] == c;
    var j :| 0 <= j < |advisories| && advisories[j] == d;
    var moved := ReattributeAll(advisories, remap);
    var f := OnlyOne(r, moved, moved[i]);
    var g := OnlyOne(r, moved, moved[j]);
  }
}
