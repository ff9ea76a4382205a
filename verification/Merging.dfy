/** One finding from every record given for one vulnerability and package
    (backend/app/scanner/osv_client.py; bands from backend/app/scanner/matcher.py and
    backend/app/enums.py).

    Records arrive in the order worker threads finish, so the answer must not depend on
    it. What the merging needs to know of identifiers and versions is gathered in
    `Rules`; `OSV` is what the program uses. */
module Merging {
  import opened Orders
  import opened Text
  import opened PackageIdentifier
  import DebianVersion
  import RpmVersion

  /** In ranking order. */
  datatype Severity = Critical | Unscored | High | Medium | Low

  type Score = r: real | 0.0 <= r <= 10.0

  datatype RawAdvisory = RawAdvisory(
    cve: string, score: Option<Score>, severity: Option<Severity>, identifier: string)

  // Ratings.

  function DeriveSeverity(score: Score): Severity {
    if score >= 9.0 then Critical else if score >= 7.0 then High else if score >= 4.0 then Medium else Low
  }

  function Band(a: RawAdvisory): Severity {
    if a.severity.Some? then a.severity.value
    else if a.score.None? then Unscored
    else DeriveSeverity(a.score.value)
  }

  function Rank(s: Severity): nat {
    match s
    case Critical => 0
    case Unscored => 1
    case High => 2
    case Medium => 3
    case Low => 4
  }

  function ScoreOr(a: RawAdvisory, default: real): real {
    if a.score.Some? then a.score.value else default
  }

  function RealCmp(x: real, y: real): int {
    if x < y then -1 else if x > y then 1 else 0
  }

  /** `_severity_rank`, worst first. */
  function RankCmp(a: RawAdvisory, b: RawAdvisory): int {
    Then(IntCmp(Rank(Band(a)), Rank(Band(b))), RealCmp(ScoreOr(b, 0.0), ScoreOr(a, 0.0)))
  }

  // The fixed order every tie falls to.

  function IdentifierCmp(a: RawAdvisory, b: RawAdvisory): int {
    StrCmp(a.identifier, b.identifier)
  }

  function SeverityText(s: Option<Severity>): string {
    match s
    case None => ""
    case Some(Critical) => "critical"
    case Some(Unscored) => "unscored"
    case Some(High) => "high"
    case Some(Medium) => "medium"
    case Some(Low) => "low"
  }

  function SeverityCmp(a: RawAdvisory, b: RawAdvisory): int {
    StrCmp(SeverityText(a.severity), SeverityText(b.severity))
  }

  function ScoreCmp(a: RawAdvisory, b: RawAdvisory): int {
    RealCmp(ScoreOr(a, -1.0), ScoreOr(b, -1.0))
  }

  const ORDER: (RawAdvisory, RawAdvisory) -> int :=
    Lexically(RankCmp, Lexically(IdentifierCmp, Lexically(SeverityCmp, ScoreCmp)))

  // Fixes.

  /** How an ecosystem orders its versions. */
  datatype Scheme = DebianScheme | RpmScheme | Unordered

  function SchemeOf(identifier: string): Scheme {
    var family := identifier[..IndexOf(identifier, ':')];
    if family in {"Debian", "Ubuntu"} then DebianScheme
    else if family in {"Red Hat", "Rocky Linux", "AlmaLinux", "SUSE", "openSUSE"} then RpmScheme
    else Unordered
  }

  function CompareBy(scheme: Scheme, x: string, y: string): int {
    match scheme
    case DebianScheme => DebianVersion.Order(x, y)
    case RpmScheme => RpmVersion.Order(x, y)
    case Unordered => 0
  }

  /** The version of a fix that is available for the host. */
  function AvailableFix(identifier: string): Option<string> {
    match ParseFix(Some(identifier))
    case Available(version) => Some(version)
    case _ => None
  }

  predicate NamesFix(identifier: string) {
    Contains(identifier, "fixed in")
  }

  function PackageOf(identifier: string): string {
    match FindingPackage(Some(identifier))
    case None => ""
    case Some(package) => package
  }

  datatype Rules = Rules(
    rank: (RawAdvisory, RawAdvisory) -> int,
    order: (RawAdvisory, RawAdvisory) -> int,
    package: string -> string,
    named: string -> bool,
    scheme: string -> Scheme,
    fix: string -> Option<string>,
    compare: (Scheme, string, string) -> int)

  const OSV := Rules(RankCmp, ORDER, PackageOf, NamesFix, SchemeOf, AvailableFix, CompareBy)

  function FixVersion(r: Rules, a: RawAdvisory): string {
    match r.fix(a.identifier)
    case None => ""
    case Some(version) => version
  }

  function ByVersion(r: Rules, scheme: Scheme): (RawAdvisory, RawAdvisory) -> int {
    (a, b) => r.compare(scheme, FixVersion(r, a), FixVersion(r, b))
  }

  /** Every record names an available fix, and all under one version ordering. */
  predicate Comparable(r: Rules, fixed: seq<RawAdvisory>, scheme: Scheme) {
    && scheme != Unordered
    && forall a :: a in fixed ==> r.scheme(a.identifier) == scheme && r.fix(a.identifier).Some?
  }

  function EarliestFix(r: Rules, fixed: seq<RawAdvisory>): (kept: RawAdvisory)
    requires fixed != []
    ensures kept in fixed
  {
    var scheme := r.scheme(fixed[0].identifier);
    if Comparable(r, fixed, scheme) then Least(Lexically(ByVersion(r, scheme), r.order), fixed)
    else Least(r.order, fixed)
  }

  function Named(r: Rules, group: seq<RawAdvisory>): seq<RawAdvisory> {
    if group == [] then []
    else (if r.named(group[0].identifier) then [group[0]] else []) + Named(r, group[1..])
  }

  function Merge(r: Rules, group: seq<RawAdvisory>): RawAdvisory
    requires group != []
  {
    var worst := Least(r.order, group);
    var fixed := Named(r, group);
    var kept := if fixed == [] then worst else EarliestFix(r, fixed);
    if kept == worst then kept else kept.(score := worst.score, severity := worst.severity)
  }

  // Grouping.

  type Key = (string, string)

  function KeyOf(r: Rules, a: RawAdvisory): Key {
    (a.cve, r.package(a.identifier))
  }

  function Group(r: Rules, advisories: seq<RawAdvisory>, key: Key): seq<RawAdvisory> {
    if advisories == [] then []
    else
      var n := |advisories| - 1;
      Group(r, advisories[..n], key) + if KeyOf(r, advisories[n]) == key then [advisories[n]] else []
  }

  /** Every key once, in order of first arrival. */
  function Keys(r: Rules, advisories: seq<RawAdvisory>): seq<Key> {
    if advisories == [] then []
    else
      var n := |advisories| - 1;
      var keys := Keys(r, advisories[..n]);
      if KeyOf(r, advisories[n]) in keys then keys else keys + [KeyOf(r, advisories[n])]
  }

  lemma {:induction false} KeysHaveGroups(r: Rules, advisories: seq<RawAdvisory>, key: Key)
    ensures key in Keys(r, advisories) <==> Group(r, advisories, key) != []
  {
    if advisories != [] {
      KeysHaveGroups(r, advisories[..|advisories| - 1], key);
    }
  }

  ghost predicate NoRepeats<T>(s: seq<T>) {
    forall i, j :: 0 <= i < j < |s| ==> s[i] != s[j]
  }

  lemma {:induction false} KeysDistinct(r: Rules, advisories: seq<RawAdvisory>)
    ensures NoRepeats(Keys(r, advisories))
  {
    if advisories != [] {
      KeysDistinct(r, advisories[..|advisories| - 1]);
    }
  }

  predicate HaveGroups(r: Rules, advisories: seq<RawAdvisory>, keys: seq<Key>) {
    forall i :: 0 <= i < |keys| ==> Group(r, advisories, keys[i]) != []
  }

  lemma AllHaveGroups(r: Rules, advisories: seq<RawAdvisory>)
    ensures HaveGroups(r, advisories, Keys(r, advisories))
  {
    var keys := Keys(r, advisories);
    forall i | 0 <= i < |keys| ensures Group(r, advisories, keys[i]) != [] {
      KeysHaveGroups(r, advisories, keys[i]);
    }
  }

  function MergeAll(r: Rules, advisories: seq<RawAdvisory>, keys: seq<Key>): (findings: seq<RawAdvisory>)
    requires HaveGroups(r, advisories, keys)
    ensures |findings| == |keys|
  {
    if keys == [] then []
    else
      var n := |keys| - 1;
      MergeAll(r, advisories, keys[..n]) + [Merge(r, Group(r, advisories, keys[n]))]
  }

  lemma {:induction false} MergeAllAt(r: Rules, advisories: seq<RawAdvisory>, keys: seq<Key>, i: nat)
    requires HaveGroups(r, advisories, keys) && i < |keys|
    ensures MergeAll(r, advisories, keys)[i] == Merge(r, Group(r, advisories, keys[i]))
  {
    if i < |keys| - 1 {
      MergeAllAt(r, advisories, keys[..|keys| - 1], i);
    }
  }

  function Deduplicated(r: Rules, advisories: seq<RawAdvisory>): seq<RawAdvisory> {
    AllHaveGroups(r, advisories);
    MergeAll(r, advisories, Keys(r, advisories))
  }

  /** The dictionary of groups `_deduplicate_findings` fills in arrival order. */
  method GroupByKey(r: Rules, advisories: seq<RawAdvisory>) returns (keys: seq<Key>, groups: map<Key, seq<RawAdvisory>>)
    ensures keys == Keys(r, advisories)
    ensures forall k :: k in keys ==> k in groups && groups[k] == Group(r, advisories, k)
  {
    keys, groups := [], map[];
    for i := 0 to |advisories|
      invariant keys == Keys(r, advisories[..i])
      invariant forall k :: k in keys <==> k in groups
      invariant forall k :: k in groups ==> groups[k] == Group(r, advisories[..i], k)
    {
      assert advisories[..i + 1][..i] == advisories[..i];
      var key := KeyOf(r, advisories[i]);
      KeysHaveGroups(r, advisories[..i], key);
      if key !in groups {
        keys := keys + [key];
        groups := groups[key := []];
      }
      groups := groups[key := groups[key] + [advisories[i]]];
    }
    assert advisories[..|advisories|] == advisories;
  }

  /** `_deduplicate_findings`. */
  method Deduplicate(r: Rules, advisories: seq<RawAdvisory>) returns (findings: seq<RawAdvisory>)
    ensures findings == Deduplicated(r, advisories)
  {
    var keys, groups := GroupByKey(r, advisories);
    AllHaveGroups(r, advisories);
    findings := MergeGroups(r, advisories, keys, groups);
  }

  method MergeGroups(r: Rules, ghost advisories: seq<RawAdvisory>, keys: seq<Key>, groups: map<Key, seq<RawAdvisory>>)
    returns (findings: seq<RawAdvisory>)
    requires HaveGroups(r, advisories, keys)
    requires forall k :: k in keys ==> k in groups && groups[k] == Group(r, advisories, k)
    ensures findings == MergeAll(r, advisories, keys)
  {
    findings := [];
    for j := 0 to |keys|
      invariant findings == MergeAll(r, advisories, keys[..j])
    {
      assert keys[..j + 1][..j] == keys[..j];
      findings := findings + [Merge(r, groups[keys[j]])];
    }
    assert keys[..|keys|] == keys;
  }

  // What the rules must promise, and that the program's do.

  ghost predicate Lawful(r: Rules) {
    && TotalPreorder(r.rank) && TotalPreorder(r.order)
    && (forall a, b :: r.order(a, b) <= 0 ==> r.rank(a, b) <= 0)
    && (forall a, b :: r.order(a, b) == 0 && a.cve == b.cve ==> a == b)
    && (forall a, b, c :: SameRating(a, b) ==> r.rank(a, c) == r.rank(b, c))
    && (forall scheme, x, y :: Sign(r.compare(scheme, x, y)) == -Sign(r.compare(scheme, y, x)))
    && (forall scheme, x, y, z :: r.compare(scheme, x, y) <= 0 && r.compare(scheme, y, z) <= 0 ==>
          r.compare(scheme, x, z) <= 0)
  }

  predicate SameRating(a: RawAdvisory, b: RawAdvisory) {
    a.score == b.score && a.severity == b.severity
  }

  lemma ByVersionPreorder(r: Rules, scheme: Scheme)
    requires Lawful(r)
    ensures TotalPreorder(ByVersion(r, scheme))
  {
    var order := ByVersion(r, scheme);
    forall a, b ensures Sign(order(a, b)) == -Sign(order(b, a)) {
      var x, y := FixVersion(r, a), FixVersion(r, b);
      assert Sign(r.compare(scheme, x, y)) == -Sign(r.compare(scheme, y, x));
    }
    forall a, b, c | order(a, b) <= 0 && order(b, c) <= 0 ensures order(a, c) <= 0 {
      var x, y, z := FixVersion(r, a), FixVersion(r, b), FixVersion(r, c);
      assert r.compare(scheme, x, y) <= 0 && r.compare(scheme, y, z) <= 0;
    }
  }

  // One group.

  lemma {:induction false} NamedMembers(r: Rules, group: seq<RawAdvisory>)
    ensures forall a :: a in Named(r, group) <==> a in group && r.named(a.identifier)
  {
    if group != [] {
      NamedMembers(r, group[1..]);
    }
  }

  lemma {:induction false} GroupMembers(r: Rules, advisories: seq<RawAdvisory>, key: Key)
    ensures forall a :: a in Group(r, advisories, key) <==> a in advisories && KeyOf(r, a) == key
  {
    if advisories != [] {
      var n := |advisories| - 1;
      GroupMembers(r, advisories[..n], key);
      assert forall a :: a in advisories <==> a in advisories[..n] || a == advisories[n];
    }
  }

  /** The earliest of comparable fixes. */
  lemma EarliestIsEarliest(r: Rules, fixed: seq<RawAdvisory>, scheme: Scheme)
    requires Lawful(r) && fixed != [] && Comparable(r, fixed, scheme)
    ensures forall a :: a in fixed ==>
              r.compare(scheme, FixVersion(r, EarliestFix(r, fixed)), FixVersion(r, a)) <= 0
  {
    assert fixed[0] in fixed;
    var order := Lexically(ByVersion(r, scheme), r.order);
    ByVersionPreorder(r, scheme);
    LexicallyPreorder(ByVersion(r, scheme), r.order);
    LeastIsLeast(order, fixed);
    forall a | a in fixed
      ensures r.compare(scheme, FixVersion(r, EarliestFix(r, fixed)), FixVersion(r, a)) <= 0
    {
      assert order(Least(order, fixed), a) <= 0;
    }
  }

  /** A merged record is one of the group's records with the rating of one rated worst;
      it names a fix if any record does. */
  lemma MergeIs(r: Rules, group: seq<RawAdvisory>) returns (kept: RawAdvisory, worst: RawAdvisory)
    requires Lawful(r) && group != []
    ensures kept in group && worst in group
    ensures Merge(r, group) == kept.(score := worst.score, severity := worst.severity)
    ensures forall a :: a in group ==> r.rank(worst, a) <= 0
    ensures forall a :: a in group && r.named(a.identifier) ==> r.named(kept.identifier)
    ensures Named(r, group) != [] ==> kept == EarliestFix(r, Named(r, group))
  {
    NamedMembers(r, group);
    LeastIsLeast(r.order, group);
    worst := Least(r.order, group);
    kept := if Named(r, group) == [] then worst else EarliestFix(r, Named(r, group));
  }

  // What a list of findings must do for the records it was made from.

  /** Records of one key that name a fix all name an available one, ordered one way. */
  ghost predicate Agreed(r: Rules, advisories: seq<RawAdvisory>, key: Key, scheme: Scheme) {
    && scheme != Unordered
    && forall a :: a in advisories && KeyOf(r, a) == key && r.named(a.identifier) ==>
         r.scheme(a.identifier) == scheme && r.fix(a.identifier).Some?
  }

  ghost predicate NoLater(r: Rules, f: RawAdvisory, a: RawAdvisory, advisories: seq<RawAdvisory>) {
    forall scheme :: Agreed(r, advisories, KeyOf(r, a), scheme) ==>
      r.compare(scheme, FixVersion(r, f), FixVersion(r, a)) <= 0
  }

  /** The finding rates no better than the record, and has a fix if it has, no later
      where their fixes can be compared. */
  ghost predicate Covers(r: Rules, f: RawAdvisory, a: RawAdvisory, advisories: seq<RawAdvisory>) {
    && KeyOf(r, f) == KeyOf(r, a) && r.rank(f, a) <= 0
    && (r.named(a.identifier) ==> r.named(f.identifier) && NoLater(r, f, a, advisories))
  }

  ghost predicate FromRecord(r: Rules, f: RawAdvisory, advisories: seq<RawAdvisory>) {
    exists a :: a in advisories && a.cve == f.cve && a.identifier == f.identifier
  }

  ghost predicate RatedByRecord(r: Rules, f: RawAdvisory, advisories: seq<RawAdvisory>) {
    exists a :: a in advisories && KeyOf(r, a) == KeyOf(r, f) && SameRating(a, f)
  }

  ghost predicate Covered(r: Rules, findings: seq<RawAdvisory>, a: RawAdvisory, advisories: seq<RawAdvisory>) {
    exists f :: f in findings && Covers(r, f, a, advisories)
  }

  ghost predicate Represents(r: Rules, findings: seq<RawAdvisory>, advisories: seq<RawAdvisory>) {
    && (forall f :: f in findings ==> FromRecord(r, f, advisories) && RatedByRecord(r, f, advisories))
    && (forall a :: a in advisories ==> Covered(r, findings, a, advisories))
  }

  lemma MergeFrom(r: Rules, advisories: seq<RawAdvisory>, key: Key)
    requires Lawful(r) && Group(r, advisories, key) != []
    ensures var f := Merge(r, Group(r, advisories, key));
            KeyOf(r, f) == key && FromRecord(r, f, advisories) && RatedByRecord(r, f, advisories)
  {
    GroupMembers(r, advisories, key);
    var kept, worst := MergeIs(r, Group(r, advisories, key));
    assert SameRating(worst, Merge(r, Group(r, advisories, key)));
  }

  lemma MergeNoLater(r: Rules, advisories: seq<RawAdvisory>, key: Key, scheme: Scheme, a: RawAdvisory)
    requires Lawful(r) && Agreed(r, advisories, key, scheme)
    requires a in advisories && KeyOf(r, a) == key && r.named(a.identifier)
    requires Group(r, advisories, key) != []
    ensures r.compare(scheme, FixVersion(r, Merge(r, Group(r, advisories, key))), FixVersion(r, a)) <= 0
  {
    var group := Group(r, advisories, key);
    GroupMembers(r, advisories, key);
    NamedMembers(r, group);
    var kept, worst := MergeIs(r, group);
    EarliestIsEarliest(r, Named(r, group), scheme);
    assert FixVersion(r, Merge(r, group)) == FixVersion(r, kept);
  }

  lemma MergeCovers(r: Rules, advisories: seq<RawAdvisory>, key: Key, a: RawAdvisory)
    requires Lawful(r) && a in advisories && KeyOf(r, a) == key && Group(r, advisories, key) != []
    ensures Covers(r, Merge(r, Group(r, advisories, key)), a, advisories)
  {
    var group := Group(r, advisories, key);
    GroupMembers(r, advisories, key);
    var kept, worst := MergeIs(r, group);
    assert a in group && SameRating(worst, Merge(r, group));
    MergeFrom(r, advisories, key);
    forall scheme | r.named(a.identifier) && Agreed(r, advisories, key, scheme)
      ensures r.compare(scheme, FixVersion(r, Merge(r, group)), FixVersion(r, a)) <= 0
    {
      MergeNoLater(r, advisories, key, scheme, a);
    }
  }

  /** Deduplication keeps the worst rating and the earliest fix of every group, and
      invents neither. */
  lemma DeduplicatedRepresents(r: Rules, advisories: seq<RawAdvisory>)
    requires Lawful(r)
    ensures Represents(r, Deduplicated(r, advisories), advisories)
  {
    var keys, findings := Keys(r, advisories), Deduplicated(r, advisories);
    AllHaveGroups(r, advisories);
    forall f | f in findings ensures FromRecord(r, f, advisories) && RatedByRecord(r, f, advisories) {
      var i :| 0 <= i < |keys| && f == findings[i];
      MergeAllAt(r, advisories, keys, i);
      MergeFrom(r, advisories, keys[i]);
    }
    forall a | a in advisories ensures Covered(r, findings, a, advisories) {
      var key := KeyOf(r, a);
      GroupMembers(r, advisories, key);
      KeysHaveGroups(r, advisories, key);
      var i :| 0 <= i < |keys| && keys[i] == key;
      MergeAllAt(r, advisories, keys, i);
      MergeCovers(r, advisories, key, a);
      assert findings[i] in findings;
    }
  }

  ghost predicate OnePerKey(r: Rules, findings: seq<RawAdvisory>) {
    forall i, j :: 0 <= i < j < |findings| ==> KeyOf(r, findings[i]) != KeyOf(r, findings[j])
  }

  ghost predicate HasKey(r: Rules, advisories: seq<RawAdvisory>, key: Key) {
    exists a :: a in advisories && KeyOf(r, a) == key
  }

  /** The findings have exactly the keys of the records, each once. */
  lemma OneFindingPerKey(r: Rules, advisories: seq<RawAdvisory>)
    requires Lawful(r)
    ensures OnePerKey(r, Deduplicated(r, advisories))
    ensures forall key :: HasKey(r, Deduplicated(r, advisories), key) <==> HasKey(r, advisories, key)
  {
    var keys, findings := Keys(r, advisories), Deduplicated(r, advisories);
    AllHaveGroups(r, advisories);
    KeysDistinct(r, advisories);
    forall i | 0 <= i < |keys| ensures KeyOf(r, findings[i]) == keys[i] {
      MergeAllAt(r, advisories, keys, i);
      MergeFrom(r, advisories, keys[i]);
    }
    DeduplicatedRepresents(r, advisories);
    forall key ensures HasKey(r, findings, key) <==> HasKey(r, advisories, key) {
      RepresentsKey(r, findings, advisories, key);
    }
  }

  // Arrival order, and merging what was merged before.

  ghost predicate SameRecords(s: seq<RawAdvisory>, t: seq<RawAdvisory>) {
    forall a :: a in s <==> a in t
  }

  /** No two different records tie. */
  ghost predicate Untied(order: (RawAdvisory, RawAdvisory) -> int, s: seq<RawAdvisory>) {
    forall a, b :: a in s && b in s && order(a, b) == 0 ==> a == b
  }

  lemma ComparableOfSameRecords(r: Rules, s: seq<RawAdvisory>, t: seq<RawAdvisory>)
    requires s != [] && t != [] && SameRecords(s, t) && Comparable(r, s, r.scheme(s[0].identifier))
    ensures r.scheme(t[0].identifier) == r.scheme(s[0].identifier) && Comparable(r, t, r.scheme(t[0].identifier))
  {
    assert t[0] in s;
  }

  lemma EarliestOfSameRecords(r: Rules, s: seq<RawAdvisory>, t: seq<RawAdvisory>)
    requires TotalPreorder(r.order) && (forall scheme :: TotalPreorder(ByVersion(r, scheme)))
    requires s != [] && t != [] && SameRecords(s, t) && Untied(r.order, s)
    ensures EarliestFix(r, s) == EarliestFix(r, t)
  {
    var scheme := r.scheme(s[0].identifier);
    if Comparable(r, s, scheme) {
      ComparableOfSameRecords(r, s, t);
      LexicallyPreorder(ByVersion(r, scheme), r.order);
      LeastOfSameElements(Lexically(ByVersion(r, scheme), r.order), s, t);
    } else {
      if Comparable(r, t, r.scheme(t[0].identifier)) {
        ComparableOfSameRecords(r, t, s);
      }
      LeastOfSameElements(r.order, s, t);
    }
  }

  lemma NamedOfSameRecords(r: Rules, s: seq<RawAdvisory>, t: seq<RawAdvisory>)
    requires SameRecords(s, t)
    ensures SameRecords(Named(r, s), Named(r, t)) && forall a :: a in Named(r, s) ==> a in s
    ensures Named(r, s) == [] <==> Named(r, t) == []
  {
    NamedMembers(r, s);
    NamedMembers(r, t);
    var fixed, other := Named(r, s), Named(r, t);
    assert fixed != [] ==> fixed[0] in other;
    assert other != [] ==> other[0] in fixed;
  }

  /** A merged group depends only on which records are in it. */
  lemma MergeOfSameRecords(r: Rules, s: seq<RawAdvisory>, t: seq<RawAdvisory>)
    requires TotalPreorder(r.order) && (forall scheme :: TotalPreorder(ByVersion(r, scheme)))
    requires s != [] && t != [] && SameRecords(s, t) && Untied(r.order, s)
    ensures Merge(r, s) == Merge(r, t)
  {
    LeastOfSameElements(r.order, s, t);
    NamedOfSameRecords(r, s, t);
    if Named(r, s) != [] {
      EarliestOfSameRecords(r, Named(r, s), Named(r, t));
    }
  }

  lemma {:induction false} CountDistinct<T>(s: seq<T>, x: T)
    requires NoRepeats(s)
    ensures multiset(s)[x] == if x in s then 1 else 0
  {
    if s != [] {
      var n := |s| - 1;
      assert s == s[..n] + [s[n]];
      CountDistinct(s[..n], x);
    }
  }

  lemma GroupOfSameRecords(r: Rules, s: seq<RawAdvisory>, t: seq<RawAdvisory>, key: Key)
    requires Lawful(r) && SameRecords(s, t) && Group(r, s, key) != []
    ensures Group(r, t, key) != [] && Merge(r, Group(r, s, key)) == Merge(r, Group(r, t, key))
  {
    var group, other := Group(r, s, key), Group(r, t, key);
    GroupMembers(r, s, key);
    GroupMembers(r, t, key);
    assert group[0] in other;
    forall scheme ensures TotalPreorder(ByVersion(r, scheme)) {
      ByVersionPreorder(r, scheme);
    }
    assert Untied(r.order, group);
    MergeOfSameRecords(r, group, other);
  }

  lemma FindingOf(r: Rules, s: seq<RawAdvisory>, t: seq<RawAdvisory>, f: RawAdvisory)
    requires Lawful(r) && SameRecords(s, t) && f in Deduplicated(r, s)
    ensures f in Deduplicated(r, t)
  {
    AllHaveGroups(r, s);
    AllHaveGroups(r, t);
    var i :| 0 <= i < |Keys(r, s)| && f == Deduplicated(r, s)[i];
    var key := Keys(r, s)[i];
    GroupOfSameRecords(r, s, t, key);
    KeysHaveGroups(r, t, key);
    var j :| 0 <= j < |Keys(r, t)| && Keys(r, t)[j] == key;
    MergeAllAt(r, s, Keys(r, s), i);
    MergeAllAt(r, t, Keys(r, t), j);
    assert Deduplicated(r, t)[j] == f;
  }

  lemma KeysTellFindingsApart(r: Rules, findings: seq<RawAdvisory>)
    requires OnePerKey(r, findings)
    ensures NoRepeats(findings)
  {
  }

  /** The answer does not depend on the order records arrive in, nor on one arriving
      twice: the same records give the same findings. */
  lemma ArrivalOrderFree(r: Rules, s: seq<RawAdvisory>, t: seq<RawAdvisory>)
    requires Lawful(r) && SameRecords(s, t)
    ensures multiset(Deduplicated(r, s)) == multiset(Deduplicated(r, t))
  {
    var findings, others := Deduplicated(r, s), Deduplicated(r, t);
    OneFindingPerKey(r, s);
    OneFindingPerKey(r, t);
    KeysTellFindingsApart(r, findings);
    KeysTellFindingsApart(r, others);
    forall f ensures multiset(findings)[f] == multiset(others)[f] {
      CountDistinct(findings, f);
      CountDistinct(others, f);
      if f in findings {
        FindingOf(r, s, t, f);
      } else if f in others {
        FindingOf(r, t, s, f);
      }
    }
  }

  /** Findings that already have one key each are left as they are, in their order. */
  lemma {:induction false} DistinctUnchanged(r: Rules, findings: seq<RawAdvisory>)
    requires Lawful(r) && OnePerKey(r, findings)
    ensures Deduplicated(r, findings) == findings
  {
    AllHaveGroups(r, findings);
    KeysOfDistinct(r, findings);
    forall i | 0 <= i < |findings| ensures Deduplicated(r, findings)[i] == findings[i] {
      MergeAllAt(r, findings, Keys(r, findings), i);
      GroupOfDistinct(r, findings, i);
      MergeOne(r, findings[i]);
    }
  }

  lemma MergeOne(r: Rules, a: RawAdvisory)
    ensures Merge(r, [a]) == a
  {
    assert Named(r, [a]) == [] || Named(r, [a]) == [a];
  }

  lemma {:induction false} KeysOfDistinct(r: Rules, findings: seq<RawAdvisory>)
    requires OnePerKey(r, findings)
    ensures |Keys(r, findings)| == |findings|
    ensures forall i :: 0 <= i < |findings| ==> Keys(r, findings)[i] == KeyOf(r, findings[i])
  {
    if findings != [] {
      KeysOfDistinct(r, findings[..|findings| - 1]);
    }
  }

  lemma {:induction false} NoGroup(r: Rules, advisories: seq<RawAdvisory>, key: Key)
    requires forall i :: 0 <= i < |advisories| ==> KeyOf(r, advisories[i]) != key
    ensures Group(r, advisories, key) == []
  {
    if advisories != [] {
      NoGroup(r, advisories[..|advisories| - 1], key);
    }
  }

  lemma {:induction false} GroupOfDistinct(r: Rules, findings: seq<RawAdvisory>, i: nat)
    requires OnePerKey(r, findings) && i < |findings|
    ensures Group(r, findings, KeyOf(r, findings[i])) == [findings[i]]
  {
    var n := |findings| - 1;
    if i < n {
      GroupOfDistinct(r, findings[..n], i);
    } else {
      NoGroup(r, findings[..n], KeyOf(r, findings[n]));
    }
  }

  /** Deduplicating twice is deduplicating once. */
  lemma DeduplicateIdempotent(r: Rules, advisories: seq<RawAdvisory>)
    requires Lawful(r)
    ensures Deduplicated(r, Deduplicated(r, advisories)) == Deduplicated(r, advisories)
  {
    OneFindingPerKey(r, advisories);
    DistinctUnchanged(r, Deduplicated(r, advisories));
  }

  /** How lists of records are merged: some as they came, some after each part was
      deduplicated, in any bracketing. */
  datatype Nesting = Raw(advisories: seq<RawAdvisory>) | Joined(left: Nesting, right: Nesting)

  function Records(n: Nesting): seq<RawAdvisory> {
    match n
    case Raw(advisories) => advisories
    case Joined(left, right) => Records(left) + Records(right)
  }

  function Result(r: Rules, n: Nesting): seq<RawAdvisory> {
    match n
    case Raw(advisories) => advisories
    case Joined(left, right) => Deduplicated(r, Result(r, left) + Result(r, right))
  }

  lemma RepresentsItself(r: Rules, s: seq<RawAdvisory>)
    requires Lawful(r)
    ensures Represents(r, s, s)
  {
    forall a | a in s ensures FromRecord(r, a, s) && RatedByRecord(r, a, s) && Covered(r, s, a, s) {
      assert SameRating(a, a);
      assert Sign(r.rank(a, a)) == -Sign(r.rank(a, a));
      forall scheme ensures r.compare(scheme, FixVersion(r, a), FixVersion(r, a)) <= 0 {
        var v := FixVersion(r, a);
        assert Sign(r.compare(scheme, v, v)) == -Sign(r.compare(scheme, v, v));
      }
      assert Covers(r, a, a, s);
    }
  }

  lemma CoversInMore(r: Rules, f: RawAdvisory, a: RawAdvisory, s: seq<RawAdvisory>, t: seq<RawAdvisory>)
    requires Covers(r, f, a, s) && forall b :: b in s ==> b in t
    ensures Covers(r, f, a, t)
  {
    forall scheme | Agreed(r, t, KeyOf(r, a), scheme) ensures Agreed(r, s, KeyOf(r, a), scheme) {
    }
  }

  lemma RepresentsUnion(r: Rules, a: seq<RawAdvisory>, s: seq<RawAdvisory>, b: seq<RawAdvisory>, t: seq<RawAdvisory>)
    requires Represents(r, a, s) && Represents(r, b, t)
    ensures Represents(r, a + b, s + t)
  {
    forall f | f in a + b ensures FromRecord(r, f, s + t) && RatedByRecord(r, f, s + t) {
      if f in a {
        assert FromRecord(r, f, s) && RatedByRecord(r, f, s);
      } else {
        assert FromRecord(r, f, t) && RatedByRecord(r, f, t);
      }
    }
    forall x | x in s + t ensures Covered(r, a + b, x, s + t) {
      if x in s {
        assert Covered(r, a, x, s);
        var f :| f in a && Covers(r, f, x, s);
        CoversInMore(r, f, x, s, s + t);
      } else {
        assert Covered(r, b, x, t);
        var f :| f in b && Covers(r, f, x, t);
        CoversInMore(r, f, x, t, s + t);
      }
    }
  }

  lemma CoversThrough(r: Rules, f: RawAdvisory, g: RawAdvisory, a: RawAdvisory, s: seq<RawAdvisory>,
                      t: seq<RawAdvisory>)
    requires Lawful(r) && Covers(r, f, g, s) && Covers(r, g, a, t)
    requires forall b :: b in s ==> FromRecord(r, b, t)
    ensures Covers(r, f, a, t)
  {
    forall scheme | r.named(a.identifier) && Agreed(r, t, KeyOf(r, a), scheme)
      ensures r.compare(scheme, FixVersion(r, f), FixVersion(r, a)) <= 0
    {
      AgreedThrough(r, s, t, KeyOf(r, a), scheme);
      assert r.compare(scheme, FixVersion(r, f), FixVersion(r, g)) <= 0;
    }
  }

  lemma AgreedThrough(r: Rules, s: seq<RawAdvisory>, t: seq<RawAdvisory>, key: Key, scheme: Scheme)
    requires Agreed(r, t, key, scheme) && forall b :: b in s ==> FromRecord(r, b, t)
    ensures Agreed(r, s, key, scheme)
  {
    forall b | b in s && KeyOf(r, b) == key && r.named(b.identifier)
      ensures r.scheme(b.identifier) == scheme && r.fix(b.identifier).Some?
    {
      assert FromRecord(r, b, t);
      var a :| a in t && a.cve == b.cve && a.identifier == b.identifier;
      assert KeyOf(r, a) == key;
    }
  }

  lemma RepresentsThrough(r: Rules, findings: seq<RawAdvisory>, s: seq<RawAdvisory>, t: seq<RawAdvisory>)
    requires Lawful(r) && Represents(r, findings, s) && Represents(r, s, t)
    ensures Represents(r, findings, t)
  {
    forall f | f in findings ensures FromRecord(r, f, t) && RatedByRecord(r, f, t) {
      assert FromRecord(r, f, s) && RatedByRecord(r, f, s);
      var a :| a in s && a.cve == f.cve && a.identifier == f.identifier;
      assert FromRecord(r, a, t);
      var b :| b in s && KeyOf(r, b) == KeyOf(r, f) && SameRating(b, f);
      assert RatedByRecord(r, b, t);
    }
    forall a | a in t ensures Covered(r, findings, a, t) {
      assert Covered(r, s, a, t);
      var g :| g in s && Covers(r, g, a, t);
      assert Covered(r, findings, g, s);
      var f :| f in findings && Covers(r, f, g, s);
      CoversThrough(r, f, g, a, s, t);
    }
  }

  lemma {:induction false} NestingRepresents(r: Rules, n: Nesting)
    requires Lawful(r)
    ensures Represents(r, Result(r, n), Records(n))
  {
    match n {
      case Raw(advisories) => RepresentsItself(r, advisories);
      case Joined(left, right) =>
        NestingRepresents(r, left);
        NestingRepresents(r, right);
        var both := Result(r, left) + Result(r, right);
        RepresentsUnion(r, Result(r, left), Records(left), Result(r, right), Records(right));
        DeduplicatedRepresents(r, both);
        RepresentsThrough(r, Result(r, n), both, Records(n));
    }
  }

  /** However records are bracketed, every key among them has exactly one finding. */
  lemma NestingKeys(r: Rules, left: Nesting, right: Nesting)
    requires Lawful(r)
    ensures OnePerKey(r, Result(r, Joined(left, right)))
    ensures forall key :: HasKey(r, Result(r, Joined(left, right)), key) <==> HasKey(r, Records(Joined(left, right)), key)
  {
    var n := Joined(left, right);
    NestingRepresents(r, n);
    OneFindingPerKey(r, Result(r, left) + Result(r, right));
    forall key ensures HasKey(r, Result(r, n), key) <==> HasKey(r, Records(n), key) {
      RepresentsKey(r, Result(r, n), Records(n), key);
    }
  }

  lemma RepresentsKey(r: Rules, findings: seq<RawAdvisory>, advisories: seq<RawAdvisory>, key: Key)
    requires Represents(r, findings, advisories)
    ensures HasKey(r, findings, key) <==> HasKey(r, advisories, key)
  {
    if f :| f in findings && KeyOf(r, f) == key {
      assert FromRecord(r, f, advisories);
      var a :| a in advisories && a.cve == f.cve && a.identifier == f.identifier;
      assert KeyOf(r, a) == key;
    }
    if a :| a in advisories && KeyOf(r, a) == key {
      assert Covered(r, findings, a, advisories);
    }
  }

  /** Neither rates worse, both have a fix or neither, and neither fix is the earlier. */
  ghost predicate EquallyGood(r: Rules, f: RawAdvisory, g: RawAdvisory, advisories: seq<RawAdvisory>) {
    && r.rank(f, g) == 0
    && (r.named(f.identifier) <==> r.named(g.identifier))
    && (r.named(f.identifier) ==>
          forall scheme :: Agreed(r, advisories, KeyOf(r, f), scheme) ==>
            r.compare(scheme, FixVersion(r, f), FixVersion(r, g)) == 0)
  }

  /** What one list of findings has for a key, another for the same records does at
      least as well. */
  lemma AtLeastAsGood(r: Rules, f: RawAdvisory, findings: seq<RawAdvisory>, g: RawAdvisory, others: seq<RawAdvisory>,
                      advisories: seq<RawAdvisory>)
    requires Lawful(r) && Represents(r, findings, advisories) && Represents(r, others, advisories)
    requires OnePerKey(r, others) && f in findings && g in others && KeyOf(r, f) == KeyOf(r, g)
    ensures r.rank(g, f) <= 0 && (r.named(f.identifier) ==> r.named(g.identifier) && NoLater(r, g, f, advisories))
  {
    assert RatedByRecord(r, f, advisories) && FromRecord(r, f, advisories);
    var a :| a in advisories && KeyOf(r, a) == KeyOf(r, f) && SameRating(a, f);
    OnlyFinding(r, g, others, a, advisories);
    assert Sign(r.rank(a, g)) == -Sign(r.rank(g, a)) && Sign(r.rank(f, g)) == -Sign(r.rank(g, f));
    var b :| b in advisories && b.cve == f.cve && b.identifier == f.identifier;
    OnlyFinding(r, g, others, b, advisories);
    assert FixVersion(r, b) == FixVersion(r, f);
  }

  /** With one finding per key, the one that covers a record is the one with its key. */
  lemma OnlyFinding(r: Rules, g: RawAdvisory, others: seq<RawAdvisory>, a: RawAdvisory, advisories: seq<RawAdvisory>)
    requires Represents(r, others, advisories) && OnePerKey(r, others)
    requires g in others && a in advisories && KeyOf(r, a) == KeyOf(r, g)
    ensures Covers(r, g, a, advisories)
  {
    assert Covered(r, others, a, advisories);
    var f :| f in others && Covers(r, f, a, advisories);
    var i :| 0 <= i < |others| && others[i] == f;
    var j :| 0 <= j < |others| && others[j] == g;
  }

  /** Merging parts that were merged before, however they are bracketed, rates every
      package as merging all records at once does, and offers an equally early fix. */
  lemma BracketingFree(r: Rules, left: Nesting, right: Nesting, f: RawAdvisory, g: RawAdvisory)
    requires Lawful(r)
    requires f in Result(r, Joined(left, right)) && g in Deduplicated(r, Records(Joined(left, right)))
    requires KeyOf(r, f) == KeyOf(r, g)
    ensures EquallyGood(r, f, g, Records(Joined(left, right)))
  {
    var n := Joined(left, right);
    NestingRepresents(r, n);
    DeduplicatedRepresents(r, Records(n));
    OneFindingPerKey(r, Result(r, left) + Result(r, right));
    OneFindingPerKey(r, Records(n));
    AtLeastAsGood(r, f, Result(r, n), g, Deduplicated(r, Records(n)), Records(n));
    AtLeastAsGood(r, g, Deduplicated(r, Records(n)), f, Result(r, n), Records(n));
    assert Sign(r.rank(f, g)) == -Sign(r.rank(g, f));
    forall scheme | r.named(f.identifier) && Agreed(r, Records(n), KeyOf(r, f), scheme)
      ensures r.compare(scheme, FixVersion(r, f), FixVersion(r, g)) == 0
    {
      var v, w := FixVersion(r, f), FixVersion(r, g);
      assert Sign(r.compare(scheme, v, w)) == -Sign(r.compare(scheme, w, v));
    }
  }

  // The program's own rules.

  lemma SeverityTextInjective(s: Option<Severity>, t: Option<Severity>)
    requires SeverityText(s) == SeverityText(t)
    ensures s == t
  {
    var x, y := SeverityText(s), SeverityText(t);
    assert |x| == |y|;
    assert x != "" ==> x[0] == y[0];
  }

  lemma RankPreorder()
    ensures TotalPreorder(RankCmp)
  {
  }

  lemma IdentifierPreorder()
    ensures TotalPreorder(IdentifierCmp)
  {
    StrCmpTotal();
    assert forall a, b :: IdentifierCmp(a, b) == StrCmp(a.identifier, b.identifier);
  }

  lemma SeverityPreorder()
    ensures TotalPreorder(SeverityCmp)
  {
    StrCmpTotal();
  }

  lemma OrderPreorder()
    ensures TotalPreorder(ORDER)
  {
    RankPreorder();
    IdentifierPreorder();
    SeverityPreorder();
    LexicallyPreorder(SeverityCmp, ScoreCmp);
    LexicallyPreorder(IdentifierCmp, Lexically(SeverityCmp, ScoreCmp));
    LexicallyPreorder(RankCmp, Lexically(IdentifierCmp, Lexically(SeverityCmp, ScoreCmp)));
  }

  /** The tie-break compares every field: no two different records tie. */
  lemma OrderUntied(a: RawAdvisory, b: RawAdvisory)
    requires ORDER(a, b) == 0 && a.cve == b.cve
    ensures a == b
  {
    LexicallyZero(RankCmp, Lexically(IdentifierCmp, Lexically(SeverityCmp, ScoreCmp)), a, b);
    LexicallyZero(IdentifierCmp, Lexically(SeverityCmp, ScoreCmp), a, b);
    LexicallyZero(SeverityCmp, ScoreCmp, a, b);
    StrCmpZero(a.identifier, b.identifier);
    StrCmpZero(SeverityText(a.severity), SeverityText(b.severity));
    SeverityTextInjective(a.severity, b.severity);
  }

  lemma CompareByLaws(scheme: Scheme, x: string, y: string, z: string)
    ensures Sign(CompareBy(scheme, x, y)) == -Sign(CompareBy(scheme, y, x))
    ensures CompareBy(scheme, x, y) <= 0 && CompareBy(scheme, y, z) <= 0 ==> CompareBy(scheme, x, z) <= 0
  {
    match scheme {
      case DebianScheme =>
        DebianVersion.OrderZeroAndSign(x, y);
        if DebianVersion.Order(x, y) <= 0 && DebianVersion.Order(y, z) <= 0 {
          DebianVersion.OrderTransitive(x, y, z);
        }
      case RpmScheme =>
        RpmVersion.OrderZeroAndSign(x, y);
        if RpmVersion.Order(x, y) <= 0 && RpmVersion.Order(y, z) <= 0 {
          RpmVersion.OrderTransitive(x, y, z);
        }
      case Unordered =>
    }
  }

  /** Everything above holds of the rules the program uses. */
  lemma OsvIsLawful()
    ensures Lawful(OSV)
  {
    RankPreorder();
    OrderPreorder();
    forall a, b | ORDER(a, b) == 0 && a.cve == b.cve ensures a == b {
      OrderUntied(a, b);
    }
    forall scheme, x, y ensures Sign(CompareBy(scheme, x, y)) == -Sign(CompareBy(scheme, y, x)) {
      CompareByLaws(scheme, x, y, y);
    }
    forall scheme, x, y, z | CompareBy(scheme, x, y) <= 0 && CompareBy(scheme, y, z) <= 0
      ensures CompareBy(scheme, x, z) <= 0
    {
      CompareByLaws(scheme, x, y, z);
    }
  }

  lemma OccursWithin(s: string, text: string, i: nat, pat: string, k: nat)
    requires i + |text| <= |s| && s[i..i + |text|] == text && OccursAt(text, pat, k)
    ensures OccursAt(s, pat, i + k)
  {
    forall d | 0 <= d < |pat| ensures s[i + k + d] == pat[d] {
      assert text[k + d] == pat[d];
    }
  }

  lemma OccursPart(s: string, pat: string, k: nat, i: nat, j: nat)
    requires OccursAt(s, pat, k) && i <= j <= |pat|
    ensures OccursAt(s, pat[i..j], k + i)
  {
    forall d | 0 <= d < j - i ensures s[k + i + d] == pat[i..j][d] {
      assert s[k + (i + d)] == pat[i + d];
    }
  }

  /** A record whose fix reads as available is among those that name a fix. */
  lemma AvailableIsNamed(identifier: string)
    requires AvailableFix(identifier).Some?
    ensures NamesFix(identifier)
  {
    var text := Strip(identifier);
    var k := RunStart(text, |text| - 1, true) - 10;
    assert OccursAt(text, FIXED_IN, k);
    assert FIXED_IN[1..9] == "fixed in";
    OccursPart(text, FIXED_IN, k, 1, 9);
    var i := StripWithin(identifier);
    OccursWithin(identifier, text, i, "fixed in", k + 1);
  }

  /** What the program's deduplication promises: for every record there is exactly one
      finding for its vulnerability and package; it is rated as badly as the worst of
      them; and where their fixes can be compared, no available fix is earlier. */
  lemma WorstRatingEarliestFix(advisories: seq<RawAdvisory>, a: RawAdvisory) returns (f: RawAdvisory)
    requires a in advisories
    ensures f in Deduplicated(OSV, advisories) && KeyOf(OSV, f) == KeyOf(OSV, a)
    ensures forall g :: g in Deduplicated(OSV, advisories) && KeyOf(OSV, g) == KeyOf(OSV, a) ==> g == f
    ensures forall b :: b in advisories && KeyOf(OSV, b) == KeyOf(OSV, a) ==> RankCmp(f, b) <= 0
    ensures exists b :: b in advisories && KeyOf(OSV, b) == KeyOf(OSV, a) && SameRating(b, f)
    ensures forall scheme, b :: Agreed(OSV, advisories, KeyOf(OSV, a), scheme)
              && b in advisories && KeyOf(OSV, b) == KeyOf(OSV, a) && AvailableFix(b.identifier).Some?
              ==> CompareBy(scheme, FixVersion(OSV, f), FixVersion(OSV, b)) <= 0
  {
    OsvIsLawful();
    f := OnlyOne(OSV, advisories, a);
    forall scheme, b | Agreed(OSV, advisories, KeyOf(OSV, a), scheme)
      && b in advisories && KeyOf(OSV, b) == KeyOf(OSV, a) && AvailableFix(b.identifier).Some?
      ensures CompareBy(scheme, FixVersion(OSV, f), FixVersion(OSV, b)) <= 0
    {
      AvailableIsNamed(b.identifier);
      assert Covers(OSV, f, b, advisories);
    }
  }

  // What "worst" means, in bands and scores.

  predicate Unbanded(a: RawAdvisory, low: real, high: real) {
    a.severity == None && a.score.Some? && low <= a.score.value < high
  }

  predicate IsCritical(a: RawAdvisory) {
    a.severity == Some(Critical) || Unbanded(a, 9.0, 11.0)
  }

  /** Nothing is said about how bad it is. */
  predicate IsUnrated(a: RawAdvisory) {
    a.severity == Some(Unscored) || (a.severity == None && a.score == None)
  }

  predicate IsHigh(a: RawAdvisory) {
    a.severity == Some(High) || Unbanded(a, 7.0, 9.0)
  }

  predicate IsMedium(a: RawAdvisory) {
    a.severity == Some(Medium) || Unbanded(a, 4.0, 7.0)
  }

  predicate IsLow(a: RawAdvisory) {
    a.severity == Some(Low) || Unbanded(a, 0.0, 4.0)
  }

  /** Both stand in the same of the five levels. */
  predicate SameLevel(a: RawAdvisory, b: RawAdvisory) {
    || (IsCritical(a) && IsCritical(b)) || (IsUnrated(a) && IsUnrated(b)) || (IsHigh(a) && IsHigh(b))
    || (IsMedium(a) && IsMedium(b)) || (IsLow(a) && IsLow(b))
  }

  /** A score, if there is one, is matched or exceeded. */
  predicate ScoresAsHigh(a: RawAdvisory, b: RawAdvisory) {
    b.score.Some? && b.score.value > 0.0 ==> a.score.Some? && a.score.value >= b.score.value
  }

  /** Critical before unrated before high before medium before low; then by score. */
  lemma WorseMeans(a: RawAdvisory, b: RawAdvisory)
    requires RankCmp(a, b) <= 0
    ensures IsCritical(b) ==> IsCritical(a)
    ensures IsUnrated(b) ==> IsCritical(a) || IsUnrated(a)
    ensures IsHigh(b) ==> IsCritical(a) || IsUnrated(a) || IsHigh(a)
    ensures IsMedium(b) ==> !IsLow(a)
    ensures SameLevel(a, b) ==> ScoresAsHigh(a, b)
  {
  }

  ghost predicate Among(advisories: seq<RawAdvisory>, key: Key, holds: RawAdvisory -> bool) {
    exists b :: b in advisories && KeyOf(OSV, b) == key && holds(b)
  }

  /** The rating of a finding, told from its records: the worst level any of them is at,
      and at that level the highest score. A record that says nothing about how bad it is
      gives way to a critical one only. */
  lemma RatedAsTheWorst(advisories: seq<RawAdvisory>, a: RawAdvisory) returns (f: RawAdvisory)
    requires a in advisories
    ensures f in Deduplicated(OSV, advisories) && KeyOf(OSV, f) == KeyOf(OSV, a)
    ensures IsCritical(f) <==> Among(advisories, KeyOf(OSV, a), IsCritical)
    ensures !IsCritical(f) ==> (IsUnrated(f) <==> Among(advisories, KeyOf(OSV, a), IsUnrated))
    ensures !IsCritical(f) && !IsUnrated(f) ==> (IsHigh(f) <==> Among(advisories, KeyOf(OSV, a), IsHigh))
    ensures IsMedium(f) || IsLow(f) ==> (IsMedium(f) <==> Among(advisories, KeyOf(OSV, a), IsMedium))
    ensures forall b :: b in advisories && KeyOf(OSV, b) == KeyOf(OSV, a) && SameLevel(f, b) ==> ScoresAsHigh(f, b)
  {
    f := WorstRatingEarliestFix(advisories, a);
    var key := KeyOf(OSV, a);
    forall b | b in advisories && KeyOf(OSV, b) == key
      ensures IsCritical(b) ==> IsCritical(f)
      ensures IsUnrated(b) ==> IsCritical(f) || IsUnrated(f)
      ensures IsHigh(b) ==> IsCritical(f) || IsUnrated(f) || IsHigh(f)
      ensures IsMedium(b) ==> !IsLow(f)
      ensures SameLevel(f, b) ==> ScoresAsHigh(f, b)
    {
      WorseMeans(f, b);
    }
    var from :| from in advisories && KeyOf(OSV, from) == key && SameRating(from, f);
  }

  /** Where every record carries a score and none a band, the finding has the greatest. */
  lemma GreatestScore(advisories: seq<RawAdvisory>, a: RawAdvisory) returns (f: RawAdvisory)
    requires a in advisories
    requires forall b :: b in advisories && KeyOf(OSV, b) == KeyOf(OSV, a) ==> b.severity == None && b.score.Some?
    ensures f in Deduplicated(OSV, advisories) && KeyOf(OSV, f) == KeyOf(OSV, a)
    ensures f.severity == None && f.score.Some?
    ensures forall b :: b in advisories && KeyOf(OSV, b) == KeyOf(OSV, a) ==> b.score.value <= f.score.value
  {
    f := WorstRatingEarliestFix(advisories, a);
    var from :| from in advisories && KeyOf(OSV, from) == KeyOf(OSV, a) && SameRating(from, f);
    forall b | b in advisories && KeyOf(OSV, b) == KeyOf(OSV, a) ensures b.score.value <= f.score.value {
      HigherScore(f, b);
    }
  }

  lemma HigherScore(a: RawAdvisory, b: RawAdvisory)
    requires a.severity == b.severity == None && a.score.Some? && b.score.Some? && RankCmp(a, b) <= 0
    ensures b.score.value <= a.score.value
  {
  }

  // Which ordering a distribution's fixes are compared by.

  predicate FromDebian(identifier: string) {
    "Debian:" <= identifier || "Ubuntu:" <= identifier
  }

  predicate FromRpm(identifier: string) {
    || "Red Hat:" <= identifier || "Rocky Linux:" <= identifier || "AlmaLinux:" <= identifier
    || "SUSE:" <= identifier || "openSUSE:" <= identifier
  }

  lemma FamilyIs(identifier: string, family: string)
    requires ':' !in family && family + ":" <= identifier
    ensures identifier[..IndexOf(identifier, ':')] == family
  {
    assert identifier[|family|] == (family + ":")[|family|] && identifier[..|family|] == (family + ":")[..|family|];
    assert forall k :: 0 <= k < |family| ==> identifier[k] == family[k];
  }

  lemma FamilyOrdered(identifier: string, family: string, opening: string)
    requires opening == family + ":" && ':' !in family && opening <= identifier
    ensures family in {"Debian", "Ubuntu"} ==> SchemeOf(identifier) == DebianScheme
    ensures family in {"Red Hat", "Rocky Linux", "AlmaLinux", "SUSE", "openSUSE"} ==> SchemeOf(identifier) == RpmScheme
  {
    FamilyIs(identifier, family);
  }

  lemma DebianOrdered(identifier: string)
    requires FromDebian(identifier)
    ensures SchemeOf(identifier) == DebianScheme
  {
    if "Debian:" <= identifier {
      FamilyOrdered(identifier, "Debian", "Debian:");
    } else {
      FamilyOrdered(identifier, "Ubuntu", "Ubuntu:");
    }
  }

  lemma RpmOrdered(identifier: string)
    requires FromRpm(identifier)
    ensures SchemeOf(identifier) == RpmScheme
  {
    if "Red Hat:" <= identifier {
      FamilyOrdered(identifier, "Red Hat", "Red Hat:");
    } else if "Rocky Linux:" <= identifier {
      FamilyOrdered(identifier, "Rocky Linux", "Rocky Linux:");
    } else if "AlmaLinux:" <= identifier {
      FamilyOrdered(identifier, "AlmaLinux", "AlmaLinux:");
    } else if "SUSE:" <= identifier {
      FamilyOrdered(identifier, "SUSE", "SUSE:");
    } else {
      FamilyOrdered(identifier, "openSUSE", "openSUSE:");
    }
  }

  lemma AgreedEarliest(r: Rules, advisories: seq<RawAdvisory>, a: RawAdvisory, scheme: Scheme) returns (f: RawAdvisory)
    requires Lawful(r) && a in advisories && r.named(a.identifier) && Agreed(r, advisories, KeyOf(r, a), scheme)
    ensures f in Deduplicated(r, advisories) && KeyOf(r, f) == KeyOf(r, a) && r.fix(f.identifier).Some?
    ensures forall b :: b in advisories && KeyOf(r, b) == KeyOf(r, a) && r.named(b.identifier) ==>
              r.fix(b.identifier).Some? && r.compare(scheme, r.fix(f.identifier).value, r.fix(b.identifier).value) <= 0
  {
    f := OnlyOne(r, advisories, a);
    DeduplicatedRepresents(r, advisories);
    assert FromRecord(r, f, advisories);
    var from :| from in advisories && from.cve == f.cve && from.identifier == f.identifier;
    assert Covers(r, f, a, advisories) && KeyOf(r, from) == KeyOf(r, f);
    forall b | b in advisories && KeyOf(r, b) == KeyOf(r, a) && r.named(b.identifier)
      ensures r.fix(b.identifier).Some? && r.compare(scheme, r.fix(f.identifier).value, r.fix(b.identifier).value) <= 0
    {
      assert Covers(r, f, b, advisories) && NoLater(r, f, b, advisories);
    }
  }

  /** Every record of the key that names a fix names an available one, from one of the
      distributions given. */
  predicate FixesFrom(advisories: seq<RawAdvisory>, key: Key, distribution: string -> bool) {
    forall b :: b in advisories && KeyOf(OSV, b) == key && NamesFix(b.identifier) ==>
      distribution(b.identifier) && ParseFix(Some(b.identifier)).Available?
  }

  /** No record of the key names an earlier fix. */
  predicate NamesEarliest(f: RawAdvisory, advisories: seq<RawAdvisory>, key: Key, order: (string, string) -> int) {
    && ParseFix(Some(f.identifier)).Available?
    && forall b :: b in advisories && KeyOf(OSV, b) == key && ParseFix(Some(b.identifier)).Available? ==>
         order(ParseFix(Some(f.identifier)).version, ParseFix(Some(b.identifier)).version) <= 0
  }

  lemma FixesAgree(advisories: seq<RawAdvisory>, key: Key, distribution: string -> bool, scheme: Scheme)
    requires FixesFrom(advisories, key, distribution) && scheme != Unordered
    requires forall identifier :: distribution(identifier) ==> SchemeOf(identifier) == scheme
    ensures Agreed(OSV, advisories, key, scheme)
  {
  }

  lemma EarliestIn(advisories: seq<RawAdvisory>, a: RawAdvisory, scheme: Scheme, order: (string, string) -> int)
    returns (f: RawAdvisory)
    requires forall x, y :: CompareBy(scheme, x, y) == order(x, y)
    requires a in advisories && NamesFix(a.identifier) && Agreed(OSV, advisories, KeyOf(OSV, a), scheme)
    ensures f in Deduplicated(OSV, advisories) && KeyOf(OSV, f) == KeyOf(OSV, a)
    ensures NamesEarliest(f, advisories, KeyOf(OSV, a), order)
  {
    OsvIsLawful();
    f := AgreedEarliest(OSV, advisories, a, scheme);
    forall b | b in advisories && KeyOf(OSV, b) == KeyOf(OSV, a) && ParseFix(Some(b.identifier)).Available?
      ensures NamesFix(b.identifier)
    {
      AvailableIsNamed(b.identifier);
    }
  }

  lemma DebianFixesAgree(advisories: seq<RawAdvisory>, key: Key)
    requires FixesFrom(advisories, key, FromDebian)
    ensures Agreed(OSV, advisories, key, DebianScheme)
  {
    forall identifier | FromDebian(identifier) ensures SchemeOf(identifier) == DebianScheme {
      DebianOrdered(identifier);
    }
    FixesAgree(advisories, key, FromDebian, DebianScheme);
  }

  lemma RpmFixesAgree(advisories: seq<RawAdvisory>, key: Key)
    requires FixesFrom(advisories, key, FromRpm)
    ensures Agreed(OSV, advisories, key, RpmScheme)
  {
    forall identifier | FromRpm(identifier) ensures SchemeOf(identifier) == RpmScheme {
      RpmOrdered(identifier);
    }
    FixesAgree(advisories, key, FromRpm, RpmScheme);
  }

  /** A finding about a Debian or Ubuntu package names the fix Debian's ordering puts
      first. */
  lemma EarliestInDebian(advisories: seq<RawAdvisory>, a: RawAdvisory) returns (f: RawAdvisory)
    requires a in advisories && NamesFix(a.identifier) && FixesFrom(advisories, KeyOf(OSV, a), FromDebian)
    ensures f in Deduplicated(OSV, advisories) && KeyOf(OSV, f) == KeyOf(OSV, a)
    ensures NamesEarliest(f, advisories, KeyOf(OSV, a), DebianVersion.Order)
  {
    DebianFixesAgree(advisories, KeyOf(OSV, a));
    f := EarliestIn(advisories, a, DebianScheme, DebianVersion.Order);
  }

  /** One about a package of RHEL, its rebuilds or SUSE names the fix rpm's puts first. */
  lemma EarliestInRpm(advisories: seq<RawAdvisory>, a: RawAdvisory) returns (f: RawAdvisory)
    requires a in advisories && NamesFix(a.identifier) && FixesFrom(advisories, KeyOf(OSV, a), FromRpm)
    ensures f in Deduplicated(OSV, advisories) && KeyOf(OSV, f) == KeyOf(OSV, a)
    ensures NamesEarliest(f, advisories, KeyOf(OSV, a), RpmVersion.Order)
  {
    RpmFixesAgree(advisories, KeyOf(OSV, a));
    f := EarliestIn(advisories, a, RpmScheme, RpmVersion.Order);
  }

  /** Other ecosystems have no ordering of their own. */
  lemma OthersUnordered(identifier: string)
    requires ':' in identifier && !FromDebian(identifier) && !FromRpm(identifier)
    ensures SchemeOf(identifier) == Unordered
  {
    var family := identifier[..IndexOf(identifier, ':')];
    assert family + ":" == identifier[..|family| + 1];
    NamedFamily(identifier, family);
  }

  lemma NamedFamily(identifier: string, family: string)
    requires family + ":" <= identifier && !FromDebian(identifier) && !FromRpm(identifier)
    ensures family !in {"Debian", "Ubuntu", "Red Hat", "Rocky Linux", "AlmaLinux", "SUSE", "openSUSE"}
  {
    assert "Debian" + ":" == "Debian:" && "Ubuntu" + ":" == "Ubuntu:" && "Red Hat" + ":" == "Red Hat:";
    assert "Rocky Linux" + ":" == "Rocky Linux:" && "AlmaLinux" + ":" == "AlmaLinux:";
    assert "SUSE" + ":" == "SUSE:" && "openSUSE" + ":" == "openSUSE:";
  }

  // Which identifier a finding keeps.

  lemma KeptIdentifier(r: Rules, advisories: seq<RawAdvisory>, a: RawAdvisory) returns (f: RawAdvisory, from: RawAdvisory)
    requires Lawful(r) && a in advisories
    ensures f in Deduplicated(r, advisories) && KeyOf(r, f) == KeyOf(r, a)
    ensures from in advisories && KeyOf(r, from) == KeyOf(r, a) && from.identifier == f.identifier
    ensures forall b :: b in advisories && KeyOf(r, b) == KeyOf(r, a) && r.named(b.identifier) ==> r.named(f.identifier)
  {
    f := OnlyOne(r, advisories, a);
    DeduplicatedRepresents(r, advisories);
    assert FromRecord(r, f, advisories);
    from :| from in advisories && from.cve == f.cve && from.identifier == f.identifier;
    forall b | b in advisories && KeyOf(r, b) == KeyOf(r, a) && r.named(b.identifier) ensures r.named(f.identifier) {
      assert Covers(r, f, b, advisories);
    }
  }

  /** A fix any record of the key names is not lost: the finding says "fixed in" when a
      record does, and says it of one that is available when all that say it are. */
  lemma FixKept(advisories: seq<RawAdvisory>, a: RawAdvisory) returns (f: RawAdvisory)
    requires a in advisories && Contains(a.identifier, "fixed in")
    ensures f in Deduplicated(OSV, advisories) && KeyOf(OSV, f) == KeyOf(OSV, a)
    ensures Contains(f.identifier, "fixed in")
    ensures (forall b :: b in advisories && KeyOf(OSV, b) == KeyOf(OSV, a) && Contains(b.identifier, "fixed in") ==>
               ParseFix(Some(b.identifier)).Available?) ==> ParseFix(Some(f.identifier)).Available?
  {
    OsvIsLawful();
    var from;
    f, from := KeptIdentifier(OSV, advisories, a);
    assert NamesFix(a.identifier);
  }

  lemma MergedAt(r: Rules, advisories: seq<RawAdvisory>, a: RawAdvisory)
    requires Lawful(r) && a in advisories
    ensures Group(r, advisories, KeyOf(r, a)) != []
    ensures Merge(r, Group(r, advisories, KeyOf(r, a))) in Deduplicated(r, advisories)
  {
    var keys, key := Keys(r, advisories), KeyOf(r, a);
    AllHaveGroups(r, advisories);
    GroupMembers(r, advisories, key);
    KeysHaveGroups(r, advisories, key);
    var i :| 0 <= i < |keys| && keys[i] == key;
    MergeAllAt(r, advisories, keys, i);
    assert Deduplicated(r, advisories)[i] in Deduplicated(r, advisories);
  }

  lemma {:induction false} NoneNamed(r: Rules, group: seq<RawAdvisory>)
    requires forall a :: a in group ==> !r.named(a.identifier)
    ensures Named(r, group) == []
  {
    if group != [] {
      NoneNamed(r, group[1..]);
    }
  }

  lemma UnfixedIsLeast(r: Rules, advisories: seq<RawAdvisory>, a: RawAdvisory) returns (f: RawAdvisory)
    requires Lawful(r) && a in advisories
    requires forall b :: b in advisories && KeyOf(r, b) == KeyOf(r, a) ==> !r.named(b.identifier)
    ensures f in Deduplicated(r, advisories) && f in advisories && KeyOf(r, f) == KeyOf(r, a)
    ensures forall b :: b in advisories && KeyOf(r, b) == KeyOf(r, a) ==> r.order(f, b) <= 0
  {
    var group := Group(r, advisories, KeyOf(r, a));
    MergedAt(r, advisories, a);
    GroupMembers(r, advisories, KeyOf(r, a));
    NoneNamed(r, group);
    LeastIsLeast(r.order, group);
    f := Merge(r, group);
  }

  /** Without a fix among its records a finding is one of them as it came: of those rated
      alike the one with the least identifier. */
  lemma UnfixedAsItCame(advisories: seq<RawAdvisory>, a: RawAdvisory) returns (f: RawAdvisory)
    requires a in advisories
    requires forall b :: b in advisories && KeyOf(OSV, b) == KeyOf(OSV, a) ==> !Contains(b.identifier, "fixed in")
    ensures f in Deduplicated(OSV, advisories) && f in advisories && KeyOf(OSV, f) == KeyOf(OSV, a)
    ensures forall b :: b in advisories && KeyOf(OSV, b) == KeyOf(OSV, a) && SameRating(f, b) ==>
              StrCmp(f.identifier, b.identifier) <= 0
  {
    OsvIsLawful();
    f := UnfixedIsLeast(OSV, advisories, a);
    forall b | b in advisories && KeyOf(OSV, b) == KeyOf(OSV, a) && SameRating(f, b)
      ensures StrCmp(f.identifier, b.identifier) <= 0
    {
      LeastIdentifier(f, b);
    }
  }

  lemma LeastIdentifier(a: RawAdvisory, b: RawAdvisory)
    requires SameRating(a, b) && ORDER(a, b) <= 0
    ensures StrCmp(a.identifier, b.identifier) <= 0
  {
    assert RankCmp(a, b) == 0;
    var rest := Lexically(SeverityCmp, ScoreCmp);
    assert ORDER(a, b) == Then(RankCmp(a, b), Lexically(IdentifierCmp, rest)(a, b));
    assert Lexically(IdentifierCmp, rest)(a, b) == Then(IdentifierCmp(a, b), rest(a, b));
  }

  lemma OnlyOne(r: Rules, advisories: seq<RawAdvisory>, a: RawAdvisory) returns (f: RawAdvisory)
    requires Lawful(r) && a in advisories
    ensures f in Deduplicated(r, advisories) && KeyOf(r, f) == KeyOf(r, a)
    ensures forall g :: g in Deduplicated(r, advisories) && KeyOf(r, g) == KeyOf(r, a) ==> g == f
    ensures RatedByRecord(r, f, advisories)
    ensures forall b :: b in advisories && KeyOf(r, b) == KeyOf(r, a) ==> Covers(r, f, b, advisories)
  {
    DeduplicatedRepresents(r, advisories);
    OneFindingPerKey(r, advisories);
    f := TheFinding(r, Deduplicated(r, advisories), advisories, a);
  }

  lemma TheFinding(r: Rules, findings: seq<RawAdvisory>, advisories: seq<RawAdvisory>, a: RawAdvisory)
    returns (f: RawAdvisory)
    requires a in advisories && Represents(r, findings, advisories) && OnePerKey(r, findings)
    ensures f in findings && KeyOf(r, f) == KeyOf(r, a)
    ensures forall g :: g in findings && KeyOf(r, g) == KeyOf(r, a) ==> g == f
    ensures RatedByRecord(r, f, advisories)
    ensures forall b :: b in advisories && KeyOf(r, b) == KeyOf(r, a) ==> Covers(r, f, b, advisories)
  {
    assert Covered(r, findings, a, advisories);
    f :| f in findings && Covers(r, f, a, advisories);
    forall b | b in advisories && KeyOf(r, b) == KeyOf(r, a) ensures Covers(r, f, b, advisories) {
      OnlyFinding(r, f, findings, b, advisories);
    }
    forall g | g in findings && KeyOf(r, g) == KeyOf(r, a) ensures g == f {
      OneOfKey(r, findings, f, g);
    }
  }

  lemma OneOfKey(r: Rules, findings: seq<RawAdvisory>, f: RawAdvisory, g: RawAdvisory)
    requires OnePerKey(r, findings) && f in findings && g in findings && KeyOf(r, f) == KeyOf(r, g)
    ensures f == g
  {
    var i :| 0 <= i < |findings| && findings[i] == f;
    var j :| 0 <= j < |findings| && findings[j] == g;
  }
}
