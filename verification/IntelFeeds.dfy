/** The cached threat-intel feeds and the findings they are applied to
    (backend/app/services/enrichment.py and the feed tables of
    backend/app/data/repository.py).

    A refresh that downloads what is cached already skips the rewrite, and when every
    feed says so the findings are not gone over either. Both must be as good as doing it. */
module IntelFeeds {
  import opened Text

  // One feed.

  /** A normalized record, as it would be stored. */
  datatype Record<V> = Record(cve: string, value: V)

  datatype Status = NeverRefreshed | Ok | Failed

  /** What a fetch came back with. */
  datatype Download<V> = NotConfigured | Outage | Records(rows: seq<Record<V>>)

  datatype Outcome = Outcome(status: Status, count: nat, same: bool)

  /** A feed's row and its catalogue. The digest is taken of the sorted records, so it
      is the multiset of them. A feed never attempted has the initial row. */
  datatype Cache<V(==)> = Cache(
    status: Status, refreshed: bool, count: nat, digest: Option<multiset<Record<V>>>, table: map<string, V>)

  function NeverFetched<V(==)>(): Cache<V> {
    Cache(NeverRefreshed, false, 0, None, map[])
  }

  /** Whether the feed holds anything that can enrich a finding. */
  predicate Usable<V(==)>(c: Cache<V>) {
    c.refreshed && c.count > 0
  }

  /** The clients keep one record per vulnerability, which the tables' primary keys
      demand. */
  predicate DistinctCves<V(==)>(rows: seq<Record<V>>) {
    forall i, j :: 0 <= i < j < |rows| ==> rows[i].cve != rows[j].cve
  }

  predicate Storable<V(==)>(d: Download<V>) {
    d.Records? ==> DistinctCves(d.rows)
  }

  function TableOf<V(==)>(rows: seq<Record<V>>): map<string, V> {
    if rows == [] then map[]
    else TableOf(rows[..|rows| - 1])[rows[|rows| - 1].cve := rows[|rows| - 1].value]
  }

  /** The digest and the count describe the catalogue, and nothing is cached before the
      first success. */
  ghost predicate Described<V(!new)>(c: Cache<V>) {
    && c.count == |c.table|
    && (c.refreshed <==> c.digest.Some?) && (c.refreshed <==> c.table != map[])
    && (c.digest.Some? ==> Describes(c.digest.value, c.table))
  }

  ghost predicate Describes<V(!new)>(digest: multiset<Record<V>>, table: map<string, V>) {
    exists rows: seq<Record<V>> :: DistinctCves(rows) && multiset(rows) == digest && TableOf(rows) == table
  }

  predicate Successful<V(==)>(d: Download<V>) {
    d.Records? && d.rows != []
  }

  function Refreshed<V(==)>(c: Cache<V>, d: Download<V>): (r: (Cache<V>, Outcome)) {
    if d.NotConfigured? then (c.(status := NeverRefreshed), Outcome(NeverRefreshed, 0, false))
    else if !Successful(d) then (c.(status := Failed), Outcome(Failed, 0, false))
    else if c.digest == Some(multiset(d.rows)) && |c.table| > 0 then
      (c.(status := Ok, refreshed := true, count := |c.table|), Outcome(Ok, |c.table|, true))
    else
      (Cache(Ok, true, |d.rows|, Some(multiset(d.rows)), TableOf(d.rows)), Outcome(Ok, |d.rows|, false))
  }

  /** A feed's row and table, rewritten in place. */
  class Feed<V(==)> {
    var status: Status
    var refreshed: bool
    var count: nat
    var digest: Option<multiset<Record<V>>>
    var table: map<string, V>

    function Contents(): Cache<V>
      reads this
    {
      Cache(status, refreshed, count, digest, table)
    }

    constructor ()
      ensures Contents() == NeverFetched()
    {
      status, refreshed, count, digest, table := NeverRefreshed, false, 0, None, map[];
    }

    method RecordSuccess(records: nat, described: multiset<Record<V>>)
      modifies this
      ensures Contents() == old(Contents()).(status := Ok, refreshed := true, count := records, digest := Some(described))
    {
      status, refreshed, count, digest := Ok, true, records, Some(described);
    }

    /** Replace the catalogue wholesale. */
    method Replace(rows: seq<Record<V>>) returns (records: nat)
      modifies this`table
      ensures records == |rows| && table == TableOf(rows)
    {
      table := map[];
      for i := 0 to |rows|
        invariant table == TableOf(rows[..i])
      {
        assert rows[..i + 1][..i] == rows[..i];
        table := table[rows[i].cve := rows[i].value];
      }
      assert rows[..|rows|] == rows;
      records := |rows|;
    }

    method Refresh(d: Download<V>) returns (outcome: Outcome)
      modifies this
      ensures (Contents(), outcome) == Refreshed(old(Contents()), d)
    {
      if d.NotConfigured? {
        status := NeverRefreshed;
        return Outcome(NeverRefreshed, 0, false);
      }
      if d.Outage? || d.rows == [] {
        status := Failed;
        return Outcome(Failed, 0, false);
      }
      var described := multiset(d.rows);
      if digest == Some(described) && |table| > 0 {
        RecordSuccess(|table|, described);
        return Outcome(Ok, |table|, true);
      }
      var records := Replace(d.rows);
      RecordSuccess(records, described);
      outcome := Outcome(Ok, records, false);
    }
  }

  // What a digest says about a catalogue.

  lemma {:induction false} TableHolds<V>(rows: seq<Record<V>>, cve: string, value: V)
    requires DistinctCves(rows)
    ensures cve in TableOf(rows) && TableOf(rows)[cve] == value <==> Record(cve, value) in rows
    ensures cve !in TableOf(rows) <==> forall i :: 0 <= i < |rows| ==> rows[i].cve != cve
  {
    if rows != [] {
      var n := |rows| - 1;
      TableHolds(rows[..n], cve, value);
      assert rows == rows[..n] + [rows[n]];
    }
  }

  lemma {:induction false} TableSize<V>(rows: seq<Record<V>>)
    requires DistinctCves(rows)
    ensures |TableOf(rows)| == |rows|
  {
    if rows != [] {
      var n := |rows| - 1;
      TableSize(rows[..n]);
      TableHolds(rows[..n], rows[n].cve, rows[n].value);
    }
  }

  /** Records in another order make the same catalogue. */
  lemma SameDigestSameTable<V>(s: seq<Record<V>>, t: seq<Record<V>>)
    requires DistinctCves(s) && DistinctCves(t) && multiset(s) == multiset(t)
    ensures TableOf(s) == TableOf(t)
  {
    forall r ensures r in s <==> r in t {
      assert r in s <==> r in multiset(s);
      assert r in t <==> r in multiset(t);
    }
    var x, y := TableOf(s), TableOf(t);
    forall cve | cve in x ensures cve in y && x[cve] == y[cve] {
      TableHolds(s, cve, x[cve]);
      TableHolds(t, cve, x[cve]);
    }
    forall cve | cve in y ensures cve in x {
      TableHolds(t, cve, y[cve]);
      TableHolds(s, cve, y[cve]);
    }
  }

  /** Skipping the rewrite is the same as doing it: after a successful download the
      catalogue is what was downloaded, changed or not, and also when the catalogue was
      emptied behind its row's back. */
  lemma SkipIsRewrite<V(!new)>(c: Cache<V>, d: Download<V>)
    requires (Described(c) || c.table == map[]) && Storable(d) && Successful(d)
    ensures Refreshed(c, d).0 == Cache(Ok, true, |d.rows|, Some(multiset(d.rows)), TableOf(d.rows))
    ensures Refreshed(c, d).1.status == Ok && Refreshed(c, d).1.count == |d.rows|
  {
    if c.digest == Some(multiset(d.rows)) && |c.table| > 0 {
      var rows: seq<Record<V>> :| DistinctCves(rows) && multiset(rows) == multiset(d.rows) && TableOf(rows) == c.table;
      SameDigestSameTable(rows, d.rows);
      TableSize(d.rows);
    }
  }

  /** What a download that brought nothing leaves: everything but the status. */
  lemma OutageKeepsCatalogue<V>(c: Cache<V>, d: Download<V>)
    requires !Successful(d)
    ensures Refreshed(c, d).0 == c.(status := if d.NotConfigured? then NeverRefreshed else Failed)
    ensures Refreshed(c, d).1 == Outcome(if d.NotConfigured? then NeverRefreshed else Failed, 0, false)
  {
  }

  lemma RefreshedDescribed<V(!new)>(c: Cache<V>, d: Download<V>)
    requires Described(c) && Storable(d)
    ensures Described(Refreshed(c, d).0)
    ensures Refreshed(c, d).1.same ==> Refreshed(c, d).0 == c.(status := Ok) && Usable(c)
  {
    if Successful(d) {
      SkipIsRewrite(c, d);
      TableSize(d.rows);
      assert Describes(multiset(d.rows), TableOf(d.rows));
      assert TableOf(d.rows) != map[];
    }
  }

  // Findings.

  datatype Listing = Listing(due: Option<string>, details: string)

  datatype Score = Score(score: real, percentile: real)

  /** A stored finding; `None` means never checked, which is not the same as absent. */
  datatype Finding = Finding(
    cve: string, kevListed: Option<bool>, kevDue: Option<string>,
    epssScore: Option<real>, epssPercentile: Option<real>, pending: bool)

  function Upper(s: string): string {
    seq(|s|, i requires 0 <= i < |s| => if 'a' <= s[i] <= 'z' then (s[i] as int - 32) as char else s[i])
  }

  lemma UpperAlike(s: string, t: string)
    ensures Upper(s) == Upper(t) <==> |s| == |t| && forall i :: 0 <= i < |s| ==> CaseAlike(s[i], t[i])
  {
    if Upper(s) == Upper(t) {
      assert |Upper(s)| == |s| && |Upper(t)| == |t|;
      forall i | 0 <= i < |s| ensures CaseAlike(s[i], t[i]) {
        assert Upper(s)[i] == Upper(t)[i];
      }
    }
  }

  /** A record is found under its id in either case, as long as the catalogue has it in
      capitals. */
  lemma FoundInEitherCase<V>(table: map<string, V>, cve: string, id: string)
    requires cve != "" && cve in table && forall i :: 0 <= i < |cve| ==> !('a' <= cve[i] <= 'z')
    requires |id| == |cve| && forall i :: 0 <= i < |id| ==> CaseAlike(id[i], cve[i])
    ensures LookIn(table)(id) == Some(table[cve])
  {
    UpperAlike(id, cve);
    assert Upper(cve) == cve;
  }

  /** Lookups leave out the empty id and ask in capitals. */
  function LookIn<V>(table: map<string, V>): string -> Option<V> {
    cve => var key := Upper(cve); if key != "" && key in table then Some(table[key]) else None
  }

  /** What a usable cache answers; `None` for one that is not. */
  function Answers<V(==)>(c: Cache<V>): Option<string -> Option<V>> {
    if Usable(c) then Some(LookIn(c.table)) else None
  }

  /** Both listing fields are set whenever there is a lookup to ask, found or not. */
  function ApplyKev(kev: Option<string -> Option<Listing>>, f: Finding): Finding {
    match kev
    case None => f
    case Some(find) =>
      match find(f.cve)
      case None => f.(kevListed := Some(false), kevDue := None)
      case Some(listing) => f.(kevListed := Some(true), kevDue := listing.due)
  }

  /** The two score fields change only when the lookup finds a score. */
  function ApplyEpss(epss: Option<string -> Option<Score>>, f: Finding): Finding {
    match epss
    case None => f
    case Some(find) =>
      match find(f.cve)
      case None => f
      case Some(score) => f.(epssScore := Some(score.score), epssPercentile := Some(score.percentile))
  }

  /** The rules both paths share: what the two caches make of a finding. */
  function EnricherOf(kev: Option<string -> Option<Listing>>, epss: Option<string -> Option<Score>>): Finding -> Finding {
    f => ApplyEpss(epss, ApplyKev(kev, f))
  }

  function Enricher(kev: Cache<Listing>, epss: Cache<Score>): Finding -> Finding {
    EnricherOf(Answers(kev), Answers(epss))
  }

  /** What reapplying makes of one stored finding: pending again when it changed. */
  function Renewed(enrich: Finding -> Finding, f: Finding): Finding {
    if enrich(f) == f then f else enrich(f).(pending := true)
  }

  function EnrichedAll(enrich: Finding -> Finding, findings: seq<Finding>): (r: seq<Finding>)
    ensures |r| == |findings|
  {
    seq(|findings|, i requires 0 <= i < |findings| => enrich(findings[i]))
  }

  function RenewedAll(enrich: Finding -> Finding, findings: seq<Finding>): (r: seq<Finding>)
    ensures |r| == |findings|
  {
    seq(|findings|, i requires 0 <= i < |findings| => Renewed(enrich, findings[i]))
  }

  function Changes(enrich: Finding -> Finding, findings: seq<Finding>): nat {
    if findings == [] then 0
    else
      var n := |findings| - 1;
      Changes(enrich, findings[..n]) + if enrich(findings[n]) == findings[n] then 0 else 1
  }

  /** Nothing is gone over when no feed is usable or no finding has an id. */
  predicate Idle(kev: Cache<Listing>, epss: Cache<Score>, findings: seq<Finding>) {
    || (!Usable(kev) && !Usable(epss))
    || (forall i :: 0 <= i < |findings| ==> findings[i].cve == "")
  }

  function Reapplied(kev: Cache<Listing>, epss: Cache<Score>, findings: seq<Finding>): (seq<Finding>, nat) {
    if Idle(kev, epss, findings) then (findings, 0)
    else (RenewedAll(Enricher(kev, epss), findings), Changes(Enricher(kev, epss), findings))
  }

  /** What is stored: the two caches and the findings. */
  datatype State = State(kev: Cache<Listing>, epss: Cache<Score>, findings: seq<Finding>)

  const START := State(NeverFetched(), NeverFetched(), [])

  /** A scan keeps some stored findings and adds its own, enriched; a refresh carries the
      two downloads and whether every other feed reported no change; demo mode declines
      to refresh. */
  datatype Event =
    | Scan(kept: Finding -> bool, inputs: seq<Finding>)
    | Refresh(kev: Download<Listing>, epss: Download<Score>, others: bool)
    | DemoRefresh

  function Keep(findings: seq<Finding>, kept: Finding -> bool): seq<Finding> {
    if findings == [] then []
    else
      var n := |findings| - 1;
      Keep(findings[..n], kept) + if kept(findings[n]) then [findings[n]] else []
  }

  /** Whether a refresh leaves the findings alone because nothing was new. */
  predicate Skips(st: State, e: Event)
    requires e.Refresh?
  {
    Refreshed(st.kev, e.kev).1.same && Refreshed(st.epss, e.epss).1.same && e.others
  }

  /** What a refresh comes to when the findings are gone over whatever it brought. */
  function Reapplying(st: State, e: Event): (State, nat)
    requires e.Refresh?
  {
    var k, p := Refreshed(st.kev, e.kev).0, Refreshed(st.epss, e.epss).0;
    var (findings, changed) := Reapplied(k, p, st.findings);
    (State(k, p, findings), changed)
  }

  function After(st: State, e: Event): (r: (State, nat)) {
    match e
    case Scan(kept, inputs) =>
      (st.(findings := Keep(st.findings, kept) + EnrichedAll(Enricher(st.kev, st.epss), inputs)), 0)
    case Refresh(kev, epss, others) =>
      if Skips(st, e) then (State(Refreshed(st.kev, kev).0, Refreshed(st.epss, epss).0, st.findings), 0)
      else Reapplying(st, e)
    case DemoRefresh => (st, 0)
  }

  /** The deployment: caches and findings rewritten in place. */
  class Intel {
    const kev: Feed<Listing>
    const epss: Feed<Score>
    var findings: seq<Finding>

    function Contents(): State
      reads this, kev, epss
    {
      State(kev.Contents(), epss.Contents(), findings)
    }

    constructor ()
      ensures Contents() == START && fresh(kev) && fresh(epss)
    {
      kev := new Feed();
      epss := new Feed();
      findings := [];
    }

    /** `enrich`: a new list of enriched copies. */
    method Enrich(inputs: seq<Finding>) returns (enriched: seq<Finding>)
      ensures enriched == EnrichedAll(Enricher(kev.Contents(), epss.Contents()), inputs)
    {
      var enrich := Enricher(kev.Contents(), epss.Contents());
      enriched := [];
      for i := 0 to |inputs|
        invariant enriched == EnrichedAll(enrich, inputs)[..i]
      {
        enriched := enriched + [enrich(inputs[i])];
      }
    }

    method SaveScan(kept: Finding -> bool, inputs: seq<Finding>)
      modifies this
      ensures Contents() == After(old(Contents()), Scan(kept, inputs)).0
    {
      var enriched := Enrich(inputs);
      findings := Keep(findings, kept) + enriched;
    }

    /** `reapply_to_stored`: rows that differ are rewritten in place and counted. */
    method ReapplyToStored() returns (changed: nat)
      modifies this
      ensures (findings, changed) == Reapplied(kev.Contents(), epss.Contents(), old(findings))
    {
      if Idle(kev.Contents(), epss.Contents(), findings) {
        return 0;
      }
      changed := RenewRows(Enricher(kev.Contents(), epss.Contents()));
    }

    method RenewRows(enrich: Finding -> Finding) returns (changed: nat)
      modifies this
      ensures findings == RenewedAll(enrich, old(findings)) && changed == Changes(enrich, old(findings))
    {
      changed := 0;
      var n := |findings|;
      ghost var before := findings;
      for i := 0 to n
        invariant |findings| == n
        invariant forall j :: 0 <= j < i ==> findings[j] == Renewed(enrich, before[j])
        invariant forall j :: i <= j < n ==> findings[j] == before[j]
        invariant changed == Changes(enrich, before[..i])
      {
        assert before[..i + 1][..i] == before[..i];
        var enriched := enrich(findings[i]);
        if enriched != findings[i] {
          findings := findings[i := enriched.(pending := true)];
          changed := changed + 1;
        }
      }
      assert before[..n] == before;
    }

    /** `refresh_feeds_and_reapply`; `others` says every other feed reported no change. */
    method RefreshFeedsAndReapply(demo: bool, kevDownload: Download<Listing>, epssDownload: Download<Score>,
                                  others: bool)
      returns (changed: nat)
      modifies this, kev, epss
      ensures (Contents(), changed) ==
              After(old(Contents()), if demo then DemoRefresh else Refresh(kevDownload, epssDownload, others))
    {
      if demo {
        return 0;
      }
      var first := kev.Refresh(kevDownload);
      var second := epss.Refresh(epssDownload);
      if first.same && second.same && others {
        return 0;
      }
      changed := ReapplyToStored();
    }
  }

  // Every run of scans and refreshes.

  predicate Takeable(e: Event) {
    e.Refresh? ==> Storable(e.kev) && Storable(e.epss)
  }

  function At(events: seq<Event>, n: nat): State
    requires n <= |events|
  {
    if n == 0 then START else After(At(events, n - 1), events[n - 1]).0
  }

  /** What every event keeps holds at every moment of every run. */
  lemma {:induction false} AlwaysHolds(events: seq<Event>, n: nat, good: State -> bool)
    requires n <= |events| && good(START)
    requires forall st, e :: e in events && good(st) ==> good(After(st, e).0)
    ensures good(At(events, n))
  {
    if n > 0 {
      AlwaysHolds(events, n - 1, good);
      assert events[n - 1] in events;
    }
  }

  /** Enriching again under the same caches changes nothing. */
  predicate Fixed(enrich: Finding -> Finding, f: Finding) {
    enrich(f) == f
  }

  /** The digests describe the catalogues, and every finding with an id is as the
      caches would have it. */
  ghost predicate Current(st: State) {
    && Described(st.kev) && Described(st.epss)
    && AllFixed(Enricher(st.kev, st.epss), st.findings)
  }

  ghost predicate AllFixed(enrich: Finding -> Finding, findings: seq<Finding>) {
    forall i :: 0 <= i < |findings| && findings[i].cve != "" ==> Fixed(enrich, findings[i])
  }

  predicate SameKev(f: Finding, g: Finding) {
    f.cve == g.cve && f.kevListed == g.kevListed && f.kevDue == g.kevDue
  }

  predicate SameEpss(f: Finding, g: Finding) {
    f.cve == g.cve && f.epssScore == g.epssScore && f.epssPercentile == g.epssPercentile
  }

  /** The two feeds write different fields. */
  lemma EnrichParts(kev: Option<string -> Option<Listing>>, epss: Option<string -> Option<Score>>, f: Finding)
    ensures SameKev(EnricherOf(kev, epss)(f), ApplyKev(kev, f)) && SameEpss(EnricherOf(kev, epss)(f), ApplyEpss(epss, f))
  {
    KevKeepsScores(kev, f);
    ScoresAlike(epss, f, ApplyKev(kev, f));
  }

  lemma KevKeepsScores(kev: Option<string -> Option<Listing>>, f: Finding)
    ensures SameEpss(f, ApplyKev(kev, f))
  {
  }

  lemma ScoresAlike(epss: Option<string -> Option<Score>>, f: Finding, g: Finding)
    requires SameEpss(f, g)
    ensures SameEpss(ApplyEpss(epss, f), ApplyEpss(epss, g)) && SameKev(g, ApplyEpss(epss, g))
  {
  }

  lemma KevSettled(kev: Option<string -> Option<Listing>>, f: Finding, g: Finding)
    requires SameKev(g, ApplyKev(kev, f))
    ensures ApplyKev(kev, g) == g
  {
    assert ApplyKev(kev, f).cve == f.cve;
  }

  lemma EpssSettled(epss: Option<string -> Option<Score>>, f: Finding, g: Finding)
    requires SameEpss(g, ApplyEpss(epss, f))
    ensures ApplyEpss(epss, g) == g
  {
    assert ApplyEpss(epss, f).cve == f.cve;
  }

  lemma Settled(kev: Option<string -> Option<Listing>>, epss: Option<string -> Option<Score>>, f: Finding, g: Finding)
    requires g == EnricherOf(kev, epss)(f).(pending := g.pending)
    ensures Fixed(EnricherOf(kev, epss), g)
  {
    EnrichParts(kev, epss, f);
    KevSettled(kev, f, g);
    EpssSettled(epss, f, g);
  }

  lemma EnrichTwice(kev: Option<string -> Option<Listing>>, epss: Option<string -> Option<Score>>, f: Finding)
    ensures var enrich := EnricherOf(kev, epss);
            Fixed(enrich, enrich(f)) && Fixed(enrich, Renewed(enrich, f))
  {
    Settled(kev, epss, f, EnricherOf(kev, epss)(f));
    Settled(kev, epss, f, EnricherOf(kev, epss)(f).(pending := true));
  }

  lemma {:induction false} KeepFixed(enrich: Finding -> Finding, findings: seq<Finding>, kept: Finding -> bool)
    requires AllFixed(enrich, findings)
    ensures AllFixed(enrich, Keep(findings, kept))
  {
    if findings != [] {
      KeepFixed(enrich, findings[..|findings| - 1], kept);
    }
  }

  lemma EnrichedFixed(kev: Cache<Listing>, epss: Cache<Score>, findings: seq<Finding>)
    ensures AllFixed(Enricher(kev, epss), EnrichedAll(Enricher(kev, epss), findings))
    ensures AllFixed(Enricher(kev, epss), RenewedAll(Enricher(kev, epss), findings))
  {
    var enrich := Enricher(kev, epss);
    forall i | 0 <= i < |findings|
      ensures Fixed(enrich, EnrichedAll(enrich, findings)[i]) && Fixed(enrich, RenewedAll(enrich, findings)[i])
    {
      EnrichTwice(Answers(kev), Answers(epss), findings[i]);
    }
  }

  /** A cache that reports no change enriches as it did. */
  lemma SameEnricher(st: State, e: Event)
    requires Current(st) && Takeable(e) && e.Refresh? && Skips(st, e)
    ensures Enricher(Refreshed(st.kev, e.kev).0, Refreshed(st.epss, e.epss).0) == Enricher(st.kev, st.epss)
    ensures Usable(Refreshed(st.kev, e.kev).0) && Usable(st.kev)
  {
    RefreshedDescribed(st.kev, e.kev);
    RefreshedDescribed(st.epss, e.epss);
  }

  lemma {:induction false} NoChanges(enrich: Finding -> Finding, findings: seq<Finding>)
    ensures RenewedAll(enrich, findings) == findings <==>
              forall i :: 0 <= i < |findings| ==> Renewed(enrich, findings[i]) == findings[i]
    ensures Changes(enrich, findings) == 0 <==> forall i :: 0 <= i < |findings| ==> Fixed(enrich, findings[i])
  {
    assert forall i :: 0 <= i < |findings| ==> RenewedAll(enrich, findings)[i] == Renewed(enrich, findings[i]);
    if findings != [] {
      NoChanges(enrich, findings[..|findings| - 1]);
    }
  }

  lemma StepKeepsCurrent(st: State, e: Event)
    requires Current(st) && Takeable(e)
    ensures Current(After(st, e).0)
  {
    match e {
      case Scan(kept, inputs) =>
        KeepFixed(Enricher(st.kev, st.epss), st.findings, kept);
        EnrichedFixed(st.kev, st.epss, inputs);
      case Refresh(kev, epss, others) =>
        RefreshedDescribed(st.kev, kev);
        RefreshedDescribed(st.epss, epss);
        if Skips(st, e) {
          SameEnricher(st, e);
        } else {
          ReappliedFixed(Refreshed(st.kev, kev).0, Refreshed(st.epss, epss).0, st.findings);
        }
      case DemoRefresh =>
    }
  }

  lemma ReappliedFixed(kev: Cache<Listing>, epss: Cache<Score>, findings: seq<Finding>)
    ensures AllFixed(Enricher(kev, epss), Reapplied(kev, epss, findings).0)
  {
    if !Idle(kev, epss, findings) {
      EnrichedFixed(kev, epss, findings);
    }
  }

  /** At every moment of every run the digests describe what is cached, and every stored
      finding with an id is what the caches say. */
  lemma {:induction false} AlwaysCurrent(events: seq<Event>, n: nat)
    requires n <= |events| && forall e :: e in events ==> Takeable(e)
    ensures Current(At(events, n))
  {
    if n == 0 {
      assert Described(START.kev) && Described(START.epss);
    } else {
      AlwaysCurrent(events, n - 1);
      StepKeepsCurrent(At(events, n - 1), events[n - 1]);
    }
  }

  /** So a stored finding says whether the catalogue the system holds lists it. */
  lemma SaysWhatTheCatalogueSays(events: seq<Event>, n: nat, f: Finding)
    requires n <= |events| && forall e :: e in events ==> Takeable(e)
    requires var st := At(events, n); Usable(st.kev) && f in st.findings && f.cve != ""
    ensures f.kevListed == Some(Upper(f.cve) in At(events, n).kev.table)
  {
    AlwaysCurrent(events, n);
    var st := At(events, n);
    assert Fixed(Enricher(st.kev, st.epss), f);
    EnrichParts(Answers(st.kev), Answers(st.epss), f);
  }

  /** A listed finding carries the date its listing gives, one that is not listed none;
      one with a score carries it and its percentile. */
  lemma CarriesItsRecords(events: seq<Event>, n: nat, f: Finding)
    requires n <= |events| && forall e :: e in events ==> Takeable(e)
    requires f in At(events, n).findings && f.cve != ""
    ensures Usable(At(events, n).kev) ==>
              f.kevDue == if Upper(f.cve) in At(events, n).kev.table then At(events, n).kev.table[Upper(f.cve)].due
                          else None
    ensures Usable(At(events, n).epss) && Upper(f.cve) in At(events, n).epss.table ==>
              && f.epssScore == Some(At(events, n).epss.table[Upper(f.cve)].score)
              && f.epssPercentile == Some(At(events, n).epss.table[Upper(f.cve)].percentile)
  {
    AlwaysCurrent(events, n);
    var st := At(events, n);
    assert Fixed(Enricher(st.kev, st.epss), f);
    EnrichParts(Answers(st.kev), Answers(st.epss), f);
    if Usable(st.kev) {
      DueOf(st.kev, f);
    }
    if Usable(st.epss) && Upper(f.cve) in st.epss.table {
      ScoreOf(st.epss, f);
    }
  }

  lemma DueOf(kev: Cache<Listing>, f: Finding)
    requires SameKev(f, ApplyKev(Answers(kev), f)) && Usable(kev) && f.cve != ""
    ensures f.kevDue == if Upper(f.cve) in kev.table then kev.table[Upper(f.cve)].due else None
  {
  }

  lemma ScoreOf(epss: Cache<Score>, f: Finding)
    requires SameEpss(f, ApplyEpss(Answers(epss), f)) && Usable(epss) && f.cve != "" && Upper(f.cve) in epss.table
    ensures f.epssScore == Some(epss.table[Upper(f.cve)].score)
    ensures f.epssPercentile == Some(epss.table[Upper(f.cve)].percentile)
  {
  }

  lemma EnricherKeepsPending(kev: Option<string -> Option<Listing>>, epss: Option<string -> Option<Score>>)
    ensures forall f :: EnricherOf(kev, epss)(f).pending == f.pending
  {
  }

  function Differing(before: seq<Finding>, after: seq<Finding>): set<nat>
    requires |before| == |after|
  {
    set i: nat | i < |before| && after[i] != before[i]
  }

  lemma {:induction false} ChangesAre(enrich: Finding -> Finding, findings: seq<Finding>)
    requires forall f :: enrich(f).pending == f.pending
    ensures Changes(enrich, findings) == |Differing(findings, RenewedAll(enrich, findings))|
  {
    if findings != [] {
      var n := |findings| - 1;
      ChangesAre(enrich, findings[..n]);
      var before := Differing(findings[..n], RenewedAll(enrich, findings[..n]));
      assert Renewed(enrich, findings[n]) != findings[n] <==> enrich(findings[n]) != findings[n];
      assert Differing(findings, RenewedAll(enrich, findings)) ==
             if enrich(findings[n]) == findings[n] then before else before + {n};
    }
  }

  /** What reapplying reports is how many findings it changed, and those it changed are
      pending again. */
  lemma ReappliedCounts(kev: Cache<Listing>, epss: Cache<Score>, findings: seq<Finding>)
    ensures |Reapplied(kev, epss, findings).0| == |findings|
    ensures Reapplied(kev, epss, findings).1 == |Differing(findings, Reapplied(kev, epss, findings).0)|
    ensures forall i :: i in Differing(findings, Reapplied(kev, epss, findings).0) ==>
              Reapplied(kev, epss, findings).0[i].pending
  {
    if Idle(kev, epss, findings) {
      assert Differing(findings, findings) == {};
    } else {
      EnricherKeepsPending(Answers(kev), Answers(epss));
      ChangesAre(Enricher(kev, epss), findings);
    }
  }

  /** A pass takes no signal away for want of one: without a usable catalogue the listing
      fields stay, and a score stays where no score is held for the finding. */
  lemma SignalsKept(kev: Cache<Listing>, epss: Cache<Score>, findings: seq<Finding>, i: nat)
    requires i < |findings|
    ensures |Reapplied(kev, epss, findings).0| == |findings|
    ensures !Usable(kev) ==> SameKev(Reapplied(kev, epss, findings).0[i], findings[i])
    ensures !(Usable(epss) && findings[i].cve != "" && Upper(findings[i].cve) in epss.table) ==>
              SameEpss(Reapplied(kev, epss, findings).0[i], findings[i])
  {
    EnrichParts(Answers(kev), Answers(epss), findings[i]);
    RenewedParts(Enricher(kev, epss), findings[i]);
    NothingToSay(kev, epss, findings[i]);
    if !Idle(kev, epss, findings) {
      RenewedAt(Enricher(kev, epss), findings, i);
    }
  }

  lemma RenewedAt(enrich: Finding -> Finding, findings: seq<Finding>, i: nat)
    requires i < |findings|
    ensures RenewedAll(enrich, findings)[i] == Renewed(enrich, findings[i])
  {
  }

  lemma RenewedParts(enrich: Finding -> Finding, f: Finding)
    ensures SameKev(Renewed(enrich, f), enrich(f)) && SameEpss(Renewed(enrich, f), enrich(f))
  {
  }

  lemma NothingToSay(kev: Cache<Listing>, epss: Cache<Score>, f: Finding)
    ensures !Usable(kev) ==> ApplyKev(Answers(kev), f) == f
    ensures !(Usable(epss) && f.cve != "" && Upper(f.cve) in epss.table) ==> ApplyEpss(Answers(epss), f) == f
  {
    assert f.cve == "" ==> Upper(f.cve) == "";
  }

  /** What the catalogue says of a finding without an id, had it been asked. */
  predicate SaysAbsent(f: Finding) {
    f.kevListed == Some(false) && f.kevDue == None
  }

  lemma AnonymousFixed(st: State, f: Finding)
    requires Usable(st.kev) && f.cve == ""
    ensures Fixed(Enricher(st.kev, st.epss), f) <==> SaysAbsent(f)
  {
    EnrichParts(Answers(st.kev), Answers(st.epss), f);
    assert Upper(f.cve) == "";
  }

  /** Whether any finding has an id, and every one that has none was checked. */
  predicate NoneOverlooked(findings: seq<Finding>) {
    || (forall i :: 0 <= i < |findings| ==> findings[i].cve == "")
    || (forall i :: 0 <= i < |findings| && findings[i].cve == "" ==> SaysAbsent(findings[i]))
  }

  lemma ReapplyingNothing(kev: Cache<Listing>, epss: Cache<Score>, findings: seq<Finding>)
    requires Usable(kev)
    ensures Reapplied(kev, epss, findings) == (findings, 0) <==>
              (forall i :: 0 <= i < |findings| ==> findings[i].cve == "")
              || (forall i :: 0 <= i < |findings| ==> Fixed(Enricher(kev, epss), findings[i]))
  {
    var enrich := Enricher(kev, epss);
    NoChanges(enrich, findings);
    assert forall i :: 0 <= i < |findings| && Fixed(enrich, findings[i]) ==> Renewed(enrich, findings[i]) == findings[i];
  }

  /** In a current state the only findings a reapply can change have no id. */
  lemma ReapplyingIn(st: State)
    requires Current(st) && Usable(st.kev)
    ensures Reapplied(st.kev, st.epss, st.findings) == (st.findings, 0) <==> NoneOverlooked(st.findings)
  {
    ReapplyingNothing(st.kev, st.epss, st.findings);
    forall i | 0 <= i < |st.findings| && st.findings[i].cve == ""
      ensures Fixed(Enricher(st.kev, st.epss), st.findings[i]) <==> SaysAbsent(st.findings[i])
    {
      AnonymousFixed(st, st.findings[i]);
    }
  }

  /** Skipping in a current state. */
  lemma SkippingIn(st: State, e: Event)
    requires Current(st) && Takeable(e) && e.Refresh? && Skips(st, e)
    ensures After(st, e) == Reapplying(st, e) <==> NoneOverlooked(st.findings)
  {
    StepKeepsCurrent(st, e);
    SameEnricher(st, e);
    ReapplyingIn(After(st, e).0);
  }

  /** Skipping the pass over the findings is the same as making it, findings and count,
      exactly when no finding without an id was overlooked. */
  lemma SkippingIsReapplying(events: seq<Event>, n: nat, e: Event)
    requires n <= |events| && (forall e :: e in events ==> Takeable(e)) && Takeable(e)
    requires e.Refresh? && Skips(At(events, n), e)
    ensures After(At(events, n), e) == Reapplying(At(events, n), e) <==> NoneOverlooked(At(events, n).findings)
  {
    AlwaysCurrent(events, n);
    SkippingIn(At(events, n), e);
  }

  /** Every finding has an id. */
  predicate Named(findings: seq<Finding>) {
    findings == [] || (Named(findings[..|findings| - 1]) && findings[|findings| - 1].cve != "")
  }

  lemma {:induction false} NamedEach(findings: seq<Finding>)
    ensures Named(findings) <==> forall i :: 0 <= i < |findings| ==> findings[i].cve != ""
  {
    if findings != [] {
      NamedEach(findings[..|findings| - 1]);
    }
  }

  lemma NamedBoth(s: seq<Finding>, t: seq<Finding>)
    requires Named(s) && Named(t)
    ensures Named(s + t)
  {
    NamedEach(s);
    NamedEach(t);
    NamedEach(s + t);
  }

  lemma StepNamed(st: State, e: Event)
    requires Named(st.findings) && (e.Scan? ==> Named(e.inputs))
    ensures Named(After(st, e).0.findings)
  {
    match e {
      case Scan(kept, inputs) =>
        KeepNamed(st.findings, kept);
        EnricherKeepsIds(Answers(st.kev), Answers(st.epss));
        EnrichedNamed(Enricher(st.kev, st.epss), inputs);
        NamedBoth(Keep(st.findings, kept), EnrichedAll(Enricher(st.kev, st.epss), inputs));
      case Refresh(kev, epss, _) =>
        ReappliedNamed(Refreshed(st.kev, kev).0, Refreshed(st.epss, epss).0, st.findings);
      case DemoRefresh =>
    }
  }

  lemma ReappliedNamed(kev: Cache<Listing>, epss: Cache<Score>, findings: seq<Finding>)
    requires Named(findings)
    ensures Named(Reapplied(kev, epss, findings).0)
  {
    EnricherKeepsIds(Answers(kev), Answers(epss));
    EnrichedNamed(Enricher(kev, epss), findings);
  }

  predicate ScanNamed(e: Event) {
    e.Scan? ==> Named(e.inputs)
  }

  lemma AllNamed(events: seq<Event>, n: nat)
    requires n <= |events| && forall e :: e in events ==> ScanNamed(e)
    ensures Named(At(events, n).findings)
  {
    var good := (st: State) => Named(st.findings);
    forall st, e | e in events && good(st) ensures good(After(st, e).0) {
      assert ScanNamed(e);
      StepNamed(st, e);
    }
    AlwaysHolds(events, n, good);
  }

  lemma {:induction false} KeepNamed(findings: seq<Finding>, kept: Finding -> bool)
    requires Named(findings)
    ensures Named(Keep(findings, kept))
  {
    if findings != [] {
      var n := |findings| - 1;
      KeepNamed(findings[..n], kept);
      assert Named([findings[n]]);
      NamedBoth(Keep(findings[..n], kept), if kept(findings[n]) then [findings[n]] else []);
    }
  }

  lemma EnricherKeepsIds(kev: Option<string -> Option<Listing>>, epss: Option<string -> Option<Score>>)
    ensures forall f :: EnricherOf(kev, epss)(f).cve == f.cve
  {
    forall f ensures EnricherOf(kev, epss)(f).cve == f.cve {
      EnrichParts(kev, epss, f);
    }
  }

  lemma EnrichedNamed(enrich: Finding -> Finding, findings: seq<Finding>)
    requires Named(findings) && forall f :: enrich(f).cve == f.cve
    ensures Named(EnrichedAll(enrich, findings)) && Named(RenewedAll(enrich, findings))
  {
    NamedEach(findings);
    NamedEach(EnrichedAll(enrich, findings));
    NamedEach(RenewedAll(enrich, findings));
  }

  lemma NoneOverlookedNamed(findings: seq<Finding>)
    requires Named(findings)
    ensures NoneOverlooked(findings)
  {
    NamedEach(findings);
  }

  /** When every scanned finding has an id, skipping is always the same as reapplying. */
  lemma SkippingIsReapplyingNamed(events: seq<Event>, n: nat, e: Event)
    requires n <= |events| && (forall e :: e in events ==> Takeable(e) && ScanNamed(e)) && Takeable(e)
    requires e.Refresh? && Skips(At(events, n), e)
    ensures After(At(events, n), e) == Reapplying(At(events, n), e)
  {
    AllNamed(events, n);
    NoneOverlookedNamed(At(events, n).findings);
    SkippingIsReapplying(events, n, e);
  }

  function Everything(f: Finding): bool {
    true
  }

  lemma {:induction false} KeepEverything(findings: seq<Finding>)
    ensures Keep(findings, Everything) == findings
  {
    if findings != [] {
      var n := |findings| - 1;
      KeepEverything(findings[..n]);
      assert findings == findings[..n] + [findings[n]];
    }
  }

  lemma ScanOne(st: State, f: Finding)
    ensures After(st, Scan(Everything, [f])).0 == st.(findings := st.findings + [Enricher(st.kev, st.epss)(f)])
  {
    KeepEverything(st.findings);
    assert EnrichedAll(Enricher(st.kev, st.epss), [f]) == [Enricher(st.kev, st.epss)(f)];
  }

  lemma RefreshOfAnonymous(st: State, e: Event)
    requires e.Refresh? && st.kev == NeverFetched() && st.epss == NeverFetched()
    requires Storable(e.kev) && Storable(e.epss) && Successful(e.kev) && Successful(e.epss) && e.others
    requires forall i :: 0 <= i < |st.findings| ==> st.findings[i].cve == ""
    ensures After(st, e).0.findings == st.findings
    ensures forall findings :: Skips(After(st, e).0.(findings := findings), e)
  {
    TableSize(e.kev.rows);
    TableSize(e.epss.rows);
  }

  const ANONYMOUS := Finding("", None, None, None, None, true)

  lemma Overlooking(e: Event) returns (second: State)
    requires e.Refresh? && Storable(e.kev) && Storable(e.epss) && Successful(e.kev) && Successful(e.epss) && e.others
    ensures second == After(After(START, Scan(Everything, [ANONYMOUS])).0, e).0
    ensures second.findings == [ANONYMOUS]
    ensures forall findings :: Skips(second.(findings := findings), e)
  {
    ScanOne(START, ANONYMOUS);
    var first := After(START, Scan(Everything, [ANONYMOUS])).0;
    assert first.findings == [ANONYMOUS];
    RefreshOfAnonymous(first, e);
    second := After(first, e).0;
  }

  lemma Joining(second: State, named: Finding) returns (last: State)
    requires second.findings == [ANONYMOUS] && named.cve != ""
    ensures last == After(second, Scan(Everything, [named])).0 && last == second.(findings := last.findings)
    ensures !NoneOverlooked(last.findings)
  {
    ScanOne(second, named);
    EnricherKeepsIds(Answers(second.kev), Answers(second.epss));
    last := After(second, Scan(Everything, [named])).0;
    assert last.findings[0] == ANONYMOUS && last.findings[1].cve == named.cve;
  }

  lemma ThreeSteps(a: Event, b: Event, c: Event, last: State) returns (events: seq<Event>, n: nat)
    requires last == After(After(After(START, a).0, b).0, c).0
    ensures n == |events| && At(events, n) == last
    ensures forall e :: e in events ==> e == a || e == b || e == c
  {
    events, n := [a, b, c], 3;
    assert At(events, 1) == After(At(events, 0), a).0;
    assert At(events, 2) == After(At(events, 1), b).0;
  }

  /** A finding without an id can be overlooked: stored before the catalogue, passed over
      while it was alone, and skipped once another finding has joined it. */
  lemma OverlookedWithoutId(e: Event, named: Finding) returns (events: seq<Event>)
    requires e.Refresh? && Storable(e.kev) && Storable(e.epss) && Successful(e.kev) && Successful(e.epss) && e.others
    requires named.cve != ""
    ensures forall e :: e in events ==> Takeable(e)
    ensures Skips(At(events, |events|), e) && !NoneOverlooked(At(events, |events|).findings)
  {
    var second := Overlooking(e);
    var last := Joining(second, named);
    var n;
    events, n := ThreeSteps(Scan(Everything, [ANONYMOUS]), e, Scan(Everything, [named]), last);
  }

  lemma KevUntouched(kev: Option<string -> Option<Listing>>, epss: Option<string -> Option<Score>>,
                     later: Option<string -> Option<Score>>, f: Finding)
    requires Fixed(EnricherOf(kev, epss), f)
    ensures SameKev(Renewed(EnricherOf(kev, later), f), f)
  {
    EnrichParts(kev, epss, f);
    EnrichParts(kev, later, f);
  }

  lemma KevUnusable(epss: Option<string -> Option<Score>>, f: Finding)
    ensures SameKev(Renewed(EnricherOf(None, epss), f), f)
  {
    EnrichParts(None, epss, f);
  }

  lemma NoIdIsAbsent(table: map<string, Listing>, f: Finding)
    requires f.cve == ""
    ensures SaysAbsent(ApplyKev(Some(LookIn(table)), f))
  {
    assert Upper(f.cve) == "";
  }

  lemma KevOfAnonymous(table: map<string, Listing>, epss: Option<string -> Option<Score>>, f: Finding)
    requires f.cve == ""
    ensures var g := Renewed(EnricherOf(Some(LookIn(table)), epss), f);
            SaysAbsent(g) && (SameKev(g, f) <==> SaysAbsent(f))
  {
    NoIdIsAbsent(table, f);
    AbsentStays(Some(LookIn(table)), epss, f);
  }

  lemma AbsentStays(kev: Option<string -> Option<Listing>>, epss: Option<string -> Option<Score>>, f: Finding)
    requires SaysAbsent(ApplyKev(kev, f))
    ensures var g := Renewed(EnricherOf(kev, epss), f);
            SaysAbsent(g) && (SameKev(g, f) <==> SaysAbsent(f))
  {
    EnrichParts(kev, epss, f);
  }

  /** Whether reapplying fills in a finding that has no id: the catalogue is asked for it
      only together with findings that have one. */
  predicate FilledIn(st: State, i: nat)
    requires i < |st.findings|
  {
    && st.findings[i].cve == "" && !SaysAbsent(st.findings[i])
    && Usable(st.kev) && !(forall j :: 0 <= j < |st.findings| ==> st.findings[j].cve == "")
  }

  /** A feed that is down never clears a signal: its catalogue stays, and what a finding
      says of exploitation stays as it was, whatever the other feed brought. Only a
      finding without an id that was never checked is filled in. */
  lemma OutageKeepsKev(st: State, e: Event, i: nat)
    requires Current(st) && Takeable(e) && e.Refresh? && !Successful(e.kev) && i < |st.findings|
    ensures After(st, e).0.kev == st.kev.(status := After(st, e).0.kev.status)
    ensures |After(st, e).0.findings| == |st.findings|
    ensures SameKev(After(st, e).0.findings[i], st.findings[i]) <==> !FilledIn(st, i)
    ensures FilledIn(st, i) ==> SaysAbsent(After(st, e).0.findings[i])
  {
    OutageReapplied(st, Refreshed(st.kev, e.kev).0, Refreshed(st.epss, e.epss).0, i);
  }

  lemma OutageReapplied(st: State, k: Cache<Listing>, epss: Cache<Score>, i: nat)
    requires Current(st) && k == st.kev.(status := k.status) && i < |st.findings|
    ensures var findings := Reapplied(k, epss, st.findings).0;
            && |findings| == |st.findings|
            && (SameKev(findings[i], st.findings[i]) <==> !FilledIn(st, i))
            && (FilledIn(st, i) ==> SaysAbsent(findings[i]))
  {
    assert Answers(k) == Answers(st.kev);
    if !Idle(k, epss, st.findings) {
      RenewedAt(Enricher(k, epss), st.findings, i);
      RenewedUnderOutage(st, Answers(epss), i);
    }
  }

  /** A finding gone over with the catalogue it was last enriched with. */
  lemma RenewedUnderOutage(st: State, epss: Option<string -> Option<Score>>, i: nat)
    requires Current(st) && i < |st.findings|
    ensures var f, g := st.findings[i], Renewed(EnricherOf(Answers(st.kev), epss), st.findings[i]);
            if Usable(st.kev) && f.cve == "" && !SaysAbsent(f) then SaysAbsent(g) && !SameKev(g, f) else SameKev(g, f)
  {
    var f := st.findings[i];
    if !Usable(st.kev) {
      KevUnusable(epss, f);
    } else if f.cve == "" {
      KevOfAnonymous(st.kev.table, epss, f);
    } else {
      assert Fixed(Enricher(st.kev, st.epss), f);
      KevUntouched(Answers(st.kev), Answers(st.epss), epss, f);
    }
  }
}
