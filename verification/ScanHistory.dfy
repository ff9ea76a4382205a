/** A machine's stored findings and its scan history
    (backend/app/data/repository.py): what each scan writes, what it says changed,
    and which runs are kept. */
module ScanHistory {
  import opened Text
  import PackageIdentifier

  type Time = real

  datatype Rating = Rating(severity: string, score: Option<real>, kevListed: Option<bool>)

  /** A finding as reported, and as kept on a run's change rows. */
  datatype Snapshot = Snapshot(cve: string, package: Option<string>, rating: Rating)

  type Key = (string, Option<string>)

  /** The CVE and the package, versions apart but for a kernel. */
  function FindingKey(s: Snapshot): Key {
    (s.cve, PackageIdentifier.FindingPackage(s.package))
  }

  /** Everything below holds for any way of telling findings apart. */
  type Keying = Snapshot -> Key

  datatype Row = Row(finding: Snapshot, firstSeen: Time)

  datatype Diff = Diff(added: seq<Snapshot>, resolved: seq<Snapshot>, baseline: bool, resolvedAssessed: bool, at: Time)

  datatype Status = Success | ConnectionFailure | AuthFailure | InventoryUnavailable | HostKeyMismatch | HostKeyUnknown

  datatype Change = New(finding: Snapshot) | Resolved(finding: Snapshot)

  datatype Run = Run(
    at: Time, status: Status, findingCount: nat, newCount: Option<nat>, resolvedCount: Option<nat>,
    baseline: bool, changes: seq<Change>)

  // What a scan writes.

  function KeysOf(key: Keying, findings: seq<Snapshot>): set<Key> {
    set f | f in findings :: key(f)
  }

  function RowKeys(key: Keying, rows: seq<Row>): set<Key> {
    set r | r in rows :: key(r.finding)
  }

  /** The earliest first-seen date of each stored key. */
  function FirstSeen(key: Keying, rows: seq<Row>): map<Key, Time> {
    if rows == [] then map[]
    else
      var n := |rows| - 1;
      var before, k := FirstSeen(key, rows[..n]), key(rows[n].finding);
      if k !in before || rows[n].firstSeen < before[k] then before[k := rows[n].firstSeen] else before
  }

  /** The first stored row of each key, in order. */
  function FirstRows(key: Keying, rows: seq<Row>): seq<Row> {
    if rows == [] then []
    else
      var n := |rows| - 1;
      FirstRows(key, rows[..n]) + if key(rows[n].finding) in RowKeys(key, rows[..n]) then [] else [rows[n]]
  }

  /** The rows a scan leaves in place: none for a complete one, those it did not
      report for a partial one. */
  function Survivors(key: Keying, rows: seq<Row>, reported: set<Key>, partial: bool): seq<Row> {
    if rows == [] || !partial then []
    else
      var n := |rows| - 1;
      Survivors(key, rows[..n], reported, partial) + if key(rows[n].finding) in reported then [] else [rows[n]]
  }

  function Written(key: Keying, seen: map<Key, Time>, findings: seq<Snapshot>, now: Time): seq<Row> {
    if findings == [] then []
    else
      var n := |findings| - 1;
      var k := key(findings[n]);
      Written(key, seen, findings[..n], now) + [Row(findings[n], if k in seen then seen[k] else now)]
  }

  /** The first reported finding of each key not stored before. */
  function Added(key: Keying, stored: set<Key>, findings: seq<Snapshot>): seq<Snapshot> {
    if findings == [] then []
    else
      var n := |findings| - 1;
      var k := key(findings[n]);
      Added(key, stored, findings[..n]) +
      if k in stored || k in KeysOf(key, findings[..n]) then [] else [findings[n]]
  }

  function Gone(key: Keying, rows: seq<Row>, reported: set<Key>): seq<Snapshot> {
    if rows == [] then []
    else
      var n := |rows| - 1;
      Gone(key, rows[..n], reported) + if key(rows[n].finding) in reported then [] else [rows[n].finding]
  }

  function Saved(key: Keying, rows: seq<Row>, findings: seq<Snapshot>, partial: bool, now: Time): seq<Row> {
    Survivors(key, rows, KeysOf(key, findings), partial) + Written(key, FirstSeen(key, rows), findings, now)
  }

  function DiffOf(key: Keying, rows: seq<Row>, findings: seq<Snapshot>, partial: bool, baseline: bool, now: Time): Diff {
    Diff(if baseline then [] else Added(key, RowKeys(key, rows), findings),
         if baseline || partial then [] else Gone(key, FirstRows(key, rows), KeysOf(key, findings)),
         baseline, !partial, now)
  }

  /** What one more reported finding adds to what was written and to what is new. */
  lemma WriteOne(key: Keying, seen: map<Key, Time>, findings: seq<Snapshot>, now: Time, i: nat)
    requires i < |findings|
    ensures var init, f, k := findings[..i], findings[i], key(findings[i]);
            && KeysOf(key, findings[..i + 1]) == KeysOf(key, init) + {k}
            && Written(key, seen, findings[..i + 1], now) ==
               Written(key, seen, init, now) + [Row(f, if k in seen then seen[k] else now)]
            && Added(key, seen.Keys, findings[..i + 1]) ==
               Added(key, seen.Keys, init) + if k in seen || k in KeysOf(key, init) then [] else [f]
  {
    assert findings[..i + 1][..i] == findings[..i];
    assert findings[..i + 1] == findings[..i] + [findings[i]];
  }

  /** What one more stored row adds to the dates and the first rows. */
  lemma ReadOne(key: Keying, rows: seq<Row>, i: nat)
    requires i < |rows|
    ensures var init, k, date := rows[..i], key(rows[i].finding), rows[i].firstSeen;
            && RowKeys(key, rows[..i + 1]) == RowKeys(key, init) + {k}
            && FirstSeen(key, rows[..i + 1]) ==
               (var seen := FirstSeen(key, init); if k !in seen || date < seen[k] then seen[k := date] else seen)
            && FirstRows(key, rows[..i + 1]) ==
               FirstRows(key, init) + if k in RowKeys(key, init) then [] else [rows[i]]
  {
    assert rows[..i + 1][..i] == rows[..i];
    assert rows[..i + 1] == rows[..i] + [rows[i]];
  }

  // The history.

  predicate HasSuccess(runs: seq<Run>) {
    exists k :: 0 <= k < |runs| && runs[k].status == Success
  }

  function RunOf(status: Status, at: Time, diff: Option<Diff>, stored: nat): Run {
    var succeeded := status == Success && diff.Some?;
    var compared := succeeded && !diff.value.baseline;
    Run(at, status, if succeeded then stored else 0,
        if compared then Some(|diff.value.added|) else None,
        if compared && diff.value.resolvedAssessed then Some(|diff.value.resolved|) else None,
        succeeded && diff.value.baseline,
        if compared then Changes(diff.value) else [])
  }

  function NewRows(added: seq<Snapshot>): seq<Change> {
    if added == [] then [] else NewRows(added[..|added| - 1]) + [New(added[|added| - 1])]
  }

  function ResolvedRows(resolved: seq<Snapshot>): seq<Change> {
    if resolved == [] then [] else ResolvedRows(resolved[..|resolved| - 1]) + [Resolved(resolved[|resolved| - 1])]
  }

  /** A run's change rows: what is new before what is resolved. */
  function Changes(diff: Diff): seq<Change> {
    NewRows(diff.added) + ResolvedRows(diff.resolved)
  }

  /** Runs are listed newest first; `place` is where the listing puts this one. */
  function Listed(runs: seq<Run>, run: Run, place: nat): seq<Run> {
    var k := if place <= |runs| then place else |runs|;
    runs[..k] + [run] + runs[k..]
  }

  function Limit(keep: int): nat {
    if keep < 1 then 1 else keep
  }

  /** The first success in the listing, which is the latest one. */
  predicate IsLatestSuccess(runs: seq<Run>, i: nat)
    requires i < |runs|
  {
    runs[i].status == Success && !HasSuccess(runs[..i])
  }

  /** Of the first n listed runs, those that are kept: the ones inside the limit, and
      the latest success wherever it is. */
  function Kept(runs: seq<Run>, limit: nat, n: nat): seq<Run>
    requires n <= |runs|
  {
    if n == 0 then []
    else
      Kept(runs, limit, n - 1) + if n - 1 < limit || IsLatestSuccess(runs, n - 1) then [runs[n - 1]] else []
  }

  function Pruned(runs: seq<Run>, keep: int): seq<Run> {
    Kept(runs, Limit(keep), |runs|)
  }

  /** One machine's rows. The key is a constant so that no proof depends on how
      findings are told apart. */
  class MachineHistory {
    const key: Keying
    var rows: seq<Row>
    var runs: seq<Run>

    constructor ()
      ensures key == FindingKey && rows == [] && runs == []
    {
      key := FindingKey;
      rows, runs := [], [];
    }

    method HasSuccessfulRun() returns (b: bool)
      ensures b == HasSuccess(runs)
    {
      b := exists k :: 0 <= k < |runs| && runs[k].status == Success;
    }

    /** Delete the rows a scan replaces: all of them, or for a partial scan those it
        reported again. */
    method DeleteStale(reported: set<Key>, partial: bool)
      modifies this`rows
      ensures rows == Survivors(key, old(rows), reported, partial)
    {
      var stored := rows;
      var kept: seq<Row> := [];
      for i := 0 to |stored|
        invariant kept == Survivors(key, stored[..i], reported, partial)
      {
        assert stored[..i + 1][..i] == stored[..i];
        if partial && key(stored[i].finding) !in reported {
          kept := kept + [stored[i]];
        }
      }
      assert stored[..|stored|] == stored;
      rows := kept;
    }

    /** Write the findings, each with the date its key was first seen; say which keys
        were not stored before. */
    method WriteFindings(findings: seq<Snapshot>, seen: map<Key, Time>, now: Time) returns (added: seq<Snapshot>)
      modifies this`rows
      ensures rows == old(rows) + Written(key, seen, findings, now)
      ensures added == Added(key, seen.Keys, findings)
    {
      ghost var kept := rows;
      var reported: set<Key> := {};
      added := [];
      for i := 0 to |findings|
        invariant rows == kept + Written(key, seen, findings[..i], now)
        invariant reported == KeysOf(key, findings[..i])
        invariant added == Added(key, seen.Keys, findings[..i])
      {
        WriteOne(key, seen, findings, now, i);
        var k := key(findings[i]);
        rows := rows + [Row(findings[i], if k in seen then seen[k] else now)];
        if k !in seen && k !in reported {
          added := added + [findings[i]];
        }
        reported := reported + {k};
      }
      assert findings[..|findings|] == findings;
    }

    method ResolvedOf(firstRows: seq<Row>, reported: set<Key>) returns (resolved: seq<Snapshot>)
      ensures resolved == Gone(key, firstRows, reported)
    {
      resolved := [];
      for i := 0 to |firstRows|
        invariant resolved == Gone(key, firstRows[..i], reported)
      {
        assert firstRows[..i + 1][..i] == firstRows[..i];
        if key(firstRows[i].finding) !in reported {
          resolved := resolved + [firstRows[i].finding];
        }
      }
      assert firstRows[..|firstRows|] == firstRows;
    }

    method SaveFindings(findings: seq<Snapshot>, partial: bool, now: Time) returns (diff: Diff)
      modifies this`rows
      ensures rows == Saved(key, old(rows), findings, partial, now)
      ensures diff == DiffOf(key, old(rows), findings, partial, !HasSuccess(runs), now)
    {
      var succeeded := HasSuccessfulRun();
      var seen, firstRows := OldByKey();
      var newKeys := KeysOf(key, findings);
      DeleteStale(newKeys, partial);
      var added := WriteFindings(findings, seen, now);
      var resolved: seq<Snapshot> := [];
      if !partial {
        resolved := ResolvedOf(firstRows, newKeys);
      }
      diff := Diff(if succeeded then added else [], if succeeded then resolved else [], !succeeded, !partial, now);
    }

    /** The stored rows by key: each key's earliest first-seen date and first row. */
    method OldByKey() returns (seen: map<Key, Time>, firstRows: seq<Row>)
      ensures seen == FirstSeen(key, rows) && firstRows == FirstRows(key, rows)
      ensures seen.Keys == RowKeys(key, rows)
    {
      seen, firstRows := map[], [];
      for i := 0 to |rows|
        invariant seen == FirstSeen(key, rows[..i]) && firstRows == FirstRows(key, rows[..i])
        invariant seen.Keys == RowKeys(key, rows[..i])
      {
        ReadOne(key, rows, i);
        var k := key(rows[i].finding);
        if k !in seen {
          firstRows := firstRows + [rows[i]];
        }
        if k !in seen || rows[i].firstSeen < seen[k] {
          seen := seen[k := rows[i].firstSeen];
        }
      }
      assert rows[..|rows|] == rows;
    }

    /** Record one attempt. `place` is where the listing puts it among the others. */
    method RecordScanRun(status: Status, at: Time, diff: Option<Diff>, keep: int, place: nat) returns (run: Run)
      modifies this`runs
      ensures run == RunOf(status, at, diff, |rows|)
      ensures runs == Pruned(Listed(old(runs), run, place), keep)
    {
      run := RunOf(status, at, diff, |rows|);
      runs := Listed(runs, run, place);
      PruneScanRuns(keep);
    }

    /** One attempt, committed as a whole: the findings it saved, if any, and its run. */
    method Attempt(e: Event)
      modifies this
      ensures State(rows, runs) == Step(key, old(State(rows, runs)), e)
    {
      match e {
        case Scanned(findings, partial, at, keep, place) =>
          var diff := SaveFindings(findings, partial, at);
          var run := RecordScanRun(Success, at, Some(diff), keep, place);
        case Failed(status, at, keep, place) =>
          var run := RecordScanRun(status, at, None, keep, place);
      }
    }

    method PruneScanRuns(keep: int)
      modifies this`runs
      ensures runs == Pruned(old(runs), keep)
    {
      var listed := runs;
      var limit := Limit(keep);
      var found := false;
      var kept: seq<Run> := [];
      for i := 0 to |listed|
        invariant kept == Kept(listed, limit, i)
        invariant found == HasSuccess(listed[..i])
      {
        var latest := !found && listed[i].status == Success;
        if i < limit || latest {
          kept := kept + [listed[i]];
        }
        found := found || latest;
        assert listed[..i + 1] == listed[..i] + [listed[i]];
      }
      runs := kept;
    }
  }

  // The machine as a state, and every run of scans over it.

  datatype State = State(rows: seq<Row>, runs: seq<Run>)

  /** One scan attempt: what it found, when, and where its run is listed among runs of
      the same moment. */
  datatype Event =
    | Scanned(findings: seq<Snapshot>, partial: bool, at: Time, keep: int, place: nat)
    | Failed(status: Status, at: Time, keep: int, place: nat)

  function RowsAfter(key: Keying, st: State, e: Event): seq<Row> {
    match e
    case Scanned(findings, partial, at, _, _) => Saved(key, st.rows, findings, partial, at)
    case Failed(_, _, _, _) => st.rows
  }

  /** The run an attempt records, before any pruning. */
  function RunFor(key: Keying, st: State, e: Event): Run {
    RunOf(if e.Failed? then e.status else Success, e.at, DiffFor(key, st, e), |RowsAfter(key, st, e)|)
  }

  function Step(key: Keying, st: State, e: Event): State {
    State(RowsAfter(key, st, e), Pruned(Listed(st.runs, RunFor(key, st, e), e.place), e.keep))
  }

  function DiffFor(key: Keying, st: State, e: Event): Option<Diff> {
    match e
    case Scanned(findings, partial, at, _, _) => Some(DiffOf(key, st.rows, findings, partial, !HasSuccess(st.runs), at))
    case Failed(_, _, _, _) => None
  }

  function After(key: Keying, st: State, events: seq<Event>): State {
    if events == [] then st
    else Step(key, After(key, st, events[..|events| - 1]), events[|events| - 1])
  }

  /** The runs a sequence of attempts records, kept or not. */
  function Recorded(key: Keying, st: State, events: seq<Event>): seq<Run> {
    if events == [] then []
    else
      var n := |events| - 1;
      Recorded(key, st, events[..n]) + [RunFor(key, After(key, st, events[..n]), events[n])]
  }

  // Replaying change rows.

  function Replay(key: Keying, keys: set<Key>, changes: seq<Change>): set<Key> {
    if changes == [] then keys
    else
      var n := |changes| - 1;
      var before := Replay(key, keys, changes[..n]);
      match changes[n]
      case New(f) => before + {key(f)}
      case Resolved(f) => before - {key(f)}
  }

  function ReplayRuns(key: Keying, keys: set<Key>, runs: seq<Run>): set<Key> {
    if runs == [] then keys
    else Replay(key, ReplayRuns(key, keys, runs[..|runs| - 1]), runs[|runs| - 1].changes)
  }

  lemma KeysOfSnoc(key: Keying, findings: seq<Snapshot>)
    requires findings != []
    ensures KeysOf(key, findings) == KeysOf(key, findings[..|findings| - 1]) + {key(findings[|findings| - 1])}
  {
    assert findings == findings[..|findings| - 1] + [findings[|findings| - 1]];
  }

  lemma RowKeysSnoc(key: Keying, rows: seq<Row>)
    requires rows != []
    ensures RowKeys(key, rows) == RowKeys(key, rows[..|rows| - 1]) + {key(rows[|rows| - 1].finding)}
  {
    assert rows == rows[..|rows| - 1] + [rows[|rows| - 1]];
  }

  lemma RowKeysConcat(key: Keying, a: seq<Row>, b: seq<Row>)
    ensures RowKeys(key, a + b) == RowKeys(key, a) + RowKeys(key, b)
  {
  }

  lemma {:induction false} ReplayNew(key: Keying, keys: set<Key>, added: seq<Snapshot>)
    ensures Replay(key, keys, NewRows(added)) == keys + KeysOf(key, added)
  {
    if added != [] {
      var n := |added| - 1;
      ReplayNew(key, keys, added[..n]);
      KeysOfSnoc(key, added);
      assert NewRows(added)[..|NewRows(added)| - 1] == NewRows(added[..n]);
    }
  }

  lemma {:induction false} ReplayResolved(key: Keying, keys: set<Key>, before: seq<Change>, resolved: seq<Snapshot>)
    ensures Replay(key, keys, before + ResolvedRows(resolved)) == Replay(key, keys, before) - KeysOf(key, resolved)
  {
    if resolved == [] {
      assert before + ResolvedRows(resolved) == before;
    } else {
      var n := |resolved| - 1;
      ReplayResolved(key, keys, before, resolved[..n]);
      KeysOfSnoc(key, resolved);
      var all := before + ResolvedRows(resolved);
      assert all[..|all| - 1] == before + ResolvedRows(resolved[..n]);
    }
  }

  // What one scan does to the stored keys.

  lemma {:induction false} WrittenKeys(key: Keying, seen: map<Key, Time>, findings: seq<Snapshot>, now: Time)
    ensures RowKeys(key, Written(key, seen, findings, now)) == KeysOf(key, findings)
  {
    if findings != [] {
      var n := |findings| - 1;
      WrittenKeys(key, seen, findings[..n], now);
      KeysOfSnoc(key, findings);
      var rows := Written(key, seen, findings, now);
      assert rows[..|rows| - 1] == Written(key, seen, findings[..n], now);
      RowKeysSnoc(key, rows);
    }
  }

  lemma {:induction false} SurvivorKeys(key: Keying, rows: seq<Row>, reported: set<Key>, partial: bool)
    ensures RowKeys(key, Survivors(key, rows, reported, partial)) ==
            if partial then RowKeys(key, rows) - reported else {}
  {
    if rows != [] && partial {
      var n := |rows| - 1;
      SurvivorKeys(key, rows[..n], reported, partial);
      RowKeysSnoc(key, rows);
      RowKeysConcat(key, Survivors(key, rows[..n], reported, partial),
                    if key(rows[n].finding) in reported then [] else [rows[n]]);
    }
  }

  /** A complete scan replaces the stored keys; a partial one only adds to them. */
  lemma SavedKeys(key: Keying, rows: seq<Row>, findings: seq<Snapshot>, partial: bool, now: Time)
    ensures RowKeys(key, Saved(key, rows, findings, partial, now)) ==
            if partial then RowKeys(key, rows) + KeysOf(key, findings) else KeysOf(key, findings)
  {
    WrittenKeys(key, FirstSeen(key, rows), findings, now);
    SurvivorKeys(key, rows, KeysOf(key, findings), partial);
    RowKeysConcat(key, Survivors(key, rows, KeysOf(key, findings), partial),
                  Written(key, FirstSeen(key, rows), findings, now));
  }

  /** The added findings are exactly the keys not stored before, one finding each. */
  lemma {:induction false} AddedKeys(key: Keying, stored: set<Key>, findings: seq<Snapshot>)
    ensures KeysOf(key, Added(key, stored, findings)) == KeysOf(key, findings) - stored
    ensures |Added(key, stored, findings)| == |KeysOf(key, findings) - stored|
  {
    if findings != [] {
      var n := |findings| - 1;
      var init, k := findings[..n], key(findings[n]);
      AddedKeys(key, stored, init);
      KeysOfSnoc(key, findings);
      var before := KeysOf(key, init) - stored;
      if k in stored || k in KeysOf(key, init) {
        assert KeysOf(key, findings) - stored == before;
        assert Added(key, stored, findings) == Added(key, stored, init);
      } else {
        assert KeysOf(key, findings) - stored == before + {k};
        KeysOfSnoc(key, Added(key, stored, findings));
        assert Added(key, stored, findings)[..|Added(key, stored, init)|] == Added(key, stored, init);
      }
    }
  }

  predicate OneEach(key: Keying, rows: seq<Row>) {
    rows == [] ||
    (OneEach(key, rows[..|rows| - 1]) && key(rows[|rows| - 1].finding) !in RowKeys(key, rows[..|rows| - 1]))
  }

  lemma {:induction false} FirstRowKeys(key: Keying, rows: seq<Row>)
    ensures RowKeys(key, FirstRows(key, rows)) == RowKeys(key, rows)
    ensures OneEach(key, FirstRows(key, rows))
  {
    if rows != [] {
      var n := |rows| - 1;
      FirstRowKeys(key, rows[..n]);
      RowKeysSnoc(key, rows);
      var before, first := FirstRows(key, rows[..n]), FirstRows(key, rows);
      if key(rows[n].finding) in RowKeys(key, rows[..n]) {
        assert first == before;
      } else {
        assert first[..|first| - 1] == before;
        RowKeysSnoc(key, first);
      }
    }
  }

  lemma GoneKeysStep(keys: set<Key>, reported: set<Key>, k: Key)
    ensures k in reported ==> keys + {k} - reported == keys - reported
    ensures k !in reported ==> keys + {k} - reported == (keys - reported) + {k}
  {
  }

  /** The resolved findings are exactly the stored keys not reported, one row each. */
  lemma {:induction false} GoneKeys(key: Keying, rows: seq<Row>, reported: set<Key>)
    requires OneEach(key, rows)
    ensures KeysOf(key, Gone(key, rows, reported)) == RowKeys(key, rows) - reported
    ensures |Gone(key, rows, reported)| == |RowKeys(key, rows) - reported|
  {
    if rows != [] {
      var n := |rows| - 1;
      var init, k := rows[..n], key(rows[n].finding);
      GoneKeys(key, init, reported);
      RowKeysSnoc(key, rows);
      GoneKeysStep(RowKeys(key, init), reported, k);
      var before, gone := Gone(key, init, reported), Gone(key, rows, reported);
      if k in reported {
        assert gone == before;
      } else {
        assert gone[..|gone| - 1] == before;
        KeysOfSnoc(key, gone);
      }
    }
  }

  /** What a compared scan records is exactly what it changed: new keys are those it
      added, resolved keys those it removed, each once, and the counts balance. */
  lemma DiffKeys(key: Keying, rows: seq<Row>, findings: seq<Snapshot>, partial: bool, now: Time)
    ensures var diff := DiffOf(key, rows, findings, partial, false, now);
            var before, after := RowKeys(key, rows), RowKeys(key, Saved(key, rows, findings, partial, now));
            && KeysOf(key, diff.added) == after - before && KeysOf(key, diff.resolved) == before - after
            && |diff.added| == |after - before| && |diff.resolved| == |before - after|
            && |after| == |before| + |diff.added| - |diff.resolved|
  {
    var before, reported := RowKeys(key, rows), KeysOf(key, findings);
    var after := RowKeys(key, Saved(key, rows, findings, partial, now));
    SavedKeys(key, rows, findings, partial, now);
    AddedKeys(key, before, findings);
    FirstRowKeys(key, rows);
    GoneKeys(key, FirstRows(key, rows), reported);
    assert after - before == reported - before;
    assert before - after == if partial then {} else before - reported;
    SetBalance(before, after);
  }

  lemma SetBalance(before: set<Key>, after: set<Key>)
    ensures |after| == |before| + |after - before| - |before - after|
  {
    assert after == (after - before) + (after * before);
    assert before == (before - after) + (after * before);
  }

  // Over every sequence of scans.

  lemma {:induction false} SuccessKept(runs: seq<Run>, limit: nat, n: nat)
    requires n <= |runs|
    ensures HasSuccess(runs[..n]) ==> HasSuccess(Kept(runs, limit, n))
  {
    if n > 0 && HasSuccess(runs[..n]) {
      var kept, before := Kept(runs, limit, n), Kept(runs, limit, n - 1);
      SuccessKept(runs, limit, n - 1);
      if HasSuccess(runs[..n - 1]) {
        var k :| 0 <= k < |before| && before[k].status == Success;
        assert kept[k].status == Success;
      } else {
        var k :| 0 <= k < n && runs[..n][k].status == Success;
        assert k == n - 1 && IsLatestSuccess(runs, n - 1);
        assert kept[|kept| - 1].status == Success;
      }
    }
  }

  lemma ListedSuccess(runs: seq<Run>, run: Run, place: nat)
    ensures HasSuccess(Listed(runs, run, place)) <==> HasSuccess(runs) || run.status == Success
  {
    var k := if place <= |runs| then place else |runs|;
    var listed := Listed(runs, run, place);
    assert listed[k] == run;
    assert forall i :: 0 <= i < k ==> listed[i] == runs[i];
    assert forall i :: k <= i < |runs| ==> listed[i + 1] == runs[i];
  }

  /** No attempt loses the last success, so whether a machine has one never reverts. */
  lemma StepKeepsSuccess(key: Keying, st: State, e: Event)
    ensures HasSuccess(st.runs) || RunFor(key, st, e).status == Success ==> HasSuccess(Step(key, st, e).runs)
  {
    var listed := Listed(st.runs, RunFor(key, st, e), e.place);
    ListedSuccess(st.runs, RunFor(key, st, e), e.place);
    SuccessKept(listed, Limit(e.keep), |listed|);
    assert listed[..|listed|] == listed;
  }

  /** Replaying one run's change rows takes the stored keys from before it to after. */
  lemma StepReplays(key: Keying, st: State, e: Event)
    requires HasSuccess(st.runs)
    ensures Replay(key, RowKeys(key, st.rows), RunFor(key, st, e).changes) == RowKeys(key, Step(key, st, e).rows)
    ensures !RunFor(key, st, e).baseline
  {
    match e {
      case Failed(_, _, _, _) =>
      case Scanned(findings, partial, at, _, _) =>
        var diff := DiffOf(key, st.rows, findings, partial, false, at);
        DiffKeys(key, st.rows, findings, partial, at);
        ReplayResolved(key, RowKeys(key, st.rows), NewRows(diff.added), diff.resolved);
        ReplayNew(key, RowKeys(key, st.rows), diff.added);
    }
  }

  /** From any state that has had a success on, whatever scans follow, the recorded
      change rows replay to exactly the stored keys, and nothing is a baseline again. */
  lemma {:induction false} HistoryReplays(key: Keying, st: State, events: seq<Event>)
    requires HasSuccess(st.runs)
    ensures HasSuccess(After(key, st, events).runs)
    ensures ReplayRuns(key, RowKeys(key, st.rows), Recorded(key, st, events)) == RowKeys(key, After(key, st, events).rows)
    ensures forall run :: run in Recorded(key, st, events) ==> !run.baseline
  {
    if events != [] {
      var n := |events| - 1;
      HistoryReplays(key, st, events[..n]);
      var before := After(key, st, events[..n]);
      StepKeepsSuccess(key, before, events[n]);
      StepReplays(key, before, events[n]);
      var recorded := Recorded(key, st, events);
      assert recorded[..|recorded| - 1] == Recorded(key, st, events[..n]);
    }
  }

  /** The baseline is the first success and no other run. */
  lemma BaselineIsFirstSuccess(key: Keying, st: State, e: Event)
    ensures RunFor(key, st, e).baseline <==> e.Scanned? && !HasSuccess(st.runs)
    ensures RunFor(key, st, e).baseline ==> RunFor(key, st, e).changes == []
  {
  }

  /** For each attempt: a complete scan replaces the stored keys, a partial one adds to
      them, a failed one leaves every row; and a compared run's counts balance. */
  lemma StepKeys(key: Keying, st: State, e: Event)
    ensures var before, after, run := RowKeys(key, st.rows), RowKeys(key, Step(key, st, e).rows), RunFor(key, st, e);
            && (e.Failed? ==> Step(key, st, e).rows == st.rows && run.newCount == None && run.resolvedCount == None)
            && run.findingCount == (if e.Scanned? then |Step(key, st, e).rows| else 0)
            && (e.Scanned? ==> after == if e.partial then before + KeysOf(key, e.findings) else KeysOf(key, e.findings))
            && (e.Scanned? && HasSuccess(st.runs) ==>
                  && run.newCount == Some(|after - before|)
                  && run.resolvedCount == (if e.partial then None else Some(|before - after|))
                  && |after| == |before| + |after - before| - |before - after|)
  {
    if e.Scanned? {
      SavedKeys(key, st.rows, e.findings, e.partial, e.at);
      DiffKeys(key, st.rows, e.findings, e.partial, e.at);
    }
  }

  // Which runs are kept.

  lemma {:induction false} KeptShape(runs: seq<Run>, limit: nat, n: nat)
    requires n <= |runs|
    ensures n <= limit ==> Kept(runs, limit, n) == runs[..n]
    ensures limit < n ==>
              && limit <= |Kept(runs, limit, n)| <= limit + 1
              && Kept(runs, limit, n)[..limit] == runs[..limit]
              && (|Kept(runs, limit, n)| == limit + 1 <==> HasSuccess(runs[..n]) && !HasSuccess(runs[..limit]))
    ensures |Kept(runs, limit, n)| == limit + 1 ==>
              exists i :: limit <= i < n && IsLatestSuccess(runs, i) && Kept(runs, limit, n)[limit] == runs[i]
  {
    if n > 0 {
      KeptShape(runs, limit, n - 1);
      assert runs[..n] == runs[..n - 1] + [runs[n - 1]];
      assert runs[..n - 1] <= runs[..n];
    }
  }

  /** Pruning keeps the newest runs up to the limit (which is never below one), the
      latest success wherever it is, and nothing else. */
  lemma PrunedKeeps(runs: seq<Run>, keep: int)
    ensures var limit, kept := if keep > 1 then keep else 1, Pruned(runs, keep);
            && (|runs| <= limit ==> kept == runs)
            && (limit < |runs| ==> limit <= |kept| <= limit + 1 && kept[..limit] == runs[..limit])
            && (|kept| == limit + 1 ==>
                  exists i :: limit <= i < |runs| && IsLatestSuccess(runs, i) && kept[limit] == runs[i])
            && (forall i :: 0 <= i < |runs| && IsLatestSuccess(runs, i) ==> runs[i] in kept)
  {
    var limit, kept := Limit(keep), Pruned(runs, keep);
    KeptShape(runs, limit, |runs|);
    assert runs[..|runs|] == runs;
    forall i | 0 <= i < |runs| && IsLatestSuccess(runs, i) ensures runs[i] in kept {
      if i < limit {
        assert limit < |runs| ==> runs[i] == runs[..limit][i];
        assert limit < |runs| ==> kept[..limit][i] == kept[i];
      } else {
        assert runs[..limit] == runs[..i][..limit];
        assert HasSuccess(runs[..|runs|]) by { assert runs[..|runs|][i].status == Success; }
        var j :| limit <= j < |runs| && IsLatestSuccess(runs, j) && kept[limit] == runs[j];
        OneLatest(runs, i, j);
      }
    }
  }

  lemma SuccessBefore(runs: seq<Run>, i: nat, j: nat)
    requires i < j <= |runs| && runs[i].status == Success
    ensures HasSuccess(runs[..j])
  {
    assert runs[..j][i].status == Success;
  }

  lemma OneLatest(runs: seq<Run>, i: nat, j: nat)
    requires i < |runs| && j < |runs| && IsLatestSuccess(runs, i) && IsLatestSuccess(runs, j)
    ensures i == j
  {
    if i < j {
      SuccessBefore(runs, i, j);
    }
    if j < i {
      SuccessBefore(runs, j, i);
    }
  }

  // First-seen dates.

  /** Whether a key is stored after the first n attempts on an empty machine, told from
      the attempts alone. */
  predicate Present(key: Keying, events: seq<Event>, n: nat, k: Key)
    requires n <= |events|
  {
    n > 0 &&
    match events[n - 1]
    case Failed(_, _, _, _) => Present(key, events, n - 1, k)
    case Scanned(findings, partial, _, _, _) =>
      k in KeysOf(key, findings) || (partial && Present(key, events, n - 1, k))
  }

  /** The i-th attempt began the presence of a key that has not been broken since. */
  ghost predicate Began(key: Keying, events: seq<Event>, n: nat, k: Key, i: nat)
    requires n <= |events|
  {
    i < n && !Present(key, events, i, k) && forall j :: i < j <= n ==> Present(key, events, j, k)
  }

  lemma {:induction false} FirstSeenIsSome(key: Keying, rows: seq<Row>)
    ensures FirstSeen(key, rows).Keys == RowKeys(key, rows)
    ensures forall k :: k in FirstSeen(key, rows) ==>
              exists r :: r in rows && key(r.finding) == k && r.firstSeen == FirstSeen(key, rows)[k]
  {
    if rows != [] {
      var n := |rows| - 1;
      FirstSeenIsSome(key, rows[..n]);
      RowKeysSnoc(key, rows);
      assert rows == rows[..n] + [rows[n]];
      assert rows[n] in rows && forall r :: r in rows[..n] ==> r in rows;
    }
  }

  lemma {:induction false} SavedRows(key: Keying, rows: seq<Row>, findings: seq<Snapshot>, partial: bool,
                                     now: Time, r: Row)
    requires r in Saved(key, rows, findings, partial, now)
    ensures var seen, k := FirstSeen(key, rows), key(r.finding);
            || (partial && r in rows && k !in KeysOf(key, findings))
            || (r.finding in findings && r.firstSeen == if k in seen then seen[k] else now)
  {
    if r in Survivors(key, rows, KeysOf(key, findings), partial) {
      SurvivorFrom(key, rows, KeysOf(key, findings), partial, r);
    } else {
      WrittenFrom(key, FirstSeen(key, rows), findings, now, r);
    }
  }

  lemma {:induction false} SurvivorFrom(key: Keying, rows: seq<Row>, reported: set<Key>, partial: bool, r: Row)
    requires r in Survivors(key, rows, reported, partial)
    ensures partial && r in rows && key(r.finding) !in reported
  {
    var n := |rows| - 1;
    if r in Survivors(key, rows[..n], reported, partial) {
      SurvivorFrom(key, rows[..n], reported, partial, r);
    }
  }

  lemma {:induction false} WrittenFrom(key: Keying, seen: map<Key, Time>, findings: seq<Snapshot>, now: Time, r: Row)
    requires r in Written(key, seen, findings, now)
    ensures r.finding in findings
    ensures r.firstSeen == if key(r.finding) in seen then seen[key(r.finding)] else now
  {
    var n := |findings| - 1;
    if r in Written(key, seen, findings[..n], now) {
      WrittenFrom(key, seen, findings[..n], now, r);
    }
  }

  const FRESH := State([], [])

  function RowsAt(key: Keying, events: seq<Event>, n: nat): seq<Row>
    requires n <= |events|
  {
    After(key, FRESH, events[..n]).rows
  }

  lemma RowsAtNext(key: Keying, events: seq<Event>, n: nat)
    requires n < |events|
    ensures RowsAt(key, events, n + 1) == RowsAfter(key, After(key, FRESH, events[..n]), events[n])
    ensures RowsAt(key, events, n) == After(key, FRESH, events[..n]).rows
  {
    assert events[..n + 1][..n] == events[..n];
  }

  /** What one attempt does to whether a key is stored. */
  lemma StoredNext(key: Keying, events: seq<Event>, n: nat, k: Key)
    requires n < |events|
    ensures var before := k in RowKeys(key, RowsAt(key, events, n));
            k in RowKeys(key, RowsAt(key, events, n + 1)) <==>
              match events[n]
              case Failed(_, _, _, _) => before
              case Scanned(findings, partial, _, _, _) => k in KeysOf(key, findings) || (partial && before)
  {
    RowsAtNext(key, events, n);
    match events[n] {
      case Failed(_, _, _, _) =>
      case Scanned(findings, partial, at, _, _) => SavedKeys(key, RowsAt(key, events, n), findings, partial, at);
    }
  }

  lemma PresentNext(key: Keying, events: seq<Event>, n: nat, k: Key)
    requires n < |events|
    ensures Present(key, events, n + 1, k) <==>
              match events[n]
              case Failed(_, _, _, _) => Present(key, events, n, k)
              case Scanned(findings, partial, _, _, _) =>
                k in KeysOf(key, findings) || (partial && Present(key, events, n, k))
  {
  }

  /** The stored keys are the ones the attempts say are present. */
  lemma {:induction false} StoredIsPresent(key: Keying, events: seq<Event>, n: nat, k: Key)
    requires n <= |events|
    ensures k in RowKeys(key, RowsAt(key, events, n)) <==> Present(key, events, n, k)
  {
    if n > 0 {
      StoredIsPresent(key, events, n - 1, k);
      StoredNext(key, events, n - 1, k);
      PresentNext(key, events, n - 1, k);
    } else {
      NothingAtStart(key, events);
    }
  }

  /** A row either is of a key that was not stored and dates from this attempt, or it
      carries the date of a row of its key that was. */
  lemma DateCarried(key: Keying, st: State, e: Event, r: Row) returns (carried: Option<Row>)
    requires r in RowsAfter(key, st, e)
    ensures carried.None? <==> key(r.finding) !in RowKeys(key, st.rows)
    ensures carried.None? ==> e.Scanned? && r.firstSeen == e.at
    ensures carried.Some? ==>
              && carried.value in st.rows && key(carried.value.finding) == key(r.finding)
              && carried.value.firstSeen == r.firstSeen
  {
    var k, seen := key(r.finding), FirstSeen(key, st.rows);
    FirstSeenIsSome(key, st.rows);
    if e.Failed? {
      return Some(r);
    }
    SavedRows(key, st.rows, e.findings, e.partial, e.at, r);
    if k !in seen {
      return None;
    }
    if e.partial && r in st.rows && k !in KeysOf(key, e.findings) {
      return Some(r);
    }
    var earlier :| earlier in st.rows && key(earlier.finding) == k && earlier.firstSeen == seen[k];
    return Some(earlier);
  }

  lemma NothingAtStart(key: Keying, events: seq<Event>)
    ensures RowsAt(key, events, 0) == []
  {
    assert events[..0] == [];
  }

  /** Where a stored row comes from: the attempt before, or a row it left. */
  lemma RowComesFrom(key: Keying, events: seq<Event>, n: nat, r: Row) returns (carried: Option<Row>)
    requires 0 < n <= |events| && r in RowsAt(key, events, n)
    ensures Present(key, events, n, key(r.finding))
    ensures carried.None? ==> !Present(key, events, n - 1, key(r.finding)) && r.firstSeen == events[n - 1].at
    ensures carried.Some? ==>
              && carried.value in RowsAt(key, events, n - 1) && key(carried.value.finding) == key(r.finding)
              && carried.value.firstSeen == r.firstSeen
  {
    StoredIsPresent(key, events, n, key(r.finding));
    StoredIsPresent(key, events, n - 1, key(r.finding));
    RowsAtNext(key, events, n - 1);
    carried := DateCarried(key, After(key, FRESH, events[..n - 1]), events[n - 1], r);
  }

  lemma BeganNow(key: Keying, events: seq<Event>, n: nat, k: Key)
    requires 0 < n <= |events| && !Present(key, events, n - 1, k) && Present(key, events, n, k)
    ensures Began(key, events, n, k, n - 1)
  {
  }

  lemma BeganBefore(key: Keying, events: seq<Event>, n: nat, k: Key, i: nat)
    requires 0 < n <= |events| && Began(key, events, n - 1, k, i) && Present(key, events, n, k)
    ensures Began(key, events, n, k, i)
  {
    forall j | i < j <= n ensures Present(key, events, j, k) {
    }
  }

  /** After every run of attempts, a stored finding's first-seen date is the time of the
      attempt that began the present stretch of its key: a new version under the same key
      or a partial scan that does not report it leaves the date alone. */
  lemma {:induction false} FirstSeenIsStart(key: Keying, events: seq<Event>, n: nat, r: Row) returns (i: nat)
    requires n <= |events| && r in RowsAt(key, events, n)
    ensures i < n && Began(key, events, n, key(r.finding), i) && r.firstSeen == events[i].at
  {
    NothingAtStart(key, events);
    var carried := RowComesFrom(key, events, n, r);
    match carried {
      case None =>
        i := n - 1;
        BeganNow(key, events, n, key(r.finding));
      case Some(earlier) =>
        i := FirstSeenIsStart(key, events, n - 1, earlier);
        BeganBefore(key, events, n, key(r.finding), i);
    }
  }

  /** All stored rows of one key agree on when it was first seen. */
  lemma RowsAgree(key: Keying, events: seq<Event>, n: nat, r: Row, s: Row)
    requires n <= |events| && r in RowsAt(key, events, n) && s in RowsAt(key, events, n)
    requires key(r.finding) == key(s.finding)
    ensures r.firstSeen == s.firstSeen
  {
    var i := FirstSeenIsStart(key, events, n, r);
    var j := FirstSeenIsStart(key, events, n, s);
  }

  // Telling findings apart by their package.

  /** A finding of one CVE on one package at one version, whatever else it says. */
  ghost predicate IsAbout(s: Snapshot, cve: string, name: string, version: string) {
    s.cve == cve && exists ecosystem, spelled ::
      PackageIdentifier.Canonical(ecosystem, name, version) && PackageIdentifier.IsNote(spelled)
      && s.package == Some(PackageIdentifier.Identifier(ecosystem, name, version) + spelled)
  }

  /** Two findings share a key exactly when the CVE and the package agree: the name, and
      for a kernel the version too. */
  lemma SameFindingKey(s: Snapshot, cve: string, name: string, version: string,
                       t: Snapshot, cve': string, name': string, version': string)
    requires IsAbout(s, cve, name, version) && IsAbout(t, cve', name', version')
    ensures FindingKey(s) == FindingKey(t) <==>
              cve == cve' && PackageIdentifier.SamePackage(name, version, name', version')
  {
    var ecosystem, spelled :| PackageIdentifier.Canonical(ecosystem, name, version) && PackageIdentifier.IsNote(spelled)
                              && s.package == Some(PackageIdentifier.Identifier(ecosystem, name, version) + spelled);
    var ecosystem', spelled' :|
      PackageIdentifier.Canonical(ecosystem', name', version') && PackageIdentifier.IsNote(spelled')
      && t.package == Some(PackageIdentifier.Identifier(ecosystem', name', version') + spelled');
    PackageIdentifier.PackagesTold(ecosystem, name, version, spelled, ecosystem', name', version', spelled');
  }

  /** One CVE on one package that is no kernel, at any two versions. */
  ghost predicate Upgrade(s: Snapshot, t: Snapshot) {
    exists cve, name, version, later ::
      IsAbout(s, cve, name, version) && IsAbout(t, cve, name, later) && !PackageIdentifier.IsKernelPackage(name)
  }

  lemma UpgradeKeepsKey(s: Snapshot, t: Snapshot)
    requires Upgrade(s, t)
    ensures FindingKey(s) == FindingKey(t)
  {
    var cve, name, version, later :|
      IsAbout(s, cve, name, version) && IsAbout(t, cve, name, later) && !PackageIdentifier.IsKernelPackage(name);
    SameFindingKey(s, cve, name, version, t, cve, name, later);
  }

  ghost predicate Reported(findings: seq<Snapshot>, s: Snapshot) {
    exists t :: t in findings && Upgrade(s, t)
  }

  ghost predicate Stored(rows: seq<Row>, t: Snapshot) {
    exists r :: r in rows && Upgrade(r.finding, t)
  }

  /** What a scan after a success says of a key that was stored and is reported again:
      nothing; and its new rows carry the date of the old one. */
  lemma KeyStays(key: Keying, events: seq<Event>, n: nat, r: Row, t: Snapshot)
    requires n < |events| && HasSuccess(After(key, FRESH, events[..n]).runs) && events[n].Scanned?
    requires r in RowsAt(key, events, n) && t in events[n].findings && key(r.finding) == key(t)
    ensures forall c :: c in RunFor(key, After(key, FRESH, events[..n]), events[n]).changes ==>
              key(c.finding) != key(t)
    ensures forall row :: row in RowsAt(key, events, n + 1) && key(row.finding) == key(t) ==>
              row.firstSeen == r.firstSeen
    ensures exists row :: row in RowsAt(key, events, n + 1) && row.finding == t
  {
    var st := After(key, FRESH, events[..n]);
    RowsAtNext(key, events, n);
    ChangesElsewhere(key, st, events[n], r, t);
    WrittenOut(key, FirstSeen(key, st.rows), events[n].findings, events[n].at, t);
    forall row | row in RowsAt(key, events, n + 1) && key(row.finding) == key(t)
      ensures row.firstSeen == r.firstSeen
    {
      var carried := DateCarried(key, st, events[n], row);
      RowsAgree(key, events, n, r, carried.value);
    }
  }

  lemma {:induction false} WrittenOut(key: Keying, seen: map<Key, Time>, findings: seq<Snapshot>, now: Time, t: Snapshot)
    requires t in findings
    ensures exists row :: row in Written(key, seen, findings, now) && row.finding == t
  {
    var n := |findings| - 1;
    var rows := Written(key, seen, findings, now);
    if t == findings[n] {
      assert rows[|rows| - 1].finding == t;
    } else {
      WrittenOut(key, seen, findings[..n], now, t);
      var row :| row in Written(key, seen, findings[..n], now) && row.finding == t;
      assert row in rows;
    }
  }

  lemma {:induction false} ChangedFindings(added: seq<Snapshot>, resolved: seq<Snapshot>)
    ensures forall c :: c in NewRows(added) ==> c.finding in added
    ensures forall c :: c in ResolvedRows(resolved) ==> c.finding in resolved
    decreases |added| + |resolved|
  {
    if added != [] {
      ChangedFindings(added[..|added| - 1], []);
    }
    if resolved != [] {
      ChangedFindings([], resolved[..|resolved| - 1]);
    }
  }

  lemma ChangedKeys(key: Keying, diff: Diff, k: Key)
    requires k !in KeysOf(key, diff.added) && k !in KeysOf(key, diff.resolved)
    ensures forall c :: c in Changes(diff) ==> key(c.finding) != k
  {
    ChangedFindings(diff.added, diff.resolved);
    forall c | c in Changes(diff) ensures key(c.finding) != k {
      assert c.finding in diff.added || c.finding in diff.resolved;
    }
  }

  lemma ChangesElsewhere(key: Keying, st: State, e: Event, r: Row, t: Snapshot)
    requires HasSuccess(st.runs) && e.Scanned? && r in st.rows && t in e.findings && key(r.finding) == key(t)
    ensures forall c :: c in RunFor(key, st, e).changes ==> key(c.finding) != key(t)
  {
    assert key(t) in RowKeys(key, st.rows) && key(t) in KeysOf(key, e.findings);
    DiffOmits(key, st.rows, e.findings, e.partial, e.at, key(t));
    ChangedKeys(key, DiffOf(key, st.rows, e.findings, e.partial, false, e.at), key(t));
  }

  lemma DiffOmits(key: Keying, rows: seq<Row>, findings: seq<Snapshot>, partial: bool, now: Time, k: Key)
    requires k in RowKeys(key, rows) && k in KeysOf(key, findings)
    ensures var diff := DiffOf(key, rows, findings, partial, false, now);
            k !in KeysOf(key, diff.added) && k !in KeysOf(key, diff.resolved)
  {
    DiffKeys(key, rows, findings, partial, now);
    SavedKeys(key, rows, findings, partial, now);
  }

  /** What `Upgrade` does to the rows: the scan records neither a new nor a resolved
      finding for the pair, and the row written carries the date of the one it replaces. */
  lemma UpgradeStillVulnerable(events: seq<Event>, n: nat, r: Row, t: Snapshot)
    requires n < |events| && HasSuccess(After(FindingKey, FRESH, events[..n]).runs) && events[n].Scanned?
    requires r in RowsAt(FindingKey, events, n) && t in events[n].findings && Upgrade(r.finding, t)
    ensures var changes := RunFor(FindingKey, After(FindingKey, FRESH, events[..n]), events[n]).changes;
            forall s :: Upgrade(s, t) ==> New(s) !in changes && Resolved(s) !in changes
    ensures Row(t, r.firstSeen) in RowsAt(FindingKey, events, n + 1)
    ensures forall row :: row in RowsAt(FindingKey, events, n + 1) && Upgrade(row.finding, t) ==>
              row.firstSeen == r.firstSeen
  {
    UpgradeKeepsKey(r.finding, t);
    KeyStays(FindingKey, events, n, r, t);
    forall s | Upgrade(s, t) ensures FindingKey(s) == FindingKey(t) {
      UpgradeKeepsKey(s, t);
    }
  }

  /** When that is all that happened on a machine, the scan's run records no change. */
  lemma OnlyUpgrades(st: State, e: Event)
    requires HasSuccess(st.runs) && e.Scanned?
    requires forall r :: r in st.rows ==> Reported(e.findings, r.finding)
    requires forall t :: t in e.findings ==> Stored(st.rows, t)
    ensures var run := RunFor(FindingKey, st, e);
            run.changes == [] && run.newCount == Some(0) && run.resolvedCount == if e.partial then None else Some(0)
    ensures RowKeys(FindingKey, Step(FindingKey, st, e).rows) == RowKeys(FindingKey, st.rows)
  {
    SameStoredKeys(st.rows, e.findings);
    NothingChanged(FindingKey, st, e);
  }

  lemma KeyReported(findings: seq<Snapshot>, s: Snapshot)
    requires Reported(findings, s)
    ensures FindingKey(s) in KeysOf(FindingKey, findings)
  {
    var t :| t in findings && Upgrade(s, t);
    UpgradeKeepsKey(s, t);
  }

  lemma KeyStored(rows: seq<Row>, t: Snapshot)
    requires Stored(rows, t)
    ensures FindingKey(t) in RowKeys(FindingKey, rows)
  {
    var r :| r in rows && Upgrade(r.finding, t);
    UpgradeKeepsKey(r.finding, t);
  }

  lemma SameKeySets(key: Keying, rows: seq<Row>, findings: seq<Snapshot>)
    requires forall r :: r in rows ==> key(r.finding) in KeysOf(key, findings)
    requires forall t :: t in findings ==> key(t) in RowKeys(key, rows)
    ensures RowKeys(key, rows) == KeysOf(key, findings)
  {
  }

  lemma SameStoredKeys(rows: seq<Row>, findings: seq<Snapshot>)
    requires forall r :: r in rows ==> Reported(findings, r.finding)
    requires forall t :: t in findings ==> Stored(rows, t)
    ensures RowKeys(FindingKey, rows) == KeysOf(FindingKey, findings)
  {
    forall r | r in rows ensures FindingKey(r.finding) in KeysOf(FindingKey, findings) {
      KeyReported(findings, r.finding);
    }
    forall t | t in findings ensures FindingKey(t) in RowKeys(FindingKey, rows) {
      KeyStored(rows, t);
    }
    SameKeySets(FindingKey, rows, findings);
  }

  lemma NothingChanged(key: Keying, st: State, e: Event)
    requires HasSuccess(st.runs) && e.Scanned? && RowKeys(key, st.rows) == KeysOf(key, e.findings)
    ensures RowKeys(key, Step(key, st, e).rows) == RowKeys(key, st.rows)
    ensures var run := RunFor(key, st, e);
            run.changes == [] && run.newCount == Some(0) && run.resolvedCount == if e.partial then None else Some(0)
  {
    var diff := DiffOf(key, st.rows, e.findings, e.partial, false, e.at);
    DiffKeys(key, st.rows, e.findings, e.partial, e.at);
    SavedKeys(key, st.rows, e.findings, e.partial, e.at);
    assert RowKeys(key, st.rows) - RowKeys(key, st.rows) == {};
    assert diff.added == [] && diff.resolved == [];
  }
}
