/**
 * The alert provider: the state behind the alert context (active alerts, the
 * local alert history, the rerun counter) and `CheckLiveData`, which evaluates
 * one reading step by step against the threshold table. The remote log store
 * ("parameter_logs") is modelled as a map from the keys its `push` hands out
 * to the entries pushed under them.
 */
module AlertContext {
  import opened Options
  import opened Thresholds
  import opened AlertRules

  /** Calls after this many are ignored. */
  const MAX_RUNS: nat := 3

  /**
   * The copy of an entry that the store holds: the entry as it was when
   * pushed, that is, before the local copy of an alert entry got its id.
   */
  function Stored(e: LogEntry): LogEntry
  {
    match e
    case AlertEntry(t, issues, raw, _) => AlertEntry(t, issues, raw, None)
    case ResolvedEntry(_, _, _) => e
  }

  /**
   * The store after one call: the alert entry (if any) is pushed first under
   * `key`, then the resolved entry (if any) under the next free key.
   */
  function Written(logs: map<Key, LogEntry>, os: seq<OpenIssue>, rs: seq<ResolvedIssue>, r: Reading, now: int, key: Key): map<Key, LogEntry>
  {
    var afterOpen := if os != [] then logs[key := AlertEntry(now, os, r, None)] else logs;
    var resolvedKey := if os != [] then key + 1 else key;
    if rs != [] then afterOpen[resolvedKey := ResolvedEntry(now, rs, r)] else afterOpen
  }

  /** Writing at fresh keys keeps every stored entry where it was. */
  lemma WrittenExtends(logs: map<Key, LogEntry>, os: seq<OpenIssue>, rs: seq<ResolvedIssue>, r: Reading, now: int, key: Key)
    requires forall k :: k in logs ==> k < key
    ensures var w := Written(logs, os, rs, r, now, key);
      && (forall k :: k in logs ==> k in w && w[k] == logs[k])
      && (forall k :: k in w ==> k < key + 2)
      && (os != [] ==> key in w && w[key] == AlertEntry(now, os, r, None))
      && (rs != [] ==> ResolvedEntry(now, rs, r) in w.Values)
      && logs.Values <= w.Values
  {
    var w := Written(logs, os, rs, r, now, key);
    forall e | e in logs.Values ensures e in w.Values {
      var k :| k in logs && logs[k] == e;
      assert w[k] == e;
    }
    if rs != [] {
      var resolvedKey := if os != [] then key + 1 else key;
      assert w[resolvedKey] == ResolvedEntry(now, rs, r);
    }
  }

  /** Every key in use is below `nextKey`. */
  ghost predicate KeysBelow(logs: map<Key, LogEntry>, nextKey: Key)
  {
    forall k :: k in logs ==> k < nextKey
  }

  /**
   * Every active alert belongs to a table parameter and points at a stored
   * alert entry that lists that parameter and comes from the reading whose
   * timestamp the alert records.
   */
  ghost predicate ActiveLinked(active: ActiveAlerts, logs: map<Key, LogEntry>)
  {
    forall p :: p in active ==>
      var id := active[p].id;
      && Bounds(THRESHOLDS, p).Some?
      && id in logs && logs[id].AlertEntry? && p in OpenedParams(logs[id].issues)
      && logs[id].raw.timestamp == active[p].timestamp
  }

  /** Every entry of the local history is in the store, an alert entry under its own id. */
  ghost predicate HistoryStored(history: seq<LogEntry>, logs: map<Key, LogEntry>)
  {
    forall i :: 0 <= i < |history| ==>
      && Stored(history[i]) in logs.Values
      && (history[i].AlertEntry? ==>
            history[i].id.Some? && history[i].id.value in logs && logs[history[i].id.value] == Stored(history[i]))
  }

  ghost predicate Consistent(active: ActiveAlerts, history: seq<LogEntry>, logs: map<Key, LogEntry>, nextKey: Key)
  {
    KeysBelow(logs, nextKey) && ActiveLinked(active, logs) && HistoryStored(history, logs)
  }

  /** The active alerts after one evaluation stay linked to the store. */
  lemma StepKeepsActiveLinked(active: ActiveAlerts, logs: map<Key, LogEntry>, key: Key, r: Reading, now: int)
    requires KeysBelow(logs, key) && ActiveLinked(active, logs)
    ensures var os := Opens(THRESHOLDS, active, r);
      var rs := Resolves(THRESHOLDS, active, r, now);
      ActiveLinked(NextActive(active, os, rs, r.timestamp, key), Written(logs, os, rs, r, now, key))
  {
    var os := Opens(THRESHOLDS, active, r);
    var rs := Resolves(THRESHOLDS, active, r, now);
    var active' := NextActive(active, os, rs, r.timestamp, key);
    var logs' := Written(logs, os, rs, r, now, key);
    TableIsWellFormed();
    OpensSound(THRESHOLDS, active, r);
    WrittenExtends(logs, os, rs, r, now, key);
    forall p | p in active'
      ensures var id := active'[p].id;
        && Bounds(THRESHOLDS, p).Some?
        && id in logs' && logs'[id].AlertEntry? && p in OpenedParams(logs'[id].issues)
        && logs'[id].raw.timestamp == active'[p].timestamp
    {
      if p in OpenedParams(os) {
        var k :| 0 <= k < |os| && os[k].parameter == p;
        assert active'[p] == ActiveAlert(r.timestamp, key);
      } else {
        assert active'[p] == active[p];
      }
    }
  }

  /** The history after one evaluation stays mirrored in the store. */
  lemma StepKeepsHistoryStored(active: ActiveAlerts, history: seq<LogEntry>, logs: map<Key, LogEntry>, key: Key, r: Reading, now: int)
    requires KeysBelow(logs, key) && HistoryStored(history, logs)
    ensures var os := Opens(THRESHOLDS, active, r);
      var rs := Resolves(THRESHOLDS, active, r, now);
      HistoryStored(NewEntries(os, rs, r, now, key) + history, Written(logs, os, rs, r, now, key))
  {
    var os := Opens(THRESHOLDS, active, r);
    var rs := Resolves(THRESHOLDS, active, r, now);
    var added := NewEntries(os, rs, r, now, key);
    var history' := added + history;
    var logs' := Written(logs, os, rs, r, now, key);
    WrittenExtends(logs, os, rs, r, now, key);
    forall i | 0 <= i < |history'|
      ensures Stored(history'[i]) in logs'.Values
      ensures history'[i].AlertEntry? ==>
        history'[i].id.Some? && history'[i].id.value in logs' && logs'[history'[i].id.value] == Stored(history'[i])
    {
      if i >= |added| {
        assert history'[i] == history[i - |added|];
      } else if rs != [] && i == 0 {
        assert history'[i] == ResolvedEntry(now, rs, r);
      } else {
        assert history'[i] == AlertEntry(now, os, r, Some(key));
        assert logs'[key] == AlertEntry(now, os, r, None);
      }
    }
  }

  /**
   * One evaluation keeps the state consistent, and every resolved issue it
   * produces links to a stored alert entry that opened the same parameter and
   * is timed from that entry's reading.
   */
  lemma StepKeepsConsistent(active: ActiveAlerts, history: seq<LogEntry>, logs: map<Key, LogEntry>, key: Key, r: Reading, now: int,
                            active': ActiveAlerts, history': seq<LogEntry>, logs': map<Key, LogEntry>, key': Key)
    requires Consistent(active, history, logs, key)
    requires var os := Opens(THRESHOLDS, active, r);
      var rs := Resolves(THRESHOLDS, active, r, now);
      && active' == NextActive(active, os, rs, r.timestamp, key)
      && history' == NewEntries(os, rs, r, now, key) + history
      && logs' == Written(logs, os, rs, r, now, key)
      && key' == key + (if os != [] then 1 else 0) + (if rs != [] then 1 else 0)
    ensures Consistent(active', history', logs', key')
    ensures var rs := Resolves(THRESHOLDS, active, r, now);
      forall k :: 0 <= k < |rs| ==>
        rs[k].triggeredId in logs && logs[rs[k].triggeredId].AlertEntry?
        && rs[k].parameter in OpenedParams(logs[rs[k].triggeredId].issues)
        && rs[k].durationMinutes == Duration(logs[rs[k].triggeredId].raw.timestamp, now)
  {
    var os := Opens(THRESHOLDS, active, r);
    var rs := Resolves(THRESHOLDS, active, r, now);
    TableIsWellFormed();
    ResolvesSound(THRESHOLDS, active, r, now);
    WrittenExtends(logs, os, rs, r, now, key);
    StepKeepsActiveLinked(active, logs, key, r, now);
    StepKeepsHistoryStored(active, history, logs, key, r, now);
  }

  /**
   * The walk over the threshold table: for each table entry whose value
   * parses, an out-of-range value without an active alert is collected as an
   * open issue, and an in-range value with an active alert is collected as a
   * resolved issue and removed from the copy of the active alerts.
   */
  method ScanThresholds(table: seq<Threshold>, active: ActiveAlerts, entry: Reading, now: int)
    returns (newOutOfRange: seq<OpenIssue>, resolvedNow: seq<ResolvedIssue>, updated: ActiveAlerts)
    ensures newOutOfRange == Opens(table, active, entry)
    ensures resolvedNow == Resolves(table, active, entry, now)
    ensures updated == active - ResolvedParams(resolvedNow)
  {
    updated := active;
    newOutOfRange := [];
    resolvedNow := [];
    var i := 0;
    while i < |table|
      invariant 0 <= i <= |table|
      invariant newOutOfRange == Opens(table[..i], active, entry)
      invariant resolvedNow == Resolves(table[..i], active, entry, now)
      invariant updated == active - ResolvedParams(resolvedNow)
    {
      var t := table[i];
      WalkStep(table, i, active, entry, now);
      match Parse(entry, t.param) {
        case None =>
        case Some(v) =>
          if OutOfRange(v, t.range) {
            if t.param !in active {
              newOutOfRange := newOutOfRange + [OpenIssue(t.param, v, t.range)];
            }
          } else if t.param in active {
            var start := active[t.param];
            var issue := ResolvedIssue(t.param, v, now, Duration(start.timestamp, now), t.range, start.id);
            ResolvedParamsAppend(resolvedNow, [issue]);
            ResolvedParamsOne(issue);
            resolvedNow := resolvedNow + [issue];
            updated := updated - {t.param};
          }
      }
      i := i + 1;
    }
    assert table[..i] == table;
  }

  /** Gives every opened parameter an active alert with timestamp `at` and entry key `id`. */
  method RecordOpened(base: ActiveAlerts, opens: seq<OpenIssue>, at: Option<int>, id: Key)
    returns (updated: ActiveAlerts)
    ensures updated == base + Alerted(OpenedParams(opens), at, id)
  {
    updated := base;
    var j := 0;
    assert OpenedParams([]) == {} && Alerted({}, at, id) == map[];
    assert opens[..0] == [];
    while j < |opens|
      invariant 0 <= j <= |opens|
      invariant updated == base + Alerted(OpenedParams(opens[..j]), at, id)
    {
      var issue := opens[j];
      assert opens[..j + 1] == opens[..j] + [issue];
      OpenedParamsAppend(opens[..j], [issue]);
      OpenedParamsOne(issue);
      AlertedOneMore(base, OpenedParams(opens[..j]), issue.parameter, at, id);
      updated := updated[issue.parameter := ActiveAlert(at, id)];
      j := j + 1;
    }
    assert opens[..j] == opens;
  }

  /** Prepending a call's entries one at a time, alert entry first, gives NewEntries in front. */
  lemma NewEntriesPrepend(os: seq<OpenIssue>, rs: seq<ResolvedIssue>, r: Reading, now: int, key: Key, history: seq<LogEntry>)
    ensures var afterOpen := if os != [] then [AlertEntry(now, os, r, Some(key))] + history else history;
      NewEntries(os, rs, r, now, key) + history
      == if rs != [] then [ResolvedEntry(now, rs, r)] + afterOpen else afterOpen
  {
    if os != [] && rs != [] {
      assert NewEntries(os, rs, r, now, key) == [ResolvedEntry(now, rs, r)] + [AlertEntry(now, os, r, Some(key))];
    }
  }

  lemma EmptyOpensAddNothing(base: ActiveAlerts, os: seq<OpenIssue>, at: Option<int>, id: Key)
    requires os == []
    ensures base + Alerted(OpenedParams(os), at, id) == base
  {
    assert OpenedParams(os) == {} && Alerted({}, at, id) == map[];
  }

  class AlertProvider {
    /** The active alerts, keyed by parameter: at most one per parameter. */
    var activeAlerts: ActiveAlerts
    /** The local alert history, most recent first. */
    var alerts: seq<LogEntry>
    /** How many calls of CheckLiveData have been evaluated. */
    var rerunCount: nat
    /** The remote "parameter_logs" list, keyed by the key push assigned. */
    var parameterLogs: map<Key, LogEntry>
    /** The key the next push hands out; every key used so far is below it. */
    var nextKey: Key

    ghost predicate KeysBelowNext()
      reads this
    {
      KeysBelow(parameterLogs, nextKey)
    }

    ghost predicate Valid()
      reads this
    {
      rerunCount <= MAX_RUNS && Consistent(activeAlerts, alerts, parameterLogs, nextKey)
    }

    constructor ()
      ensures Valid()
      ensures activeAlerts == map[] && alerts == [] && rerunCount == 0
      ensures parameterLogs == map[] && nextKey == 0
    {
      activeAlerts := map[];
      alerts := [];
      rerunCount := 0;
      parameterLogs := map[];
      nextKey := 0;
    }

    /** `push` on the store: records `e` under a fresh key and returns that key. */
    method Push(e: LogEntry) returns (key: Key)
      requires KeysBelowNext()
      modifies this`parameterLogs, this`nextKey
      ensures key == old(nextKey) && key !in old(parameterLogs)
      ensures parameterLogs == old(parameterLogs)[key := e]
      ensures nextKey == old(nextKey) + 1
      ensures KeysBelowNext()
    {
      key := nextKey;
      parameterLogs := parameterLogs[key := e];
      nextKey := nextKey + 1;
    }

    /**
     * Evaluates one reading at evaluation time `now` (milliseconds). After
     * MAX_RUNS calls nothing changes. Otherwise every table parameter whose
     * value parses is checked: the ones newly out of range are opened in one
     * "alert" entry, the ones back in range with an active alert are resolved
     * in one "resolved" entry, and both entries are put in front of the history.
     */
    method CheckLiveData(entry: Reading, now: int)
      requires Valid()
      modifies this
      ensures Valid()
      ensures old(rerunCount) >= MAX_RUNS ==>
        && activeAlerts == old(activeAlerts) && alerts == old(alerts) && rerunCount == old(rerunCount)
        && parameterLogs == old(parameterLogs) && nextKey == old(nextKey)
      ensures old(rerunCount) < MAX_RUNS ==>
        var os := Opens(THRESHOLDS, old(activeAlerts), entry);
        var rs := Resolves(THRESHOLDS, old(activeAlerts), entry, now);
        && rerunCount == old(rerunCount) + 1
        && activeAlerts == NextActive(old(activeAlerts), os, rs, entry.timestamp, old(nextKey))
        && alerts == NewEntries(os, rs, entry, now, old(nextKey)) + old(alerts)
        && parameterLogs == Written(old(parameterLogs), os, rs, entry, now, old(nextKey))
        && nextKey == old(nextKey) + (if os != [] then 1 else 0) + (if rs != [] then 1 else 0)
      ensures old(rerunCount) < MAX_RUNS ==>
        var rs := Resolves(THRESHOLDS, old(activeAlerts), entry, now);
        forall k :: 0 <= k < |rs| ==>
          rs[k].triggeredId in old(parameterLogs) && old(parameterLogs)[rs[k].triggeredId].AlertEntry?
          && rs[k].parameter in OpenedParams(old(parameterLogs)[rs[k].triggeredId].issues)
          && rs[k].durationMinutes == Duration(old(parameterLogs)[rs[k].triggeredId].raw.timestamp, now)
    {
      if rerunCount >= MAX_RUNS {
        return;
      }
      rerunCount := rerunCount + 1;
      ghost var active0, history0, logs0, key0 := activeAlerts, alerts, parameterLogs, nextKey;
      ghost var os := Opens(THRESHOLDS, active0, entry);
      ghost var rs := Resolves(THRESHOLDS, active0, entry, now);
      ghost var afterOpen := if os != [] then [AlertEntry(now, os, entry, Some(key0))] + history0 else history0;
      NewEntriesPrepend(os, rs, entry, now, key0, history0);

      var newOutOfRange, resolvedNow, updated := ScanThresholds(THRESHOLDS, activeAlerts, entry, now);

      if |newOutOfRange| > 0 {
        var alertEntry := AlertEntry(now, newOutOfRange, entry, None);
        var alertId := Push(alertEntry);
        alertEntry := alertEntry.(id := Some(alertId));
        updated := RecordOpened(updated, newOutOfRange, entry.timestamp, alertId);
        alerts := [alertEntry] + alerts;
      } else {
        EmptyOpensAddNothing(updated, newOutOfRange, entry.timestamp, key0);
      }
      assert updated == NextActive(active0, os, rs, entry.timestamp, key0);
      assert parameterLogs == (if os != [] then logs0[key0 := AlertEntry(now, os, entry, None)] else logs0);
      assert alerts == afterOpen;

      if |resolvedNow| > 0 {
        var resolvedEntry := ResolvedEntry(now, resolvedNow, entry);
        var resolvedId := Push(resolvedEntry);
        alerts := [resolvedEntry] + alerts;
      }
      assert alerts == (if rs != [] then [ResolvedEntry(now, rs, entry)] + afterOpen else afterOpen);

      activeAlerts := updated;
      StepKeepsConsistent(active0, history0, logs0, key0, entry, now, activeAlerts, alerts, parameterLogs, nextKey);
    }
  }

  /**
   * The temperature excursion 20, 40, 40, 30 driven through a new provider,
   * first two calls: 20 changes nothing, 40 opens one alert under key 0 and
   * logs one alert entry.
   */
  method TemperatureExcursionFirstCalls(t1: int, t2: int) returns (provider: AlertProvider)
    ensures fresh(provider) && provider.Valid() && provider.rerunCount == 2
    ensures provider.activeAlerts == map["temperature" := ActiveAlert(Some(t2), 0)]
    ensures provider.alerts == [AlertEntry(t2, [OpenIssue("temperature", 40.0, Range(18.0, 35.0))], TemperatureReading(40.0, t2), Some(0))]
    ensures provider.nextKey == 1
  {
    TemperatureInRangeIsQuiet(t1);
    TemperatureHighOpens(t2, 0);
    provider := new AlertProvider();
    provider.CheckLiveData(TemperatureReading(20.0, t1), t1);
    NextActiveNoChange(map[], Some(t1), 0);
    assert provider.activeAlerts == map[] && provider.alerts == [] && provider.nextKey == 0;
    provider.CheckLiveData(TemperatureReading(40.0, t2), t2);
  }

  /**
   * The last two calls: the 40 reading delivered again adds nothing, and the
   * fourth call, although its 30 is back in range, is ignored by the rerun
   * guard, so the temperature alert stays active.
   */
  method TemperatureExcursionLastCalls(provider: AlertProvider, t2: int, t3: int, t4: int)
    requires provider.Valid() && provider.rerunCount == 2
    requires provider.activeAlerts == map["temperature" := ActiveAlert(Some(t2), 0)]
    requires |provider.alerts| == 1
    modifies provider
    ensures provider.activeAlerts == map["temperature" := ActiveAlert(Some(t2), 0)]
    ensures |provider.alerts| == 1 && provider.rerunCount == 3
  {
    TemperatureHighAgainIsQuiet(t2, t3, 0);
    provider.CheckLiveData(TemperatureReading(40.0, t2), t3);
    NextActiveNoChange(map["temperature" := ActiveAlert(Some(t2), 0)], Some(t2), provider.nextKey);
    provider.CheckLiveData(TemperatureReading(30.0, t4), t4);
  }
}
