/**
 * What one evaluation of a sensor reading decides, as functions of the
 * threshold table, the active alerts before the call, the reading and the
 * evaluation time: which parameters open an alert, which resolve one, the
 * resulting active-alert map and the log entries the call produces.
 */
module AlertRules {
  import opened Options
  import opened Thresholds

  /** The key the log store assigns to an entry when it is pushed. */
  type Key = nat

  /**
   * One sensor reading. `values` holds, per field, the number the field parses
   * to (None: the field does not parse to a number); a missing field does not
   * parse either. `timestamp` is the reading's own timestamp field in
   * milliseconds, None when the reading has none.
   */
  datatype Reading = Reading(values: map<string, Option<real>>, timestamp: Option<int>)

  /** The parsed value of field `p` of a reading; None stands for NaN. */
  function Parse(r: Reading, p: string): Option<real>
  {
    if p in r.values then r.values[p] else None
  }

  /** An open alert: the timestamp of the reading that opened it and the key of its log entry. */
  datatype ActiveAlert = ActiveAlert(timestamp: Option<int>, id: Key)

  type ActiveAlerts = map<string, ActiveAlert>

  datatype OpenIssue = OpenIssue(parameter: string, value: real, threshold: Range)

  /** `durationMinutes` is None when the opening time is unknown (NaN in the source). */
  datatype ResolvedIssue = ResolvedIssue(
    parameter: string,
    value: real,
    resolvedAt: int,
    durationMinutes: Option<int>,
    range: Range,
    triggeredId: Key)

  /**
   * A log entry: status "alert" carries the opened issues, status "resolved"
   * the resolved ones. Only an alert entry kept in local history has an id.
   */
  datatype LogEntry =
    | AlertEntry(timestamp: int, issues: seq<OpenIssue>, raw: Reading, id: Option<Key>)
    | ResolvedEntry(timestamp: int, resolutions: seq<ResolvedIssue>, raw: Reading)

  const MS_PER_MINUTE: int := 60000

  /**
   * A duration in milliseconds rounded to whole minutes, halves rounded up,
   * as Math.round does.
   */
  function RoundMinutes(ms: int): (m: int)
    ensures MS_PER_MINUTE * m - MS_PER_MINUTE / 2 <= ms < MS_PER_MINUTE * m + MS_PER_MINUTE / 2
    ensures ms >= 0 ==> m >= 0
  {
    (ms + MS_PER_MINUTE / 2) / MS_PER_MINUTE
  }

  /** Minutes from `start` to `now`; unknown when `start` is. */
  function Duration(start: Option<int>, now: int): Option<int>
  {
    match start
    case None => None
    case Some(s) => Some(RoundMinutes(now - s))
  }

  // ---------------------------------------------------------------------------
  // The per-parameter state machine, stated directly.

  /** What one evaluation does to one parameter. */
  datatype Change =
    | Unevaluated  // not in the table, or its value does not parse
    | Open         // out of range with no active alert
    | Resolve      // in range with an active alert
    | Unchanged    // out of range and already alerted, or in range and not alerted

  function Classify(ts: seq<Threshold>, a: ActiveAlerts, r: Reading, p: string): Change
  {
    match Bounds(ts, p)
    case None => Unevaluated
    case Some(rg) =>
      match Parse(r, p)
      case None => Unevaluated
      case Some(v) =>
        if OutOfRange(v, rg) then (if p in a then Unchanged else Open)
        else (if p in a then Resolve else Unchanged)
  }

  // ---------------------------------------------------------------------------
  // The walk over the table, entry by entry, as the engine performs it.

  /** The open issue table entry `t` contributes, if any. */
  function OpenOf(t: Threshold, a: ActiveAlerts, r: Reading): seq<OpenIssue>
  {
    match Parse(r, t.param)
    case None => []
    case Some(v) =>
      if OutOfRange(v, t.range) && t.param !in a then [OpenIssue(t.param, v, t.range)] else []
  }

  /** The open issues of a walk over `ts`, in table order. */
  function Opens(ts: seq<Threshold>, a: ActiveAlerts, r: Reading): seq<OpenIssue>
    decreases |ts|
  {
    if ts == [] then [] else Opens(ts[..|ts| - 1], a, r) + OpenOf(ts[|ts| - 1], a, r)
  }

  /** The resolved issue table entry `t` contributes, if any. */
  function ResolveOf(t: Threshold, a: ActiveAlerts, r: Reading, now: int): seq<ResolvedIssue>
  {
    match Parse(r, t.param)
    case None => []
    case Some(v) =>
      if !OutOfRange(v, t.range) && t.param in a then
        [ResolvedIssue(t.param, v, now, Duration(a[t.param].timestamp, now), t.range, a[t.param].id)]
      else []
  }

  /** The resolved issues of a walk over `ts`, in table order. */
  function Resolves(ts: seq<Threshold>, a: ActiveAlerts, r: Reading, now: int): seq<ResolvedIssue>
    decreases |ts|
  {
    if ts == [] then [] else Resolves(ts[..|ts| - 1], a, r, now) + ResolveOf(ts[|ts| - 1], a, r, now)
  }

  /** Walking one more entry of the table adds that entry's contributions. */
  lemma WalkStep(ts: seq<Threshold>, i: nat, a: ActiveAlerts, r: Reading, now: int)
    requires i < |ts|
    ensures Opens(ts[..i + 1], a, r) == Opens(ts[..i], a, r) + OpenOf(ts[i], a, r)
    ensures Resolves(ts[..i + 1], a, r, now) == Resolves(ts[..i], a, r, now) + ResolveOf(ts[i], a, r, now)
  {
    assert ts[..i + 1][..i] == ts[..i];
  }

  function OpenedParams(os: seq<OpenIssue>): set<string>
  {
    set k | 0 <= k < |os| :: os[k].parameter
  }

  function ResolvedParams(rs: seq<ResolvedIssue>): set<string>
  {
    set k | 0 <= k < |rs| :: rs[k].parameter
  }

  /**
   * The active alerts after a call: resolved parameters removed, then every
   * opened parameter given an alert with the reading's timestamp and the key
   * of the alert entry.
   */
  function NextActive(a: ActiveAlerts, os: seq<OpenIssue>, rs: seq<ResolvedIssue>, at: Option<int>, key: Key): ActiveAlerts
  {
    (a - ResolvedParams(rs)) + Alerted(OpenedParams(os), at, key)
  }

  /** One alert with timestamp `at` and entry key `key` for each parameter of `ps`. */
  function Alerted(ps: set<string>, at: Option<int>, key: Key): ActiveAlerts
  {
    map p | p in ps :: ActiveAlert(at, key)
  }

  /** Alerting one more parameter is one map update. */
  lemma AlertedOneMore(base: ActiveAlerts, ps: set<string>, p: string, at: Option<int>, key: Key)
    ensures base + Alerted(ps + {p}, at, key) == (base + Alerted(ps, at, key))[p := ActiveAlert(at, key)]
  {
    var lhs := base + Alerted(ps + {p}, at, key);
    var rhs := (base + Alerted(ps, at, key))[p := ActiveAlert(at, key)];
    assert lhs.Keys == rhs.Keys;
    forall q | q in lhs.Keys ensures lhs[q] == rhs[q] {
    }
  }

  /** A call that opens and resolves nothing leaves the active alerts as they are. */
  lemma NextActiveNoChange(a: ActiveAlerts, at: Option<int>, key: Key)
    ensures NextActive(a, [], [], at, key) == a
  {
    assert ResolvedParams([]) == {} && OpenedParams([]) == {};
    assert Alerted({}, at, key) == map[];
  }

  /** The entries a call puts in front of the local history, most recent first. */
  function NewEntries(os: seq<OpenIssue>, rs: seq<ResolvedIssue>, r: Reading, now: int, key: Key): seq<LogEntry>
  {
    (if rs != [] then [ResolvedEntry(now, rs, r)] else [])
    + (if os != [] then [AlertEntry(now, os, r, Some(key))] else [])
  }

  // ---------------------------------------------------------------------------
  // Lemmas: the walk agrees with the per-parameter state machine.

  lemma OpenedParamsAppend(os: seq<OpenIssue>, extra: seq<OpenIssue>)
    ensures OpenedParams(os + extra) == OpenedParams(os) + OpenedParams(extra)
  {
    var both := os + extra;
    forall p | p in OpenedParams(both) ensures p in OpenedParams(os) + OpenedParams(extra) {
      var k :| 0 <= k < |both| && both[k].parameter == p;
      if k < |os| { assert os[k] == both[k]; } else { assert extra[k - |os|] == both[k]; }
    }
    forall p | p in OpenedParams(os) + OpenedParams(extra) ensures p in OpenedParams(both) {
      if p in OpenedParams(os) {
        var k :| 0 <= k < |os| && os[k].parameter == p;
        assert both[k] == os[k];
      } else {
        var k :| 0 <= k < |extra| && extra[k].parameter == p;
        assert both[|os| + k] == extra[k];
      }
    }
  }

  lemma ResolvedParamsAppend(rs: seq<ResolvedIssue>, extra: seq<ResolvedIssue>)
    ensures ResolvedParams(rs + extra) == ResolvedParams(rs) + ResolvedParams(extra)
  {
    var both := rs + extra;
    forall p | p in ResolvedParams(both) ensures p in ResolvedParams(rs) + ResolvedParams(extra) {
      var k :| 0 <= k < |both| && both[k].parameter == p;
      if k < |rs| { assert rs[k] == both[k]; } else { assert extra[k - |rs|] == both[k]; }
    }
    forall p | p in ResolvedParams(rs) + ResolvedParams(extra) ensures p in ResolvedParams(both) {
      if p in ResolvedParams(rs) {
        var k :| 0 <= k < |rs| && rs[k].parameter == p;
        assert both[k] == rs[k];
      } else {
        var k :| 0 <= k < |extra| && extra[k].parameter == p;
        assert both[|rs| + k] == extra[k];
      }
    }
  }

  lemma OpenedParamsOne(o: OpenIssue)
    ensures OpenedParams([o]) == {o.parameter}
  {
    assert [o][0] == o;
  }

  lemma ResolvedParamsOne(s: ResolvedIssue)
    ensures ResolvedParams([s]) == {s.parameter}
  {
    assert [s][0] == s;
  }

  /** For a parameter other than the last entry's, the lookup ignores the last entry. */
  lemma BoundsInit(ts: seq<Threshold>, p: string)
    requires ts != [] && ts[|ts| - 1].param != p
    ensures Bounds(ts, p) == Bounds(ts[..|ts| - 1], p)
  {
  }

  /**
   * Every open issue is for a table parameter that has no active alert and
   * whose parsed value lies strictly outside its range; the issue records that
   * value and that range.
   */
  lemma {:induction false} OpensSound(ts: seq<Threshold>, a: ActiveAlerts, r: Reading)
    requires UniqueNames(ts)
    ensures forall k :: 0 <= k < |Opens(ts, a, r)| ==>
      var o := Opens(ts, a, r)[k];
      o.parameter !in a && Bounds(ts, o.parameter) == Some(o.threshold)
      && Parse(r, o.parameter) == Some(o.value) && OutOfRange(o.value, o.threshold)
  {
    if ts != [] {
      var n := |ts| - 1;
      var init, last := ts[..n], ts[n];
      UniqueNamesInit(ts);
      OpensSound(init, a, r);
      var os := Opens(ts, a, r);
      assert os == Opens(init, a, r) + OpenOf(last, a, r);
      forall k | 0 <= k < |os|
        ensures os[k].parameter !in a && Bounds(ts, os[k].parameter) == Some(os[k].threshold)
          && Parse(r, os[k].parameter) == Some(os[k].value) && OutOfRange(os[k].value, os[k].threshold)
      {
        if k < |Opens(init, a, r)| {
          var o := Opens(init, a, r)[k];
          assert os[k] == o;
          var i :| 0 <= i < |init| && init[i].param == o.parameter;
          assert ts[i] == init[i];
          BoundsInit(ts, o.parameter);
        } else {
          IndexOfUnique(ts, n);
        }
      }
    }
  }

  /**
   * Every resolved issue is for a table parameter that has an active alert and
   * whose parsed value lies inside its range; it links to that alert's entry
   * key and carries the rounded time since that alert's opening reading.
   */
  lemma {:induction false} ResolvesSound(ts: seq<Threshold>, a: ActiveAlerts, r: Reading, now: int)
    requires UniqueNames(ts)
    ensures forall k :: 0 <= k < |Resolves(ts, a, r, now)| ==>
      var s := Resolves(ts, a, r, now)[k];
      s.parameter in a && s.triggeredId == a[s.parameter].id
      && s.durationMinutes == Duration(a[s.parameter].timestamp, now) && s.resolvedAt == now
      && Bounds(ts, s.parameter) == Some(s.range)
      && Parse(r, s.parameter) == Some(s.value) && !OutOfRange(s.value, s.range)
  {
    if ts != [] {
      var n := |ts| - 1;
      var init, last := ts[..n], ts[n];
      UniqueNamesInit(ts);
      ResolvesSound(init, a, r, now);
      var rs := Resolves(ts, a, r, now);
      assert rs == Resolves(init, a, r, now) + ResolveOf(last, a, r, now);
      forall k | 0 <= k < |rs|
        ensures rs[k].parameter in a && rs[k].triggeredId == a[rs[k].parameter].id
          && rs[k].durationMinutes == Duration(a[rs[k].parameter].timestamp, now) && rs[k].resolvedAt == now
          && Bounds(ts, rs[k].parameter) == Some(rs[k].range)
          && Parse(r, rs[k].parameter) == Some(rs[k].value) && !OutOfRange(rs[k].value, rs[k].range)
      {
        if k < |Resolves(init, a, r, now)| {
          var s := Resolves(init, a, r, now)[k];
          assert rs[k] == s;
          var i :| 0 <= i < |init| && init[i].param == s.parameter;
          assert ts[i] == init[i];
          BoundsInit(ts, s.parameter);
        } else {
          IndexOfUnique(ts, n);
        }
      }
    }
  }

  /** A parameter the state machine opens appears among the open issues. */
  lemma {:induction false} OpensComplete(ts: seq<Threshold>, a: ActiveAlerts, r: Reading, p: string)
    requires UniqueNames(ts) && Classify(ts, a, r, p) == Open
    ensures p in OpenedParams(Opens(ts, a, r))
  {
    var n := |ts| - 1;
    var init, last := ts[..n], ts[n];
    OpenedParamsAppend(Opens(init, a, r), OpenOf(last, a, r));
    if last.param == p {
      IndexOfUnique(ts, n);
      assert OpenOf(last, a, r)[0].parameter == p;
    } else {
      BoundsInit(ts, p);
      UniqueNamesInit(ts);
      OpensComplete(init, a, r, p);
    }
  }

  /** A parameter the state machine resolves appears among the resolved issues. */
  lemma {:induction false} ResolvesComplete(ts: seq<Threshold>, a: ActiveAlerts, r: Reading, now: int, p: string)
    requires UniqueNames(ts) && Classify(ts, a, r, p) == Resolve
    ensures p in ResolvedParams(Resolves(ts, a, r, now))
  {
    var n := |ts| - 1;
    var init, last := ts[..n], ts[n];
    ResolvedParamsAppend(Resolves(init, a, r, now), ResolveOf(last, a, r, now));
    if last.param == p {
      IndexOfUnique(ts, n);
      assert ResolveOf(last, a, r, now)[0].parameter == p;
    } else {
      BoundsInit(ts, p);
      UniqueNamesInit(ts);
      ResolvesComplete(init, a, r, now, p);
    }
  }

  /** A parameter is opened exactly when the state machine says Open. */
  lemma OpenedIff(ts: seq<Threshold>, a: ActiveAlerts, r: Reading, p: string)
    requires UniqueNames(ts)
    ensures p in OpenedParams(Opens(ts, a, r)) <==> Classify(ts, a, r, p) == Open
  {
    if p in OpenedParams(Opens(ts, a, r)) {
      OpensSound(ts, a, r);
    } else if Classify(ts, a, r, p) == Open {
      OpensComplete(ts, a, r, p);
    }
  }

  /** A parameter is resolved exactly when the state machine says Resolve. */
  lemma ResolvedIff(ts: seq<Threshold>, a: ActiveAlerts, r: Reading, now: int, p: string)
    requires UniqueNames(ts)
    ensures p in ResolvedParams(Resolves(ts, a, r, now)) <==> Classify(ts, a, r, p) == Resolve
  {
    if p in ResolvedParams(Resolves(ts, a, r, now)) {
      ResolvesSound(ts, a, r, now);
    } else if Classify(ts, a, r, p) == Resolve {
      ResolvesComplete(ts, a, r, now, p);
    }
  }

  // ---------------------------------------------------------------------------
  // Lemmas: what one evaluation does to the active alerts.

  /**
   * The effect of one evaluation on parameter `p`: an open gives it an alert
   * with the reading's timestamp and the new entry's key, a resolve removes
   * its alert, and every other case (not in the table, unparseable value,
   * self-transition) leaves its entry exactly as it was. Hence, for a
   * parameter in the table whose value parses, it has an alert afterwards
   * exactly when that value is out of range.
   */
  lemma ActiveAfterStep(ts: seq<Threshold>, a: ActiveAlerts, r: Reading, now: int, key: Key, p: string)
    requires UniqueNames(ts)
    ensures var a' := NextActive(a, Opens(ts, a, r), Resolves(ts, a, r, now), r.timestamp, key);
      && (Classify(ts, a, r, p) == Open ==> p in a' && a'[p] == ActiveAlert(r.timestamp, key))
      && (Classify(ts, a, r, p) == Resolve ==> p !in a')
      && (Classify(ts, a, r, p) in {Unevaluated, Unchanged} ==>
            (p in a' <==> p in a) && (p in a ==> a'[p] == a[p]))
      && (Bounds(ts, p).Some? && Parse(r, p).Some? ==>
            (p in a' <==> OutOfRange(Parse(r, p).value, Bounds(ts, p).value)))
  {
    OpenedIff(ts, a, r, p);
    ResolvedIff(ts, a, r, now, p);
  }

  /**
   * Edge triggering: evaluating the same reading again, at any time and with
   * any fresh key, opens nothing, resolves nothing and leaves the active
   * alerts as they are.
   */
  lemma ReevaluationIsQuiet(ts: seq<Threshold>, a: ActiveAlerts, r: Reading, now: int, key: Key, now': int, key': Key)
    requires UniqueNames(ts)
    ensures var a' := NextActive(a, Opens(ts, a, r), Resolves(ts, a, r, now), r.timestamp, key);
      && Opens(ts, a', r) == []
      && Resolves(ts, a', r, now') == []
      && NextActive(a', Opens(ts, a', r), Resolves(ts, a', r, now'), r.timestamp, key') == a'
  {
    var a' := NextActive(a, Opens(ts, a, r), Resolves(ts, a, r, now), r.timestamp, key);
    forall p
      ensures Classify(ts, a', r, p) in {Unevaluated, Unchanged}
    {
      ActiveAfterStep(ts, a, r, now, key, p);
    }
    if Opens(ts, a', r) != [] {
      var p := Opens(ts, a', r)[0].parameter;
      assert p in OpenedParams(Opens(ts, a', r));
      OpenedIff(ts, a', r, p);
      assert false;
    }
    if Resolves(ts, a', r, now') != [] {
      var p := Resolves(ts, a', r, now')[0].parameter;
      assert p in ResolvedParams(Resolves(ts, a', r, now'));
      ResolvedIff(ts, a', r, now', p);
      assert false;
    }
    NextActiveNoChange(a', r.timestamp, key');
  }

  /**
   * Strict boundaries: a parsed value equal to either end of a non-empty range
   * never opens an alert, and resolves one that is active.
   */
  lemma BoundaryValueNeverOpens(ts: seq<Threshold>, a: ActiveAlerts, r: Reading, now: int, p: string)
    requires UniqueNames(ts) && Bounds(ts, p).Some?
    requires Bounds(ts, p).value.min <= Bounds(ts, p).value.max
    requires Parse(r, p) == Some(Bounds(ts, p).value.min) || Parse(r, p) == Some(Bounds(ts, p).value.max)
    ensures p !in OpenedParams(Opens(ts, a, r))
    ensures p in ResolvedParams(Resolves(ts, a, r, now)) <==> p in a
  {
    OpenedIff(ts, a, r, p);
    ResolvedIff(ts, a, r, now, p);
  }

  /**
   * A value that does not parse contributes no open and no resolve, and the
   * parameter's active alert, if any, is kept unchanged.
   */
  lemma MalformedValueSkipped(ts: seq<Threshold>, a: ActiveAlerts, r: Reading, now: int, key: Key, p: string)
    requires UniqueNames(ts) && Parse(r, p).None?
    ensures p !in OpenedParams(Opens(ts, a, r))
    ensures p !in ResolvedParams(Resolves(ts, a, r, now))
    ensures var a' := NextActive(a, Opens(ts, a, r), Resolves(ts, a, r, now), r.timestamp, key);
      (p in a' <==> p in a) && (p in a ==> a'[p] == a[p])
  {
    OpenedIff(ts, a, r, p);
    ResolvedIff(ts, a, r, now, p);
    ActiveAfterStep(ts, a, r, now, key, p);
  }

  /**
   * The opened issues follow table order: their parameters sit at strictly
   * increasing table positions, so no parameter is opened twice in one call.
   */
  lemma {:induction false} OpensInTableOrder(ts: seq<Threshold>, a: ActiveAlerts, r: Reading)
    requires UniqueNames(ts)
    ensures forall i, j :: 0 <= i < j < |Opens(ts, a, r)| ==>
      IndexOf(ts, Opens(ts, a, r)[i].parameter).Some? && IndexOf(ts, Opens(ts, a, r)[j].parameter).Some?
      && IndexOf(ts, Opens(ts, a, r)[i].parameter).value < IndexOf(ts, Opens(ts, a, r)[j].parameter).value
  {
    if ts != [] {
      var n := |ts| - 1;
      var init := ts[..n];
      UniqueNamesInit(ts);
      OpensInTableOrder(init, a, r);
      OpensSound(init, a, r);
      var pre := Opens(init, a, r);
      var os := Opens(ts, a, r);
      assert os == pre + OpenOf(ts[n], a, r);
      forall k | 0 <= k < |pre|
        ensures IndexOf(ts, pre[k].parameter) == IndexOf(init, pre[k].parameter)
        ensures IndexOf(init, pre[k].parameter).Some? && IndexOf(init, pre[k].parameter).value < n
      {
        var i :| 0 <= i < |init| && init[i].param == pre[k].parameter;
        assert ts[i] == init[i];
      }
      if |os| > |pre| {
        IndexOfUnique(ts, n);
      }
      forall i, j | 0 <= i < j < |os|
        ensures IndexOf(ts, os[i].parameter).Some? && IndexOf(ts, os[j].parameter).Some?
          && IndexOf(ts, os[i].parameter).value < IndexOf(ts, os[j].parameter).value
      {
        assert os[i] == pre[i];
        if j < |pre| {
          assert os[j] == pre[j];
        } else {
          assert os[j] == OpenOf(ts[n], a, r)[0] && os[j].parameter == ts[n].param;
        }
      }
    } else {
      assert Opens(ts, a, r) == [];
    }
  }

  /**
   * The resolved issues follow table order, so no parameter is resolved twice
   * in one call.
   */
  lemma {:induction false} ResolvesInTableOrder(ts: seq<Threshold>, a: ActiveAlerts, r: Reading, now: int)
    requires UniqueNames(ts)
    ensures forall i, j :: 0 <= i < j < |Resolves(ts, a, r, now)| ==>
      IndexOf(ts, Resolves(ts, a, r, now)[i].parameter).Some? && IndexOf(ts, Resolves(ts, a, r, now)[j].parameter).Some?
      && IndexOf(ts, Resolves(ts, a, r, now)[i].parameter).value < IndexOf(ts, Resolves(ts, a, r, now)[j].parameter).value
  {
    if ts != [] {
      var n := |ts| - 1;
      var init := ts[..n];
      UniqueNamesInit(ts);
      ResolvesInTableOrder(init, a, r, now);
      ResolvesSound(init, a, r, now);
      var pre := Resolves(init, a, r, now);
      var rs := Resolves(ts, a, r, now);
      assert rs == pre + ResolveOf(ts[n], a, r, now);
      forall k | 0 <= k < |pre|
        ensures IndexOf(ts, pre[k].parameter) == IndexOf(init, pre[k].parameter)
        ensures IndexOf(init, pre[k].parameter).Some? && IndexOf(init, pre[k].parameter).value < n
      {
        var i :| 0 <= i < |init| && init[i].param == pre[k].parameter;
        assert ts[i] == init[i];
      }
      if |rs| > |pre| {
        IndexOfUnique(ts, n);
      }
      forall i, j | 0 <= i < j < |rs|
        ensures IndexOf(ts, rs[i].parameter).Some? && IndexOf(ts, rs[j].parameter).Some?
          && IndexOf(ts, rs[i].parameter).value < IndexOf(ts, rs[j].parameter).value
      {
        assert rs[i] == pre[i];
        if j < |pre| {
          assert rs[j] == pre[j];
        } else {
          assert rs[j] == ResolveOf(ts[n], a, r, now)[0] && rs[j].parameter == ts[n].param;
        }
      }
    } else {
      assert Resolves(ts, a, r, now) == [];
    }
  }

  /**
   * The entries one call adds to history: at most one "resolved" entry holding
   * every resolved issue, in front of at most one "alert" entry holding every
   * opened issue under the given key; none when nothing changes.
   */
  lemma NewEntriesShape(os: seq<OpenIssue>, rs: seq<ResolvedIssue>, r: Reading, now: int, key: Key)
    ensures var es := NewEntries(os, rs, r, now, key);
      && |es| == (if os != [] then 1 else 0) + (if rs != [] then 1 else 0)
      && (rs != [] ==> es[0] == ResolvedEntry(now, rs, r))
      && (os != [] ==> es[|es| - 1] == AlertEntry(now, os, r, Some(key)))
      && (forall e :: e in es ==> (e.AlertEntry? ==> e.issues != []) && (e.ResolvedEntry? ==> e.resolutions != []))
  {
  }

  /** On a four-entry table the walk is the four entries' contributions in order. */
  lemma WalkOfFour(ts: seq<Threshold>, a: ActiveAlerts, r: Reading, now: int)
    requires |ts| == 4
    ensures Opens(ts, a, r) == OpenOf(ts[0], a, r) + OpenOf(ts[1], a, r) + OpenOf(ts[2], a, r) + OpenOf(ts[3], a, r)
    ensures Resolves(ts, a, r, now)
         == ResolveOf(ts[0], a, r, now) + ResolveOf(ts[1], a, r, now) + ResolveOf(ts[2], a, r, now) + ResolveOf(ts[3], a, r, now)
  {
    assert ts[..3][..2] == ts[..2] && ts[..2][..1] == ts[..1] && ts[..1][..0] == [];
    assert ts[..3][2] == ts[2] && ts[..2][1] == ts[1] && ts[..1][0] == ts[0];
    assert Opens(ts[..1], a, r) == OpenOf(ts[0], a, r);
    assert Opens(ts[..2], a, r) == Opens(ts[..1], a, r) + OpenOf(ts[1], a, r);
    assert Opens(ts[..3], a, r) == Opens(ts[..2], a, r) + OpenOf(ts[2], a, r);
    assert Resolves(ts[..1], a, r, now) == ResolveOf(ts[0], a, r, now);
    assert Resolves(ts[..2], a, r, now) == Resolves(ts[..1], a, r, now) + ResolveOf(ts[1], a, r, now);
    assert Resolves(ts[..3], a, r, now) == Resolves(ts[..2], a, r, now) + ResolveOf(ts[2], a, r, now);
  }

  /** A reading that carries only a temperature value and a timestamp. */
  function TemperatureReading(v: real, at: int): Reading
  {
    Reading(map["temperature" := Some(v)], Some(at))
  }

  /** With no active alert, an in-range temperature of 20 opens and resolves nothing. */
  lemma TemperatureInRangeIsQuiet(t1: int)
    ensures Opens(THRESHOLDS, map[], TemperatureReading(20.0, t1)) == []
    ensures Resolves(THRESHOLDS, map[], TemperatureReading(20.0, t1), t1) == []
  {
    WalkOfFour(THRESHOLDS, map[], TemperatureReading(20.0, t1), t1);
  }

  /**
   * With no active alert, a temperature of 40 opens exactly one issue and
   * makes temperature active with the reading's own timestamp and the key of
   * the alert entry.
   */
  lemma TemperatureHighOpens(t2: int, key: Key)
    ensures Opens(THRESHOLDS, map[], TemperatureReading(40.0, t2))
         == [OpenIssue("temperature", 40.0, Range(18.0, 35.0))]
    ensures Resolves(THRESHOLDS, map[], TemperatureReading(40.0, t2), t2) == []
    ensures NextActive(map[], [OpenIssue("temperature", 40.0, Range(18.0, 35.0))], [], Some(t2), key)
         == map["temperature" := ActiveAlert(Some(t2), key)]
  {
    WalkOfFour(THRESHOLDS, map[], TemperatureReading(40.0, t2), t2);
    OpenedParamsOne(OpenIssue("temperature", 40.0, Range(18.0, 35.0)));
    assert ResolvedParams([]) == {};
  }

  /** With temperature already alerted, the same 40 reading again opens and resolves nothing. */
  lemma TemperatureHighAgainIsQuiet(t2: int, t3: int, key: Key)
    ensures var a := map["temperature" := ActiveAlert(Some(t2), key)];
      && Opens(THRESHOLDS, a, TemperatureReading(40.0, t2)) == []
      && Resolves(THRESHOLDS, a, TemperatureReading(40.0, t2), t3) == []
  {
    WalkOfFour(THRESHOLDS, map["temperature" := ActiveAlert(Some(t2), key)], TemperatureReading(40.0, t2), t3);
  }

  /**
   * With temperature alerted since `t2`, a temperature of 30 at `t4` resolves
   * it, linked to the alert's key and timed from the opening reading, and
   * leaves no active alert.
   */
  lemma TemperatureBackInRangeResolves(t2: int, t4: int, key: Key)
    ensures var a := map["temperature" := ActiveAlert(Some(t2), key)];
      && Opens(THRESHOLDS, a, TemperatureReading(30.0, t4)) == []
      && Resolves(THRESHOLDS, a, TemperatureReading(30.0, t4), t4)
         == [ResolvedIssue("temperature", 30.0, t4, Some(RoundMinutes(t4 - t2)), Range(18.0, 35.0), key)]
      && NextActive(a, [], [ResolvedIssue("temperature", 30.0, t4, Some(RoundMinutes(t4 - t2)), Range(18.0, 35.0), key)],
                    Some(t4), key) == map[]
  {
    var a := map["temperature" := ActiveAlert(Some(t2), key)];
    WalkOfFour(THRESHOLDS, a, TemperatureReading(30.0, t4), t4);
    ResolvedParamsOne(ResolvedIssue("temperature", 30.0, t4, Some(RoundMinutes(t4 - t2)), Range(18.0, 35.0), key));
    assert OpenedParams([]) == {};
  }

  /**
   * Temperature and humidity out of range in the same reading: one alert entry
   * carrying both issues, in table order, and both alerts share its key.
   */
  lemma TwoExcursionsOneEntry(at: int, now: int, key: Key)
    ensures var r := Reading(map["temperature" := Some(40.0), "humidity" := Some(90.0)], Some(at));
      var os := [OpenIssue("temperature", 40.0, Range(18.0, 35.0)), OpenIssue("humidity", 90.0, Range(40.0, 80.0))];
      && Opens(THRESHOLDS, map[], r) == os
      && Resolves(THRESHOLDS, map[], r, now) == []
      && NewEntries(os, [], r, now, key) == [AlertEntry(now, os, r, Some(key))]
      && NextActive(map[], os, [], Some(at), key)
         == map["temperature" := ActiveAlert(Some(at), key), "humidity" := ActiveAlert(Some(at), key)]
  {
    var r := Reading(map["temperature" := Some(40.0), "humidity" := Some(90.0)], Some(at));
    var os := [OpenIssue("temperature", 40.0, Range(18.0, 35.0)), OpenIssue("humidity", 90.0, Range(40.0, 80.0))];
    WalkOfFour(THRESHOLDS, map[], r, now);
    OpenedParamsAppend([os[0]], [os[1]]);
    assert [os[0]] + [os[1]] == os;
    OpenedParamsOne(os[0]);
    OpenedParamsOne(os[1]);
    assert ResolvedParams([]) == {};
  }
}
