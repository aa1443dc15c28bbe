/** The optional value used for values that may be absent or unparseable. */
module Options {
  datatype Option<+T> = None | Some(value: T)
}

/**
 * The static threshold table: for each monitored parameter, the inclusive
 * safe range [min, max]. Parameters absent from the table are never evaluated.
 */
module Thresholds {
  import opened Options

  /** A safe range; both ends are inside the range. */
  datatype Range = Range(min: real, max: real)

  datatype Threshold = Threshold(param: string, range: Range)

  /** The table, in the order in which the engine walks it. */
  const THRESHOLDS: seq<Threshold> := [
    Threshold("temperature", Range(18.0, 35.0)),
    Threshold("humidity", Range(40.0, 80.0)),
    Threshold("ph", Range(5.5, 7.5)),
    Threshold("tds", Range(800.0, 1600.0))
  ]

  /** A value is out of range only when strictly below min or strictly above max. */
  predicate OutOfRange(v: real, rg: Range)
  {
    v < rg.min || v > rg.max
  }

  /** The keys of a table are distinct, as the keys of an object literal are. */
  predicate UniqueNames(ts: seq<Threshold>)
  {
    forall i, j :: 0 <= i < j < |ts| ==> ts[i].param != ts[j].param
  }

  /** The position of parameter `p` in the table, if it is there. */
  function IndexOf(ts: seq<Threshold>, p: string): (k: Option<nat>)
    ensures k.Some? ==> k.value < |ts| && ts[k.value].param == p
    ensures k.None? ==> forall i :: 0 <= i < |ts| ==> ts[i].param != p
    decreases |ts|
  {
    if ts == [] then None
    else if ts[|ts| - 1].param == p then Some(|ts| - 1)
    else IndexOf(ts[..|ts| - 1], p)
  }

  /** The lookup `bounds(parameter) -> {min, max} | absent`. */
  function Bounds(ts: seq<Threshold>, p: string): (b: Option<Range>)
    ensures b.Some? <==> exists i :: 0 <= i < |ts| && ts[i].param == p
    ensures b.Some? ==> Threshold(p, b.value) in ts
  {
    match IndexOf(ts, p)
    case None => None
    case Some(k) => Some(ts[k].range)
  }

  /** In a table with distinct keys, each entry is found at its own position. */
  lemma IndexOfUnique(ts: seq<Threshold>, i: nat)
    requires UniqueNames(ts) && i < |ts|
    ensures IndexOf(ts, ts[i].param) == Some(i)
    ensures Bounds(ts, ts[i].param) == Some(ts[i].range)
  {
  }

  /** Dropping the last entry keeps distinct keys. */
  lemma UniqueNamesInit(ts: seq<Threshold>)
    requires UniqueNames(ts) && ts != []
    ensures UniqueNames(ts[..|ts| - 1])
  {
  }

  /** The configured table has distinct keys and non-empty ranges. */
  lemma TableIsWellFormed()
    ensures UniqueNames(THRESHOLDS)
    ensures forall t :: t in THRESHOLDS ==> t.range.min <= t.range.max
  {
  }
}
