/**
 * The trigger table of main.go (lines 74-100): every configured script's
 * trigger strings "<kind> <value>" are read once, in configuration order,
 * into four tables. An unknown kind or a bad interval duration stops the
 * launcher before it starts.
 */
module Triggers {
  import opened Wrappers
  import opened GoStrings

  /** One `[[scripts]]` entry of the configuration file. */
  datatype ScriptConf = ScriptConf(
    name: string,
    path: string,
    triggers: seq<string>,
    colour: int,
    stayOpen: bool,
    columns: seq<int>)

  /**
   * on-start script names; prefix -> script names; script name -> chained
   * script names; script name -> refresh interval (nanoseconds).
   */
  datatype TriggerTable = TriggerTable(
    onStart: set<string>,
    prefix: map<string, seq<string>>,
    chain: map<string, seq<string>>,
    interval: map<string, int>)

  datatype ConfigError =
    | BadDuration(script: string, value: string)
    | UnknownKind(script: string, kind: string)

  /** time.ParseDuration, left abstract: a partial parser of durations. */
  type DurationParser = string -> Option<int>

  const Empty := TriggerTable({}, map[], map[], map[])

  /** A Go map lookup of a slice: absent keys give the empty (nil) slice. */
  function Names(m: map<string, seq<string>>, k: string): seq<string> {
    if k in m then m[k] else []
  }

  /** A Go map lookup of a duration: absent keys give 0. */
  function IntervalOf(m: map<string, int>, k: string): int {
    if k in m then m[k] else 0
  }

  function Kind(trigger: string): string { Cut(trigger, ' ').0 }

  function Value(trigger: string): string { Cut(trigger, ' ').1 }

  /** The switch on a trigger's kind (main.go:82-98). */
  function AddTrigger(t: TriggerTable, name: string, trigger: string, parse: DurationParser)
    : Result<TriggerTable, ConfigError>
  {
    var kind, value := Kind(trigger), Value(trigger);
    if kind == "on-start" then
      Success(t.(onStart := t.onStart + {name}))
    else if kind == "pre" then
      Success(t.(prefix := t.prefix[value := Names(t.prefix, value) + [name]]))
    else if kind == "script" then
      Success(t.(chain := t.chain[name := Names(t.chain, name) + [value]]))
    else if kind == "interval" then
      match parse(value)
      case None => Failure(BadDuration(name, value))
      case Some(d) => Success(t.(interval := t.interval[name := d]))
    else
      Failure(UnknownKind(name, kind))
  }

  /** The inner loop: one script's triggers in order, stopping at the first error. */
  function AddTriggers(t: TriggerTable, name: string, ts: seq<string>, parse: DurationParser)
    : Result<TriggerTable, ConfigError>
    decreases |ts|
  {
    if ts == [] then Success(t)
    else
      match AddTrigger(t, name, ts[0], parse)
      case Failure(e) => Failure(e)
      case Success(t') => AddTriggers(t', name, ts[1..], parse)
  }

  /** The outer loop: every script in configuration order. */
  function BuildFrom(t: TriggerTable, confs: seq<ScriptConf>, parse: DurationParser)
    : Result<TriggerTable, ConfigError>
    decreases |confs|
  {
    if confs == [] then Success(t)
    else
      match AddTriggers(t, confs[0].name, confs[0].triggers, parse)
      case Failure(e) => Failure(e)
      case Success(t') => BuildFrom(t', confs[1..], parse)
  }

  function BuildTable(confs: seq<ScriptConf>, parse: DurationParser): Result<TriggerTable, ConfigError> {
    BuildFrom(Empty, confs, parse)
  }

  /** What is left to do after script `i`'s triggers from `j` on have been read into `t`. */
  function Resume(t: TriggerTable, confs: seq<ScriptConf>, i: nat, j: nat, parse: DurationParser)
    : Result<TriggerTable, ConfigError>
    requires i < |confs| && j <= |confs[i].triggers|
  {
    match AddTriggers(t, confs[i].name, confs[i].triggers[j..], parse)
    case Failure(e) => Failure(e)
    case Success(t') => BuildFrom(t', confs[i + 1..], parse)
  }

  /** The trigger-table loop of main.go:80-100, mutating the four maps in place. */
  method BuildTriggerTable(confs: seq<ScriptConf>, parse: DurationParser)
    returns (r: Result<TriggerTable, ConfigError>)
    ensures r == BuildTable(confs, parse)
  {
    var onStart: set<string> := {};
    var prefix: map<string, seq<string>> := map[];
    var chain: map<string, seq<string>> := map[];
    var interval: map<string, int> := map[];
    for i := 0 to |confs|
      invariant BuildFrom(TriggerTable(onStart, prefix, chain, interval), confs[i..], parse) == BuildTable(confs, parse)
    {
      var sconf := confs[i];
      for j := 0 to |sconf.triggers|
        invariant Resume(TriggerTable(onStart, prefix, chain, interval), confs, i, j, parse) == BuildTable(confs, parse)
      {
        var trigger := sconf.triggers[j];
        ghost var before := TriggerTable(onStart, prefix, chain, interval);
        assert sconf.triggers[j..][1..] == sconf.triggers[j + 1..];
        var (typ, value, _) := Cut(trigger, ' ');
        if typ == "on-start" {
          onStart := onStart + {sconf.name};
        } else if typ == "pre" {
          prefix := prefix[value := Names(prefix, value) + [sconf.name]];
        } else if typ == "script" {
          chain := chain[sconf.name := Names(chain, sconf.name) + [value]];
        } else if typ == "interval" {
          var d := parse(value);
          if d.None? {
            return Failure(BadDuration(sconf.name, value));
          }
          interval := interval[sconf.name := d.value];
        } else {
          return Failure(UnknownKind(sconf.name, typ));
        }
        assert AddTrigger(before, sconf.name, trigger, parse) == Success(TriggerTable(onStart, prefix, chain, interval));
      }
      assert sconf.triggers[|sconf.triggers|..] == [];
      assert confs[i..][1..] == confs[i + 1..];
    }
    assert confs[|confs|..] == [];
    r := Success(TriggerTable(onStart, prefix, chain, interval));
  }

  /** A trigger the switch accepts: a known kind, and a duration that parses for `interval`. */
  predicate TriggerValid(trigger: string, parse: DurationParser) {
    var kind := Kind(trigger);
    (kind == "on-start" || kind == "pre" || kind == "script" || kind == "interval") &&
    (kind == "interval" ==> parse(Value(trigger)).Some?)
  }

  predicate TriggersValid(ts: seq<string>, parse: DurationParser) {
    forall j :: 0 <= j < |ts| ==> TriggerValid(ts[j], parse)
  }

  predicate ConfsValid(confs: seq<ScriptConf>, parse: DurationParser) {
    forall i :: 0 <= i < |confs| ==> TriggersValid(confs[i].triggers, parse)
  }

  /** The error the switch reports for an invalid trigger of script `name`. */
  function ErrorFor(name: string, trigger: string): ConfigError {
    if Kind(trigger) == "interval" then BadDuration(name, Value(trigger))
    else UnknownKind(name, Kind(trigger))
  }

  lemma AddTriggerOutcome(t: TriggerTable, name: string, trigger: string, parse: DurationParser)
    ensures AddTrigger(t, name, trigger, parse).Success? <==> TriggerValid(trigger, parse)
    ensures AddTrigger(t, name, trigger, parse).Failure? ==>
              AddTrigger(t, name, trigger, parse).error == ErrorFor(name, trigger)
  {
  }

  lemma {:induction false} AddTriggersOutcome(t: TriggerTable, name: string, ts: seq<string>, parse: DurationParser)
    ensures AddTriggers(t, name, ts, parse).Success? <==> TriggersValid(ts, parse)
    decreases |ts|
  {
    if ts != [] {
      AddTriggerOutcome(t, name, ts[0], parse);
      assert forall j :: 0 < j < |ts| ==> ts[1..][j - 1] == ts[j];
      match AddTrigger(t, name, ts[0], parse)
      case Failure(_) =>
      case Success(t') => AddTriggersOutcome(t', name, ts[1..], parse);
    }
  }

  lemma {:induction false} BuildFromOutcome(t: TriggerTable, confs: seq<ScriptConf>, parse: DurationParser)
    ensures BuildFrom(t, confs, parse).Success? <==> ConfsValid(confs, parse)
    decreases |confs|
  {
    if confs != [] {
      AddTriggersOutcome(t, confs[0].name, confs[0].triggers, parse);
      assert forall i :: 0 < i < |confs| ==> confs[1..][i - 1] == confs[i];
      match AddTriggers(t, confs[0].name, confs[0].triggers, parse)
      case Failure(_) =>
      case Success(t') => BuildFromOutcome(t', confs[1..], parse);
    }
  }

  /** Building the table succeeds exactly when every trigger of every script is valid. */
  lemma BuildTableSucceedsIff(confs: seq<ScriptConf>, parse: DurationParser)
    ensures BuildTable(confs, parse).Success? <==> ConfsValid(confs, parse)
  {
    BuildFromOutcome(Empty, confs, parse);
  }

  lemma TriggersValidCons(ts: seq<string>, parse: DurationParser)
    requires ts != []
    ensures TriggersValid(ts, parse) <==> TriggerValid(ts[0], parse) && TriggersValid(ts[1..], parse)
  {
    assert forall j :: 0 < j < |ts| ==> ts[1..][j - 1] == ts[j];
  }

  lemma ConfsValidCons(confs: seq<ScriptConf>, parse: DurationParser)
    requires confs != []
    ensures ConfsValid(confs, parse) <==> TriggersValid(confs[0].triggers, parse) && ConfsValid(confs[1..], parse)
  {
    assert forall i :: 0 < i < |confs| ==> confs[1..][i - 1] == confs[i];
  }

  lemma AddTriggersStep(t: TriggerTable, name: string, ts: seq<string>, parse: DurationParser)
    requires ts != [] && AddTrigger(t, name, ts[0], parse).Success?
    ensures AddTriggers(t, name, ts, parse) == AddTriggers(AddTrigger(t, name, ts[0], parse).value, name, ts[1..], parse)
  {
  }

  lemma {:induction false} AddTriggersFirstError(t: TriggerTable, name: string, ts: seq<string>, parse: DurationParser)
    returns (j: nat)
    requires AddTriggers(t, name, ts, parse).Failure?
    ensures j < |ts| && TriggersValid(ts[..j], parse) && !TriggerValid(ts[j], parse)
    ensures AddTriggers(t, name, ts, parse).error == ErrorFor(name, ts[j])
    decreases |ts|
  {
    AddTriggerOutcome(t, name, ts[0], parse);
    var r := AddTrigger(t, name, ts[0], parse);
    if r.Failure? {
      j := 0;
      assert ts[..0] == [];
    } else {
      AddTriggersStep(t, name, ts, parse);
      var k := AddTriggersFirstError(r.value, name, ts[1..], parse);
      j := k + 1;
      var pre := ts[..j];
      assert pre[0] == ts[0] && pre[1..] == ts[1..][..k];
      TriggersValidCons(pre, parse);
    }
  }

  lemma BuildFromStep(t: TriggerTable, confs: seq<ScriptConf>, parse: DurationParser)
    requires confs != [] && AddTriggers(t, confs[0].name, confs[0].triggers, parse).Success?
    ensures BuildFrom(t, confs, parse) ==
            BuildFrom(AddTriggers(t, confs[0].name, confs[0].triggers, parse).value, confs[1..], parse)
  {
  }

  lemma {:induction false} BuildFromFirstError(t: TriggerTable, confs: seq<ScriptConf>, parse: DurationParser)
    returns (i: nat, j: nat)
    requires BuildFrom(t, confs, parse).Failure?
    ensures i < |confs| && j < |confs[i].triggers|
    ensures ConfsValid(confs[..i], parse) && TriggersValid(confs[i].triggers[..j], parse)
    ensures !TriggerValid(confs[i].triggers[j], parse)
    ensures BuildFrom(t, confs, parse).error == ErrorFor(confs[i].name, confs[i].triggers[j])
    decreases |confs|
  {
    var r := AddTriggers(t, confs[0].name, confs[0].triggers, parse);
    if r.Failure? {
      i := 0;
      assert confs[..0] == [];
      j := AddTriggersFirstError(t, confs[0].name, confs[0].triggers, parse);
    } else {
      AddTriggersOutcome(t, confs[0].name, confs[0].triggers, parse);
      BuildFromStep(t, confs, parse);
      var k, j' := BuildFromFirstError(r.value, confs[1..], parse);
      i, j := k + 1, j';
      var pre := confs[..i];
      assert pre[0] == confs[0] && pre[1..] == confs[1..][..k];
      ConfsValidCons(pre, parse);
    }
  }

  /**
   * Parsing stops at the first invalid trigger in configuration order, and
   * reports it: an unknown kind, or an interval whose duration does not parse.
   */
  lemma BuildTableFirstError(confs: seq<ScriptConf>, parse: DurationParser) returns (i: nat, j: nat)
    requires BuildTable(confs, parse).Failure?
    ensures i < |confs| && j < |confs[i].triggers|
    ensures ConfsValid(confs[..i], parse) && TriggersValid(confs[i].triggers[..j], parse)
    ensures !TriggerValid(confs[i].triggers[j], parse)
    ensures BuildTable(confs, parse).error == ErrorFor(confs[i].name, confs[i].triggers[j])
  {
    i, j := BuildFromFirstError(Empty, confs, parse);
  }

  // Reference definitions of the four tables, read straight off the configuration.

  /** `name` once per `pre p` trigger in `ts`. */
  function PreHits(name: string, ts: seq<string>, p: string): seq<string> {
    if ts == [] then []
    else (if Kind(ts[0]) == "pre" && Value(ts[0]) == p then [name] else []) + PreHits(name, ts[1..], p)
  }

  /** The scripts with a `pre p` trigger, in configuration order, once per such trigger. */
  function PrefixNames(confs: seq<ScriptConf>, p: string): seq<string> {
    if confs == [] then [] else PreHits(confs[0].name, confs[0].triggers, p) + PrefixNames(confs[1..], p)
  }

  /** The values of the `script` triggers in `ts`, in order. */
  function ChainHits(ts: seq<string>): seq<string> {
    if ts == [] then []
    else (if Kind(ts[0]) == "script" then [Value(ts[0])] else []) + ChainHits(ts[1..])
  }

  /** The scripts chained from `n`: the `script` triggers of every entry named `n`. */
  function ChainTargets(confs: seq<ScriptConf>, n: string): seq<string> {
    if confs == [] then []
    else (if confs[0].name == n then ChainHits(confs[0].triggers) else []) + ChainTargets(confs[1..], n)
  }

  predicate HasOnStart(ts: seq<string>) {
    exists j :: 0 <= j < |ts| && Kind(ts[j]) == "on-start"
  }

  function OnStartNames(confs: seq<ScriptConf>): set<string> {
    set i | 0 <= i < |confs| && HasOnStart(confs[i].triggers) :: confs[i].name
  }

  /** The duration of the last `interval` trigger in `ts`, if any. */
  function LastInterval(ts: seq<string>, parse: DurationParser): Option<int> {
    if ts == [] then None
    else
      var later := LastInterval(ts[1..], parse);
      if later.Some? then later
      else if Kind(ts[0]) == "interval" then parse(Value(ts[0]))
      else None
  }

  /** The duration of the last `interval` trigger of any entry named `n`, if any. */
  function IntervalFor(confs: seq<ScriptConf>, n: string, parse: DurationParser): Option<int> {
    if confs == [] then None
    else
      var later := IntervalFor(confs[1..], n, parse);
      if later.Some? then later
      else if confs[0].name == n then LastInterval(confs[0].triggers, parse)
      else None
  }

  function Lookup(m: map<string, int>, k: string): Option<int> {
    if k in m then Some(m[k]) else None
  }

  lemma AddTriggerPrefix(t: TriggerTable, name: string, trigger: string, parse: DurationParser, p: string)
    requires AddTrigger(t, name, trigger, parse).Success?
    ensures Names(AddTrigger(t, name, trigger, parse).value.prefix, p) ==
            Names(t.prefix, p) + (if Kind(trigger) == "pre" && Value(trigger) == p then [name] else [])
  {
    var kind, value := Kind(trigger), Value(trigger);
    if kind == "pre" {
      assert AddTrigger(t, name, trigger, parse).value.prefix == t.prefix[value := Names(t.prefix, value) + [name]];
    } else {
      assert AddTrigger(t, name, trigger, parse).value.prefix == t.prefix;
    }
  }

  lemma AddTriggerChain(t: TriggerTable, name: string, trigger: string, parse: DurationParser, n: string)
    requires AddTrigger(t, name, trigger, parse).Success?
    ensures Names(AddTrigger(t, name, trigger, parse).value.chain, n) ==
            Names(t.chain, n) + (if Kind(trigger) == "script" && n == name then [Value(trigger)] else [])
  {
    var kind, value := Kind(trigger), Value(trigger);
    if kind == "script" {
      assert AddTrigger(t, name, trigger, parse).value.chain == t.chain[name := Names(t.chain, name) + [value]];
    } else {
      assert AddTrigger(t, name, trigger, parse).value.chain == t.chain;
    }
  }

  lemma {:induction false} AddTriggersPrefix(t: TriggerTable, name: string, ts: seq<string>, parse: DurationParser, p: string)
    requires AddTriggers(t, name, ts, parse).Success?
    ensures Names(AddTriggers(t, name, ts, parse).value.prefix, p) == Names(t.prefix, p) + PreHits(name, ts, p)
    decreases |ts|
  {
    if ts != [] {
      var t1 := AddTrigger(t, name, ts[0], parse).value;
      AddTriggersStep(t, name, ts, parse);
      AddTriggerPrefix(t, name, ts[0], parse, p);
      AddTriggersPrefix(t1, name, ts[1..], parse, p);
      assert PreHits(name, ts, p) ==
             (if Kind(ts[0]) == "pre" && Value(ts[0]) == p then [name] else []) + PreHits(name, ts[1..], p);
    }
  }

  lemma {:induction false} AddTriggersChain(t: TriggerTable, name: string, ts: seq<string>, parse: DurationParser, n: string)
    requires AddTriggers(t, name, ts, parse).Success?
    ensures Names(AddTriggers(t, name, ts, parse).value.chain, n) ==
            Names(t.chain, n) + (if n == name then ChainHits(ts) else [])
    decreases |ts|
  {
    if ts != [] {
      var t1 := AddTrigger(t, name, ts[0], parse).value;
      AddTriggersStep(t, name, ts, parse);
      AddTriggerChain(t, name, ts[0], parse, n);
      AddTriggersChain(t1, name, ts[1..], parse, n);
    }
  }

  lemma HasOnStartCons(ts: seq<string>)
    requires ts != []
    ensures HasOnStart(ts) <==> Kind(ts[0]) == "on-start" || HasOnStart(ts[1..])
  {
    var rest := ts[1..];
    if HasOnStart(rest) {
      var j :| 0 <= j < |rest| && Kind(rest[j]) == "on-start";
      assert Kind(ts[j + 1]) == "on-start";
    }
    if HasOnStart(ts) {
      var j :| 0 <= j < |ts| && Kind(ts[j]) == "on-start";
      if j > 0 {
        assert Kind(rest[j - 1]) == "on-start";
      }
    }
  }

  lemma {:induction false} AddTriggersOnStart(t: TriggerTable, name: string, ts: seq<string>, parse: DurationParser)
    requires AddTriggers(t, name, ts, parse).Success?
    ensures AddTriggers(t, name, ts, parse).value.onStart == t.onStart + (if HasOnStart(ts) then {name} else {})
    decreases |ts|
  {
    if ts != [] {
      AddTriggersOnStart(AddTrigger(t, name, ts[0], parse).value, name, ts[1..], parse);
      HasOnStartCons(ts);
    }
  }

  lemma {:induction false} AddTriggersInterval(t: TriggerTable, name: string, ts: seq<string>, parse: DurationParser, n: string)
    requires AddTriggers(t, name, ts, parse).Success?
    ensures Lookup(AddTriggers(t, name, ts, parse).value.interval, n) ==
            if n == name && LastInterval(ts, parse).Some? then LastInterval(ts, parse) else Lookup(t.interval, n)
    decreases |ts|
  {
    if ts != [] {
      AddTriggersInterval(AddTrigger(t, name, ts[0], parse).value, name, ts[1..], parse, n);
    }
  }

  lemma OnStartNamesCons(confs: seq<ScriptConf>)
    requires confs != []
    ensures OnStartNames(confs) ==
            (if HasOnStart(confs[0].triggers) then {confs[0].name} else {}) + OnStartNames(confs[1..])
  {
    var rest := confs[1..];
    forall x | x in OnStartNames(rest) ensures x in OnStartNames(confs) {
      var i :| 0 <= i < |rest| && HasOnStart(rest[i].triggers) && rest[i].name == x;
      assert confs[i + 1] == rest[i];
    }
    forall x | x in OnStartNames(confs)
      ensures x in (if HasOnStart(confs[0].triggers) then {confs[0].name} else {}) + OnStartNames(rest)
    {
      var i :| 0 <= i < |confs| && HasOnStart(confs[i].triggers) && confs[i].name == x;
      if i > 0 {
        assert rest[i - 1] == confs[i];
      }
    }
  }

  lemma {:induction false} BuildFromPrefix(t: TriggerTable, confs: seq<ScriptConf>, parse: DurationParser, p: string)
    requires BuildFrom(t, confs, parse).Success?
    ensures Names(BuildFrom(t, confs, parse).value.prefix, p) == Names(t.prefix, p) + PrefixNames(confs, p)
    decreases |confs|
  {
    if confs != [] {
      var c := confs[0];
      AddTriggersPrefix(t, c.name, c.triggers, parse, p);
      BuildFromPrefix(AddTriggers(t, c.name, c.triggers, parse).value, confs[1..], parse, p);
    }
  }

  lemma {:induction false} BuildFromChain(t: TriggerTable, confs: seq<ScriptConf>, parse: DurationParser, n: string)
    requires BuildFrom(t, confs, parse).Success?
    ensures Names(BuildFrom(t, confs, parse).value.chain, n) == Names(t.chain, n) + ChainTargets(confs, n)
    decreases |confs|
  {
    if confs != [] {
      var c := confs[0];
      AddTriggersChain(t, c.name, c.triggers, parse, n);
      BuildFromChain(AddTriggers(t, c.name, c.triggers, parse).value, confs[1..], parse, n);
    }
  }

  lemma {:induction false} BuildFromOnStart(t: TriggerTable, confs: seq<ScriptConf>, parse: DurationParser)
    requires BuildFrom(t, confs, parse).Success?
    ensures BuildFrom(t, confs, parse).value.onStart == t.onStart + OnStartNames(confs)
    decreases |confs|
  {
    if confs == [] {
      assert OnStartNames(confs) == {};
    } else {
      var c := confs[0];
      AddTriggersOnStart(t, c.name, c.triggers, parse);
      BuildFromOnStart(AddTriggers(t, c.name, c.triggers, parse).value, confs[1..], parse);
      OnStartNamesCons(confs);
    }
  }

  lemma {:induction false} BuildFromInterval(t: TriggerTable, confs: seq<ScriptConf>, parse: DurationParser, n: string)
    requires BuildFrom(t, confs, parse).Success?
    ensures Lookup(BuildFrom(t, confs, parse).value.interval, n) ==
            if IntervalFor(confs, n, parse).Some? then IntervalFor(confs, n, parse) else Lookup(t.interval, n)
    decreases |confs|
  {
    if confs != [] {
      var c := confs[0];
      AddTriggersInterval(t, c.name, c.triggers, parse, n);
      BuildFromInterval(AddTriggers(t, c.name, c.triggers, parse).value, confs[1..], parse, n);
    }
  }

  /**
   * A successfully built table holds, for every prefix, the scripts with that
   * `pre` trigger in configuration order; for every script, its `script`
   * triggers' values in order; the scripts with an `on-start` trigger; and the
   * duration of each script's last `interval` trigger.
   */
  lemma BuildTableContents(confs: seq<ScriptConf>, parse: DurationParser)
    requires BuildTable(confs, parse).Success?
    ensures forall p :: Names(BuildTable(confs, parse).value.prefix, p) == PrefixNames(confs, p)
    ensures forall n :: Names(BuildTable(confs, parse).value.chain, n) == ChainTargets(confs, n)
    ensures BuildTable(confs, parse).value.onStart == OnStartNames(confs)
    ensures forall n :: Lookup(BuildTable(confs, parse).value.interval, n) == IntervalFor(confs, n, parse)
  {
    forall p ensures Names(BuildTable(confs, parse).value.prefix, p) == PrefixNames(confs, p) {
      BuildFromPrefix(Empty, confs, parse, p);
    }
    forall n ensures Names(BuildTable(confs, parse).value.chain, n) == ChainTargets(confs, n) {
      BuildFromChain(Empty, confs, parse, n);
    }
    BuildFromOnStart(Empty, confs, parse);
    forall n ensures Lookup(BuildTable(confs, parse).value.interval, n) == IntervalFor(confs, n, parse) {
      BuildFromInterval(Empty, confs, parse, n);
    }
  }
}
