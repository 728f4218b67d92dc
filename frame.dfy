/**
 * The frame the launcher recomputes after every event of its loop
 * (main.go:237-301): a key, the 250 ms redraw tick, or an applied load.
 * It decides which scripts
 * the query selects, which of them still need a first load, which lines
 * are visible, and which visible scripts are due for an interval reload.
 * The goroutines the frame starts are returned as the names they would
 * run; the clock is the parameter `now`.
 */
module Frame {
  import opened GoStrings
  import opened Triggers
  import opened Runner
  import opened Lines

  /** A visible line and the script it came from. */
  datatype Line = Line(script: string, text: string)

  /** Every name the trigger table can produce is a configured script. */
  predicate TableNamesConfigured(table: TriggerTable, scripts: map<string, Script>) {
    && (forall p, n :: p in table.prefix && n in table.prefix[p] ==> n in scripts)
    && (forall c, n :: c in table.chain && n in table.chain[c] ==> n in scripts)
  }

  predicate AllConfigured(names: seq<string>, scripts: map<string, Script>) {
    forall n :: n in names ==> n in scripts
  }

  // Selection (main.go:237-250)

  /** The chained scripts of each of `names`, in order: one level only. */
  function Chained(names: seq<string>, chain: map<string, seq<string>>): seq<string> {
    if names == [] then []
    else Chained(names[..|names| - 1], chain) + Names(chain, names[|names| - 1])
  }

  /**
   * The scripts a query selects and the query left for matching: a leading
   * word that is a registered prefix selects its scripts plus their chained
   * scripts, and the rest of the query is matched; otherwise every script
   * is selected in configuration order and the whole query is matched.
   */
  function Select(query: string, table: TriggerTable, keys: seq<string>): (string, seq<string>, bool)
  {
    var (left, rest, ok) := Cut(query, ' ');
    var base := Names(table.prefix, left);
    if ok && |base| > 0 then (rest, base + Chained(base, table.chain), true)
    else (query, keys, false)
  }

  /** The selected scripts that have no lines yet, in order. */
  function Unloaded(names: seq<string>, scripts: map<string, Script>): seq<string>
    requires AllConfigured(names, scripts)
    reads scripts.Values
  {
    if names == [] then []
    else
      var last := names[|names| - 1];
      Unloaded(names[..|names| - 1], scripts) + (if |scripts[last].lines| == 0 then [last] else [])
  }

  /** The prefix and chain expansion of main.go:237-247. */
  method SelectScripts(query: string, table: TriggerTable, keys: seq<string>)
    returns (scriptQuery: string, selected: seq<string>)
    ensures (scriptQuery, selected) == (Select(query, table, keys).0, Select(query, table, keys).1)
  {
    scriptQuery := query;
    selected := [];
    var (left, rest, ok) := Cut(query, ' ');
    if ok {
      var names := Names(table.prefix, left);
      if |names| > 0 {
        selected := names;
        scriptQuery := rest;
      }
    }
    // range evaluates the slice once: the names appended here are not expanded again
    var base := selected;
    var n := |base|;
    for i := 0 to n
      invariant selected == base + Chained(base[..i], table.chain)
    {
      assert base[..i + 1][..i] == base[..i];
      selected := selected + Names(table.chain, base[i]);
    }
    assert base[..n] == base;
    if |selected| == 0 {
      selected := keys;
    }
  }

  /** The first-load loop of main.go:251-260: the selected scripts without lines. */
  method FirstLoads(selected: seq<string>, scripts: map<string, Script>) returns (toLoad: seq<string>)
    requires AllConfigured(selected, scripts)
    ensures toLoad == Unloaded(selected, scripts)
  {
    toLoad := [];
    for i := 0 to |selected|
      invariant toLoad == Unloaded(selected[..i], scripts)
    {
      assert selected[..i + 1][..i] == selected[..i];
      if |scripts[selected[i]].lines| == 0 {
        toLoad := toLoad + [selected[i]];
      }
    }
    assert selected[..|selected|] == selected;
  }

  /** A prefix selection only names configured scripts. */
  lemma SelectionConfigured(query: string, table: TriggerTable, keys: seq<string>, scripts: map<string, Script>)
    requires TableNamesConfigured(table, scripts)
    requires Select(query, table, keys).2
    ensures AllConfigured(Select(query, table, keys).1, scripts)
  {
    var (left, rest, ok) := Cut(query, ' ');
    var base := Names(table.prefix, left);
    ChainedMember(base, table.chain);
  }

  /**
   * The selection step of a frame: the matched query, the selected
   * scripts, and the scripts a first load is started for (only when a
   * prefix selected them; the fallback to every script loads nothing).
   */
  method ResolveSelection(query: string, table: TriggerTable, keys: seq<string>, scripts: map<string, Script>)
    returns (scriptQuery: string, selected: seq<string>, toLoad: seq<string>)
    requires TableNamesConfigured(table, scripts)
    requires AllConfigured(keys, scripts)
    ensures scriptQuery == Select(query, table, keys).0
    ensures selected == Select(query, table, keys).1
    ensures AllConfigured(selected, scripts)
    ensures Select(query, table, keys).2 ==> toLoad == Unloaded(selected, scripts)
    ensures !Select(query, table, keys).2 ==> toLoad == []
  {
    scriptQuery, selected := SelectScripts(query, table, keys);
    toLoad := [];
    if Select(query, table, keys).2 {
      SelectionConfigured(query, table, keys, scripts);
      toLoad := FirstLoads(selected, scripts);
    }
  }

  lemma {:induction false} ChainedMember(names: seq<string>, chain: map<string, seq<string>>)
    ensures forall x :: x in Chained(names, chain) <==> exists i :: 0 <= i < |names| && x in Names(chain, names[i])
  {
    if names != [] {
      var init := names[..|names| - 1];
      ChainedMember(init, chain);
      forall x
        ensures x in Chained(names, chain) <==> exists i :: 0 <= i < |names| && x in Names(chain, names[i])
      {
        if x in Chained(init, chain) {
          var i :| 0 <= i < |init| && x in Names(chain, init[i]);
          assert names[i] == init[i];
        }
        if exists i :: 0 <= i < |names| && x in Names(chain, names[i]) {
          var i :| 0 <= i < |names| && x in Names(chain, names[i]);
          if i < |init| {
            assert names[i] == init[i];
          }
        }
      }
    }
  }

  /** A leading registered prefix word selects its scripts and leaves the rest of the query. */
  lemma SelectByPrefix(left: string, rest: string, table: TriggerTable, keys: seq<string>)
    requires ' ' !in left
    requires |Names(table.prefix, left)| > 0
    ensures Select(left + " " + rest, table, keys) ==
            (rest, Names(table.prefix, left) + Chained(Names(table.prefix, left), table.chain), true)
  {
    CutAt(left, ' ', rest);
  }

  /** A query without a space selects every script and is matched whole. */
  lemma SelectWithoutSpace(query: string, table: TriggerTable, keys: seq<string>)
    requires ' ' !in query
    ensures Select(query, table, keys) == (query, keys, false)
  {
  }

  /** So does a query whose first word is not a registered prefix. */
  lemma SelectUnknownPrefix(left: string, rest: string, table: TriggerTable, keys: seq<string>)
    requires ' ' !in left
    requires |Names(table.prefix, left)| == 0
    ensures Select(left + " " + rest, table, keys) == (left + " " + rest, keys, false)
  {
    CutAt(left, ' ', rest);
  }

  /**
   * Under a prefix the selection is the prefix's scripts and the scripts
   * each of them chains to, and nothing else.
   */
  lemma SelectMember(query: string, table: TriggerTable, keys: seq<string>, x: string)
    requires Select(query, table, keys).2
    ensures var base := Names(table.prefix, Cut(query, ' ').0);
            x in Select(query, table, keys).1 <==>
              x in base || exists b :: b in base && x in Names(table.chain, b)
  {
    var base := Names(table.prefix, Cut(query, ' ').0);
    ChainedMember(base, table.chain);
    if exists b :: b in base && x in Names(table.chain, b) {
      var b :| b in base && x in Names(table.chain, b);
      var i :| 0 <= i < |base| && base[i] == b;
    }
  }

  /** `pre a` on `a`; `a` chains to `b` and `b` chains to `c`. */
  const ChainExample := TriggerTable({}, map["a" := ["a"]], map["a" := ["b"], "b" := ["c"]], map[])

  /** Chains are followed one level: the query "a x" selects `a` and `b`, not `c`. */
  lemma ChainOneLevel(keys: seq<string>)
    ensures Select("a x", ChainExample, keys) == ("x", ["a", "b"], true)
    ensures "c" !in Select("a x", ChainExample, keys).1
  {
    assert "a x" == "a" + " " + "x";
    assert Names(ChainExample.prefix, "a") == ["a"];
    SelectByPrefix("a", "x", ChainExample, keys);
    assert ["a"][..0] == [];
    assert Names(ChainExample.chain, "a") == ["b"];
    assert Chained(["a"], ChainExample.chain) == ["b"];
    assert ["a"] + ["b"] == ["a", "b"];
  }

  lemma {:induction false} UnloadedMember(names: seq<string>, scripts: map<string, Script>, x: string)
    requires AllConfigured(names, scripts)
    ensures x in Unloaded(names, scripts) <==> x in names && |scripts[x].lines| == 0
  {
    if names != [] {
      var init := names[..|names| - 1];
      assert names == init + [names[|names| - 1]];
      UnloadedMember(init, scripts, x);
    }
  }

  /** Once every selected script has lines, a prefix selection starts no load. */
  lemma LoadedSelectsNothing(names: seq<string>, scripts: map<string, Script>)
    requires AllConfigured(names, scripts)
    requires forall n :: n in names ==> |scripts[n].lines| > 0
    ensures Unloaded(names, scripts) == []
  {
    var u := Unloaded(names, scripts);
    if u != [] {
      UnloadedMember(names, scripts, u[0]);
      assert false;
    }
  }

  // Visibility (main.go:262-279)

  /** An item is shown when nothing is typed at all or it matches the query. */
  predicate Shown(input: string, query: string, item: string) {
    input == "" || Match(item, query)
  }

  /** The items shown, in order. */
  function Passing(items: seq<string>, input: string, query: string): seq<string> {
    if items == [] then []
    else
      var last := items[|items| - 1];
      Passing(items[..|items| - 1], input, query) + (if Shown(input, query, last) then [last] else [])
  }

  /** Each item as a line of script `name`, in order. */
  function Tag(name: string, items: seq<string>): seq<Line> {
    if items == [] then [] else Tag(name, items[..|items| - 1]) + [Line(name, items[|items| - 1])]
  }

  /** The visible lines: the shown items of each selected script, script by script. */
  function Visible(selected: seq<string>, scripts: map<string, Script>, input: string, query: string): seq<Line>
    requires AllConfigured(selected, scripts)
    reads scripts.Values
  {
    if selected == [] then []
    else
      var last := selected[|selected| - 1];
      Visible(selected[..|selected| - 1], scripts, input, query) + Tag(last, Passing(scripts[last].lines, input, query))
  }

  /** The selected scripts with at least one shown item, in order. */
  function VisibleScripts(selected: seq<string>, scripts: map<string, Script>, input: string, query: string): seq<string>
    requires AllConfigured(selected, scripts)
    reads scripts.Values
  {
    if selected == [] then []
    else
      var last := selected[|selected| - 1];
      VisibleScripts(selected[..|selected| - 1], scripts, input, query) +
      (if |Passing(scripts[last].lines, input, query)| > 0 then [last] else [])
  }

  /** Every line of every selected script, script by script. */
  function AllLines(selected: seq<string>, scripts: map<string, Script>): seq<Line>
    requires AllConfigured(selected, scripts)
    reads scripts.Values
  {
    if selected == [] then []
    else
      var last := selected[|selected| - 1];
      AllLines(selected[..|selected| - 1], scripts) + Tag(last, scripts[last].lines)
  }

  /** The inner visibility loop: one script's shown items, and whether it has any. */
  method ShownLines(name: string, items: seq<string>, input: string, query: string)
    returns (tagged: seq<Line>, scriptVisible: bool)
    ensures tagged == Tag(name, Passing(items, input, query))
    ensures scriptVisible <==> |Passing(items, input, query)| > 0
  {
    tagged := [];
    scriptVisible := false;
    for j := 0 to |items|
      invariant tagged == Tag(name, Passing(items[..j], input, query))
      invariant scriptVisible <==> |Passing(items[..j], input, query)| > 0
    {
      assert items[..j + 1][..j] == items[..j];
      assert Passing(items[..j + 1], input, query) ==
             Passing(items[..j], input, query) + (if Shown(input, query, items[j]) then [items[j]] else []);
      if input == "" || Match(items[j], query) {
        TagSnoc(name, Passing(items[..j], input, query), items[j]);
        tagged := tagged + [Line(name, items[j])];
        scriptVisible := true;
      } else {
        assert Passing(items[..j + 1], input, query) == Passing(items[..j], input, query);
      }
    }
    assert items[..|items|] == items;
  }

  /** The visibility loops: the visible lines and the scripts that have one. */
  method VisibleLines(input: string, query: string, selected: seq<string>, scripts: map<string, Script>)
    returns (visLines: seq<Line>, visScripts: seq<string>)
    requires AllConfigured(selected, scripts)
    ensures visLines == Visible(selected, scripts, input, query)
    ensures visScripts == VisibleScripts(selected, scripts, input, query)
    ensures AllConfigured(visScripts, scripts)
  {
    visLines := [];
    visScripts := [];
    for i := 0 to |selected|
      invariant visLines == Visible(selected[..i], scripts, input, query)
      invariant visScripts == VisibleScripts(selected[..i], scripts, input, query)
    {
      assert selected[..i + 1][..i] == selected[..i];
      var name := selected[i];
      var tagged, scriptVisible := ShownLines(name, scripts[name].lines, input, query);
      visLines := visLines + tagged;
      if scriptVisible {
        visScripts := visScripts + [name];
      }
    }
    assert selected[..|selected|] == selected;
    VisibleScriptsConfigured(selected, scripts, input, query);
  }

  lemma TagSnoc(name: string, items: seq<string>, x: string)
    ensures Tag(name, items + [x]) == Tag(name, items) + [Line(name, x)]
  {
    assert (items + [x])[..|items|] == items;
  }

  lemma {:induction false} PassingMember(items: seq<string>, input: string, query: string, t: string)
    ensures t in Passing(items, input, query) <==> t in items && Shown(input, query, t)
  {
    if items != [] {
      var init := items[..|items| - 1];
      assert items == init + [items[|items| - 1]];
      PassingMember(init, input, query, t);
    }
  }

  lemma {:induction false} TagMember(name: string, items: seq<string>, l: Line)
    ensures l in Tag(name, items) <==> l.script == name && l.text in items
  {
    if items != [] {
      var init := items[..|items| - 1];
      assert items == init + [items[|items| - 1]];
      TagMember(name, init, l);
    }
  }

  /** A line is visible exactly when its script is selected and its item is shown. */
  lemma {:induction false} VisibleMember(selected: seq<string>, scripts: map<string, Script>, input: string, query: string, l: Line)
    requires AllConfigured(selected, scripts)
    ensures l in Visible(selected, scripts, input, query) <==>
              l.script in selected && l.text in scripts[l.script].lines && Shown(input, query, l.text)
  {
    if selected != [] {
      var init := selected[..|selected| - 1];
      var last := selected[|selected| - 1];
      assert selected == init + [last];
      VisibleMember(init, scripts, input, query, l);
      TagMember(last, Passing(scripts[last].lines, input, query), l);
      PassingMember(scripts[last].lines, input, query, l.text);
    }
  }

  predicate HasShown(items: seq<string>, input: string, query: string) {
    exists t :: t in items && Shown(input, query, t)
  }

  lemma PassingNonEmpty(items: seq<string>, input: string, query: string)
    ensures |Passing(items, input, query)| > 0 <==> HasShown(items, input, query)
  {
    var passing := Passing(items, input, query);
    if |passing| > 0 {
      PassingMember(items, input, query, passing[0]);
    }
    if HasShown(items, input, query) {
      var t :| t in items && Shown(input, query, t);
      PassingMember(items, input, query, t);
    }
  }

  /** A script is listed as visible exactly when it is selected and one of its items is shown. */
  lemma {:induction false} VisibleScriptsMember(selected: seq<string>, scripts: map<string, Script>, input: string, query: string, n: string)
    requires AllConfigured(selected, scripts)
    ensures n in VisibleScripts(selected, scripts, input, query) <==>
              n in selected && HasShown(scripts[n].lines, input, query)
  {
    if selected != [] {
      var init := selected[..|selected| - 1];
      var last := selected[|selected| - 1];
      assert selected == init + [last];
      VisibleScriptsMember(init, scripts, input, query, n);
      PassingNonEmpty(scripts[last].lines, input, query);
    }
  }

  /** With nothing typed, or nothing typed after a prefix, every item is shown. */
  lemma {:induction false} PassingAll(items: seq<string>, input: string, query: string)
    requires input == "" || query == ""
    ensures Passing(items, input, query) == items
  {
    if items != [] {
      var init := items[..|items| - 1];
      assert items == init + [items[|items| - 1]];
      PassingAll(init, input, query);
      MatchEmptyQuery(items[|items| - 1]);
    }
  }

  /** ... so every line of every selected script is visible, in order. */
  lemma {:induction false} ShowAll(selected: seq<string>, scripts: map<string, Script>, input: string, query: string)
    requires AllConfigured(selected, scripts)
    requires input == "" || query == ""
    ensures Visible(selected, scripts, input, query) == AllLines(selected, scripts)
  {
    if selected != [] {
      var init := selected[..|selected| - 1];
      var last := selected[|selected| - 1];
      assert AllConfigured(init, scripts);
      ShowAll(init, scripts, input, query);
      PassingAll(scripts[last].lines, input, query);
    }
  }

  lemma VisibleScriptsConfigured(selected: seq<string>, scripts: map<string, Script>, input: string, query: string)
    requires AllConfigured(selected, scripts)
    ensures AllConfigured(VisibleScripts(selected, scripts, input, query), scripts)
  {
    forall n | n in VisibleScripts(selected, scripts, input, query)
      ensures n in scripts
    {
      VisibleScriptsMember(selected, scripts, input, query, n);
    }
  }

  // Interval reloads (main.go:281-301)

  /**
   * A script is due when it has a non-zero interval, has been loaded at
   * least once, and at least that interval has passed since.
   */
  predicate Due(interval: int, lastLoaded: int, now: int) {
    interval != 0 && lastLoaded != 0 && now - lastLoaded >= interval
  }

  /** The visible scripts due for a reload, in order. */
  function Reloads(visScripts: seq<string>, intervals: map<string, int>, scripts: map<string, Script>, now: int)
    : seq<string>
    requires AllConfigured(visScripts, scripts)
    reads scripts.Values
  {
    if visScripts == [] then []
    else
      var last := visScripts[|visScripts| - 1];
      Reloads(visScripts[..|visScripts| - 1], intervals, scripts, now) +
      (if Due(IntervalOf(intervals, last), scripts[last].lastLoaded, now) then [last] else [])
  }

  /** The reload loop: the scripts a background reload (without spinner) is started for. */
  method DueReloads(visScripts: seq<string>, intervals: map<string, int>, scripts: map<string, Script>, now: int)
    returns (due: seq<string>)
    requires AllConfigured(visScripts, scripts)
    ensures due == Reloads(visScripts, intervals, scripts, now)
  {
    due := [];
    for i := 0 to |visScripts|
      invariant due == Reloads(visScripts[..i], intervals, scripts, now)
    {
      assert visScripts[..i + 1][..i] == visScripts[..i];
      var name := visScripts[i];
      var inter := IntervalOf(intervals, name);
      if inter == 0 {
        continue;
      }
      var lastLoaded := scripts[name].lastLoaded;
      if lastLoaded != 0 && now - lastLoaded >= inter {
        due := due + [name];
      }
    }
    assert visScripts[..|visScripts|] == visScripts;
  }

  /**
   * A script is reloaded exactly when it is visible, has an interval
   * trigger with a non-zero duration, has been loaded before, and that
   * duration has passed: never-loaded scripts wait for their first load.
   */
  lemma {:induction false} ReloadsMember(visScripts: seq<string>, intervals: map<string, int>, scripts: map<string, Script>, now: int, n: string)
    requires AllConfigured(visScripts, scripts)
    ensures n in Reloads(visScripts, intervals, scripts, now) <==>
              && n in visScripts
              && n in intervals && intervals[n] != 0
              && scripts[n].lastLoaded != 0
              && now - scripts[n].lastLoaded >= intervals[n]
  {
    if visScripts != [] {
      var init := visScripts[..|visScripts| - 1];
      assert visScripts == init + [visScripts[|visScripts| - 1]];
      ReloadsMember(init, intervals, scripts, now, n);
    }
  }
}
