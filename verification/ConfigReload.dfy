/**
 Reloading in src/application/config/configService.js. Only the provider loads are
 awaited; from precedence to the swap of the snapshot a reload runs in one go. So
 overlapping reloads come down to some sequence of attempts, each with the layers its
 providers delivered. The schema check is a parameter.
 */
module ConfigReload {
  import opened Wrappers

  /** A key that is absent and a key bound to `undefined` read the same. */
  datatype Value = Undefined | Text(text: string)

  type Values = map<string, Value>

  type Origins = map<string, string>

  datatype Layer = Layer(name: string, bag: Values)

  datatype Snapshot = Snapshot(values: Values, origins: Origins, version: nat, at: string)

  datatype CacheEntry = CacheEntry(values: Values, origins: Origins, version: nat)

  datatype Change = Change(key: string, oldValue: Value, newValue: Value)

  /** What a reload has to activate once the schema has spoken. */
  datatype Attempt = Rejected(errors: seq<string>) | Accepted(values: Values, origins: Origins, at: string)

  datatype Config = Config(current: Snapshot, cache: Option<CacheEntry>, history: seq<Snapshot>)

  type Schema = Values -> Result<Values, seq<string>>

  function Lookup(values: Values, key: string): Value {
    if key in values then values[key] else Undefined
  }

  ghost predicate SameValues(a: Values, b: Values) {
    forall key :: Lookup(a, key) == Lookup(b, key)
  }

  // ---- precedence ----------------------------------------------------------------------------

  /** Highest priority first; the first layer that has a key decides it. */
  function Resolve(layers: seq<Layer>): Values {
    if layers == [] then map[] else Resolve(layers[1..]) + layers[0].bag
  }

  function OriginsOf(layers: seq<Layer>): Origins {
    if layers == [] then map[]
    else OriginsOf(layers[1..]) + map key | key in layers[0].bag :: layers[0].name
  }

  /** A key's value and origin come from the first layer that has it. */
  lemma {:induction false} FirstLayerWins(layers: seq<Layer>, i: nat, key: string)
    requires i < |layers| && key in layers[i].bag
    requires forall j :: 0 <= j < i ==> key !in layers[j].bag
    ensures key in Resolve(layers) && Resolve(layers)[key] == layers[i].bag[key]
    ensures key in OriginsOf(layers) && OriginsOf(layers)[key] == layers[i].name
  {
    if i > 0 {
      FirstLayerWins(layers[1..], i - 1, key);
    }
  }

  /** A key that no layer has is in neither table. */
  lemma {:induction false} NothingInvented(layers: seq<Layer>, key: string)
    requires forall i :: 0 <= i < |layers| ==> key !in layers[i].bag
    ensures key !in Resolve(layers) && key !in OriginsOf(layers)
  {
    if layers != [] {
      NothingInvented(layers[1..], key);
    }
  }

  // ---- differences ------------------------------------------------------------------------------

  /** The changes lead from one set of values to the other, each changed key once and no other. */
  ghost predicate IsDiff(before: Values, after: Values, changes: seq<Change>) {
    && (forall i :: 0 <= i < |changes| ==>
      && changes[i].oldValue == Lookup(before, changes[i].key)
      && changes[i].newValue == Lookup(after, changes[i].key)
      && changes[i].oldValue != changes[i].newValue)
    && (forall i, j :: 0 <= i < j < |changes| ==> changes[i].key != changes[j].key)
    && (forall key :: Lookup(before, key) != Lookup(after, key) ==> Changes(changes, key))
  }

  ghost predicate Changes(changes: seq<Change>, key: string) {
    exists i :: 0 <= i < |changes| && changes[i].key == key
  }

  function Applied(values: Values, changes: seq<Change>): Values {
    if changes == [] then values
    else
      var last := changes[|changes| - 1];
      Applied(values, changes[..|changes| - 1])[last.key := last.newValue]
  }

  lemma {:induction false} AppliedAt(values: Values, changes: seq<Change>, key: string)
    requires forall i, j :: 0 <= i < j < |changes| ==> changes[i].key != changes[j].key
    ensures forall i :: 0 <= i < |changes| && changes[i].key == key ==>
      Lookup(Applied(values, changes), key) == changes[i].newValue
    ensures !Changes(changes, key) ==> Lookup(Applied(values, changes), key) == Lookup(values, key)
  {
    if changes != [] {
      var init, last := changes[..|changes| - 1], changes[|changes| - 1];
      AppliedAt(values, init, key);
      assert changes[|changes| - 1].key == key ==> Changes(changes, key);
      assert Changes(init, key) ==> Changes(changes, key) by {
        if i :| 0 <= i < |init| && init[i].key == key {
          assert changes[i].key == key;
        }
      }
    }
  }

  /** Applying the reported changes to the old values rebuilds the new ones. */
  lemma DiffRebuilds(before: Values, after: Values, changes: seq<Change>)
    requires IsDiff(before, after, changes)
    ensures SameValues(Applied(before, changes), after)
  {
    forall key
      ensures Lookup(Applied(before, changes), key) == Lookup(after, key)
    {
      AppliedAt(before, changes, key);
      if Changes(changes, key) {
        var i :| 0 <= i < |changes| && changes[i].key == key;
      }
    }
  }

  method Diff(before: Values, after: Values) returns (changes: seq<Change>)
    ensures IsDiff(before, after, changes)
  {
    changes := [];
    var todo := before.Keys + after.Keys;
    while todo != {}
      invariant DiffSoFar(before, after, todo, changes)
      decreases |todo|
    {
      hide DiffSoFar;
      var key :| key in todo;
      DiffStep(before, after, todo, changes, key);
      todo := todo - {key};
      if Lookup(before, key) != Lookup(after, key) {
        changes := changes + [Change(key, Lookup(before, key), Lookup(after, key))];
      }
    }
  }

  /** The changes of all keys but those still to do. */
  ghost predicate DiffSoFar(before: Values, after: Values, todo: set<string>, changes: seq<Change>) {
    && (forall i :: 0 <= i < |changes| ==>
      && changes[i].key !in todo
      && changes[i].oldValue == Lookup(before, changes[i].key)
      && changes[i].newValue == Lookup(after, changes[i].key)
      && changes[i].oldValue != changes[i].newValue)
    && (forall i, j :: 0 <= i < j < |changes| ==> changes[i].key != changes[j].key)
    && (forall key :: Lookup(before, key) != Lookup(after, key) ==> key in todo || Changes(changes, key))
  }

  lemma DiffStep(before: Values, after: Values, todo: set<string>, changes: seq<Change>, key: string)
    requires DiffSoFar(before, after, todo, changes) && key in todo
    ensures if Lookup(before, key) == Lookup(after, key) then DiffSoFar(before, after, todo - {key}, changes)
            else
              var change := Change(key, Lookup(before, key), Lookup(after, key));
              DiffSoFar(before, after, todo - {key}, changes + [change])
  {
    ChangesAppend(changes, Change(key, Lookup(before, key), Lookup(after, key)));
    hide Lookup, Changes;
  }

  lemma ChangesAppend(changes: seq<Change>, change: Change)
    ensures forall key :: Changes(changes + [change], key) <==> Changes(changes, key) || key == change.key
  {
    var longer := changes + [change];
    forall key
      ensures Changes(longer, key) <==> Changes(changes, key) || key == change.key
    {
      if Changes(changes, key) {
        var i :| 0 <= i < |changes| && changes[i].key == key;
        assert longer[i].key == key;
      }
      assert longer[|changes|].key == change.key;
    }
  }

  // ---- one reload -----------------------------------------------------------------------------------

  /** The last `limit` entries. */
  function LastOf(history: seq<Snapshot>, limit: nat): seq<Snapshot> {
    if |history| > limit then history[|history| - limit..] else history
  }

  ghost function Reloaded(c: Config, a: Attempt, limit: nat): Config {
    match a
    case Rejected(_) => c
    case Accepted(values, origins, at) =>
      if SameValues(c.current.values, values) then
        c.(current := c.current.(origins := origins), cache := Some(CacheEntry(values, origins, c.current.version)))
      else
        var next := Snapshot(values, origins, c.current.version + 1, at);
        Config(next, Some(CacheEntry(values, origins, next.version)), LastOf(c.history + [next], limit))
  }

  function Initially(at: string): Config {
    Config(Snapshot(map[], map[], 0, at), None, [])
  }

  ghost function After(at: string, run: seq<Attempt>, limit: nat): Config {
    if run == [] then Initially(at) else Reloaded(After(at, run[..|run| - 1], limit), run[|run| - 1], limit)
  }

  /** Every snapshot that was ever activated, in order. */
  ghost function Activated(at: string, run: seq<Attempt>, limit: nat): seq<Snapshot> {
    if run == [] then []
    else
      var c, before := After(at, run[..|run| - 1], limit), Activated(at, run[..|run| - 1], limit);
      match run[|run| - 1]
      case Rejected(_) => before
      case Accepted(values, origins, now) =>
        if SameValues(c.current.values, values) then before
        else before + [Snapshot(values, origins, c.current.version + 1, now)]
  }

  function CacheVersion(cache: Option<CacheEntry>): nat {
    if cache.Some? then cache.value.version else 0
  }

  /** Versions count from one, and no snapshot repeats the values of the one before. */
  ghost predicate Succession(activated: seq<Snapshot>) {
    && (forall i :: 0 <= i < |activated| ==> activated[i].version == i + 1)
    && (forall i :: 0 < i < |activated| ==> !SameValues(activated[i - 1].values, activated[i].values))
  }

  /**
   After an accepted reload its values and origins are in force, in the snapshot and in the
   cache; the version goes up and the time is set exactly if some value changed. A rejected
   reload leaves everything as it was.
   */
  lemma AcceptedIsInForce(c: Config, a: Attempt, limit: nat)
    ensures a.Rejected? ==> Reloaded(c, a, limit) == c
    ensures a.Accepted? ==>
      var d := Reloaded(c, a, limit);
      && SameValues(d.current.values, a.values) && d.current.origins == a.origins
      && d.cache.Some? && SameValues(d.cache.value.values, a.values) && d.cache.value.origins == a.origins
      && d.cache.value.version == d.current.version
      && (if SameValues(c.current.values, a.values)
          then d.current.version == c.current.version && d.current.at == c.current.at && d.history == c.history
          else d.current.version == c.current.version + 1 && d.current.at == a.at)
  {
  }

  /** The configuration as the activated snapshots determine it. */
  ghost predicate Consistent(c: Config, activated: seq<Snapshot>, limit: nat) {
    && c.current.version == |activated|
    && Succession(activated)
    && c.history == LastOf(activated, limit)
    && (if activated == [] then c.current.values == map[]
        else c.current == activated[|activated| - 1].(origins := c.current.origins))
    && CacheVersion(c.cache) == c.current.version
    && (c.cache.Some? ==>
      SameValues(c.cache.value.values, c.current.values) && c.cache.value.origins == c.current.origins)
  }

  lemma LastOfAppend(all: seq<Snapshot>, next: Snapshot, limit: nat)
    requires limit >= 1
    ensures LastOf(LastOf(all, limit) + [next], limit) == LastOf(all + [next], limit)
  {
  }

  /**
   Over any sequence of reloads the activated versions are 1, 2, 3 and so on, each unlike
   the one before; history holds the last `limit` of them, and cache and current version agree.
   */
  lemma {:induction false} RunsAreConsistent(at: string, run: seq<Attempt>, limit: nat)
    requires limit >= 1
    ensures Consistent(After(at, run, limit), Activated(at, run, limit), limit)
  {
    if run != [] {
      var init, a := run[..|run| - 1], run[|run| - 1];
      RunsAreConsistent(at, init, limit);
      StepIsConsistent(After(at, init, limit), Activated(at, init, limit), a, limit);
    }
  }

  lemma StepIsConsistent(c: Config, activated: seq<Snapshot>, a: Attempt, limit: nat)
    requires limit >= 1 && Consistent(c, activated, limit)
    ensures var more :=
      if a.Rejected? || SameValues(c.current.values, a.values) then activated
      else activated + [Snapshot(a.values, a.origins, c.current.version + 1, a.at)];
      Consistent(Reloaded(c, a, limit), more, limit)
  {
    if a.Accepted? {
      if SameValues(c.current.values, a.values) {
        RefreshIsConsistent(c, activated, a, limit);
      } else {
        SwapIsConsistent(c, activated, a, limit);
      }
      hide Consistent, SameValues, LastOf;
    }
  }

  lemma RefreshIsConsistent(c: Config, activated: seq<Snapshot>, a: Attempt, limit: nat)
    requires Consistent(c, activated, limit) && a.Accepted? && SameValues(c.current.values, a.values)
    ensures Consistent(Reloaded(c, a, limit), activated, limit)
  {
    assert SameValues(a.values, c.current.values);
    hide SameValues, LastOf;
  }

  lemma SuccessionGrows(activated: seq<Snapshot>, next: Snapshot)
    requires Succession(activated) && next.version == |activated| + 1
    requires activated != [] ==> !SameValues(activated[|activated| - 1].values, next.values)
    ensures Succession(activated + [next])
  {
    hide SameValues;
    var more := activated + [next];
    forall i | 0 < i < |more|
      ensures !SameValues(more[i - 1].values, more[i].values)
    {
      assert i < |activated| ==> more[i] == activated[i];
      assert more[i - 1] == activated[i - 1];
    }
  }

  lemma SwapIsConsistent(c: Config, activated: seq<Snapshot>, a: Attempt, limit: nat)
    requires limit >= 1 && Consistent(c, activated, limit) && a.Accepted? && !SameValues(c.current.values, a.values)
    ensures var next := Snapshot(a.values, a.origins, c.current.version + 1, a.at);
      Consistent(Reloaded(c, a, limit), activated + [next], limit)
  {
    var next := Snapshot(a.values, a.origins, c.current.version + 1, a.at);
    SuccessionGrows(activated, next);
    LastOfAppend(activated, next, limit);
    assert SameValues(a.values, a.values);
    hide SameValues, LastOf, Succession;
  }

  /** A reload that activates reports a difference that rebuilds the new values from the old ones. */
  lemma ActivationIsItsDiff(c: Config, a: Attempt, limit: nat, changes: seq<Change>)
    requires a.Accepted? && IsDiff(c.current.values, a.values, changes)
    ensures SameValues(Applied(c.current.values, changes), Reloaded(c, a, limit).current.values)
    ensures changes == [] <==> Reloaded(c, a, limit).current.version == c.current.version
  {
    DiffRebuilds(c.current.values, a.values, changes);
    if changes == [] {
      assert forall key :: !Changes(changes, key);
    } else {
      assert Lookup(c.current.values, changes[0].key) != Lookup(a.values, changes[0].key);
    }
  }

  /** The first snapshot with this version, or the length of the list. */
  method IndexOf(history: seq<Snapshot>, version: int) returns (i: nat)
    ensures i <= |history|
    ensures i < |history| ==> history[i].version == version
    ensures i == |history| ==> forall j :: 0 <= j < |history| ==> history[j].version != version
  {
    i := 0;
    while i < |history| && history[i].version != version
      invariant 0 <= i <= |history|
      invariant forall j :: 0 <= j < i ==> history[j].version != version
    {
      i := i + 1;
    }
  }

  // ---- the service ------------------------------------------------------------------------------------

  datatype Report =
    | Swapped(version: nat, changed: seq<Change>)
    | RolledBack(version: nat, errors: seq<string>)
    | Failed(errors: seq<string>)

  class ConfigService {
    const limit: nat
    var current: Snapshot
    var cache: Option<CacheEntry>
    var history: seq<Snapshot>
    /** The time of creation and the reloads so far. */
    ghost const created: string
    ghost var run: seq<Attempt>

    ghost function View(): Config
      reads this
    {
      Config(current, cache, history)
    }

    ghost predicate Valid()
      reads this
    {
      limit >= 1 && View() == After(created, run, limit)
    }

    /** A configured depth of zero means the default of twenty. */
    constructor (historyLimit: nat, at: string)
      ensures Valid() && run == [] && limit == (if historyLimit == 0 then 20 else historyLimit)
    {
      limit := if historyLimit == 0 then 20 else historyLimit;
      current, cache, history := Snapshot(map[], map[], 0, at), None, [];
      created, run := at, [];
    }

    /** The part of a reload after its providers have delivered. */
    method Reload(layers: seq<Layer>, schema: Schema, at: string) returns (r: Report)
      requires Valid()
      modifies this`current, this`cache, this`history, this`run
      ensures Valid()
      ensures var resolved := Resolve(layers);
        run == old(run) + [match schema(resolved)
                           case Err(errors) => Rejected(errors)
                           case Ok(validated) => Accepted(resolved + validated, OriginsOf(layers), at)]
      ensures schema(Resolve(layers)).Err? ==>
        && View() == old(View())
        && var errors := schema(Resolve(layers)).error;
           r == if current.version > 0 then RolledBack(current.version, errors) else Failed(errors)
      ensures schema(Resolve(layers)).Ok? ==>
        && r.Swapped? && r.version == current.version
        && IsDiff(old(current).values, Resolve(layers) + schema(Resolve(layers)).value, r.changed)
        && current.version == old(current).version + if r.changed == [] then 0 else 1
    {
      var resolved, origins := Resolve(layers), OriginsOf(layers);
      var checked := schema(resolved);
      if checked.Err? {
        Note(Rejected(checked.error));
        return if current.version > 0 then RolledBack(current.version, checked.error) else Failed(checked.error);
      }
      var effective := resolved + checked.value;
      var changed := Diff(current.values, effective);
      var attempt := Accepted(effective, origins, at);
      ActivationIsItsDiff(View(), attempt, limit, changed);
      Swap(attempt, |changed| == 0);
      return Swapped(current.version, changed);
    }

    ghost method Note(a: Attempt)
      requires Valid() && a.Rejected?
      modifies this`run
      ensures Valid() && run == old(run) + [a]
    {
      run := run + [a];
      assert run[..|run| - 1] == old(run);
    }

    /** Activation in one assignment; without changes only the origins are refreshed. */
    method Swap(a: Attempt, refresh: bool)
      requires Valid() && a.Accepted? && (refresh <==> SameValues(current.values, a.values))
      modifies this`current, this`cache, this`history, this`run
      ensures Valid() && run == old(run) + [a] && View() == Reloaded(old(View()), a, limit)
    {
      RunsAreConsistent(created, run, limit);
      HistoryFits(View(), Activated(created, run, limit), limit);
      AfterAppend(created, run, a, limit);
      hide Consistent, SameValues, After, Activated;
      assert View() == After(created, run, limit);
      if refresh {
        current := current.(origins := a.origins);
        cache := Some(CacheEntry(a.values, a.origins, current.version));
      } else {
        current := Snapshot(a.values, a.origins, current.version + 1, a.at);
        cache := Some(CacheEntry(current.values, current.origins, current.version));
        history := history + [current];
        if |history| > limit {
          history := history[1..];
        }
      }
      run := run + [a];
    }

    /** The retained snapshot of a version: exactly what was activated under that number. */
    method SnapshotAt(version: int) returns (found: Option<Snapshot>)
      requires Valid()
      ensures found.Some? <==> current.version - |history| < version <= current.version
      ensures found.Some? ==>
        var activated := Activated(created, run, limit);
        0 < version <= |activated| && found.value == activated[version - 1]
    {
      RunsAreConsistent(created, run, limit);
      ghost var config, activated := View(), Activated(created, run, limit);
      var i := IndexOf(history, version);
      FoundIsActivated(config, activated, limit, version, i);
      hide *;
      found := if i < |history| then Some(history[i]) else None;
    }

    /** The consistency check never fails while only reloads write the cache. */
    method VerifyCache() returns (ok: bool)
      requires Valid()
      ensures ok
    {
      RunsAreConsistent(created, run, limit);
      ok := (if cache.Some? then cache.value.version else 0) == current.version;
    }
  }

  /** The retained snapshots carry consecutive versions up to the current one. */
  lemma Retained(c: Config, activated: seq<Snapshot>, limit: nat)
    requires Consistent(c, activated, limit)
    ensures |c.history| <= c.current.version == |activated|
    ensures forall j :: 0 <= j < |c.history| ==>
      && c.history[j].version == c.current.version - |c.history| + 1 + j
      && c.history[j] == activated[c.current.version - |c.history| + j]
  {
    hide SameValues;
    var d := |activated| - |c.history|;
    assert c.history == activated[d..];
    forall j | 0 <= j < |c.history|
      ensures c.history[j] == activated[d + j] && activated[d + j].version == d + j + 1
    {
    }
    hide *;
  }

  lemma FoundIsActivated(c: Config, activated: seq<Snapshot>, limit: nat, version: int, i: nat)
    requires Consistent(c, activated, limit) && i <= |c.history|
    requires if i < |c.history| then c.history[i].version == version
             else forall j :: 0 <= j < |c.history| ==> c.history[j].version != version
    ensures i < |c.history| <==> c.current.version - |c.history| < version <= c.current.version
    ensures i < |c.history| ==> 0 < version <= |activated| && c.history[i] == activated[version - 1]
  {
    Retained(c, activated, limit);
    hide *;
    var j := version - (c.current.version - |c.history| + 1);
    if 0 <= j < |c.history| {
      assert c.history[j].version == version;
    }
  }

  lemma AfterAppend(at: string, run: seq<Attempt>, a: Attempt, limit: nat)
    ensures After(at, run + [a], limit) == Reloaded(After(at, run, limit), a, limit)
  {
    assert (run + [a])[..|run|] == run;
  }

  lemma HistoryFits(c: Config, activated: seq<Snapshot>, limit: nat)
    requires Consistent(c, activated, limit)
    ensures |c.history| <= limit
  {
  }
}
