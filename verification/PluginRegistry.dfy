/**
 The plugin registry: which plugins are known and active, and the tables of hooks, tools, forms and
 endpoints cached from the active ones.
 */
module PluginRegistry {
  import opened Wrappers
  import opened Collections
  import opened Hooks

  /** A tool or a form: what it is called and the texts that trigger it, by kind of trigger. */
  datatype Procedure = Procedure(name: string, kind: string, triggers: seq<Trigger>)

  datatype Trigger = Trigger(kind: string, texts: seq<string>)

  datatype Endpoint = Endpoint(path: string, method': string)

  datatype Members = Members(hooks: seq<Hook>, tools: seq<Procedure>, forms: seq<Procedure>, endpoints: seq<Endpoint>)

  const NoMembers := Members([], [], [], [])

  datatype Plugin = Plugin(id: string, members: Members, active: bool)

  const CORE_PLUGIN := "core_plugin"

  // ---------- The plugin dictionary, in insertion order ----------

  predicate Has(plugins: seq<Plugin>, id: string) {
    exists p | p in plugins :: p.id == id
  }

  ghost predicate DistinctIds(plugins: seq<Plugin>) {
    forall i, j | 0 <= i < j < |plugins| :: plugins[i].id != plugins[j].id
  }

  /** Assigning to a key of a dictionary: in place if the key is there, else at the end. */
  function Put(plugins: seq<Plugin>, p: Plugin): seq<Plugin> {
    if plugins == [] then [p]
    else if plugins[0].id == p.id then [p] + plugins[1..]
    else [plugins[0]] + Put(plugins[1..], p)
  }

  function Drop(plugins: seq<Plugin>, id: string): seq<Plugin> {
    if plugins == [] then []
    else if plugins[0].id == id then plugins[1..]
    else [plugins[0]] + Drop(plugins[1..], id)
  }

  /** Ids stay distinct in front of plugins with other ids. */
  lemma DistinctCons(first: Plugin, rest: seq<Plugin>)
    requires DistinctIds(rest) && forall q | q in rest :: q.id != first.id
    ensures DistinctIds([first] + rest)
  {
    var all := [first] + rest;
    forall i, j | 0 <= i < j < |all|
      ensures all[i].id != all[j].id
    {
      assert all[j] == rest[j - 1];
      if i > 0 {
        assert all[i] == rest[i - 1];
      }
    }
  }

  lemma DistinctRest(plugins: seq<Plugin>)
    requires plugins != [] && DistinctIds(plugins)
    ensures DistinctIds(plugins[1..])
    ensures forall q :: q in plugins <==> q == plugins[0] || q in plugins[1..]
    ensures forall q | q in plugins[1..] :: q.id != plugins[0].id
  {
    assert plugins == [plugins[0]] + plugins[1..];
  }

  lemma {:induction false} PutIds(plugins: seq<Plugin>, p: Plugin)
    requires DistinctIds(plugins)
    ensures DistinctIds(Put(plugins, p))
    ensures forall q :: q in Put(plugins, p) <==> q == p || (q in plugins && q.id != p.id)
    ensures forall id :: Has(Put(plugins, p), id) <==> id == p.id || Has(plugins, id)
  {
    if plugins != [] {
      DistinctRest(plugins);
      if plugins[0].id == p.id {
        DistinctCons(p, plugins[1..]);
      } else {
        PutIds(plugins[1..], p);
        DistinctCons(plugins[0], Put(plugins[1..], p));
      }
    }
    MembersOfIds(plugins, Put(plugins, p), p);
  }

  lemma MembersOfIds(plugins: seq<Plugin>, result: seq<Plugin>, p: Plugin)
    requires forall q :: q in result <==> q == p || (q in plugins && q.id != p.id)
    ensures forall id :: Has(result, id) <==> id == p.id || Has(plugins, id)
  {
    forall id
      ensures Has(result, id) <==> id == p.id || Has(plugins, id)
    {
      if Has(plugins, id) && id != p.id {
        var q :| q in plugins && q.id == id;
        assert q in result;
      }
      assert p in result;
    }
  }

  lemma {:induction false} DropIds(plugins: seq<Plugin>, id: string)
    requires DistinctIds(plugins)
    ensures DistinctIds(Drop(plugins, id))
    ensures forall q :: q in Drop(plugins, id) <==> q in plugins && q.id != id
  {
    if plugins != [] {
      DistinctRest(plugins);
      if plugins[0].id != id {
        DropIds(plugins[1..], id);
        DistinctCons(plugins[0], Drop(plugins[1..], id));
      }
    }
  }

  // ---------- The scan ----------

  /** What the active plugins hold of one kind, plugin by plugin in dictionary order. */
  function Gather<T>(plugins: seq<Plugin>, active: set<string>, of: Plugin -> seq<T>): seq<T> {
    if plugins == [] then []
    else Gather(plugins[..|plugins| - 1], active, of) +
         (if plugins[|plugins| - 1].id in active then of(plugins[|plugins| - 1]) else [])
  }

  function HooksOf(p: Plugin): seq<Hook> { p.members.hooks }
  function ToolsOf(p: Plugin): seq<Procedure> { p.members.tools }
  function FormsOf(p: Plugin): seq<Procedure> { p.members.forms }
  function EndpointsOf(p: Plugin): seq<Endpoint> { p.members.endpoints }

  function Named(hooks: seq<Hook>, name: string): seq<Hook> {
    if hooks == [] then []
    else Named(hooks[..|hooks| - 1], name) + (if hooks[|hooks| - 1].name == name then [hooks[|hooks| - 1]] else [])
  }

  function Names(hooks: seq<Hook>): set<string> {
    set h | h in hooks :: h.name
  }

  function ByName(hooks: seq<Hook>): map<string, seq<Hook>> {
    map name | name in Names(hooks) :: Named(hooks, name)
  }

  datatype Tables = Tables(hooks: map<string, seq<Hook>>, tools: seq<Procedure>, forms: seq<Procedure>, endpoints: seq<Endpoint>)

  /** The tables a scan of the plugins from scratch comes to. */
  function Scan(plugins: seq<Plugin>, active: set<string>): Tables {
    var hooks := Gather(plugins, active, HooksOf);
    Tables(map name | name in Names(hooks) :: Prioritized(Named(hooks, name)),
           Gather(plugins, active, ToolsOf), Gather(plugins, active, FormsOf), Gather(plugins, active, EndpointsOf))
  }

  lemma GatherNext<T>(plugins: seq<Plugin>, i: nat, active: set<string>, of: Plugin -> seq<T>)
    requires i < |plugins|
    ensures Gather(plugins[..i + 1], active, of) ==
            Gather(plugins[..i], active, of) + (if plugins[i].id in active then of(plugins[i]) else [])
  {
    assert plugins[..i + 1][..i] == plugins[..i];
  }

  lemma NothingGathered(active: set<string>)
    ensures Gather([], active, HooksOf) == [] && Gather([], active, ToolsOf) == []
    ensures Gather([], active, FormsOf) == [] && Gather([], active, EndpointsOf) == []
    ensures ByName([]) == map[]
  {
  }

  /** Sorting the table entry by entry gives the scanned table. */
  lemma SortedByName(hooks: seq<Hook>)
    ensures (map name | name in ByName(hooks) :: Prioritized(ByName(hooks)[name])) ==
            (map name | name in Names(hooks) :: Prioritized(Named(hooks, name)))
  {
  }

  lemma {:induction false} GatherFront<T>(plugins: seq<Plugin>, active: set<string>, of: Plugin -> seq<T>)
    requires plugins != []
    ensures Gather(plugins, active, of) == (if plugins[0].id in active then of(plugins[0]) else []) + Gather(plugins[1..], active, of)
  {
    if |plugins| > 1 {
      var n := |plugins| - 1;
      GatherFront(plugins[..n], active, of);
      assert plugins[..n][1..] == plugins[1..][..n - 1];
    }
  }

  /** The scan does not see what it does not take from: an inactive plugin put in or dropped. */
  lemma {:induction false} GatherSkips<T>(plugins: seq<Plugin>, active: set<string>, p: Plugin, of: Plugin -> seq<T>)
    requires p.id !in active
    ensures Gather(Put(plugins, p), active, of) == Gather(plugins, active, of) == Gather(Drop(plugins, p.id), active, of)
  {
    GatherFront(Put(plugins, p), active, of);
    if plugins != [] {
      GatherFront(plugins, active, of);
      if plugins[0].id == p.id {
        assert ([p] + plugins[1..])[1..] == plugins[1..];
      } else {
        GatherSkips(plugins[1..], active, p, of);
        assert Put(plugins, p)[1..] == Put(plugins[1..], p);
        GatherFront(Drop(plugins, p.id), active, of);
        assert Drop(plugins, p.id)[1..] == Drop(plugins[1..], p.id);
      }
    }
  }

  lemma ScanSkips(plugins: seq<Plugin>, active: set<string>, p: Plugin)
    requires p.id !in active
    ensures Scan(Put(plugins, p), active) == Scan(plugins, active) == Scan(Drop(plugins, p.id), active)
  {
    GatherSkips(plugins, active, p, HooksOf);
    GatherSkips(plugins, active, p, ToolsOf);
    GatherSkips(plugins, active, p, FormsOf);
    GatherSkips(plugins, active, p, EndpointsOf);
  }

  /** What is gathered is what the active plugins hold. */
  lemma {:induction false} GatheredMembers<T(!new)>(plugins: seq<Plugin>, active: set<string>, of: Plugin -> seq<T>)
    ensures forall x :: x in Gather(plugins, active, of) <==> exists p | p in plugins :: p.id in active && x in of(p)
  {
    if plugins != [] {
      var n := |plugins| - 1;
      GatheredMembers(plugins[..n], active, of);
      assert forall p :: p in plugins <==> p == plugins[n] || p in plugins[..n];
    }
  }

  /** Plugins are scanned in dictionary order, and each gives what it holds in order. */
  lemma {:induction false} GatheredInOrder<T>(a: seq<Plugin>, b: seq<Plugin>, active: set<string>, of: Plugin -> seq<T>)
    ensures Gather(a + b, active, of) == Gather(a, active, of) + Gather(b, active, of)
    decreases |b|
  {
    if b == [] {
      assert a + b == a;
    } else {
      var n := |b| - 1;
      GatheredInOrder(a, b[..n], active, of);
      assert (a + b)[..|a| + n] == a + b[..n];
      var last := if b[n].id in active then of(b[n]) else [];
      assert Gather(a, active, of) + (Gather(b[..n], active, of) + last) == Gather(a, active, of) + Gather(b[..n], active, of) + last;
    }
  }

  lemma GatheredFromOne<T>(p: Plugin, active: set<string>, of: Plugin -> seq<T>)
    ensures Gather([p], active, of) == if p.id in active then of(p) else []
  {
    assert [p][..0] == [];
  }

  lemma {:induction false} NamedHooks(hooks: seq<Hook>, name: string)
    ensures forall h :: h in Named(hooks, name) <==> h in hooks && h.name == name
  {
    if hooks != [] {
      NamedHooks(hooks[..|hooks| - 1], name);
    }
  }

  lemma {:induction false} PrioritizedMembers(hooks: seq<Hook>)
    ensures forall h :: h in Prioritized(hooks) <==> h in hooks
  {
    if hooks != [] {
      PrioritizedMembers(hooks[..|hooks| - 1]);
      InsertedMember(Prioritized(hooks[..|hooks| - 1]), hooks[|hooks| - 1]);
    }
  }

  /** The plugins own their hooks. */
  ghost predicate OwnHooks(plugins: seq<Plugin>) {
    forall p, h | p in plugins && h in p.members.hooks :: h.pluginId == p.id
  }

  /** Every hook in the scanned table names a plugin in the dictionary, so looking its plugin up cannot fail. */
  lemma CachedHookHasPlugin(plugins: seq<Plugin>, active: set<string>, name: string, h: Hook)
    requires OwnHooks(plugins) && name in Scan(plugins, active).hooks && h in Scan(plugins, active).hooks[name]
    ensures Has(plugins, h.pluginId) && h.pluginId in active && h.name == name
  {
    var hooks := Gather(plugins, active, HooksOf);
    PrioritizedMembers(Named(hooks, name));
    NamedHooks(hooks, name);
    GatheredMembers(plugins, active, HooksOf);
  }

  /** The plugin is known and active. */
  ghost predicate Provides(plugins: seq<Plugin>, active: set<string>, p: Plugin) {
    p in plugins && p.id in active
  }

  /**
   The tables of a scan hold exactly the tools, forms, endpoints and hooks of the active plugins, the
   hooks under their names, by descending priority and otherwise in the order they were found.
   */
  lemma ScanHolds(plugins: seq<Plugin>, active: set<string>)
    ensures var t := Scan(plugins, active);
            && (forall q :: q in t.tools <==> exists p | Provides(plugins, active, p) :: q in p.members.tools)
            && (forall q :: q in t.forms <==> exists p | Provides(plugins, active, p) :: q in p.members.forms)
            && (forall e :: e in t.endpoints <==> exists p | Provides(plugins, active, p) :: e in p.members.endpoints)
            && (forall h :: (exists p | Provides(plugins, active, p) :: h in p.members.hooks) <==> h.name in t.hooks && h in t.hooks[h.name])
            && (forall name | name in t.hooks ::
                  && (forall h | h in t.hooks[name] :: h.name == name)
                  && Descending(t.hooks[name])
                  && SameWithinPriorities(t.hooks[name], Named(Gather(plugins, active, HooksOf), name)))
  {
    hide Gather, Prioritized, Named;
    GatheredMembers(plugins, active, ToolsOf);
    GatheredMembers(plugins, active, FormsOf);
    GatheredMembers(plugins, active, EndpointsOf);
    GatheredMembers(plugins, active, HooksOf);
    var hooks := Gather(plugins, active, HooksOf);
    forall name: string
      ensures Descending(Prioritized(Named(hooks, name))) && SameWithinPriorities(Prioritized(Named(hooks, name)), Named(hooks, name))
      ensures forall h :: h in Prioritized(Named(hooks, name)) <==> h in hooks && h.name == name
    {
      PrioritizedIsStableSort(Named(hooks, name));
      PrioritizedMembers(Named(hooks, name));
      NamedHooks(hooks, name);
    }
  }

  // ---------- Building the hook table ----------

  lemma NamesSnoc(hooks: seq<Hook>, h: Hook)
    ensures Names(hooks + [h]) == Names(hooks) + {h.name}
    ensures forall name :: Named(hooks + [h], name) == Named(hooks, name) + (if h.name == name then [h] else [])
  {
    var all := hooks + [h];
    assert all[..|hooks|] == hooks;
    assert forall g :: g in all <==> g in hooks || g == h;
    forall name
      ensures name in Names(all) <==> name in Names(hooks) + {h.name}
    {
      if name in Names(hooks) {
        var g :| g in hooks && g.name == name;
        assert g in all;
      }
      assert h in all;
    }
  }

  lemma ByNameSnoc(hooks: seq<Hook>, h: Hook)
    ensures var before := ByName(hooks);
            ByName(hooks + [h]) == before[h.name := (if h.name in before then before[h.name] else []) + [h]]
  {
    var before := ByName(hooks);
    var after := before[h.name := (if h.name in before then before[h.name] else []) + [h]];
    NamesSnoc(hooks, h);
    hide Named, Names;
    if h.name !in before {
      NoneNamed(hooks, h.name);
    }
    forall name | name in after
      ensures name in ByName(hooks + [h]) && ByName(hooks + [h])[name] == after[name]
    {
      assert Named(hooks, name) + [] == Named(hooks, name);
    }
    assert ByName(hooks + [h]).Keys == after.Keys;
  }

  lemma {:induction false} NoneNamed(hooks: seq<Hook>, name: string)
    requires name !in Names(hooks)
    ensures Named(hooks, name) == []
  {
    if hooks != [] {
      var n := |hooks| - 1;
      assert hooks[n] in hooks;
      NoneNamed(hooks[..n], name);
    }
  }

  /** Add the hooks of a plugin to the table, under their names. */
  method AddHooks(table: map<string, seq<Hook>>, ghost before: seq<Hook>, hooks: seq<Hook>) returns (result: map<string, seq<Hook>>)
    requires table == ByName(before)
    ensures result == ByName(before + hooks)
  {
    hide ByName;
    result := table;
    assert before + hooks[..0] == before;
    for i := 0 to |hooks|
      invariant result == ByName(before + hooks[..i])
    {
      var h := hooks[i];
      ByNameSnoc(before + hooks[..i], h);
      assert before + hooks[..i + 1] == before + hooks[..i] + [h];
      if h.name !in result {
        result := result[h.name := []];
      }
      result := result[h.name := result[h.name] + [h]];
      assert result == ByName(before + hooks[..i] + [h]);
    }
    assert hooks[..|hooks|] == hooks;
  }

  /** Sort the hooks under every name. */
  method SortTable(table: map<string, seq<Hook>>) returns (sorted: map<string, seq<Hook>>)
    ensures sorted == map name | name in table :: Prioritized(table[name])
  {
    sorted := table;
    var todo := table.Keys;
    while todo != {}
      invariant todo <= table.Keys && sorted.Keys == table.Keys
      invariant forall name | name in table :: sorted[name] == if name in todo then table[name] else Prioritized(table[name])
      decreases todo
    {
      var name :| name in todo;
      var hooks := SortByPriority(sorted[name]);
      sorted := sorted[name := hooks];
      todo := todo - {name};
    }
  }

  function Values<V>(cells: seq<Cell<V>>): seq<V>
    reads cells
  {
    seq(|cells|, i requires 0 <= i < |cells| reads cells => cells[i].value)
  }

  // ---------- The registry object ----------

  /** What activating a plugin comes to: its members load, or it fails before or after loading them. */
  datatype Activation = Loads(members: Members) | FailsEarly | FailsLate(members: Members, flagged: bool)

  /** A plugin folder found on disk. */
  datatype Folder = Folder(id: string, loads: bool, activation: Activation, deactivationRaises: bool)

  function Owned(members: Members, id: string): Members {
    members.(hooks := seq(|members.hooks|, i requires 0 <= i < |members.hooks| => members.hooks[i].(pluginId := id)))
  }

  /** `list.remove`: without the first occurrence. */
  function Removed(ids: seq<string>, id: string): seq<string> {
    if ids == [] then [] else if ids[0] == id then ids[1..] else [ids[0]] + Removed(ids[1..], id)
  }

  lemma {:induction false} RemovedIds(ids: seq<string>, id: string)
    requires NoDuplicates(ids)
    ensures NoDuplicates(Removed(ids, id)) && Elements(Removed(ids, id)) == Elements(ids) - {id}
  {
    if ids != [] {
      assert ids == [ids[0]] + ids[1..];
      assert forall x :: x in ids <==> x == ids[0] || x in ids[1..];
      assert ids[0] !in ids[1..];
      if ids[0] != id {
        RemovedIds(ids[1..], id);
        var rest, result := Removed(ids[1..], id), Removed(ids, id);
        assert forall x :: x in rest <==> x in Elements(rest);
        assert forall i | 0 < i < |result| :: result[i] == rest[i - 1];
        assert ids[0] !in rest;
      }
    }
  }

  /** The plugins a completed discovery comes to. */
  function Discovered(folders: seq<Folder>, active: set<string>): seq<Plugin> {
    if folders == [] then []
    else
      var f := folders[|folders| - 1];
      var before := Discovered(folders[..|folders| - 1], active);
      var loaded := if f.loads then Put(before, Plugin(f.id, NoMembers, false)) else before;
      if f.id in active && f.activation.Loads? then Put(loaded, Plugin(f.id, Owned(f.activation.members, f.id), true)) else loaded
  }

  /** Toggling a plugin gets through: it is there, and its own code does not raise. */
  predicate Toggles(plugins: seq<Plugin>, active: seq<string>, id: string, activation: Activation, deactivationRaises: bool) {
    Has(plugins, id) && if id in active then !deactivationRaises else activation.Loads?
  }

  /** The plugins after toggling one. */
  function Toggled(plugins: seq<Plugin>, active: seq<string>, id: string, activation: Activation): seq<Plugin>
    requires id !in active ==> activation.Loads?
  {
    Put(plugins, if id in active then Plugin(id, NoMembers, false) else Plugin(id, Owned(activation.members, id), true))
  }

  function ToggledIds(active: seq<string>, id: string): seq<string> {
    if id in active then Removed(active, id) else active + [id]
  }

  lemma PutOwned(plugins: seq<Plugin>, id: string, members: Members, flagged: bool)
    requires DistinctIds(plugins) && OwnHooks(plugins)
    ensures var result := Put(plugins, Plugin(id, Owned(members, id), flagged)); DistinctIds(result) && OwnHooks(result)
  {
    PutIds(plugins, Plugin(id, Owned(members, id), flagged));
  }

  function SavedOr(saved: Option<seq<string>>, otherwise: seq<string>): seq<string> {
    if saved.Some? then saved.value else otherwise
  }

  /** Every folder of an active plugin activates, and the plugin could be read from it or from an earlier folder. */
  ghost predicate AllActivate(folders: seq<Folder>, active: set<string>) {
    forall i | 0 <= i < |folders| :: Activates(folders, i, active)
  }

  ghost predicate Activates(folders: seq<Folder>, i: nat, active: set<string>)
    requires i < |folders|
  {
    folders[i].id in active ==> folders[i].activation.Loads? && Readable(folders[..i + 1], folders[i].id)
  }

  ghost predicate Readable(folders: seq<Folder>, id: string) {
    exists f | f in folders :: f.id == id && f.loads
  }

  lemma NothingDiscovered(active: set<string>)
    ensures Discovered([], active) == []
  {
  }

  lemma DiscoverNext(folders: seq<Folder>, i: nat, active: set<string>)
    requires i < |folders|
    ensures var f, before := folders[i], Discovered(folders[..i], active);
            var loaded := if f.loads then Put(before, Plugin(f.id, NoMembers, false)) else before;
            Discovered(folders[..i + 1], active) ==
            if f.id in active && f.activation.Loads? then Put(loaded, Plugin(f.id, Owned(f.activation.members, f.id), true)) else loaded
  {
    assert folders[..i + 1][..i] == folders[..i];
  }

  lemma ReadableNext(folders: seq<Folder>, i: nat, id: string)
    requires i < |folders|
    ensures Readable(folders[..i + 1], id) <==> Readable(folders[..i], id) || (folders[i].id == id && folders[i].loads)
  {
    assert folders[..i + 1] == folders[..i] + [folders[i]];
    assert folders[i] in folders[..i + 1];
  }

  lemma {:induction false} DiscoveredIds(folders: seq<Folder>, active: set<string>)
    requires AllActivate(folders, active)
    ensures DistinctIds(Discovered(folders, active))
    ensures forall id :: Has(Discovered(folders, active), id) <==> Readable(folders, id)
    decreases |folders|
  {
    hide Put, Owned;
    if folders != [] {
      var n := |folders| - 1;
      var f, before := folders[n], folders[..n];
      GivesUp(folders, n, active);
      assert folders[..n + 1] == folders;
      DiscoveredIds(before, active);
      PutIds(Discovered(before, active), Plugin(f.id, NoMembers, false));
      var loaded := if f.loads then Put(Discovered(before, active), Plugin(f.id, NoMembers, false)) else Discovered(before, active);
      if f.id in active {
        PutIds(loaded, Plugin(f.id, Owned(f.activation.members, f.id), true));
      }
      forall id
        ensures Readable(folders, id) <==> Readable(before, id) || (f.id == id && f.loads)
      {
        ReadableNext(folders, n, id);
      }
    }
  }

  /** Where a discovery goes on, and where it gives up for good. */
  lemma GivesUp(folders: seq<Folder>, i: nat, active: set<string>)
    requires i < |folders|
    ensures var f := folders[i];
            AllActivate(folders[..i + 1], active) <==>
            AllActivate(folders[..i], active) && (f.id in active ==> f.activation.Loads? && (f.loads || Readable(folders[..i], f.id)))
    ensures AllActivate(folders, active) ==> AllActivate(folders[..i + 1], active)
  {
    hide Readable;
    var next, before := folders[..i + 1], folders[..i];
    ReadableNext(folders, i, folders[i].id);
    assert next[..i + 1] == next;
    forall k: nat | k <= i
      ensures Activates(next, k, active) <==> Activates(folders, k, active)
      ensures k < i ==> (Activates(before, k, active) <==> Activates(folders, k, active))
    {
      assert next[..k + 1] == folders[..k + 1];
      assert k < i ==> before[..k + 1] == folders[..k + 1];
    }
    assert AllActivate(next, active) <==> AllActivate(before, active) && Activates(next, i, active) by {
      assert AllActivate(next, active) ==> forall k | 0 <= k < i :: Activates(next, k, active);
    }
  }

  class MadHatter {
    var plugins: seq<Plugin>
    var activePlugins: seq<string>
    var hooks: map<string, seq<Hook>>
    var tools: seq<Procedure>
    var forms: seq<Procedure>
    var endpoints: seq<Endpoint>
    var saved: Option<seq<string>>

    ghost predicate Valid()
      reads this
    {
      && DistinctIds(plugins) && OwnHooks(plugins)
      && NoDuplicates(activePlugins) && (saved.Some? ==> NoDuplicates(saved.value))
    }

    function Cached(): Tables
      reads this
    {
      Tables(hooks, tools, forms, endpoints)
    }

    /** The cached tables are what a scan from scratch would find. */
    ghost predicate Synced()
      reads this
    {
      Cached() == Scan(plugins, Elements(activePlugins))
    }

    /** The saved list of active plugins is the list in memory. */
    ghost predicate SavedAgrees()
      reads this
    {
      saved.Some? && Elements(saved.value) == Elements(activePlugins)
    }

    /** An empty registry, before its first discovery; `saved` is what the settings hold. */
    constructor (saved: Option<seq<string>>)
      requires saved.Some? ==> NoDuplicates(saved.value)
      ensures Valid() && plugins == [] && activePlugins == [] && this.saved == saved && Cached() == Tables(map[], [], [], [])
    {
      plugins, activePlugins := [], [];
      hooks, tools, forms, endpoints := map[], [], [], [];
      this.saved := saved;
    }

    /** Fill the tables anew, then notify whoever waits for it, which may raise. */
    method SyncHooksToolsAndForms(callbackRaises: bool) returns (raised: bool)
      modifies this`hooks, this`tools, this`forms, this`endpoints
      ensures Synced() && raised == callbackRaises
    {
      hide Gather, ByName;
      hooks, tools, forms, endpoints := map[], [], [], [];
      ghost var active := Elements(activePlugins);
      ghost var all := [];
      NothingGathered(active);
      for i := 0 to |plugins|
        invariant all == Gather(plugins[..i], active, HooksOf) && hooks == ByName(all)
        invariant tools == Gather(plugins[..i], active, ToolsOf)
        invariant forms == Gather(plugins[..i], active, FormsOf)
        invariant endpoints == Gather(plugins[..i], active, EndpointsOf)
      {
        var plugin := plugins[i];
        GatherNext(plugins, i, active, HooksOf);
        GatherNext(plugins, i, active, ToolsOf);
        GatherNext(plugins, i, active, FormsOf);
        GatherNext(plugins, i, active, EndpointsOf);
        if plugin.id in activePlugins {
          tools := tools + plugin.members.tools;
          forms := forms + plugin.members.forms;
          endpoints := endpoints + plugin.members.endpoints;
          hooks := AddHooks(hooks, all, plugin.members.hooks);
          all := all + plugin.members.hooks;
        }
      }
      assert plugins[..|plugins|] == plugins;
      hooks := SortTable(hooks);
      SortedByName(all);
      raised := callbackRaises;
    }

    /** A plugin folder that can be read gets a new, inactive plugin object. */
    method LoadPlugin(id: string, loads: bool)
      requires Valid()
      modifies this`plugins
      ensures Valid()
      ensures plugins == if loads then Put(old(plugins), Plugin(id, NoMembers, false)) else old(plugins)
    {
      if loads {
        PutIds(plugins, Plugin(id, NoMembers, false));
        plugins := Put(plugins, Plugin(id, NoMembers, false));
      }
    }

    /** Save the active plugins without duplicates; the order of a set is anyone's guess. */
    method SaveActivePlugins()
      modifies this`saved
      ensures saved.Some? && NoDuplicates(saved.value) && Elements(saved.value) == Elements(activePlugins)
    {
      var todo := Elements(activePlugins);
      var list: seq<string> := [];
      while todo != {}
        invariant NoDuplicates(list) && Elements(list) !! todo && Elements(list) + todo == Elements(activePlugins)
        decreases todo
      {
        var id :| id in todo;
        assert id !in Elements(list);
        todo := todo - {id};
        ghost var before := list;
        list := list + [id];
        assert Elements(list) == Elements(before) + {id};
      }
      saved := Some(list);
    }

    /**
     Activate or deactivate a plugin. Whether the plugin's own code raises is up to it, and so is the
     callback that ends a synchronisation: when that raises, everything else has been done.
     */
    method TogglePlugin(id: string, activation: Activation, deactivationRaises: bool, callbackRaises: bool) returns (completed: bool)
      requires Valid()
      modifies this
      ensures Valid()
      ensures completed <==> Toggles(old(plugins), old(activePlugins), id, activation, deactivationRaises) && !callbackRaises
      ensures Toggles(old(plugins), old(activePlugins), id, activation, deactivationRaises) ==>
                && Synced() && SavedAgrees()
                && plugins == Toggled(old(plugins), old(activePlugins), id, activation)
                && activePlugins == ToggledIds(old(activePlugins), id)
      ensures !Toggles(old(plugins), old(activePlugins), id, activation, deactivationRaises) ==>
                && activePlugins == old(activePlugins) && saved == old(saved) && Cached() == old(Cached())
                && (plugins == old(plugins)
                    || (activation.FailsLate? && id !in activePlugins
                        && plugins == Put(old(plugins), Plugin(id, Owned(activation.members, id), activation.flagged))))
      ensures old(Synced()) ==> Synced()
      ensures old(SavedAgrees()) ==> SavedAgrees()
    {
      hide Scan, Put, Owned;
      if !Has(plugins, id) {
        return false;
      }
      if id in activePlugins {
        if deactivationRaises {
          return false;
        }
        PutIds(plugins, Plugin(id, NoMembers, false));
        RemovedIds(activePlugins, id);
        plugins := Put(plugins, Plugin(id, NoMembers, false));
        activePlugins := Removed(activePlugins, id);
      } else {
        match activation
        case FailsEarly =>
          return false;
        case FailsLate(members, flagged) =>
          PutOwned(plugins, id, members, flagged);
          ScanSkips(plugins, Elements(activePlugins), Plugin(id, Owned(members, id), flagged));
          plugins := Put(plugins, Plugin(id, Owned(members, id), flagged));
          return false;
        case Loads(members) =>
          PutOwned(plugins, id, members, true);
          plugins := Put(plugins, Plugin(id, Owned(members, id), true));
          activePlugins := activePlugins + [id];
      }
      SaveActivePlugins();
      var raised := SyncHooksToolsAndForms(callbackRaises);
      completed := !raised;
    }

    /** Load an extracted plugin and toggle it. A plugin object just made has nothing that could raise when deactivated. */
    method InstallPlugin(folder: Folder, callbackRaises: bool) returns (completed: bool)
      requires Valid()
      modifies this
      ensures Valid()
      ensures completed <==>
              (&& !callbackRaises && (folder.loads || Has(old(plugins), folder.id))
               && (if folder.id in old(activePlugins) then folder.loads || !folder.deactivationRaises else folder.activation.Loads?))
      ensures completed ==>
                && Synced() && SavedAgrees() && Has(plugins, folder.id)
                && activePlugins == ToggledIds(old(activePlugins), folder.id)
      ensures activePlugins == old(activePlugins) || activePlugins == ToggledIds(old(activePlugins), folder.id)
      ensures !completed && !callbackRaises ==> Cached() == old(Cached()) && saved == old(saved)
      ensures old(Synced()) ==> Synced()
      ensures old(SavedAgrees()) ==> SavedAgrees()
    {
      hide Scan, Put, Owned, Removed;
      if folder.id !in activePlugins {
        ScanSkips(plugins, Elements(activePlugins), Plugin(folder.id, NoMembers, false));
      }
      PutIds(plugins, Plugin(folder.id, NoMembers, false));
      LoadPlugin(folder.id, folder.loads);
      ghost var loaded := plugins;
      var deactivationRaises := folder.deactivationRaises && !folder.loads;
      completed := TogglePlugin(folder.id, folder.activation, deactivationRaises, callbackRaises);
      if completed {
        PutIds(loaded, Plugin(folder.id, if folder.id in old(activePlugins) then NoMembers else Owned(folder.activation.members, folder.id), folder.id !in old(activePlugins)));
      }
    }

    /** Deactivate a plugin if it is active, then forget it; the core plugin stays. */
    method UninstallPlugin(id: string, deactivationRaises: bool, callbackRaises: bool) returns (completed: bool)
      requires Valid()
      modifies this
      ensures Valid()
      ensures !Has(old(plugins), id) || id == CORE_PLUGIN ==>
                completed && plugins == old(plugins) && activePlugins == old(activePlugins) && saved == old(saved)
      ensures Has(old(plugins), id) && id != CORE_PLUGIN ==>
                && (completed <==> !(id in old(activePlugins) && (deactivationRaises || callbackRaises)))
                && (completed ==> forall q :: q in plugins <==> q in old(plugins) && q.id != id)
                && (completed ==> id !in activePlugins && Elements(activePlugins) == Elements(old(activePlugins)) - {id})
                && (!completed ==> Has(plugins, id) && (id in activePlugins <==> deactivationRaises))
      ensures !(Has(old(plugins), id) && id != CORE_PLUGIN && id in old(activePlugins) && !deactivationRaises) ==>
                Cached() == old(Cached()) && saved == old(saved)
      ensures old(Synced()) ==> Synced()
      ensures old(SavedAgrees()) ==> SavedAgrees()
    {
      hide Scan, DistinctIds, Collections.NoDuplicates, Removed, Put, Drop;
      if !Has(plugins, id) || id == CORE_PLUGIN {
        return true;
      }
      ghost var gone := Plugin(id, NoMembers, false);
      if id in activePlugins {
        RemovedIds(activePlugins, id);
        PutIds(plugins, gone);
        var toggled := TogglePlugin(id, FailsEarly, deactivationRaises, callbackRaises);
        if !toggled {
          return false;
        }
      }
      ScanSkips(plugins, Elements(activePlugins), gone);
      DropIds(plugins, id);
      plugins := Drop(plugins, id);
      completed := true;
    }

    method LoadActivePlugins()
      requires Valid()
      modifies this`activePlugins
      ensures NoDuplicates(activePlugins)
      ensures Elements(activePlugins) == Elements(SavedOr(saved, [])) + {CORE_PLUGIN}
    {
      activePlugins := if saved.None? then [] else saved.value;
      if CORE_PLUGIN !in activePlugins {
        activePlugins := activePlugins + [CORE_PLUGIN];
      }
    }

    /** An active plugin could not be activated: deactivate it, if that does not raise as well. */
    method GiveUp(f: Folder, callbackRaises: bool) returns (notified: bool)
      requires Valid() && Has(plugins, f.id) && f.id in activePlugins && !f.activation.Loads?
      modifies this
      ensures Valid()
      ensures if notified then Synced() && SavedAgrees() else Cached() == old(Cached()) && saved == old(saved)
    {
      hide Scan, Put, Owned;
      if f.activation.FailsLate? {
        var failed := Plugin(f.id, Owned(f.activation.members, f.id), f.activation.flagged);
        PutIds(plugins, failed);
        PutOwned(plugins, f.id, f.activation.members, f.activation.flagged);
        plugins := Put(plugins, failed);
      }
      var _ := TogglePlugin(f.id, FailsEarly, f.deactivationRaises, callbackRaises);
      notified := !f.deactivationRaises;
    }

    /**
     Discover all plugins anew; gives up on the first active plugin that is not there or cannot be
     activated, after deactivating it if it can. `notified` says whether the tables were filled anew.
     */
    method FindPlugins(folders: seq<Folder>, callbackRaises: bool) returns (completed: bool, notified: bool)
      requires Valid()
      modifies this
      ensures Valid()
      ensures completed <==> !callbackRaises && AllActivate(folders, Elements(SavedOr(old(saved), [])) + {CORE_PLUGIN})
      ensures completed ==>
                && Synced() && saved == old(saved)
                && Elements(activePlugins) == Elements(SavedOr(saved, [])) + {CORE_PLUGIN}
                && plugins == Discovered(folders, Elements(activePlugins))
                && (SavedAgrees() <==> saved.Some? && CORE_PLUGIN in saved.value)
      ensures !completed ==> (Synced() && SavedAgrees()) || (saved == old(saved) && (Synced() || Cached() == old(Cached())))
      ensures completed ==> notified
      ensures if notified then Synced() else Cached() == old(Cached()) && saved == old(saved)
    {
      hide Scan, Put, Owned, Discovered;
      plugins := [];
      LoadActivePlugins();
      ghost var active := Elements(activePlugins);
      assert folders[..0] == [];
      NothingDiscovered(active);
      for i := 0 to |folders|
        invariant Valid() && saved == old(saved) && Elements(activePlugins) == active && Cached() == old(Cached())
        invariant plugins == Discovered(folders[..i], active) && AllActivate(folders[..i], active)
      {
        var f := folders[i];
        assert folders[..i + 1][..i] == folders[..i];
        DiscoveredIds(folders[..i], active);
        DiscoverNext(folders, i, active);
        GivesUp(folders, i, active);
        LoadPlugin(f.id, f.loads);
        PutIds(Discovered(folders[..i], active), Plugin(f.id, NoMembers, false));
        if f.id in activePlugins {
          if !Has(plugins, f.id) {
            return false, false;
          }
          if !f.activation.Loads? {
            notified := GiveUp(f, callbackRaises);
            return false, notified;
          }
          PutOwned(plugins, f.id, f.activation.members, true);
          plugins := Put(plugins, Plugin(f.id, Owned(f.activation.members, f.id), true));
        }
      }
      assert folders[..|folders|] == folders;
      var raised := SyncHooksToolsAndForms(callbackRaises);
      completed, notified := !raised, true;
    }

    /**
     Call the hooks of a name in running order. With arguments, the first is piped through them: every
     hook gets copies, and what it does to the copies does not matter, only what it returns. Fails only
     when no active plugin has such a hook.
     */
    method ExecuteHook<V>(name: string, arguments: seq<Cell<V>>, run: (Hook, V, seq<V>) -> Effect<V>, raisesBare: Hook -> bool)
      returns (answer: Answer<V>, ghost called: seq<Hook>)
      requires Valid() && Synced()
      ensures answer.NoSuchHook? <==> name !in Scan(plugins, Elements(activePlugins)).hooks
      ensures answer.NoSuchHook? ==> called == []
      ensures !answer.NoSuchHook? ==> called == Prioritized(Named(Gather(plugins, Elements(activePlugins), HooksOf), name))
      ensures !answer.NoSuchHook? ==> (answer.NoValue? <==> arguments == [])
      ensures answer.Value? ==>
                && fresh(answer.cup)
                && answer.cup.value == Piped(called, run, arguments[0].value, Values(arguments[1..]))
      ensures forall c | c in arguments :: unchanged(c)
    {
      called := [];
      if name !in hooks {
        return NoSuchHook, called;
      }
      if arguments == [] {
        called := CallBare(name, raisesBare);
        return NoValue, called;
      }
      var teaCup;
      teaCup, called := Pipe(name, arguments[0], arguments[1..], run);
      answer := Value(teaCup);
    }

    /** Without arguments every hook is called once, whether or not those before it raised. */
    method CallBare(name: string, raises: Hook -> bool) returns (ghost called: seq<Hook>)
      requires Valid() && Synced() && name in hooks
      ensures called == hooks[name]
    {
      called := [];
      var chain := hooks[name];
      for i := 0 to |chain|
        invariant called == chain[..i]
      {
        called := called + [chain[i]];
        if raises(chain[i]) {
          CachedHookHasPlugin(plugins, Elements(activePlugins), name, chain[i]);
          var owner := FindPlugin(chain[i].pluginId);
        }
      }
    }

    method Pipe<V>(name: string, first: Cell<V>, others: seq<Cell<V>>, run: (Hook, V, seq<V>) -> Effect<V>)
      returns (teaCup: Cell<V>, ghost called: seq<Hook>)
      requires Valid() && Synced() && name in hooks
      ensures called == hooks[name] && fresh(teaCup)
      ensures teaCup.value == Piped(called, run, first.value, Values(others))
    {
      hide Scan, DistinctIds, OwnHooks, Collections.NoDuplicates;
      called := [];
      var chain := hooks[name];
      teaCup := new Cell(first.value);
      for i := 0 to |chain|
        invariant fresh(teaCup) && unchanged(first) && (forall c | c in others :: unchanged(c)) && unchanged(this)
        invariant called == chain[..i] && teaCup.value == Piped(called, run, first.value, Values(others))
      {
        var hook := chain[i];
        called := called + [hook];
        assert called[..i] == chain[..i];
        var effect := run(hook, teaCup.value, Values(others));
        var copy := new Cell(teaCup.value);
        copy.value := effect.mutated;
        match effect.ending
        case Returns(value) => teaCup := new Cell(value);
        case ReturnsNone =>
        case Raises =>
          CachedHookHasPlugin(plugins, Elements(activePlugins), name, hook);
          var owner := FindPlugin(hook.pluginId);
      }
    }

    /** The lookup in the error handler; the caller shows that the plugin is there. */
    method FindPlugin(id: string) returns (plugin: Plugin)
      requires Has(plugins, id)
      ensures plugin in plugins && plugin.id == id
    {
      plugin :| plugin in plugins && plugin.id == id;
    }
  }

  /**
   A first start, with no list saved: discovery completes, the core plugin is active, and the saved list,
   still missing, does not say so.
   */
  method FirstStart() returns (hatter: MadHatter)
    ensures fresh(hatter) && hatter.Valid() && hatter.Synced()
    ensures hatter.activePlugins == [CORE_PLUGIN] && hatter.saved == None && !hatter.SavedAgrees()
  {
    hatter := new MadHatter(None);
    var folders := [Folder(CORE_PLUGIN, true, Loads(NoMembers), false)];
    assert AllActivate(folders, Elements([]) + {CORE_PLUGIN}) by {
      assert folders[0] in folders[..1];
    }
    var _, _ := hatter.FindPlugins(folders, false);
    OnlyElement(hatter.activePlugins, CORE_PLUGIN);
  }

  lemma OnlyElement(ids: seq<string>, id: string)
    requires NoDuplicates(ids) && Elements(ids) == {id}
    ensures ids == [id]
  {
    assert forall x :: x in ids <==> x in Elements(ids);
    ElementCount(ids);
    assert ids[0] in ids;
  }

  // ---------- What toggling and discovery show ----------

  /** A plugin toggled on is seen with everything it loaded, its hooks marked as its own. */
  lemma ToggledOnShows(plugins: seq<Plugin>, active: seq<string>, id: string, members: Members)
    requires DistinctIds(plugins) && id !in active
    ensures var t := Scan(Toggled(plugins, active, id, Loads(members)), Elements(ToggledIds(active, id)));
            && (forall q | q in members.tools :: q in t.tools) && (forall q | q in members.forms :: q in t.forms)
            && (forall e | e in members.endpoints :: e in t.endpoints)
            && (forall h | h in members.hooks :: h.name in t.hooks && h.(pluginId := id) in t.hooks[h.name])
  {
    hide Scan, Put, DistinctIds;
    var p := Plugin(id, Owned(members, id), true);
    var on, activeOn := Toggled(plugins, active, id, Loads(members)), Elements(ToggledIds(active, id));
    PutIds(plugins, p);
    assert id in ToggledIds(active, id);
    assert Provides(on, activeOn, p);
    ScanHolds(on, activeOn);
    forall h | h in members.hooks
      ensures h.(pluginId := id) in p.members.hooks
    {
      var i :| 0 <= i < |members.hooks| && members.hooks[i] == h;
      assert p.members.hooks[i] == h.(pluginId := id);
    }
    hide Owned;
    forall h | h in members.hooks
      ensures var t := Scan(on, activeOn); h.name in t.hooks && h.(pluginId := id) in t.hooks[h.name]
    {
      var mine := h.(pluginId := id);
      assert mine in p.members.hooks && mine.name == h.name;
    }
  }

  /** Of a plugin toggled off nothing is seen any more but what other active plugins hold as well. */
  lemma ToggledOffHides(plugins: seq<Plugin>, active: seq<string>, id: string, activation: Activation)
    requires DistinctIds(plugins) && NoDuplicates(active) && id in active
    ensures var t := Scan(Toggled(plugins, active, id, activation), Elements(ToggledIds(active, id)));
            && (forall q :: q in t.tools <==> exists p | Provides(plugins, Elements(active), p) :: p.id != id && q in p.members.tools)
            && (forall q :: q in t.forms <==> exists p | Provides(plugins, Elements(active), p) :: p.id != id && q in p.members.forms)
            && (forall e :: e in t.endpoints <==> exists p | Provides(plugins, Elements(active), p) :: p.id != id && e in p.members.endpoints)
            && (forall h: Hook :: h.name in t.hooks && h in t.hooks[h.name] <==>
                  exists p | Provides(plugins, Elements(active), p) :: p.id != id && h in p.members.hooks)
  {
    hide Scan, Put, DistinctIds, Removed, Owned;
    var off, activeOff := Toggled(plugins, active, id, activation), Elements(ToggledIds(active, id));
    PutIds(plugins, Plugin(id, NoMembers, false));
    RemovedIds(active, id);
    ScanHolds(off, activeOff);
    assert forall p :: Provides(off, activeOff, p) <==> Provides(plugins, Elements(active), p) && p.id != id;
  }

  /** What a completed discovery makes of a folder that no later folder of the same name replaces. */
  lemma {:induction false} DiscoveredHolds(folders: seq<Folder>, active: set<string>, i: nat)
    requires i < |folders| && AllActivate(folders, active)
    requires forall j | i < j < |folders| :: folders[j].id != folders[i].id
    ensures var f, found := folders[i], Discovered(folders, active);
            && (f.id in active ==> f.activation.Loads? && Plugin(f.id, Owned(f.activation.members, f.id), true) in found)
            && (f.id !in active && f.loads ==> Plugin(f.id, NoMembers, false) in found)
    decreases |folders|
  {
    hide Put, Owned, AllActivate, Discovered, DistinctIds, Has, Readable;
    var n := |folders| - 1;
    var f, before := folders[n], Discovered(folders[..n], active);
    GivesUp(folders, n, active);
    DiscoverNext(folders, n, active);
    assert folders[..n + 1] == folders;
    if folders[i].id in active {
      ActivatesAt(folders, active, i);
    }
    DiscoveredIds(folders[..n], active);
    if i < n {
      DiscoveredHolds(folders[..n], active, i);
    }
    var plain := Plugin(f.id, NoMembers, false);
    PutIds(before, plain);
    if f.id in active {
      ActivatesAt(folders, active, n);
      PutIds(if f.loads then Put(before, plain) else before, Plugin(f.id, Owned(f.activation.members, f.id), true));
    }
  }

  lemma ActivatesAt(folders: seq<Folder>, active: set<string>, i: nat)
    requires i < |folders| && AllActivate(folders, active) && folders[i].id in active
    ensures folders[i].activation.Loads?
  {
    assert Activates(folders, i, active);
  }

  // ---------- Toggling twice ----------

  lemma {:induction false} PutTwice(plugins: seq<Plugin>, a: Plugin, b: Plugin)
    requires a.id == b.id
    ensures Put(Put(plugins, a), b) == Put(plugins, b)
  {
    if plugins != [] {
      if plugins[0].id == a.id {
        assert ([a] + plugins[1..])[1..] == plugins[1..];
      } else {
        PutTwice(plugins[1..], a, b);
        assert Put(plugins, a)[1..] == Put(plugins[1..], a);
      }
    }
  }

  lemma {:induction false} PutSame(plugins: seq<Plugin>, p: Plugin)
    requires DistinctIds(plugins) && p in plugins
    ensures Put(plugins, p) == plugins
  {
    DistinctRest(plugins);
    if plugins[0].id != p.id {
      PutSame(plugins[1..], p);
    }
  }

  /**
   Toggling a plugin off and on again, when it loads what it held before, restores the plugins and
   the active set, and with them every cached table, hook order included.
   */
  lemma ToggleOffOn(plugins: seq<Plugin>, active: seq<string>, p: Plugin, members: Members)
    requires DistinctIds(plugins) && NoDuplicates(active) && p in plugins && p.id in active
    requires p == Plugin(p.id, Owned(members, p.id), true)
    ensures var off, activeOff := Put(plugins, Plugin(p.id, NoMembers, false)), Removed(active, p.id);
            var on, activeOn := Put(off, Plugin(p.id, Owned(members, p.id), true)), activeOff + [p.id];
            && on == plugins && Elements(activeOn) == Elements(active)
            && Scan(on, Elements(activeOn)) == Scan(plugins, Elements(active))
  {
    hide Scan, DistinctIds, Collections.NoDuplicates, Removed;
    PutTwice(plugins, Plugin(p.id, NoMembers, false), p);
    PutSame(plugins, p);
    RemovedIds(active, p.id);
    hide Put, Owned;
    var activeOff := Removed(active, p.id);
    assert Elements(activeOff + [p.id]) == Elements(activeOff) + {p.id};
  }

  /** Toggling a plugin on and off again restores the active list and every cached table. */
  lemma ToggleOnOff(plugins: seq<Plugin>, active: seq<string>, id: string, members: Members)
    requires NoDuplicates(active) && id !in active
    ensures var on, activeOn := Put(plugins, Plugin(id, Owned(members, id), true)), active + [id];
            var off, activeOff := Put(on, Plugin(id, NoMembers, false)), Removed(activeOn, id);
            activeOff == active && Scan(off, Elements(activeOff)) == Scan(plugins, Elements(active))
  {
    PutTwice(plugins, Plugin(id, Owned(members, id), true), Plugin(id, NoMembers, false));
    RemovedLast(active, id);
    ScanSkips(plugins, Elements(active), Plugin(id, NoMembers, false));
  }

  lemma {:induction false} RemovedLast(ids: seq<string>, id: string)
    requires id !in ids
    ensures Removed(ids + [id], id) == ids
  {
    if ids != [] {
      RemovedLast(ids[1..], id);
      assert (ids + [id])[1..] == ids[1..] + [id];
    }
  }
}
