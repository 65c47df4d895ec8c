/**
 The agent as a whole, as far as the plugin registry drives the procedural memory: every completed
 change of the registry is followed by a synchronisation of the collection.
 */
module CheshireCat {
  import opened Wrappers
  import opened Collections
  import opened PluginRegistry
  import opened ProceduralMemory

  /** The triggers of the procedures that a scan of the plugins finds: its tools, then its forms. */
  function ActiveTriggers(plugins: seq<Plugin>, active: set<string>): map<string, Entry> {
    TriggersOf(Scan(plugins, active))
  }

  function TriggersOf(tables: Tables): map<string, Entry> {
    Indexed(Entries(tables.tools + tables.forms))
  }

  lemma TriggersWellKeyed(tables: Tables)
    ensures WellKeyed(TriggersOf(tables))
  {
    IndexedKeys(Entries(tables.tools + tables.forms));
  }

  /** One point for every trigger, and no others. */
  ghost predicate InStep(points: Points, triggers: map<string, Entry>) {
    OnePerKey(points) && Keys(points) == triggers.Keys
  }

  // ---------- What the collection holds ----------

  ghost predicate TriggerKey(q: Procedure, k: string) {
    exists t, text | t in q.triggers && text in t.texts :: k == q.name + "." + t.kind + "." + text
  }

  ghost predicate HasKey(point: Point, k: string) {
    k == point.source + "." + (match point.triggerType case Some(t) => t case None => "unsupported") + "." + point.content
  }

  /** A procedure of an active plugin. */
  ghost predicate ActiveProcedure(plugins: seq<Plugin>, active: set<string>, q: Procedure) {
    exists p | Provides(plugins, active, p) :: q in p.members.tools || q in p.members.forms
  }

  /** The key is that of a text, of a trigger, of a tool or a form, of an active plugin. */
  ghost predicate ActiveKey(plugins: seq<Plugin>, active: set<string>, k: string) {
    exists q | ActiveProcedure(plugins, active, q) :: TriggerKey(q, k)
  }

  ghost predicate StoredKey(points: Points, k: string) {
    exists id | id in points :: HasKey(points[id], k)
  }

  lemma TriggerKeys(plugins: seq<Plugin>, active: set<string>)
    ensures forall k :: k in ActiveTriggers(plugins, active) <==> ActiveKey(plugins, active, k)
  {
    var t := Scan(plugins, active);
    ScanHolds(plugins, active);
    hide PluginRegistry.Scan, Entries, Indexed;
    var procedures := t.tools + t.forms;
    assert forall q :: q in procedures <==> ActiveProcedure(plugins, active, q);
    hide ActiveProcedure;
    KeysOfProcedures(procedures);
  }

  lemma KeysOfProcedures(procedures: seq<Procedure>)
    ensures forall k :: k in Indexed(Entries(procedures)) <==> exists q | q in procedures :: TriggerKey(q, k)
  {
    EntriesHold(procedures);
    IndexedKeys(Entries(procedures));
    hide Entries, Indexed;
    forall k
      ensures k in Indexed(Entries(procedures)) <==> exists q | q in procedures :: TriggerKey(q, k)
    {
      if k in Indexed(Entries(procedures)) {
        var e := Indexed(Entries(procedures))[k];
        var q :| q in procedures && EntryOf(q, e);
        assert TriggerKey(q, k);
      }
      if q :| q in procedures && TriggerKey(q, k) {
        var t, text :| t in q.triggers && text in t.texts && k == q.name + "." + t.kind + "." + text;
        var e := Entry(q.name, q.kind, t.kind, text);
        assert EntryOf(q, e) && e in Entries(procedures) && EntryKey(e) == k;
      }
    }
  }

  /** In a collection in step the keys stored are exactly those of the active plugins' tools and forms. */
  lemma StoredKeys(plugins: seq<Plugin>, active: set<string>, points: Points)
    requires InStep(points, ActiveTriggers(plugins, active))
    ensures forall k :: StoredKey(points, k) <==> ActiveKey(plugins, active, k)
  {
    hide ActiveTriggers, ActiveKey;
    TriggerKeys(plugins, active);
    forall k
      ensures k in Keys(points) <==> StoredKey(points, k)
    {
      assert forall id | id in points :: HasKey(points[id], k) <==> PointKey(points[id]) == k;
    }
  }

  // ---------- Toggling twice ----------

  lemma KeysBack(points: Points, tables: Tables, between: Tables, limit: nat, middle: Points, points': Points)
    requires Keys(points) == TriggersOf(tables).Keys && |points| <= limit && |middle| <= limit
    requires EmbedStep(points, TriggersOf(between), middle, limit) && EmbedStep(middle, TriggersOf(tables), points', limit)
    ensures Keys(points') == Keys(points)
  {
    hide *;
    TriggersWellKeyed(tables);
    TriggersWellKeyed(between);
    WithinLimit(points, TriggersOf(between), middle, limit);
    WithinLimit(middle, TriggersOf(tables), points', limit);
    KeysComeBack(points, TriggersOf(tables), TriggersOf(between), middle, points');
  }

  /** Toggling a plugin off and on again brings back the keys of the collection, whatever it stored twice. */
  lemma OffOnRestoresKeys(plugins: seq<Plugin>, active: seq<string>, p: Plugin, members: Members,
                          points: Points, limit: nat, middle: Points, points': Points)
    requires DistinctIds(plugins) && NoDuplicates(active) && p in plugins && p.id in active
    requires p == Plugin(p.id, Owned(members, p.id), true)
    requires Keys(points) == ActiveTriggers(plugins, Elements(active)).Keys && |points| <= limit && |middle| <= limit
    requires var off, activeOff := Toggled(plugins, active, p.id, Loads(members)), ToggledIds(active, p.id);
             var on, activeOn := Toggled(off, activeOff, p.id, Loads(members)), ToggledIds(activeOff, p.id);
             && EmbedStep(points, ActiveTriggers(off, Elements(activeOff)), middle, limit)
             && EmbedStep(middle, ActiveTriggers(on, Elements(activeOn)), points', limit)
    ensures Keys(points') == Keys(points)
  {
    hide EmbedStep, TriggersOf, Keys, PluginRegistry.Scan, PluginRegistry.Put, PluginRegistry.Removed, PluginRegistry.DistinctIds, PluginRegistry.Owned;
    RemovedIds(active, p.id);
    var activeOff := ToggledIds(active, p.id);
    assert p.id !in Elements(activeOff);
    var off := Toggled(plugins, active, p.id, Loads(members));
    ToggleOffOn(plugins, active, p, members);
    KeysBack(points, Scan(plugins, Elements(active)), Scan(off, Elements(activeOff)), limit, middle, points');
  }

  /** So does toggling an inactive plugin on and off again. */
  lemma OnOffRestoresKeys(plugins: seq<Plugin>, active: seq<string>, id: string, members: Members,
                          points: Points, limit: nat, middle: Points, points': Points)
    requires NoDuplicates(active) && id !in active
    requires Keys(points) == ActiveTriggers(plugins, Elements(active)).Keys && |points| <= limit && |middle| <= limit
    requires var on, activeOn := Toggled(plugins, active, id, Loads(members)), ToggledIds(active, id);
             var off, activeOff := Toggled(on, activeOn, id, Loads(members)), ToggledIds(activeOn, id);
             && EmbedStep(points, ActiveTriggers(on, Elements(activeOn)), middle, limit)
             && EmbedStep(middle, ActiveTriggers(off, Elements(activeOff)), points', limit)
    ensures Keys(points') == Keys(points)
  {
    hide EmbedStep, TriggersOf, Keys, PluginRegistry.Scan, PluginRegistry.Put, PluginRegistry.Removed, PluginRegistry.Owned;
    ToggleOnOff(plugins, active, id, members);
    var on, activeOn := Toggled(plugins, active, id, Loads(members)), ToggledIds(active, id);
    assert id in activeOn;
    KeysBack(points, Scan(plugins, Elements(active)), Scan(on, Elements(activeOn)), limit, middle, points');
  }

  // ---------- Runs of the registry ----------

  /** What the registry knows and what the collection holds. */
  datatype Snapshot = Snapshot(plugins: seq<Plugin>, active: set<string>, points: Points)
  {
    function Triggers(): map<string, Entry> {
      ActiveTriggers(plugins, active)
    }
  }

  /**
   A step of the agent: any change of the registry followed by a synchronisation, or one that leaves
   the triggers alone and is not followed by any.
   */
  ghost predicate CatStep(before: Snapshot, after: Snapshot, limit: nat) {
    || EmbedStep(before.points, after.Triggers(), after.points, limit)
    || (after.Triggers() == before.Triggers() && after.points == before.points)
  }

  lemma StepKeepsInStep(before: Snapshot, after: Snapshot, limit: nat)
    requires InStep(before.points, before.Triggers()) && |before.Triggers()| <= limit && CatStep(before, after, limit)
    ensures InStep(after.points, after.Triggers())
  {
    if after.points != before.points || after.Triggers() != before.Triggers() {
      TriggersWellKeyed(Scan(after.plugins, after.active));
      hide EmbedStep, Snapshot.Triggers;
      OnePerKeySize(before.points);
      WithinLimit(before.points, after.Triggers(), after.points, limit);
      SyncKeepsOnePerKey(before.points, after.Triggers(), after.points);
    }
  }

  lemma OnePerKeySize(points: Points)
    requires OnePerKey(points)
    ensures |points| == |Keys(points)|
  {
    var keyOf := map id | id in points :: PointKey(points[id]);
    assert Chosen(keyOf, points.Keys) == Keys(points);
    ImageSize(points.Keys, keyOf);
  }

  /**
   After any run of the agent from a collection in step, whatever the operations were, the keys stored
   are those of the procedures a scan of the active plugins finds, with one point each, as long as
   there are never more triggers than a fetch brings.
   */
  lemma {:induction false} KeysFollowRegistry(run: seq<Snapshot>, limit: nat, i: nat)
    requires i < |run| && InStep(run[0].points, run[0].Triggers())
    requires forall k | 0 <= k < |run| :: |run[k].Triggers()| <= limit
    requires forall k | 0 <= k < |run| - 1 :: CatStep(run[k], run[k + 1], limit)
    ensures InStep(run[i].points, run[i].Triggers())
  {
    hide CatStep, InStep, Snapshot.Triggers;
    if i > 0 {
      KeysFollowRegistry(run, limit, i - 1);
      var k := i - 1;
      assert CatStep(run[k], run[k + 1], limit);
      StepKeepsInStep(run[k], run[i], limit);
    }
  }

  // ---------- The agent object ----------

  class Cat {
    const madHatter: MadHatter
    const procedural: Collection

    constructor (madHatter: MadHatter, procedural: Collection)
      ensures this.madHatter == madHatter && this.procedural == procedural
    {
      this.madHatter, this.procedural := madHatter, procedural;
    }

    ghost predicate Settled()
      reads madHatter, procedural
    {
      && madHatter.Valid() && madHatter.Synced()
      && InStep(procedural.points, ActiveTriggers(madHatter.plugins, Elements(madHatter.activePlugins)))
    }

    /** What being settled means for the collection, over the plugins. */
    lemma SettledKeys()
      requires Settled()
      ensures forall k :: StoredKey(procedural.points, k) <==> ActiveKey(madHatter.plugins, Elements(madHatter.activePlugins), k)
    {
      hide InStep;
      StoredKeys(madHatter.plugins, Elements(madHatter.activePlugins), procedural.points);
    }

    ghost function Shot(): Snapshot
      reads madHatter, procedural
    {
      Snapshot(madHatter.plugins, Elements(madHatter.activePlugins), procedural.points)
    }

    /** The callback that ends a synchronisation of the tables. */
    method OnFinishPluginsSync(newIds: nat -> Id)
      requires madHatter.Synced() && NewIds(procedural.points, newIds)
      modifies procedural
      ensures EmbedStep(old(procedural.points), Shot().Triggers(), procedural.points, FETCH_LIMIT)
    {
      procedural.EmbedProcedures(madHatter.tools + madHatter.forms, newIds);
    }

    /** Toggle a plugin; if that completes, the collection is synchronised. */
    method TogglePlugin(id: string, activation: Activation, deactivationRaises: bool, newIds: nat -> Id) returns (completed: bool)
      requires Settled() && NewIds(procedural.points, newIds) && |procedural.points| <= FETCH_LIMIT
      modifies madHatter, procedural
      ensures Settled()
      ensures completed <==> Toggles(old(madHatter.plugins), old(madHatter.activePlugins), id, activation, deactivationRaises)
      ensures completed ==>
                && madHatter.plugins == Toggled(old(madHatter.plugins), old(madHatter.activePlugins), id, activation)
                && madHatter.activePlugins == ToggledIds(old(madHatter.activePlugins), id)
      ensures CatStep(old(Shot()), Shot(), FETCH_LIMIT)
    {
      ghost var before := Shot();
      completed := madHatter.TogglePlugin(id, activation, deactivationRaises, false);
      if completed {
        OnFinishPluginsSync(newIds);
      }
      Settles(before);
    }

    method InstallPlugin(folder: Folder, newIds: nat -> Id) returns (completed: bool)
      requires Settled() && NewIds(procedural.points, newIds) && |procedural.points| <= FETCH_LIMIT
      modifies madHatter, procedural
      ensures Settled()
      ensures CatStep(old(Shot()), Shot(), FETCH_LIMIT)
    {
      ghost var before := Shot();
      completed := madHatter.InstallPlugin(folder, false);
      if completed {
        OnFinishPluginsSync(newIds);
      }
      Settles(before);
    }

    method UninstallPlugin(id: string, deactivationRaises: bool, newIds: nat -> Id) returns (completed: bool)
      requires Settled() && NewIds(procedural.points, newIds) && |procedural.points| <= FETCH_LIMIT
      modifies madHatter, procedural
      ensures Settled()
      ensures CatStep(old(Shot()), Shot(), FETCH_LIMIT)
    {
      ghost var before := Shot();
      var toggles := Has(madHatter.plugins, id) && id != CORE_PLUGIN && id in madHatter.activePlugins;
      completed := madHatter.UninstallPlugin(id, deactivationRaises, false);
      if completed && toggles {
        OnFinishPluginsSync(newIds);
      }
      Settles(before);
    }

    /**
     Discover all plugins, which settles the agent also when it was not settled before. A discovery that
     gives up either settles it too or leaves tables and collection as they were.
     */
    method FindPlugins(folders: seq<Folder>, newIds: nat -> Id) returns (completed: bool)
      requires madHatter.Valid() && OnePerKey(procedural.points) && |procedural.points| <= FETCH_LIMIT
      requires NewIds(procedural.points, newIds)
      modifies madHatter, procedural
      ensures madHatter.Valid() && OnePerKey(procedural.points)
      ensures completed ==> Settled()
      ensures Settled() || (madHatter.Cached() == old(madHatter.Cached()) && procedural.points == old(procedural.points))
    {
      hide EmbedStep, OnePerKey, InStep, ActiveTriggers, Snapshot.Triggers, Keys, NewIds, Collections.Elements, PluginRegistry.Scan,
        PluginRegistry.AllActivate, PluginRegistry.Discovered, PluginRegistry.DistinctIds, PluginRegistry.OwnHooks, Collections.NoDuplicates;
      var notified;
      completed, notified := madHatter.FindPlugins(folders, false);
      if notified {
        OnFinishPluginsSync(newIds);
        Resettles(old(procedural.points));
      }
    }

    lemma Resettles(points: Points)
      requires madHatter.Valid() && madHatter.Synced() && OnePerKey(points) && |points| <= FETCH_LIMIT
      requires EmbedStep(points, Shot().Triggers(), procedural.points, FETCH_LIMIT)
      ensures Settled() && OnePerKey(procedural.points)
    {
      hide EmbedStep, OnePerKey, Keys, TriggersOf;
      TriggersWellKeyed(Scan(madHatter.plugins, Elements(madHatter.activePlugins)));
      WithinLimit(points, Shot().Triggers(), procedural.points, FETCH_LIMIT);
      SyncKeepsOnePerKey(points, Shot().Triggers(), procedural.points);
    }

    lemma Settles(before: Snapshot)
      requires InStep(before.points, before.Triggers()) && |before.points| <= FETCH_LIMIT
      requires madHatter.Valid() && madHatter.Synced() && CatStep(before, Shot(), FETCH_LIMIT)
      ensures Settled()
    {
      OnePerKeySize(before.points);
      StepKeepsInStep(before, Shot(), FETCH_LIMIT);
    }
  }
}
