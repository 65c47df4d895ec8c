/**
 Keeping the procedural collection of the vector memory in step with the triggers of the active
 tools and forms.
 */
module ProceduralMemory {
  import opened Wrappers
  import opened Collections
  import opened PluginRegistry

  type Id = string

  datatype Point = Point(source: string, kind: string, triggerType: Option<string>, content: string)

  type Points = map<Id, Point>

  /** A trigger of an active procedure. */
  datatype Entry = Entry(source: string, kind: string, triggerType: string, content: string)

  function KeyText(source: string, triggerType: string, content: string): string {
    source + "." + triggerType + "." + content
  }

  /** Old points may lack the kind of their trigger. */
  function PointKey(p: Point): string {
    KeyText(p.source, if p.triggerType.Some? then p.triggerType.value else "unsupported", p.content)
  }

  function EntryKey(e: Entry): string {
    KeyText(e.source, e.triggerType, e.content)
  }

  function PointOf(e: Entry): Point {
    Point(e.source, e.kind, Some(e.triggerType), e.content)
  }

  // ---------- The triggers of the active procedures ----------

  function TextEntries(p: Procedure, kind: string, texts: seq<string>): seq<Entry> {
    if texts == [] then []
    else TextEntries(p, kind, texts[..|texts| - 1]) + [Entry(p.name, p.kind, kind, texts[|texts| - 1])]
  }

  function TriggerEntries(p: Procedure, triggers: seq<Trigger>): seq<Entry> {
    if triggers == [] then []
    else
      var t := triggers[|triggers| - 1];
      TriggerEntries(p, triggers[..|triggers| - 1]) + TextEntries(p, t.kind, t.texts)
  }

  function Entries(procedures: seq<Procedure>): seq<Entry> {
    if procedures == [] then []
    else
      var p := procedures[|procedures| - 1];
      Entries(procedures[..|procedures| - 1]) + TriggerEntries(p, p.triggers)
  }

  /** The entries by key; of two with one key the later stays. */
  function Indexed(entries: seq<Entry>): map<string, Entry> {
    if entries == [] then map[]
    else Indexed(entries[..|entries| - 1])[EntryKey(entries[|entries| - 1]) := entries[|entries| - 1]]
  }

  /** One entry for each text of each trigger. */
  ghost predicate EntryOf(p: Procedure, e: Entry) {
    exists t, text | t in p.triggers && text in t.texts :: e == Entry(p.name, p.kind, t.kind, text)
  }

  lemma {:induction false} TextEntriesHold(p: Procedure, kind: string, texts: seq<string>)
    ensures forall e :: e in TextEntries(p, kind, texts) <==> e == Entry(p.name, p.kind, kind, e.content) && e.content in texts
  {
    if texts != [] {
      TextEntriesHold(p, kind, texts[..|texts| - 1]);
    }
  }

  lemma {:induction false} TriggerEntriesHold(p: Procedure, triggers: seq<Trigger>)
    ensures forall e :: e in TriggerEntries(p, triggers) <==>
              exists t | t in triggers :: e == Entry(p.name, p.kind, t.kind, e.content) && e.content in t.texts
  {
    if triggers != [] {
      var n := |triggers| - 1;
      TriggerEntriesHold(p, triggers[..n]);
      TextEntriesHold(p, triggers[n].kind, triggers[n].texts);
      assert forall t :: t in triggers <==> t == triggers[n] || t in triggers[..n];
    }
  }

  /** The entries are those of the procedures. */
  lemma {:induction false} EntriesHold(procedures: seq<Procedure>)
    ensures forall e :: e in Entries(procedures) <==> exists p | p in procedures :: EntryOf(p, e)
  {
    hide EntryOf;
    if procedures != [] {
      var n := |procedures| - 1;
      EntriesHold(procedures[..n]);
      EntriesOfOne(procedures[n]);
      assert forall p :: p in procedures <==> p == procedures[n] || p in procedures[..n];
    }
  }

  lemma EntriesOfOne(p: Procedure)
    ensures forall e :: e in TriggerEntries(p, p.triggers) <==> EntryOf(p, e)
  {
    TriggerEntriesHold(p, p.triggers);
  }

  /** Every entry is found under its own key. */
  lemma {:induction false} IndexedKeys(entries: seq<Entry>)
    ensures forall k | k in Indexed(entries) :: EntryKey(Indexed(entries)[k]) == k && Indexed(entries)[k] in entries
    ensures forall e | e in entries :: EntryKey(e) in Indexed(entries)
  {
    if entries != [] {
      IndexedKeys(entries[..|entries| - 1]);
    }
  }

  method BuildActiveHashes(procedures: seq<Procedure>) returns (hashes: map<string, Entry>)
    ensures hashes == Indexed(Entries(procedures))
  {
    hashes := map[];
    for i := 0 to |procedures|
      invariant hashes == Indexed(Entries(procedures[..i]))
    {
      hashes := AddTriggers(hashes, Entries(procedures[..i]), procedures[i]);
      assert procedures[..i + 1][..i] == procedures[..i];
    }
    assert procedures[..|procedures|] == procedures;
  }

  method AddTriggers(before: map<string, Entry>, ghost entries: seq<Entry>, p: Procedure) returns (hashes: map<string, Entry>)
    requires before == Indexed(entries)
    ensures hashes == Indexed(entries + TriggerEntries(p, p.triggers))
  {
    hide Indexed, TextEntries;
    hashes := before;
    assert entries + [] == entries;
    for i := 0 to |p.triggers|
      invariant hashes == Indexed(entries + TriggerEntries(p, p.triggers[..i]))
    {
      var t := p.triggers[i];
      ghost var sofar := entries + TriggerEntries(p, p.triggers[..i]);
      assert p.triggers[..i + 1][..i] == p.triggers[..i];
      assert entries + TriggerEntries(p, p.triggers[..i + 1]) == sofar + TextEntries(p, t.kind, t.texts);
      hashes := AddTexts(hashes, sofar, p, t);
    }
    assert p.triggers[..|p.triggers|] == p.triggers;
  }

  method AddTexts(before: map<string, Entry>, ghost entries: seq<Entry>, p: Procedure, t: Trigger) returns (hashes: map<string, Entry>)
    requires before == Indexed(entries)
    ensures hashes == Indexed(entries + TextEntries(p, t.kind, t.texts))
  {
    hashes := before;
    assert entries + [] == entries;
    for i := 0 to |t.texts|
      invariant hashes == Indexed(entries + TextEntries(p, t.kind, t.texts[..i]))
    {
      var e := Entry(p.name, p.kind, t.kind, t.texts[i]);
      ghost var sofar := entries + TextEntries(p, t.kind, t.texts[..i]);
      assert t.texts[..i + 1][..i] == t.texts[..i];
      assert entries + TextEntries(p, t.kind, t.texts[..i + 1]) == sofar + [e];
      assert (sofar + [e])[..|sofar|] == sofar;
      hashes := hashes[EntryKey(e) := e];
    }
    assert t.texts[..|t.texts|] == t.texts;
  }

  // ---------- One synchronisation ----------

  ghost predicate WellKeyed(active: map<string, Entry>) {
    forall k | k in active :: EntryKey(active[k]) == k
  }

  function Keys(points: Points): set<string> {
    set id | id in points :: PointKey(points[id])
  }

  /** Points whose key belongs to no active trigger. */
  function Stale(points: Points, active: set<string>): set<Id> {
    set id | id in points && PointKey(points[id]) !in active
  }

  /** One point for each key. */
  ghost predicate Chooses(points: Points, chosen: map<string, Id>) {
    && chosen.Keys == Keys(points)
    && forall k | k in chosen :: chosen[k] in points && PointKey(points[chosen[k]]) == k
  }

  /** The points added: one for each key, under the new ids of `added`. */
  ghost predicate Adds(points: Points, wanted: map<string, Entry>, keys: set<string>, added: map<Id, string>, result: Points) {
    && keys <= wanted.Keys && Chosen(added, added.Keys) == keys
    && (forall i, j | i in added && j in added && i != j :: added[i] != added[j])
    && added.Keys !! points.Keys && result.Keys == points.Keys + added.Keys
    && (forall id | id in points :: result[id] == points[id])
    && (forall id | id in added :: added[id] in wanted && result[id] == PointOf(wanted[added[id]]))
  }

  /** What a map takes some of its keys to. */
  function Chosen(chosen: map<string, Id>, keys: set<string>): set<Id> {
    set k | k in keys && k in chosen :: chosen[k]
  }

  /** A synchronisation that saw all points. */
  ghost predicate Synchronized(points: Points, active: map<string, Entry>, points': Points) {
    exists chosen, added ::
      && Chooses(points, chosen)
      && Adds(points - Chosen(chosen, Keys(points) - active.Keys), active, active.Keys - Keys(points), added, points')
  }

  lemma {:induction false} ImageSize(keys: set<string>, f: map<string, Id>)
    requires keys <= f.Keys
    requires forall j, k | j in keys && k in keys && j != k :: f[j] != f[k]
    ensures |Chosen(f, keys)| == |keys|
  {
    if keys != {} {
      var k :| k in keys;
      ImageSize(keys - {k}, f);
      assert Chosen(f, keys) == Chosen(f, keys - {k}) + {f[k]};
    } else {
      assert Chosen(f, keys) == {};
    }
  }

  /** The points chosen for the stale keys: one each, and all stale. */
  lemma ChosenAreStale(points: Points, active: set<string>, chosen: map<string, Id>)
    requires Chooses(points, chosen)
    ensures var deleted := Chosen(chosen, Keys(points) - active);
            deleted <= Stale(points, active) <= points.Keys && |deleted| == |Keys(points) - active|
  {
    ImageSize(Keys(points) - active, chosen);
  }

  /** Deleting stale points leaves the other stale ones, and the keys of active triggers. */
  lemma DeletedIsStale(points: Points, active: set<string>, deleted: set<Id>)
    requires deleted <= Stale(points, active)
    ensures Stale(points - deleted, active) == Stale(points, active) - deleted
    ensures Keys(points) * active <= Keys(points - deleted)
  {
    forall k | k in Keys(points) && k in active
      ensures k in Keys(points - deleted)
    {
      var id :| id in points && PointKey(points[id]) == k;
      assert id in points - deleted;
    }
  }

  /**
   Each synchronisation lowers the number of stale points by the number of distinct stale keys; points
   of active triggers stay as they are; and every active trigger has a point afterwards.
   */
  lemma StaleDecreases(points: Points, active: map<string, Entry>, points': Points)
    requires Synchronized(points, active, points')
    requires WellKeyed(active)
    ensures |Stale(points', active.Keys)| == |Stale(points, active.Keys)| - |Keys(points) - active.Keys|
    ensures Stale(points', active.Keys) <= Stale(points, active.Keys)
    ensures forall id | id in points && id !in Stale(points, active.Keys) :: id in points' && points'[id] == points[id]
    ensures active.Keys <= Keys(points')
  {
    var chosen, added :|
      && Chooses(points, chosen)
      && Adds(points - Chosen(chosen, Keys(points) - active.Keys), active, active.Keys - Keys(points), added, points');
    hide Stale, Keys, Chosen, Adds, Chooses, WellKeyed;
    var deleted := Chosen(chosen, Keys(points) - active.Keys);
    ChosenAreStale(points, active.Keys, chosen);
    DeletedIsStale(points, active.Keys, deleted);
    AddedIsActive(points - deleted, active, active.Keys - Keys(points), added, points');
    OthersKept(points, deleted, active, active.Keys - Keys(points), added, points');
    SizeWithout(Stale(points, active.Keys), deleted);
    Covers(Keys(points), active.Keys, Keys(points - deleted));
  }

  lemma SizeWithout(all: set<Id>, some: set<Id>)
    requires some <= all
    ensures |all - some| == |all| - |some| && all - some <= all
  {
  }

  lemma Covers(before: set<string>, wanted: set<string>, kept: set<string>)
    requires before * wanted <= kept
    ensures wanted <= kept + (wanted - before)
  {
    forall k | k in wanted
      ensures k in kept + (wanted - before)
    {
      assert k in before ==> k in before * wanted;
    }
  }

  lemma OthersKept(points: Points, deleted: set<Id>, active: map<string, Entry>, keys: set<string>, added: map<Id, string>, result: Points)
    requires Adds(points - deleted, active, keys, added, result)
    ensures forall id | id in points && id !in deleted :: id in result && result[id] == points[id]
  {
    forall id | id in points && id !in deleted
      ensures id in result && result[id] == points[id]
    {
      assert id in points - deleted;
    }
  }

  lemma AddedIsActive(points: Points, active: map<string, Entry>, keys: set<string>, added: map<Id, string>, result: Points)
    requires Adds(points, active, keys, added, result) && WellKeyed(active)
    ensures Stale(result, active.Keys) == Stale(points, active.Keys)
    ensures Keys(result) == Keys(points) + keys
  {
    forall id | id in added
      ensures PointKey(result[id]) == added[id] && added[id] in keys
    {
      AddedKey(points, active, keys, added, result, id);
    }
    AddedKeys(points, keys, added, result);
    AddedStale(points, active.Keys, added, result);
  }

  lemma AddedKey(points: Points, active: map<string, Entry>, keys: set<string>, added: map<Id, string>, result: Points, id: Id)
    requires Adds(points, active, keys, added, result) && WellKeyed(active) && id in added
    ensures PointKey(result[id]) == added[id] && added[id] in keys
  {
    assert result[id] == PointOf(active[added[id]]);
    assert added[id] in Chosen(added, added.Keys);
  }

  lemma AddedKeys(points: Points, keys: set<string>, added: map<Id, string>, result: Points)
    requires Chosen(added, added.Keys) == keys && result.Keys == points.Keys + added.Keys
    requires forall id | id in points :: result[id] == points[id]
    requires forall id | id in added :: PointKey(result[id]) == added[id] && added[id] in keys
    ensures Keys(result) == Keys(points) + keys
  {
    hide PointKey;
    forall k | k in Keys(points) + keys
      ensures k in Keys(result)
    {
      if k in keys {
        var id :| id in added && added[id] == k;
        assert id in result;
      } else {
        var id :| id in points && PointKey(points[id]) == k;
        assert id in result;
      }
    }
  }

  lemma AddedStale(points: Points, active: set<string>, added: map<Id, string>, result: Points)
    requires added.Keys !! points.Keys && result.Keys == points.Keys + added.Keys
    requires forall id | id in points :: result[id] == points[id]
    requires forall id | id in added :: PointKey(result[id]) in active
    ensures Stale(result, active) == Stale(points, active)
  {
    hide PointKey;
  }

  /** The point says where the trigger comes from, of which kind both are, and its text. */
  ghost predicate PointOfTrigger(p: Procedure, point: Point) {
    exists t, text | t in p.triggers && text in t.texts :: point == Point(p.name, p.kind, Some(t.kind), text)
  }

  /** What a synchronisation brings or changes are points of triggers of the procedures. */
  lemma BroughtArePoints(points: Points, procedures: seq<Procedure>, points': Points)
    requires Synchronized(points, Indexed(Entries(procedures)), points')
    ensures forall id | id in points' && (id !in points || points'[id] != points[id]) ::
              exists p | p in procedures :: PointOfTrigger(p, points'[id])
  {
    hide Synchronized, Indexed, Entries, EntryOf;
    IndexedKeys(Entries(procedures));
    EntriesHold(procedures);
    forall id | id in points' && (id !in points || points'[id] != points[id])
      ensures exists p | p in procedures :: PointOfTrigger(p, points'[id])
    {
      var e := BroughtEntry(points, Indexed(Entries(procedures)), points', id);
      var p :| p in procedures && EntryOf(p, e);
      SameTrigger(p, e);
    }
  }

  lemma BroughtEntry(points: Points, active: map<string, Entry>, points': Points, id: Id) returns (e: Entry)
    requires Synchronized(points, active, points') && id in points' && (id !in points || points'[id] != points[id])
    ensures points'[id] == PointOf(e) && exists k | k in active :: active[k] == e
  {
    var chosen, added :|
      && Chooses(points, chosen)
      && Adds(points - Chosen(chosen, Keys(points) - active.Keys), active, active.Keys - Keys(points), added, points');
    hide Chooses, Keys, Chosen;
    assert id in added;
    e := active[added[id]];
  }

  lemma SameTrigger(p: Procedure, e: Entry)
    requires EntryOf(p, e)
    ensures PointOfTrigger(p, PointOf(e))
  {
  }

  /** The keys there are: those of the active triggers that have a point, and those of stale points. */
  lemma KeysSplit(points: Points, active: set<string>)
    ensures Keys(points) == active <==> active <= Keys(points) && Stale(points, active) == {}
  {
    if Keys(points) == active {
      forall id | id in points
        ensures PointKey(points[id]) in active
      {
        assert PointKey(points[id]) in Keys(points);
      }
    }
    if active <= Keys(points) && Stale(points, active) == {} {
      forall k | k in Keys(points)
        ensures k in active
      {
        var id :| id in points && PointKey(points[id]) == k;
        assert id !in Stale(points, active);
      }
    }
  }

  ghost predicate StaleKeysDistinct(points: Points, active: set<string>) {
    forall i, j | i in Stale(points, active) && j in Stale(points, active) && i != j :: PointKey(points[i]) != PointKey(points[j])
  }

  /** One synchronisation is enough exactly when no two stale points share a key. */
  lemma OneRunSuffices(points: Points, active: map<string, Entry>, points': Points)
    requires Synchronized(points, active, points') && WellKeyed(active)
    ensures Keys(points') == active.Keys <==> StaleKeysDistinct(points, active.Keys)
  {
    StaleDecreases(points, active, points');
    KeysSplit(points', active.Keys);
    StaleKeyCount(points, active.Keys);
    var left := Stale(points', active.Keys);
    assert left == {} <==> |left| == 0;
  }

  /** There are as many stale keys as stale points exactly when no two of the points share a key. */
  lemma StaleKeyCount(points: Points, active: set<string>)
    ensures |Stale(points, active)| == |Keys(points) - active| <==> StaleKeysDistinct(points, active)
  {
    var stale := Stale(points, active);
    var keyOf := map id | id in stale :: PointKey(points[id]);
    assert Chosen(keyOf, stale) == Keys(points) - active by {
      forall k | k in Keys(points) - active
        ensures k in Chosen(keyOf, stale)
      {
        var id :| id in points && PointKey(points[id]) == k;
        assert id in stale;
      }
    }
    if StaleKeysDistinct(points, active) {
      ImageSize(stale, keyOf);
    } else {
      var i, j :| i in stale && j in stale && i != j && PointKey(points[i]) == PointKey(points[j]);
      assert Chosen(keyOf, stale) == Chosen(keyOf, stale - {i}) by {
        assert keyOf[i] == keyOf[j];
      }
      ImageAtMost(stale - {i}, keyOf);
    }
  }

  lemma {:induction false} ImageAtMost(keys: set<string>, f: map<string, Id>)
    requires keys <= f.Keys
    ensures |Chosen(f, keys)| <= |keys|
  {
    if keys != {} {
      var k :| k in keys;
      ImageAtMost(keys - {k}, f);
      assert Chosen(f, keys) == Chosen(f, keys - {k}) + {f[k]};
    } else {
      assert Chosen(f, keys) == {};
    }
  }

  /** Once there is nothing stale and nothing missing, synchronising again changes nothing. */
  lemma SettledStays(points: Points, active: map<string, Entry>, points': Points)
    requires Synchronized(points, active, points') && Keys(points) == active.Keys
    ensures points' == points
  {
    var chosen, added :|
      && Chooses(points, chosen)
      && Adds(points - Chosen(chosen, Keys(points) - active.Keys), active, active.Keys - Keys(points), added, points');
    hide Adds, Keys;
    assert Keys(points) - active.Keys == {} && active.Keys - Keys(points) == {};
    assert Chosen(chosen, {}) == {};
    assert points - {} == points;
    AddsNothing(points, active, added, points');
  }

  lemma AddsNothing(points: Points, active: map<string, Entry>, added: map<Id, string>, result: Points)
    requires Adds(points, active, {}, added, result)
    ensures result == points
  {
    assert forall id | id in added :: added[id] in Chosen(added, added.Keys);
    assert added.Keys == {};
  }

  lemma NothingAdded(points: Points, active: map<string, Entry>)
    ensures Adds(points, active, {}, map[], points)
  {
    var none: map<Id, string> := map[];
    assert Chosen(none, none.Keys) == {};
  }

  // ---------- Repeated synchronisation ----------

  ghost predicate SyncRun(states: seq<Points>, active: map<string, Entry>) {
    states != [] && forall i | 0 <= i < |states| - 1 :: Synchronized(states[i], active, states[i + 1])
  }

  lemma {:induction false} StaleAfter(states: seq<Points>, active: map<string, Entry>, i: nat)
    requires SyncRun(states, active) && WellKeyed(active) && i < |states|
    ensures |Stale(states[i], active.Keys)| <= if i <= |Stale(states[0], active.Keys)| then |Stale(states[0], active.Keys)| - i else 0
    ensures i > 0 ==> active.Keys <= Keys(states[i])
  {
    hide Stale, Keys, Synchronized, WellKeyed;
    if i > 0 {
      StaleAfter(states, active, i - 1);
      var before := i - 1;
      assert Synchronized(states[before], active, states[before + 1]);
      OneFewer(states[before], active, states[i]);
    }
  }

  lemma OneFewer(points: Points, active: map<string, Entry>, points': Points)
    requires Synchronized(points, active, points') && WellKeyed(active)
    ensures var n := |Stale(points, active.Keys)|; |Stale(points', active.Keys)| <= if n > 0 then n - 1 else 0
    ensures active.Keys <= Keys(points')
  {
    hide Stale, Keys;
    StaleDecreases(points, active, points');
    if |Stale(points, active.Keys)| > 0 {
      SomeStaleKey(points, active.Keys);
    }
  }

  lemma SomeStaleKey(points: Points, active: set<string>)
    requires |Stale(points, active)| > 0
    ensures |Keys(points) - active| > 0
  {
    var id :| id in Stale(points, active);
    assert PointKey(points[id]) in Keys(points) - active;
  }

  /**
   From any collection, repeated synchronisation with the same active triggers converges: after as
   many runs as there were stale points (and at least one) the keys are exactly the active ones, and
   no later run changes anything.
   */
  lemma Converges(states: seq<Points>, active: map<string, Entry>, i: nat)
    requires SyncRun(states, active) && WellKeyed(active)
    requires 0 < i < |states| && |Stale(states[0], active.Keys)| <= i
    ensures Keys(states[i]) == active.Keys
    ensures i + 1 < |states| ==> states[i + 1] == states[i]
  {
    hide Stale, Keys;
    StaleAfter(states, active, i);
    KeysSplit(states[i], active.Keys);
    assert Stale(states[i], active.Keys) == {};
    if i + 1 < |states| {
      assert Synchronized(states[i], active, states[i + 1]);
      SettledStays(states[i], active, states[i + 1]);
    }
  }

  /** One point per key: what synchronising keeps once it is reached. */
  ghost predicate OnePerKey(points: Points) {
    forall i, j | i in points && j in points && i != j :: PointKey(points[i]) != PointKey(points[j])
  }

  lemma AddsOnePerKey(points: Points, active: map<string, Entry>, keys: set<string>, added: map<Id, string>, result: Points)
    requires Adds(points, active, keys, added, result) && WellKeyed(active)
    requires OnePerKey(points) && keys !! Keys(points)
    ensures OnePerKey(result)
  {
    forall id | id in result
      ensures if id in points then PointKey(result[id]) in Keys(points) else PointKey(result[id]) == added[id] && added[id] in keys
    {
      if id in added {
        assert added[id] in Chosen(added, added.Keys);
      }
    }
  }

  lemma SyncKeepsOnePerKey(points: Points, active: map<string, Entry>, points': Points)
    requires Synchronized(points, active, points') && WellKeyed(active) && OnePerKey(points)
    ensures OnePerKey(points') && Keys(points') == active.Keys
  {
    OneRunSuffices(points, active, points');
    var chosen, added :|
      && Chooses(points, chosen)
      && Adds(points - Chosen(chosen, Keys(points) - active.Keys), active, active.Keys - Keys(points), added, points');
    var kept := points - Chosen(chosen, Keys(points) - active.Keys);
    assert Keys(kept) <= Keys(points);
    AddsOnePerKey(kept, active, active.Keys - Keys(points), added, points');
  }

  /** What a synchronisation brings that an earlier set of triggers does not know comes with one point per key. */
  lemma BroughtOncePerKey(points: Points, active: set<string>, toggled: map<string, Entry>, between: Points)
    requires WellKeyed(toggled) && Keys(points) <= active && Synchronized(points, toggled, between)
    ensures StaleKeysDistinct(between, active)
  {
    var chosen, added :|
      && Chooses(points, chosen)
      && Adds(points - Chosen(chosen, Keys(points) - toggled.Keys), toggled, toggled.Keys - Keys(points), added, between);
    var kept := points - Chosen(chosen, Keys(points) - toggled.Keys);
    assert forall id | id in kept :: PointKey(points[id]) in Keys(points);
    forall id | id in Stale(between, active)
      ensures id in added && PointKey(between[id]) == added[id]
    {
      AddedKey(kept, toggled, toggled.Keys - Keys(points), added, between, id);
    }
  }

  /** Synchronising with other triggers and then with the old ones again brings the stored keys back. */
  lemma KeysComeBack(points: Points, active: map<string, Entry>, toggled: map<string, Entry>, between: Points, points': Points)
    requires WellKeyed(active) && WellKeyed(toggled) && Keys(points) == active.Keys
    requires Synchronized(points, toggled, between) && Synchronized(between, active, points')
    ensures Keys(points') == Keys(points)
  {
    hide Synchronized, StaleKeysDistinct;
    BroughtOncePerKey(points, active.Keys, toggled, between);
    OneRunSuffices(between, active, points');
  }

  // ---------- The collection ----------

  /** How many points one request for all points brings. */
  const FETCH_LIMIT: nat := 10000

  /** Some points of the collection, all of them if they fit the limit, in any order. */
  ghost predicate Fetched(points: Points, fetched: seq<Id>, limit: nat) {
    && NoDuplicates(fetched) && (forall id | id in fetched :: id in points)
    && |fetched| == if |points| <= limit then |points| else limit
  }

  /** The fetched points by key; of two with one key the later stays. */
  function LastIds(points: Points, fetched: seq<Id>): map<string, Id>
    requires forall id | id in fetched :: id in points
  {
    if fetched == [] then map[]
    else
      var last := fetched[|fetched| - 1];
      LastIds(points, fetched[..|fetched| - 1])[PointKey(points[last]) := last]
  }

  /** A synchronisation that sees at most `limit` points. */
  ghost predicate EmbedStep(points: Points, active: map<string, Entry>, points': Points, limit: nat) {
    exists fetched: seq<Id>, added: map<Id, string> ::
      && Fetched(points, fetched, limit)
      && var chosen := LastIds(points, fetched);
         Adds(points - Chosen(chosen, chosen.Keys - active.Keys), active, active.Keys - chosen.Keys, added, points')
  }

  lemma {:induction false} LastIdsChoose(points: Points, fetched: seq<Id>)
    requires forall id | id in fetched :: id in points
    ensures var chosen := LastIds(points, fetched);
            && (forall k | k in chosen :: chosen[k] in fetched && PointKey(points[chosen[k]]) == k)
            && (forall id | id in fetched :: PointKey(points[id]) in chosen)
  {
    if fetched != [] {
      LastIdsChoose(points, fetched[..|fetched| - 1]);
    }
  }

  lemma AllFetched(points: Points, fetched: seq<Id>, limit: nat)
    requires Fetched(points, fetched, limit) && |points| <= limit
    ensures forall id | id in points :: id in fetched
  {
    ElementCount(fetched);
    var seen := Elements(fetched);
    assert seen <= points.Keys;
    var unseen := points.Keys - seen;
    assert points.Keys == seen + unseen;
    assert unseen == {};
  }

  /** Within the limit, a synchronisation sees all points. */
  lemma WithinLimit(points: Points, active: map<string, Entry>, points': Points, limit: nat)
    requires EmbedStep(points, active, points', limit) && |points| <= limit
    ensures Synchronized(points, active, points')
  {
    var fetched: seq<Id>, added: map<Id, string> :|
      && Fetched(points, fetched, limit)
      && var chosen := LastIds(points, fetched);
         Adds(points - Chosen(chosen, chosen.Keys - active.Keys), active, active.Keys - chosen.Keys, added, points');
    hide Adds, Chosen, LastIds;
    AllFetched(points, fetched, limit);
    LastIdsOfAll(points, fetched);
    assert Chooses(points, LastIds(points, fetched));
  }

  lemma LastIdsOfAll(points: Points, fetched: seq<Id>)
    requires forall id :: id in fetched <==> id in points
    ensures Chooses(points, LastIds(points, fetched))
  {
    var chosen := LastIds(points, fetched);
    LastIdsChoose(points, fetched);
    forall k | k in Keys(points)
      ensures k in chosen
    {
      var id :| id in points && PointKey(points[id]) == k;
      assert id in fetched;
    }
    forall k | k in chosen
      ensures k in Keys(points)
    {
      assert chosen[k] in points;
    }
  }

  /** A synchronisation takes away one point per stale key and brings one per missing trigger. */
  lemma SizeChange(points: Points, active: map<string, Entry>, points': Points)
    requires Synchronized(points, active, points')
    ensures |points'| == |points| - |Keys(points) - active.Keys| + |active.Keys - Keys(points)|
  {
    var chosen, added :|
      && Chooses(points, chosen)
      && Adds(points - Chosen(chosen, Keys(points) - active.Keys), active, active.Keys - Keys(points), added, points');
    var deleted, missing := Chosen(chosen, Keys(points) - active.Keys), active.Keys - Keys(points);
    ChosenAreStale(points, active.Keys, chosen);
    hide Adds, Keys, Chosen;
    RemovedSize(points, deleted);
    AddsSize(points - deleted, active, missing, added, points');
  }

  lemma RemovedSize(points: Points, deleted: set<Id>)
    requires deleted <= points.Keys
    ensures |points - deleted| == |points| - |deleted|
  {
    assert (points - deleted).Keys == points.Keys - deleted;
  }

  lemma AddsSize(points: Points, active: map<string, Entry>, keys: set<string>, added: map<Id, string>, result: Points)
    requires Adds(points, active, keys, added, result)
    ensures |result| == |points| + |keys|
  {
    ImageSize(added.Keys, added);
    assert |result.Keys| == |points.Keys| + |added.Keys|;
  }

  lemma {:induction false} LastIdsSize(points: Points, fetched: seq<Id>)
    requires forall id | id in fetched :: id in points
    ensures |LastIds(points, fetched)| <= |fetched|
  {
    if fetched != [] {
      var before, last := fetched[..|fetched| - 1], fetched[|fetched| - 1];
      LastIdsSize(points, before);
      var sofar := LastIds(points, before);
      assert LastIds(points, fetched).Keys == sofar.Keys + {PointKey(points[last])};
    }
  }

  lemma DifferenceSizes(a: set<string>, b: set<string>)
    ensures |a - b| - |b - a| == |a| - |b|
  {
    assert a == (a - b) + (a * b) && b == (b - a) + (a * b);
  }

  /**
   With more active triggers than the fetch limit the collection never settles: every synchronisation,
   whatever it fetches, leaves it larger by at least the excess.
   */
  lemma OverLimitGrows(points: Points, active: map<string, Entry>, points': Points, limit: nat)
    requires EmbedStep(points, active, points', limit) && |active.Keys| > limit
    ensures |points'| >= |points| + |active.Keys| - limit
  {
    var fetched: seq<Id>, added: map<Id, string> :|
      && Fetched(points, fetched, limit)
      && var chosen := LastIds(points, fetched);
         Adds(points - Chosen(chosen, chosen.Keys - active.Keys), active, active.Keys - chosen.Keys, added, points');
    var chosen := LastIds(points, fetched);
    LastIdsChoose(points, fetched);
    LastIdsSize(points, fetched);
    hide Adds, LastIds;
    var stale := chosen.Keys - active.Keys;
    var deleted := Chosen(chosen, stale);
    ImageSize(stale, chosen);
    RemovedSize(points, deleted);
    AddsSize(points - deleted, active, active.Keys - chosen.Keys, added, points');
    DifferenceSizes(active.Keys, chosen.Keys);
  }

  ghost predicate EmbedRun(states: seq<Points>, active: map<string, Entry>, limit: nat) {
    states != [] && forall i | 0 <= i < |states| - 1 :: EmbedStep(states[i], active, states[i + 1], limit)
  }

  /**
   When the collection fits the fetch limit before and after the first synchronisation, it does so
   ever after, and every synchronisation of the run sees all of it.
   */
  lemma {:induction false} RunWithinLimit(states: seq<Points>, active: map<string, Entry>, limit: nat)
    requires EmbedRun(states, active, limit) && WellKeyed(active) && |states[0]| <= limit
    requires |states[0]| - |Keys(states[0]) - active.Keys| + |active.Keys - Keys(states[0])| <= limit
    ensures SyncRun(states, active) && |states[|states| - 1]| <= limit
  {
    hide *;
    RunNonEmpty(states, active, limit);
    if |states| == 1 {
      SyncRunStarts(states, active);
    } else {
      var n := |states| - 2;
      var shorter := states[..n + 1];
      LastOfRun(states, active, limit);
      RunWithinLimit(shorter, active, limit);
      var now, next := states[n], states[n + 1];
      assert shorter[n] == now;
      if n > 0 {
        StaleAfter(shorter, active, n);
      }
      StepWithinLimit(now, active, next, limit);
      assert states == shorter + [next];
      SyncRunSnoc(shorter, next, active);
    }
  }

  lemma RunNonEmpty(states: seq<Points>, active: map<string, Entry>, limit: nat)
    requires EmbedRun(states, active, limit)
    ensures |states| > 0
  {
  }

  lemma LastOfRun(states: seq<Points>, active: map<string, Entry>, limit: nat)
    requires EmbedRun(states, active, limit) && |states| > 1
    ensures var n := |states| - 2; EmbedRun(states[..n + 1], active, limit) && EmbedStep(states[n], active, states[n + 1], limit)
  {
    hide EmbedStep;
  }

  lemma StepWithinLimit(points: Points, active: map<string, Entry>, points': Points, limit: nat)
    requires EmbedStep(points, active, points', limit) && |points| <= limit
    requires
      || active.Keys <= Keys(points)
      || |points| - |Keys(points) - active.Keys| + |active.Keys - Keys(points)| <= limit
    ensures Synchronized(points, active, points') && |points'| <= limit
  {
    hide Keys, EmbedStep, Synchronized;
    WithinLimit(points, active, points', limit);
    SizeChange(points, active, points');
    if active.Keys <= Keys(points) {
      assert active.Keys - Keys(points) == {};
    }
  }

  lemma SyncRunStarts(states: seq<Points>, active: map<string, Entry>)
    requires |states| == 1
    ensures SyncRun(states, active)
  {
  }

  lemma SyncRunSnoc(states: seq<Points>, last: Points, active: map<string, Entry>)
    requires SyncRun(states, active) && Synchronized(states[|states| - 1], active, last)
    ensures SyncRun(states + [last], active)
  {
    hide Synchronized;
  }

  // ---------- When the second synchronisation changes nothing ----------

  lemma {:induction false} LongerThanAll(ids: set<Id>) returns (n: nat)
    ensures forall id | id in ids :: |id| < n
  {
    if ids == {} {
      n := 0;
    } else {
      var id :| id in ids;
      n := LongerThanAll(ids - {id});
      n := if n <= |id| then |id| + 1 else n;
    }
  }

  lemma {:induction false} AddAll(points: Points, active: map<string, Entry>, keys: set<string>) returns (added: map<Id, string>, result: Points)
    requires keys <= active.Keys
    ensures Adds(points, active, keys, added, result)
  {
    hide Adds;
    if keys == {} {
      added, result := map[], points;
      NothingAdded(points, active);
    } else {
      var k :| k in keys;
      added, result := AddAll(points, active, keys - {k});
      var n := LongerThanAll(result.Keys);
      var id := seq(n, _ => '0');
      AddOne(points, active, keys - {k}, added, result, k, id);
      assert keys - {k} + {k} == keys;
      added, result := added[id := k], result[id := PointOf(active[k])];
    }
  }

  lemma {:induction false} TakeSome(ids: set<Id>, n: nat) returns (some: seq<Id>)
    requires n <= |ids|
    ensures |some| == n && NoDuplicates(some) && forall id | id in some :: id in ids
  {
    if n == 0 {
      some := [];
    } else {
      var id :| id in ids;
      some := TakeSome(ids - {id}, n - 1);
      some := some + [id];
    }
  }

  /** A key that was just brought has one point. */
  lemma BroughtOnce(points: Points, active: map<string, Entry>, points': Points, k: string) returns (only: Id)
    requires Synchronized(points, active, points') && WellKeyed(active) && k in active && k !in Keys(points)
    ensures only in points' && PointKey(points'[only]) == k
    ensures forall id | id in points' && PointKey(points'[id]) == k :: id == only
  {
    var chosen, added :|
      && Chooses(points, chosen)
      && Adds(points - Chosen(chosen, Keys(points) - active.Keys), active, active.Keys - Keys(points), added, points');
    var kept := points - Chosen(chosen, Keys(points) - active.Keys);
    assert k in Chosen(added, added.Keys);
    only :| only in added && added[only] == k;
    AddedKey(kept, active, active.Keys - Keys(points), added, points', only);
    assert forall id | id in kept :: PointKey(points[id]) in Keys(points);
    forall id | id in points' && PointKey(points'[id]) == k
      ensures id == only
    {
      AddedKey(kept, active, active.Keys - Keys(points), added, points', id);
    }
  }

  /** A fetch that misses the only point of an active key leads to a second point of that key. */
  lemma MissedKeyChanges(points: Points, active: map<string, Entry>, limit: nat, only: Id) returns (points': Points)
    requires WellKeyed(active) && |points| > limit && only in points && PointKey(points[only]) in active
    requires forall id | id in points && PointKey(points[id]) == PointKey(points[only]) :: id == only
    ensures EmbedStep(points, active, points', limit) && points' != points
  {
    var k := PointKey(points[only]);
    assert points.Keys == points.Keys - {only} + {only};
    var fetched := TakeSome(points.Keys - {only}, limit);
    var chosen := LastIds(points, fetched);
    LastIdsChoose(points, fetched);
    assert k !in chosen;
    var kept := points - Chosen(chosen, chosen.Keys - active.Keys);
    var added;
    added, points' := AddAll(kept, active, active.Keys - chosen.Keys);
    hide LastIds;
    assert EmbedStep(points, active, points', limit);
    assert k in Chosen(added, added.Keys);
    var id :| id in added && added[id] == k;
    AddedKey(kept, active, active.Keys - chosen.Keys, added, points', id);
    assert only in kept;
  }

  /**
   The exact condition under which one synchronisation settles everything, for a collection within the
   fetch limit in which no two stale points share a key: the second one changes nothing, whatever it
   fetches, if and only if the first one left the collection within the limit.
   */
  lemma SecondRunSettles(points: Points, active: map<string, Entry>, points': Points, limit: nat)
    requires WellKeyed(active) && EmbedStep(points, active, points', limit) && |points| <= limit
    requires StaleKeysDistinct(points, active.Keys)
    ensures (forall again | EmbedStep(points', active, again, limit) :: again == points') <==> |points'| <= limit
  {
    hide EmbedStep, Synchronized, StaleKeysDistinct, Keys, WellKeyed;
    WithinLimit(points, active, points', limit);
    OneRunSuffices(points, active, points');
    if |points'| <= limit {
      forall again | EmbedStep(points', active, again, limit)
        ensures again == points'
      {
        WithinLimit(points', active, again, limit);
        SettledStays(points', active, again);
      }
    } else {
      SizeChange(points, active, points');
      var missing := active.Keys - Keys(points);
      assert missing != {};
      var k :| k in missing;
      var only := BroughtOnce(points, active, points', k);
      var again := MissedKeyChanges(points', active, limit, only);
    }
  }

  class Collection {
    var points: Points

    constructor (points: Points)
      ensures this.points == points
    {
      this.points := points;
    }

    method GetAllPoints(limit: nat) returns (fetched: seq<Id>)
      ensures Fetched(points, fetched, limit)
    {
      fetched := [];
      var rest := points.Keys;
      while |fetched| < limit && rest != {}
        invariant NoDuplicates(fetched) && rest <= points.Keys
        invariant forall id | id in fetched :: id in points && id !in rest
        invariant |fetched| + |rest| == |points.Keys| && |fetched| <= limit
        decreases rest
      {
        var id :| id in rest;
        rest := rest - {id};
        fetched := fetched + [id];
      }
    }

    method BuildEmbeddedHashes(fetched: seq<Id>) returns (hashes: map<string, Id>)
      requires forall id | id in fetched :: id in points
      ensures hashes == LastIds(points, fetched)
    {
      hashes := map[];
      for i := 0 to |fetched|
        invariant hashes == LastIds(points, fetched[..i])
      {
        hashes := hashes[PointKey(points[fetched[i]]) := fetched[i]];
        assert fetched[..i + 1][..i] == fetched[..i];
      }
      assert fetched[..|fetched|] == fetched;
    }

    /** Delete a point of every stale key, embed every missing trigger under a new id. */
    method EmbedProcedures(procedures: seq<Procedure>, newIds: nat -> Id)
      requires NewIds(points, newIds)
      modifies this
      ensures EmbedStep(old(points), Indexed(Entries(procedures)), points, FETCH_LIMIT)
    {
      var fetched := GetAllPoints(FETCH_LIMIT);
      var embedded := BuildEmbeddedHashes(fetched);
      var active := BuildActiveHashes(procedures);
      var toDelete := embedded.Keys - active.Keys;
      var toEmbed := active.Keys - embedded.Keys;
      points := points - Chosen(embedded, toDelete);
      ghost var added := AddPoints(toEmbed, active, newIds);
      assert Adds(old(points) - Chosen(embedded, embedded.Keys - active.Keys), active, active.Keys - embedded.Keys, added, points);
    }

    method AddPoints(toEmbed: set<string>, active: map<string, Entry>, newIds: nat -> Id) returns (ghost added: map<Id, string>)
      requires toEmbed <= active.Keys && NewIds(points, newIds)
      modifies this
      ensures Adds(old(points), active, toEmbed, added, points)
    {
      hide Adds;
      var rest := toEmbed;
      var n := 0;
      added := map[];
      NothingAdded(points, active);
      assert toEmbed - rest == {};
      while rest != {}
        invariant rest <= toEmbed
        invariant Adds(old(points), active, toEmbed - rest, added, points)
        invariant forall i: nat | n <= i :: newIds(i) !in points
        decreases rest
      {
        var k :| k in rest;
        AddOne(old(points), active, toEmbed - rest, added, points, k, newIds(n));
        points := points[newIds(n) := PointOf(active[k])];
        added := added[newIds(n) := k];
        assert toEmbed - (rest - {k}) == toEmbed - rest + {k};
        rest := rest - {k};
        n := n + 1;
      }
      assert toEmbed - {} == toEmbed;
    }
  }

  /** A supply of ids that are all different and new to the collection. */
  ghost predicate NewIds(points: Points, newIds: nat -> Id) {
    (forall i :: newIds(i) !in points) && forall i, j | i != j :: newIds(i) != newIds(j)
  }

  lemma AddOne(points: Points, active: map<string, Entry>, keys: set<string>, added: map<Id, string>, result: Points, k: string, id: Id)
    requires Adds(points, active, keys, added, result) && k in active && k !in keys && id !in result
    ensures Adds(points, active, keys + {k}, added[id := k], result[id := PointOf(active[k])])
  {
    var added' := added[id := k];
    assert added'.Keys == added.Keys + {id};
    forall i | i in added
      ensures added[i] != k
    {
      assert added[i] in Chosen(added, added.Keys);
    }
    assert Chosen(added', added'.Keys) == Chosen(added, added.Keys) + {k} by {
      assert added'[id] == k;
      assert forall i | i in added :: added'[i] == added[i];
    }
  }
}
