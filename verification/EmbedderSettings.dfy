/** The settings table, and changing the embedder with a rollback when its memory cannot be loaded. */
module EmbedderSettings {
  import opened Wrappers

  /** A setting's value: a configuration, or the choice of one. */
  datatype Value = Config(payload: string) | Selection(chosen: string)

  datatype Record = Record(id: string, name: string, category: string, value: Value)

  const SELECTED_CATEGORY := "embedder"
  const FACTORY_CATEGORY := "embedder_factory"
  const SELECTED_NAME := "embedder_selected"

  // ---------- The table ----------

  function Find(records: seq<Record>, name: string): Option<Record> {
    if records == [] then None
    else if records[0].name == name then Some(records[0])
    else Find(records[1..], name)
  }

  /** Every record of the name takes over all fields of the payload. */
  function Overwritten(records: seq<Record>, payload: Record): seq<Record> {
    if records == [] then []
    else [if records[0].name == payload.name then payload else records[0]] + Overwritten(records[1..], payload)
  }

  function Upserted(records: seq<Record>, payload: Record): seq<Record> {
    if Find(records, payload.name).None? then records + [payload] else Overwritten(records, payload)
  }

  function WithoutCategory(records: seq<Record>, category: string): seq<Record> {
    if records == [] then []
    else (if records[0].category == category then [] else [records[0]]) + WithoutCategory(records[1..], category)
  }

  ghost predicate UniqueNames(records: seq<Record>) {
    forall i, j | 0 <= i < j < |records| :: records[i].name != records[j].name
  }

  predicate InEmbedder(r: Record) {
    r.category == SELECTED_CATEGORY || r.category == FACTORY_CATEGORY
  }

  /** The records of all other categories, in table order. */
  function Outside(records: seq<Record>): seq<Record> {
    if records == [] then []
    else (if InEmbedder(records[0]) then [] else [records[0]]) + Outside(records[1..])
  }

  /** Those not of this name. */
  function Except(records: seq<Record>, name: string): seq<Record> {
    if records == [] then []
    else (if records[0].name == name then [] else [records[0]]) + Except(records[1..], name)
  }

  lemma {:induction false} FindMember(records: seq<Record>, name: string)
    ensures Find(records, name).None? <==> forall r | r in records :: r.name != name
    ensures Find(records, name).Some? ==> Find(records, name).value in records && Find(records, name).value.name == name
  {
    if records != [] {
      FindMember(records[1..], name);
      assert records[0] in records;
      assert forall r | r in records :: r == records[0] || r in records[1..];
    }
  }

  lemma {:induction false} OverwrittenAt(records: seq<Record>, payload: Record)
    ensures |Overwritten(records, payload)| == |records|
    ensures forall i | 0 <= i < |records| ::
              Overwritten(records, payload)[i] == if records[i].name == payload.name then payload else records[i]
  {
    if records != [] {
      OverwrittenAt(records[1..], payload);
    }
  }

  /** An upsert is found under its name, leaves every other name alone, and keeps names unique. */
  lemma UpsertFinds(records: seq<Record>, payload: Record, name: string)
    ensures Find(Upserted(records, payload), name) == if name == payload.name then Some(payload) else Find(records, name)
    ensures UniqueNames(records) ==> UniqueNames(Upserted(records, payload))
  {
    FindMember(records, payload.name);
    if Find(records, payload.name).None? {
      FindInAppended(records, payload, name);
    } else {
      OverwrittenAt(records, payload);
      FindInOverwritten(records, payload, name);
    }
  }

  lemma {:induction false} FindInAppended(records: seq<Record>, payload: Record, name: string)
    ensures Find(records + [payload], name) ==
            if Find(records, name).Some? then Find(records, name) else if payload.name == name then Some(payload) else None
  {
    if records == [] {
      assert records + [payload] == [payload];
    } else {
      FindInAppended(records[1..], payload, name);
      assert (records + [payload])[1..] == records[1..] + [payload];
    }
  }

  lemma {:induction false} FindInOverwritten(records: seq<Record>, payload: Record, name: string)
    ensures Find(Overwritten(records, payload), name) ==
            if Find(records, name).None? then None else if name == payload.name then Some(payload) else Find(records, name)
  {
    if records != [] {
      FindInOverwritten(records[1..], payload, name);
      assert Overwritten(records, payload)[1..] == Overwritten(records[1..], payload);
    }
  }

  /** An upsert into the embedder categories takes records of its name away from the others. */
  lemma UpsertOutside(records: seq<Record>, payload: Record)
    requires InEmbedder(payload)
    ensures Outside(Upserted(records, payload)) == Except(Outside(records), payload.name)
  {
    if Find(records, payload.name).None? {
      OutsideAppended(records, payload);
    } else {
      OutsideOverwritten(records, payload);
    }
  }

  lemma {:induction false} OutsideAppended(records: seq<Record>, payload: Record)
    requires InEmbedder(payload) && Find(records, payload.name).None?
    ensures Outside(records + [payload]) == Outside(records) == Except(Outside(records), payload.name)
  {
    if records == [] {
      assert records + [payload] == [payload];
    } else {
      OutsideAppended(records[1..], payload);
      assert (records + [payload])[1..] == records[1..] + [payload];
      ExceptFront(records[0], Outside(records[1..]), payload.name);
    }
  }

  lemma ExceptFront(r: Record, rest: seq<Record>, name: string)
    ensures Except([r] + rest, name) == (if r.name == name then [] else [r]) + Except(rest, name)
    ensures Except([] + rest, name) == Except(rest, name)
  {
    assert ([r] + rest)[1..] == rest && [] + rest == rest;
  }

  lemma {:induction false} OutsideOverwritten(records: seq<Record>, payload: Record)
    requires InEmbedder(payload)
    ensures Outside(Overwritten(records, payload)) == Except(Outside(records), payload.name)
  {
    if records != [] {
      OutsideOverwritten(records[1..], payload);
      assert Overwritten(records, payload)[1..] == Overwritten(records[1..], payload);
      ExceptFront(records[0], Outside(records[1..]), payload.name);
    }
  }

  function WithoutEmbedder(records: seq<Record>): seq<Record> {
    WithoutCategory(WithoutCategory(records, SELECTED_CATEGORY), FACTORY_CATEGORY)
  }

  /** Deleting both embedder categories leaves exactly the other records. */
  lemma {:induction false} WithoutEmbedderIsOutside(records: seq<Record>)
    ensures WithoutEmbedder(records) == Outside(records)
  {
    if records != [] {
      WithoutEmbedderIsOutside(records[1..]);
      var rest := WithoutCategory(records[1..], SELECTED_CATEGORY);
      var kept := [records[0]] + rest;
      assert kept[1..] == rest;
      assert [] + rest == rest;
    }
  }

  lemma {:induction false} ExceptKeepsAll(records: seq<Record>, name: string)
    ensures |Except(records, name)| <= |records|
    ensures Except(records, name) == records <==> forall r | r in records :: r.name != name
    ensures |Except(records, name)| == |records| ==> Except(records, name) == records
  {
    if records != [] {
      ExceptKeepsAll(records[1..], name);
      assert records == [records[0]] + records[1..];
    }
  }

  // ---------- The request ----------

  /** What a request comes to. */
  datatype Reply = NotSupported | Changed | RolledBack | Broken

  /** The ids given to the records written. */
  datatype Ids = Ids(config: string, selection: string, oldConfig: string, oldSelection: string)

  function Factory(id: string, name: string, value: Value): Record {
    Record(id, name, FACTORY_CATEGORY, value)
  }

  function Selected(id: string, name: string): Record {
    Record(id, SELECTED_NAME, SELECTED_CATEGORY, Selection(name))
  }

  /** The table after the new embedder has been written. */
  function Written(records: seq<Record>, name: string, payload: string, ids: Ids): seq<Record> {
    Upserted(Upserted(records, Factory(ids.config, name, Config(payload))), Selected(ids.selection, name))
  }

  /** The table after restoring what was selected before. */
  function Restored(records: seq<Record>, name: string, value: Value, ids: Ids): seq<Record> {
    Upserted(Upserted(WithoutEmbedder(records), Factory(ids.oldConfig, name, value)), Selected(ids.oldSelection, name))
  }

  /** The embedder selected and its configuration. */
  function SelectedName(records: seq<Record>): Option<string> {
    match Find(records, SELECTED_NAME)
    case Some(r) => if r.value.Selection? then Some(r.value.chosen) else None
    case None => None
  }

  function SelectedConfig(records: seq<Record>): Option<Value> {
    match SelectedName(records)
    case Some(name) => (match Find(records, name) case Some(r) => Some(r.value) case None => None)
    case None => None
  }

  class Settings {
    var records: seq<Record>

    constructor (records: seq<Record>)
      ensures this.records == records
    {
      this.records := records;
    }

    method Upsert(payload: Record)
      modifies this
      ensures records == Upserted(old(records), payload)
    {
      if Find(records, payload.name).None? {
        records := records + [payload];
      } else {
        var updated := [];
        OverwrittenAt(records, payload);
        for i := 0 to |records|
          invariant records == old(records) && updated == Overwritten(records, payload)[..i]
        {
          updated := updated + [if records[i].name == payload.name then payload else records[i]];
        }
        records := updated;
      }
    }

    method DeleteByCategory(category: string)
      modifies this
      ensures records == WithoutCategory(old(records), category)
    {
      records := WithoutCategory(records, category);
    }

    /**
     Change the embedder. `allowed` are the embedders there are; `languageLoads` and `memoryLoads` say
     whether the parts of the cat can be reloaded, `languageReloads` whether the old ones can.
     */
    method ChangeEmbedder(allowed: set<string>, name: string, payload: string, ids: Ids, languageLoads: bool,
                          memoryLoads: bool, languageReloads: bool)
      returns (reply: Reply)
      modifies this
      ensures name !in allowed ==> reply == NotSupported && records == old(records)
      ensures name in allowed && Find(old(records), SELECTED_NAME).Some? && SelectedName(old(records)).None? ==>
                reply == Broken && records == old(records)
      ensures name in allowed && (Find(old(records), SELECTED_NAME).Some? ==> SelectedName(old(records)).Some?) ==>
                var written := Written(old(records), name, payload, ids);
                if !languageLoads then reply == Broken && records == written
                else if memoryLoads then reply == Changed && records == written
                else if SelectedName(old(records)).None? then reply == RolledBack && records == WithoutEmbedder(written)
                else if SelectedConfig(old(records)).None? then reply == Broken && records == WithoutEmbedder(written)
                else
                  && reply == (if languageReloads then RolledBack else Broken)
                  && records == Restored(written, SelectedName(old(records)).value, SelectedConfig(old(records)).value, ids)
    {
      if name !in allowed {
        return NotSupported;
      }
      var selected := Find(records, SELECTED_NAME);
      var current: Option<Record> := None;
      if selected.Some? {
        if !selected.value.value.Selection? {
          return Broken;
        }
        current := Find(records, selected.value.value.chosen);
      }
      Upsert(Factory(ids.config, name, Config(payload)));
      Upsert(Selected(ids.selection, name));
      if !languageLoads {
        return Broken;
      }
      if memoryLoads {
        return Changed;
      }
      DeleteByCategory(SELECTED_CATEGORY);
      DeleteByCategory(FACTORY_CATEGORY);
      if selected.Some? {
        var previous := selected.value.value.chosen;
        if current.None? {
          return Broken;
        }
        Upsert(Factory(ids.oldConfig, previous, current.value.value));
        Upsert(Selected(ids.oldSelection, previous));
        if !languageReloads {
          return Broken;
        }
      }
      return RolledBack;
    }
  }

  /** After a change the new embedder is selected, with the configuration given, and every other name is as before. */
  lemma ChangeTakes(records: seq<Record>, name: string, payload: string, ids: Ids, other: string)
    requires name != SELECTED_NAME
    ensures var after := Written(records, name, payload, ids);
            && SelectedName(after) == Some(name) && SelectedConfig(after) == Some(Config(payload))
            && (other != name && other != SELECTED_NAME ==> Find(after, other) == Find(records, other))
            && (UniqueNames(records) ==> UniqueNames(after))
  {
    var config, selection := Factory(ids.config, name, Config(payload)), Selected(ids.selection, name);
    var first := Upserted(records, config);
    UpsertFinds(first, selection, SELECTED_NAME);
    UpsertFinds(first, selection, name);
    UpsertFinds(records, config, name);
    UpsertFinds(first, selection, other);
    UpsertFinds(records, config, other);
  }

  // ---------- What a rollback restores ----------

  /** The embedder selected before, and its configuration, are selected again, whatever was asked for. */
  lemma RollbackRestores(records: seq<Record>, name: string, payload: string, ids: Ids)
    requires SelectedConfig(records).Some?
    ensures var after := Restored(Written(records, name, payload, ids), SelectedName(records).value, SelectedConfig(records).value, ids);
            SelectedName(after) == SelectedName(records) && SelectedConfig(after) == SelectedConfig(records)
  {
    var previous, value := SelectedName(records).value, SelectedConfig(records).value;
    var cleared := WithoutEmbedder(Written(records, name, payload, ids));
    var config := Factory(ids.oldConfig, previous, value);
    var selection := Selected(ids.oldSelection, previous);
    UpsertFinds(Upserted(cleared, config), selection, SELECTED_NAME);
    UpsertFinds(Upserted(cleared, config), selection, previous);
    UpsertFinds(cleared, config, previous);
  }

  /** The records of other categories after a rollback: those that bear none of the names written. */
  lemma RollbackOutside(records: seq<Record>, name: string, payload: string, ids: Ids, previous: string, value: Value)
    ensures Outside(Restored(Written(records, name, payload, ids), previous, value, ids)) ==
            Except(Except(Except(Except(Outside(records), name), SELECTED_NAME), previous), SELECTED_NAME)
  {
    var first := Upserted(records, Factory(ids.config, name, Config(payload)));
    var written := Written(records, name, payload, ids);
    UpsertOutside(records, Factory(ids.config, name, Config(payload)));
    UpsertOutside(first, Selected(ids.selection, name));
    var cleared := WithoutEmbedder(written);
    WithoutEmbedderIsOutside(written);
    OutsideTwice(written);
    UpsertOutside(cleared, Factory(ids.oldConfig, previous, value));
    UpsertOutside(Upserted(cleared, Factory(ids.oldConfig, previous, value)), Selected(ids.oldSelection, previous));
  }

  lemma {:induction false} OutsideTwice(records: seq<Record>)
    ensures Outside(Outside(records)) == Outside(records)
  {
    if records != [] {
      OutsideTwice(records[1..]);
      var rest := Outside(records[1..]);
      assert ([records[0]] + rest)[1..] == rest && [] + rest == rest;
    }
  }

  /**
   A rollback leaves the records of other categories exactly as they were if and only if none of
   them bears the name asked for, the name of the selection, or that of the embedder restored.
   */
  lemma RollbackTouchesOthers(records: seq<Record>, name: string, payload: string, ids: Ids, previous: string, value: Value)
    ensures Outside(Restored(Written(records, name, payload, ids), previous, value, ids)) == Outside(records) <==>
            forall r | r in Outside(records) :: r.name != name && r.name != SELECTED_NAME && r.name != previous
  {
    RollbackOutside(records, name, payload, ids, previous, value);
    var others := Outside(records);
    var e1 := Except(others, name);
    var e2 := Except(e1, SELECTED_NAME);
    var e3 := Except(e2, previous);
    ExceptKeepsAll(others, name);
    ExceptKeepsAll(e1, SELECTED_NAME);
    ExceptKeepsAll(e2, previous);
    ExceptKeepsAll(e3, SELECTED_NAME);
  }

  /** A rollback keeps names unique. */
  lemma RollbackKeepsUnique(records: seq<Record>, name: string, payload: string, ids: Ids, previous: string, value: Value)
    requires UniqueNames(records)
    ensures UniqueNames(Restored(Written(records, name, payload, ids), previous, value, ids))
  {
    var first := Upserted(records, Factory(ids.config, name, Config(payload)));
    UpsertFinds(records, Factory(ids.config, name, Config(payload)), name);
    UpsertFinds(first, Selected(ids.selection, name), name);
    var written := Written(records, name, payload, ids);
    WithoutEmbedderIsOutside(written);
    OutsideUnique(written);
    var cleared := WithoutEmbedder(written);
    UpsertFinds(cleared, Factory(ids.oldConfig, previous, value), name);
    UpsertFinds(Upserted(cleared, Factory(ids.oldConfig, previous, value)), Selected(ids.oldSelection, previous), name);
  }

  lemma {:induction false} OutsideUnique(records: seq<Record>)
    requires UniqueNames(records)
    ensures UniqueNames(Outside(records)) && forall r | r in Outside(records) :: r in records
  {
    if records != [] {
      OutsideUnique(records[1..]);
      var rest := Outside(records[1..]);
      assert records == [records[0]] + records[1..];
      assert forall r | r in records[1..] :: r.name != records[0].name;
      if !InEmbedder(records[0]) {
        var all := [records[0]] + rest;
        assert forall i | 0 < i < |all| :: all[i] == rest[i - 1];
      }
    }
  }

  /**
   Without a selection before, there is none after a rollback either; other categories are untouched if
   and only if none of their records bears a name written; and names stay unique.
   */
  lemma RollbackOfFirstChoice(records: seq<Record>, name: string, payload: string, ids: Ids)
    ensures var after := WithoutEmbedder(Written(records, name, payload, ids));
            && Find(after, SELECTED_NAME) == None && Find(after, name) == None && SelectedName(after) == None
            && (Outside(after) == Outside(records) <==>
                forall r | r in Outside(records) :: r.name != name && r.name != SELECTED_NAME)
            && (UniqueNames(records) ==> UniqueNames(after))
  {
    var config, selection := Factory(ids.config, name, Config(payload)), Selected(ids.selection, name);
    var first, written := Upserted(records, config), Written(records, name, payload, ids);
    UpsertOutside(records, config);
    UpsertOutside(first, selection);
    WithoutEmbedderIsOutside(written);
    OutsideTwice(written);
    var others, named := Outside(records), Except(Outside(records), name);
    NotInExcept(others, name);
    NotInExcept(named, SELECTED_NAME);
    FindMember(Except(named, SELECTED_NAME), name);
    FindMember(Except(named, SELECTED_NAME), SELECTED_NAME);
    ExceptKeepsAll(others, name);
    ExceptKeepsAll(named, SELECTED_NAME);
    UpsertFinds(records, config, name);
    UpsertFinds(first, selection, name);
    if UniqueNames(records) {
      OutsideUnique(written);
    }
  }

  lemma {:induction false} NotInExcept(records: seq<Record>, name: string)
    ensures forall r :: r in Except(records, name) <==> r in records && r.name != name
  {
    if records != [] {
      NotInExcept(records[1..], name);
      assert forall r :: r in records <==> r == records[0] || r in records[1..];
    }
  }

  lemma {:induction false} OutsideMembers(records: seq<Record>)
    ensures forall r :: r in Outside(records) <==> r in records && !InEmbedder(r)
  {
    if records != [] {
      OutsideMembers(records[1..]);
      assert forall r :: r in records <==> r == records[0] || r in records[1..];
    }
  }

  /** A rollback forgets the configuration of every embedder but the one it restores. */
  lemma RollbackForgets(records: seq<Record>, name: string, payload: string, ids: Ids, previous: string, value: Value, other: string)
    requires other != previous && other != SELECTED_NAME
    requires forall r | r in records && r.name == other :: InEmbedder(r)
    ensures Find(Restored(Written(records, name, payload, ids), previous, value, ids), other) == None
  {
    var written := Written(records, name, payload, ids);
    var cleared := WithoutEmbedder(written);
    var config := Factory(ids.oldConfig, previous, value);
    UpsertFinds(Upserted(cleared, config), Selected(ids.oldSelection, previous), other);
    UpsertFinds(cleared, config, other);
    var first := Upserted(records, Factory(ids.config, name, Config(payload)));
    UpsertOutside(records, Factory(ids.config, name, Config(payload)));
    UpsertOutside(first, Selected(ids.selection, name));
    WithoutEmbedderIsOutside(written);
    OutsideMembers(records);
    NotInExcept(Outside(records), name);
    NotInExcept(Except(Outside(records), name), SELECTED_NAME);
    FindMember(cleared, other);
  }
}
