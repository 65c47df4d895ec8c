/** Flattening a nested metadata filter into a conjunction of conditions on dotted paths. */
module MetadataFilters {
  import opened Wrappers
  import opened Collections

  datatype Json = Scalar(value: string) | Dict(entries: seq<Entry>) | List(items: seq<Json>)

  datatype Entry = Entry(key: string, value: Json)

  datatype Condition = Condition(key: string, value: string)

  /** The conditions of a value under a key, in order. */
  function Conditions(key: string, value: Json): seq<Condition>
    decreases value, 1
  {
    match value
    case Scalar(v) => [Condition("metadata." + key, v)]
    case Dict(entries) => EntryConditions(key, entries)
    case List(items) => ItemConditions(key, items)
  }

  function EntryConditions(key: string, entries: seq<Entry>): seq<Condition>
    decreases entries, 0
  {
    if entries == [] then []
    else Conditions(key + "." + entries[0].key, entries[0].value) + EntryConditions(key, entries[1..])
  }

  function ItemKey(key: string, item: Json): string {
    if item.Dict? then key + "[]" else key
  }

  function ItemConditions(key: string, items: seq<Json>): seq<Condition>
    decreases items, 0
  {
    if items == [] then []
    else Conditions(ItemKey(key, items[0]), items[0]) + ItemConditions(key, items[1..])
  }

  // ---------- Leaves and where they are ----------

  function Children(value: Json): seq<Json> {
    match value
    case Scalar(_) => []
    case Dict(entries) => seq(|entries|, i requires 0 <= i < |entries| => entries[i].value)
    case List(items) => items
  }

  /** The name of a child, under the key of its parent. */
  function ChildKey(key: string, value: Json, i: nat): string
    requires i < |Children(value)|
  {
    if value.Dict? then key + "." + value.entries[i].key else ItemKey(key, value.items[i])
  }

  /** The scalar reached by taking the children at these positions, if there is one. */
  function Leaf(value: Json, path: seq<nat>): Option<string>
    decreases path
  {
    if path == [] then (if value.Scalar? then Some(value.value) else None)
    else if path[0] < |Children(value)| then Leaf(Children(value)[path[0]], path[1..])
    else None
  }

  /** The dotted name of that place, under a key. */
  function Dotted(key: string, value: Json, path: seq<nat>): string
    decreases path
  {
    if path == [] || path[0] >= |Children(value)| then key
    else Dotted(ChildKey(key, value, path[0]), Children(value)[path[0]], path[1..])
  }

  /** The condition that the leaf at `path` asks for. */
  ghost predicate AsksAt(key: string, value: Json, path: seq<nat>, c: Condition) {
    Leaf(value, path) == Some(c.value) && c.key == "metadata." + Dotted(key, value, path)
  }

  ghost predicate Asks(key: string, value: Json, c: Condition) {
    exists path: seq<nat> :: AsksAt(key, value, path, c)
  }

  // ---------- Flattening finds the leaves ----------

  /** The conditions of the children from a position on. */
  function ConditionsFrom(key: string, value: Json, from: nat): seq<Condition>
    requires from <= |Children(value)|
  {
    match value
    case Scalar(_) => []
    case Dict(entries) => EntryConditions(key, entries[from..])
    case List(items) => ItemConditions(key, items[from..])
  }

  lemma NextChild(key: string, value: Json, i: nat)
    requires i < |Children(value)|
    ensures ConditionsFrom(key, value, i) ==
            Conditions(ChildKey(key, value, i), Children(value)[i]) + ConditionsFrom(key, value, i + 1)
  {
    hide Conditions, EntryConditions, ItemConditions;
    if value.Dict? {
      NextEntry(key, value.entries, i);
    } else {
      NextItem(key, value.items, i);
    }
  }

  /** Each condition comes from the leaf at the path of the same index. */
  ghost predicate AskedAt(key: string, value: Json, paths: seq<seq<nat>>, conditions: seq<Condition>) {
    |paths| == |conditions| && forall i | 0 <= i < |paths| :: AsksAt(key, value, paths[i], conditions[i])
  }

  /**
   Flattening a value gives exactly one condition per scalar leaf, under the dotted name of its place:
   the paths to all leaves, each once, in the order of the conditions.
   */
  lemma {:induction false} ConditionPerLeaf(key: string, value: Json) returns (paths: seq<seq<nat>>)
    ensures AskedAt(key, value, paths, Conditions(key, value)) && NoDuplicates(paths)
    ensures forall path | Leaf(value, path).Some? :: path in paths
    decreases value, 1
  {
    if value.Scalar? {
      paths := [[]];
    } else {
      paths := ChildPaths(key, value, 0);
      assert value.Dict? ==> value.entries[0..] == value.entries;
      assert value.List? ==> value.items[0..] == value.items;
      assert Conditions(key, value) == ConditionsFrom(key, value, 0);
    }
  }

  lemma {:induction false} ChildPaths(key: string, value: Json, from: nat) returns (paths: seq<seq<nat>>)
    requires from <= |Children(value)|
    ensures AskedAt(key, value, paths, ConditionsFrom(key, value, from)) && NoDuplicates(paths)
    ensures forall path | path in paths :: path != [] && from <= path[0]
    ensures forall path | path != [] && from <= path[0] && Leaf(value, path).Some? :: path in paths
    decreases value, 0, |Children(value)| - from
  {
    if from == |Children(value)| {
      paths := [];
      NoneFrom(key, value);
    } else {
      var child := Children(value)[from];
      var below := ConditionPerLeaf(ChildKey(key, value, from), child);
      var rest := ChildPaths(key, value, from + 1);
      paths := Below(from, below) + rest;
      NextChild(key, value, from);
      hide Conditions, ConditionsFrom, AskedAt, Below, Collections.NoDuplicates;
      AskedBelow(key, value, from, below, Conditions(ChildKey(key, value, from), child));
      AskedJoined(key, value, Below(from, below), rest,
                  Conditions(ChildKey(key, value, from), child), ConditionsFrom(key, value, from + 1));
      DistinctBelow(from, below, rest);
      forall path | path != [] && from <= path[0] && Leaf(value, path).Some?
        ensures path in paths
      {
        if path[0] == from {
          InBelow(from, below, path);
        }
      }
    }
  }

  lemma AskedJoined(key: string, value: Json, paths: seq<seq<nat>>, more: seq<seq<nat>>,
                    conditions: seq<Condition>, others: seq<Condition>)
    requires AskedAt(key, value, paths, conditions) && AskedAt(key, value, more, others)
    ensures AskedAt(key, value, paths + more, conditions + others)
  {
    hide AsksAt;
  }

  lemma NoneFrom(key: string, value: Json)
    ensures ConditionsFrom(key, value, |Children(value)|) == []
  {
  }

  /** The paths of a child's leaves, from its parent. */
  function Below(i: nat, paths: seq<seq<nat>>): seq<seq<nat>> {
    seq(|paths|, k requires 0 <= k < |paths| => [i] + paths[k])
  }

  lemma AskedBelow(key: string, value: Json, i: nat, paths: seq<seq<nat>>, conditions: seq<Condition>)
    requires i < |Children(value)| && AskedAt(ChildKey(key, value, i), Children(value)[i], paths, conditions)
    ensures AskedAt(key, value, Below(i, paths), conditions)
  {
    hide ChildKey, Children;
    forall k | 0 <= k < |paths|
      ensures AsksAt(key, value, Below(i, paths)[k], conditions[k])
    {
      assert AsksAt(ChildKey(key, value, i), Children(value)[i], paths[k], conditions[k]);
      assert ([i] + paths[k])[1..] == paths[k];
    }
  }

  lemma DistinctBelow(i: nat, paths: seq<seq<nat>>, rest: seq<seq<nat>>)
    requires NoDuplicates(paths) && NoDuplicates(rest)
    requires forall path | path in rest :: path != [] && i < path[0]
    ensures NoDuplicates(Below(i, paths) + rest)
    ensures forall path | path in Below(i, paths) + rest :: path != [] && i <= path[0]
  {
    forall j, k | 0 <= j < k < |paths|
      ensures Below(i, paths)[j] != Below(i, paths)[k]
    {
      assert ([i] + paths[j])[1..] == paths[j] && ([i] + paths[k])[1..] == paths[k];
    }
    forall j, k | 0 <= j < |paths| && 0 <= k < |rest|
      ensures Below(i, paths)[j] != rest[k]
    {
      assert Below(i, paths)[j][0] == i && rest[k] in rest;
    }
  }

  lemma InBelow(i: nat, paths: seq<seq<nat>>, path: seq<nat>)
    requires path != [] && path[0] == i && path[1..] in paths
    ensures path in Below(i, paths)
  {
    var k :| 0 <= k < |paths| && paths[k] == path[1..];
    assert Below(i, paths)[k] == path;
  }

  /** So the conditions are exactly those the leaves ask for. */
  lemma ConditionsAreLeaves(key: string, value: Json)
    ensures forall c :: c in Conditions(key, value) <==> Asks(key, value, c)
  {
    hide Conditions, Leaf, Dotted;
    var paths := ConditionPerLeaf(key, value);
    var conditions := Conditions(key, value);
    forall c
      ensures c in conditions <==> Asks(key, value, c)
    {
      if c in conditions {
        var i :| 0 <= i < |conditions| && conditions[i] == c;
        assert AsksAt(key, value, paths[i], c);
      }
      if Asks(key, value, c) {
        var path: seq<nat> :| AsksAt(key, value, path, c);
        var i :| 0 <= i < |paths| && paths[i] == path;
        assert AsksAt(key, value, paths[i], conditions[i]);
      }
    }
  }

  /** How places are named: fields by a dot, dictionaries in a list by brackets, other list items not at all. */
  lemma Names(key: string, field: string, v: string)
    ensures Conditions(key, Scalar(v)) == [Condition("metadata." + key, v)]
    ensures Conditions(key, Dict([Entry(field, Scalar(v))])) == [Condition("metadata." + (key + "." + field), v)]
    ensures Conditions(key, List([Scalar(v)])) == [Condition("metadata." + key, v)]
    ensures Conditions(key, List([Dict([Entry(field, Scalar(v))])])) == [Condition("metadata." + (key + "[]" + "." + field), v)]
    ensures Conditions(key, List([List([Scalar(v)])])) == [Condition("metadata." + key, v)]
  {
    var dict := Dict([Entry(field, Scalar(v))]);
    assert [Entry(field, Scalar(v))][1..] == [] && [Scalar(v)][1..] == [] && [dict][1..] == [] && [List([Scalar(v)])][1..] == [];
    assert EntryConditions(key, [Entry(field, Scalar(v))]) == [Condition("metadata." + (key + "." + field), v)] + [];
    assert EntryConditions(key + "[]", [Entry(field, Scalar(v))]) == [Condition("metadata." + (key + "[]" + "." + field), v)] + [];
    assert ItemConditions(key, [Scalar(v)]) == [Condition("metadata." + key, v)] + [];
    assert ItemConditions(key, [dict]) == Conditions(key + "[]", dict) + [];
    assert ItemConditions(key, [List([Scalar(v)])]) == Conditions(key, List([Scalar(v)])) + [];
  }

  // ---------- The filter of a request ----------

  /** An empty filter is no filter; otherwise all conditions must hold. */
  function FilterOf(filter: seq<Entry>): Option<seq<Condition>> {
    if filter == [] then None else Some(FilterConditions(filter))
  }

  function FilterConditions(filter: seq<Entry>): seq<Condition> {
    if filter == [] then [] else Conditions(filter[0].key, filter[0].value) + FilterConditions(filter[1..])
  }

  /** What a nested filter means: every scalar matches under its name, every child of a container is met. */
  predicate Meets(key: string, value: Json, matches: Condition -> bool)
    decreases value
  {
    if value.Scalar? then matches(Condition("metadata." + key, value.value))
    else forall i | 0 <= i < |Children(value)| :: Meets(ChildKey(key, value, i), Children(value)[i], matches)
  }

  lemma {:induction false} MeetsConditions(key: string, value: Json, matches: Condition -> bool)
    ensures Meets(key, value, matches) <==> forall c | c in Conditions(key, value) :: matches(c)
    decreases value, 1
  {
    if !value.Scalar? {
      MeetsFrom(key, value, 0, matches);
      assert value.Dict? ==> value.entries[0..] == value.entries;
      assert value.List? ==> value.items[0..] == value.items;
      assert Conditions(key, value) == ConditionsFrom(key, value, 0);
    }
  }

  lemma {:induction false} MeetsFrom(key: string, value: Json, from: nat, matches: Condition -> bool)
    requires from <= |Children(value)|
    ensures (forall i | from <= i < |Children(value)| :: Meets(ChildKey(key, value, i), Children(value)[i], matches)) <==>
            (forall c | c in ConditionsFrom(key, value, from) :: matches(c))
    decreases value, 0, |Children(value)| - from
  {
    if from == |Children(value)| {
      NoneFrom(key, value);
    } else {
      MeetsConditions(ChildKey(key, value, from), Children(value)[from], matches);
      MeetsFrom(key, value, from + 1, matches);
      NextChild(key, value, from);
      hide Meets, Conditions, ConditionsFrom, ChildKey;
    }
  }

  predicate Passes(filter: Option<seq<Condition>>, matches: Condition -> bool) {
    filter.Some? ==> forall c | c in filter.value :: matches(c)
  }

  /** A point passes the flattened filter exactly when it meets the nested one: every leaf of it. */
  lemma FilterMeaning(filter: seq<Entry>, matches: Condition -> bool)
    ensures Passes(FilterOf(filter), matches) <==> forall e | e in filter :: Meets(e.key, e.value, matches)
    ensures Passes(FilterOf(filter), matches) <==> forall e, c | e in filter && Asks(e.key, e.value, c) :: matches(c)
  {
    hide Conditions, Asks, Meets;
    AllConditions(filter);
    forall e | e in filter
      ensures Meets(e.key, e.value, matches) <==> forall c | Asks(e.key, e.value, c) :: matches(c)
    {
      MeetsConditions(e.key, e.value, matches);
      ConditionsAreLeaves(e.key, e.value);
    }
  }

  lemma {:induction false} AllConditions(filter: seq<Entry>)
    ensures forall c :: c in FilterConditions(filter) <==> exists e | e in filter :: Asks(e.key, e.value, c)
  {
    hide Conditions, Asks;
    if filter != [] {
      AllConditions(filter[1..]);
      ConditionsAreLeaves(filter[0].key, filter[0].value);
      assert filter[0] in filter;
      assert forall e | e in filter :: e == filter[0] || e in filter[1..];
      var first, rest := Conditions(filter[0].key, filter[0].value), FilterConditions(filter[1..]);
      assert forall c :: c in first + rest <==> c in first || c in rest;
    }
  }

  method BuildCondition(key: string, value: Json) returns (out: seq<Condition>)
    ensures out == Conditions(key, value)
    decreases value, 1
  {
    match value
    case Scalar(v) =>
      out := [Condition("metadata." + key, v)];
    case Dict(entries) =>
      out := BuildFromDict(key, entries);
    case List(items) =>
      out := BuildFromList(key, items);
  }

  method BuildFromDict(key: string, entries: seq<Entry>) returns (out: seq<Condition>)
    ensures out == EntryConditions(key, entries)
    decreases entries, 0
  {
    hide Conditions, EntryConditions;
    out := [];
    assert entries[0..] == entries;
    for i := 0 to |entries|
      invariant EntryConditions(key, entries) == out + EntryConditions(key, entries[i..])
    {
      var more := BuildCondition(key + "." + entries[i].key, entries[i].value);
      NextEntry(key, entries, i);
      assert out + (more + EntryConditions(key, entries[i + 1..])) == out + more + EntryConditions(key, entries[i + 1..]);
      out := out + more;
    }
    assert entries[|entries|..] == [] && out + [] == out;
    NoneLeft(key);
  }

  lemma NoneLeft(key: string)
    ensures EntryConditions(key, []) == [] && ItemConditions(key, []) == []
  {
  }

  lemma NextEntry(key: string, entries: seq<Entry>, i: nat)
    requires i < |entries|
    ensures EntryConditions(key, entries[i..]) ==
            Conditions(key + "." + entries[i].key, entries[i].value) + EntryConditions(key, entries[i + 1..])
  {
    hide Conditions;
    assert entries[i..][0] == entries[i] && entries[i..][1..] == entries[i + 1..];
  }

  lemma NextItem(key: string, items: seq<Json>, i: nat)
    requires i < |items|
    ensures ItemConditions(key, items[i..]) ==
            Conditions(if items[i].Dict? then key + "[]" else key, items[i]) + ItemConditions(key, items[i + 1..])
  {
    hide Conditions;
    assert items[i..][0] == items[i] && items[i..][1..] == items[i + 1..];
  }

  method BuildFromList(key: string, items: seq<Json>) returns (out: seq<Condition>)
    ensures out == ItemConditions(key, items)
    decreases items, 0
  {
    hide Conditions, ItemConditions;
    out := [];
    assert items[0..] == items;
    for i := 0 to |items|
      invariant ItemConditions(key, items) == out + ItemConditions(key, items[i..])
    {
      var more;
      if items[i].Dict? {
        more := BuildCondition(key + "[]", items[i]);
      } else {
        more := BuildCondition(key, items[i]);
      }
      NextItem(key, items, i);
      assert out + (more + ItemConditions(key, items[i + 1..])) == out + more + ItemConditions(key, items[i + 1..]);
      out := out + more;
    }
    assert items[|items|..] == [] && out + [] == out;
    NoneLeft(key);
  }
}
