/**
 The session caches: one in memory that drops its oldest tenth when it is full, one with a file
 per key. Both are compared with an unbounded map.
 */
module SessionCache {
  import opened Wrappers
  import opened Collections

  datatype Item<V> = Item(key: string, value: V, ttl: Option<real>, createdAt: real)

  type Items<V> = map<string, Item<V>>

  predicate IsExpired<V>(item: Item<V>, now: real) {
    if item.ttl == Some(-1.0) || item.ttl == None then false else item.createdAt + item.ttl.value < now
  }

  // ---------- What the operations do ----------

  /** `evicted` are `n` keys none of which is younger than a key that stays. */
  ghost predicate Oldest<V>(items: Items<V>, evicted: set<string>, n: nat) {
    && evicted <= items.Keys && |evicted| == n
    && forall e, k | e in evicted && k in items.Keys - evicted :: items[e].createdAt <= items[k].createdAt
  }

  /** Inserting into the in-memory cache; which of two equally old items goes is left open. */
  ghost predicate Inserted<V>(items: Items<V>, item: Item<V>, limit: nat, items': Items<V>) {
    var added := items[item.key := item];
    if |added| < limit then items' == added
    else exists evicted: set<string> :: Oldest(added, evicted, limit / 10) && items' == added - evicted
  }

  function Looked<V>(items: Items<V>, key: string, now: real): Items<V> {
    if key in items && IsExpired(items[key], now) then items - {key} else items
  }

  function Answer<V>(items: Items<V>, key: string, now: real): Option<V> {
    if key in items && !IsExpired(items[key], now) then Some(items[key].value) else None
  }

  /**
   What an insert leaves: the item itself and what was there, unless that reaches the limit; then a tenth
   of the limit goes, nothing of it younger than what stays, and what stays is unchanged.
   */
  lemma InsertLeaves<V>(items: Items<V>, item: Item<V>, limit: nat, items': Items<V>)
    requires Inserted(items, item, limit, items')
    ensures var added := items[item.key := item];
            && |items'| == (if |added| < limit then |added| else |added| - limit / 10)
            && (forall k | k in items' :: k in added && items'[k] == added[k])
            && (forall e, k | e in added && e !in items' && k in items' :: added[e].createdAt <= added[k].createdAt)
  {
    var added := items[item.key := item];
    if |added| >= limit {
      var evicted: set<string> :| Oldest(added, evicted, limit / 10) && items' == added - evicted;
      assert items'.Keys == added.Keys - evicted;
    }
  }

  /** The first keys of an ordering by age are oldest. */
  lemma OrderOldest<V>(items: Items<V>, order: seq<string>, n: nat)
    requires n <= |order| && forall k :: k in order <==> k in items
    requires NoDuplicates(order)
    requires forall i, j | 0 <= i < j < |order| :: items[order[i]].createdAt <= items[order[j]].createdAt
    ensures Oldest(items, Elements(order[..n]), n)
  {
    var evicted := Elements(order[..n]);
    ElementCount(order[..n]);
    forall e, k | e in evicted && k in items.Keys - evicted
      ensures items[e].createdAt <= items[k].createdAt
    {
      var i :| 0 <= i < n && order[..n][i] == e;
      assert k in order;
      var j :| 0 <= j < |order| && order[j] == k;
      assert items[order[i]].createdAt <= items[order[j]].createdAt;
    }
  }

  class InMemoryCache<V> {
    var items: Items<V>
    const limit: nat

    constructor (limit: nat := 100)
      ensures items == map[] && this.limit == limit
    {
      items := map[];
      this.limit := limit;
    }

    method Insert(item: Item<V>)
      modifies this
      ensures Inserted(old(items), item, limit, items)
    {
      items := items[item.key := item];
      if |items| >= limit {
        var order := SortByCreation(items);
        OrderOldest(items, order, limit / 10);
        DeleteAll(order[..limit / 10]);
      }
    }

    method DeleteAll(keys: seq<string>)
      modifies this
      ensures items == old(items) - Elements(keys)
    {
      for i := 0 to |keys|
        invariant items == old(items) - Elements(keys[..i])
      {
        Delete(keys[i]);
        assert keys[..i + 1] == keys[..i] + [keys[i]];
        assert Elements(keys[..i + 1]) == Elements(keys[..i]) + {keys[i]};
      }
      assert keys[..|keys|] == keys;
    }

    /** The keys from the oldest item to the youngest. */
    static method SortByCreation(items: Items<V>) returns (order: seq<string>)
      ensures |order| == |items|
      ensures forall k :: k in order <==> k in items
      ensures NoDuplicates(order)
      ensures forall i, j | 0 <= i < j < |order| :: items[order[i]].createdAt <= items[order[j]].createdAt
    {
      order := [];
      var todo := items.Keys;
      while todo != {}
        invariant todo <= items.Keys
        invariant forall k :: k in order <==> k in items && k !in todo
        invariant |order| + |todo| == |items.Keys|
        invariant NoDuplicates(order)
        invariant forall i, j | 0 <= i < j < |order| :: items[order[i]].createdAt <= items[order[j]].createdAt
        invariant forall k, i | k in todo && 0 <= i < |order| :: items[order[i]].createdAt <= items[k].createdAt
        decreases todo
      {
        var k := FindOldest(items, todo);
        todo := todo - {k};
        order := order + [k];
      }
    }

    static method FindOldest(items: Items<V>, todo: set<string>) returns (oldest: string)
      requires todo != {} && todo <= items.Keys
      ensures oldest in todo && forall k | k in todo :: items[oldest].createdAt <= items[k].createdAt
    {
      oldest :| oldest in todo;
      var rest := todo - {oldest};
      while rest != {}
        invariant rest <= todo && oldest in todo
        invariant forall k | k in todo && k !in rest :: items[oldest].createdAt <= items[k].createdAt
        decreases rest
      {
        var k :| k in rest;
        rest := rest - {k};
        if items[k].createdAt < items[oldest].createdAt {
          oldest := k;
        }
      }
    }

    method GetItem(key: string, now: real) returns (item: Option<Item<V>>)
      modifies this
      ensures items == Looked(old(items), key, now)
      ensures item == if key in items then Some(items[key]) else None
    {
      if key !in items {
        return None;
      }
      if IsExpired(items[key], now) {
        items := items - {key};
        return None;
      }
      return Some(items[key]);
    }

    method GetValue(key: string, now: real) returns (value: Option<V>)
      modifies this
      ensures items == Looked(old(items), key, now)
      ensures value == Answer(old(items), key, now)
    {
      var item := GetItem(key, now);
      value := if item.Some? then Some(item.value.value) else None;
    }

    method Delete(key: string)
      modifies this
      ensures items == old(items) - {key}
    {
      if key in items {
        items := items - {key};
      }
    }
  }

  // ---------- Runs of inserts ----------

  /** The last item written under each key. */
  function Latest<V>(log: seq<Item<V>>): Items<V> {
    if log == [] then map[]
    else Latest(log[..|log| - 1])[log[|log| - 1].key := log[|log| - 1]]
  }

  /** The states of the cache through a run of inserts. */
  ghost predicate InsertRun<V>(states: seq<Items<V>>, log: seq<Item<V>>, limit: nat) {
    && |states| == |log| + 1 && states[0] == map[]
    && forall i | 0 <= i < |log| :: Inserted(states[i], log[i], limit, states[i + 1])
  }

  ghost predicate StrictlyLater<V>(log: seq<Item<V>>) {
    forall i, j | 0 <= i < j < |log| :: log[i].createdAt < log[j].createdAt
  }

  /** Keys whose last write is later than that of `key`. */
  ghost function WrittenAfter<V>(latest: Items<V>, key: string): set<string>
    requires key in latest
  {
    set k | k in latest && latest[k].createdAt > latest[key].createdAt
  }

  /** The cache holds the last writes of the youngest keys, and enough of them. */
  ghost predicate KeepsYoungest<V>(items: Items<V>, latest: Items<V>, limit: nat) {
    && Younger(items, latest)
    && |items| < limit
    && (|items| >= limit - limit / 10 || items.Keys == latest.Keys)
  }

  ghost predicate NewerThan<V>(item: Item<V>, latest: Items<V>) {
    forall k | k in latest :: latest[k].createdAt < item.createdAt
  }

  lemma {:induction false} LatestTimes<V>(log: seq<Item<V>>)
    requires StrictlyLater(log)
    ensures log != [] ==> forall k | k in Latest(log) :: Latest(log)[k].createdAt <= log[|log| - 1].createdAt
    ensures forall j, k | j in Latest(log) && k in Latest(log) && j != k :: Latest(log)[j].createdAt != Latest(log)[k].createdAt
  {
    if log != [] {
      LatestTimes(log[..|log| - 1]);
    }
  }

  /** The youngest keys, before any is dropped. */
  ghost predicate Younger<V>(items: Items<V>, latest: Items<V>) {
    && (forall k | k in items :: k in latest && items[k] == latest[k])
    && (forall j, k | j in items && k in latest && latest[k].createdAt > latest[j].createdAt :: k in items)
  }

  lemma WriteKeepsYounger<V>(items: Items<V>, latest: Items<V>, item: Item<V>)
    requires Younger(items, latest) && NewerThan(item, latest)
    ensures Younger(items[item.key := item], latest[item.key := item])
    ensures items.Keys == latest.Keys ==> items[item.key := item].Keys == latest[item.key := item].Keys
    ensures |items| <= |items[item.key := item]| <= |items| + 1
  {
    var added, latest' := items[item.key := item], latest[item.key := item];
    assert added.Keys == items.Keys + {item.key} && latest'.Keys == latest.Keys + {item.key};
    SubsetSize(items.Keys, added.Keys);
    forall j, k | j in added && k in latest' && latest'[k].createdAt > latest'[j].createdAt
      ensures k in added
    {
      if k != item.key {
        assert j != item.key;
        assert j in items && k in latest;
      }
    }
  }

  lemma EvictKeepsYounger<V>(added: Items<V>, latest: Items<V>, evicted: set<string>, n: nat)
    requires Younger(added, latest) && Oldest(added, evicted, n)
    ensures Younger(added - evicted, latest) && |added - evicted| == |added| - n
  {
    var kept := added - evicted;
    assert kept.Keys == added.Keys - evicted;
    forall j, k | j in kept && k in latest && latest[k].createdAt > latest[j].createdAt
      ensures k in kept
    {
      assert j in added && k in added;
    }
  }

  lemma AddKeeps<V>(items: Items<V>, latest: Items<V>, item: Item<V>, limit: nat, items': Items<V>)
    requires limit >= 10 && KeepsYoungest(items, latest, limit) && NewerThan(item, latest)
    requires Inserted(items, item, limit, items')
    ensures KeepsYoungest(items', latest[item.key := item], limit)
  {
    var added := items[item.key := item];
    WriteKeepsYounger(items, latest, item);
    if |added| >= limit {
      var evicted: set<string> :| Oldest(added, evicted, limit / 10) && items' == added - evicted;
      EvictKeepsYounger(added, latest[item.key := item], evicted, limit / 10);
    }
  }

  lemma {:induction false} RunKeepsYoungest<V>(states: seq<Items<V>>, log: seq<Item<V>>, limit: nat)
    requires InsertRun(states, log, limit) && StrictlyLater(log) && limit >= 10
    ensures KeepsYoungest(states[|log|], Latest(log), limit)
    decreases |log|
  {
    if log != [] {
      var n := |log| - 1;
      RunKeepsYoungest(states[..n + 1], log[..n], limit);
      LatestTimes(log[..n]);
      assert NewerThan(log[n], Latest(log[..n]));
      assert Inserted(states[n], log[n], limit, states[n + 1]);
      AddKeeps(states[n], Latest(log[..n]), log[n], limit, states[n + 1]);
    }
  }

  lemma KeyKept<V>(items: Items<V>, latest: Items<V>, limit: nat, key: string)
    requires KeepsYoungest(items, latest, limit) && key in latest
    requires forall j, k | j in latest && k in latest && j != k :: latest[j].createdAt != latest[k].createdAt
    requires |WrittenAfter(latest, key)| < limit - limit / 10
    ensures key in items && items[key] == latest[key]
  {
    if key !in items {
      forall j | j in items
        ensures j in WrittenAfter(latest, key)
      {
        assert latest[j].createdAt != latest[key].createdAt;
      }
      SubsetSize(items.Keys, WrittenAfter(latest, key));
      assert false;
    }
  }

  /**
   After any run of inserts with strictly increasing creation times the cache holds fewer items than
   its limit, and it holds what was last written under each of the most recently written keys: all
   keys with fewer than nine tenths of the limit of keys written after them.
   */
  lemma RecentKeysKept<V>(states: seq<Items<V>>, log: seq<Item<V>>, limit: nat)
    requires InsertRun(states, log, limit) && StrictlyLater(log) && limit >= 10
    ensures |states[|log|]| < limit
    ensures forall key | key in Latest(log) && |WrittenAfter(Latest(log), key)| < limit - limit / 10 ::
              key in states[|log|] && states[|log|][key] == Latest(log)[key]
    ensures |Latest(log)| <= limit - limit / 10 ==> states[|log|] == Latest(log)
  {
    var items, latest := states[|log|], Latest(log);
    RunKeepsYoungest(states, log, limit);
    LatestTimes(log);
    forall key | key in latest && |WrittenAfter(latest, key)| < limit - limit / 10
      ensures key in items && items[key] == latest[key]
    {
      KeyKept(items, latest, limit, key);
    }
    if |latest| <= limit - limit / 10 && items.Keys != latest.Keys {
      assert items.Keys <= latest.Keys;
      SmallerSubset(items.Keys, latest.Keys);
    }
  }

  lemma SmallerSubset<T>(a: set<T>, b: set<T>)
    requires a < b
    ensures |a| < |b|
  {
    var x :| x in b && x !in a;
    SubsetSize(a, b - {x});
  }

  /** A limit under ten evicts nothing: the cache is the unbounded map, and outgrows its limit. */
  lemma {:induction false} SmallLimitNeverEvicts<V>(states: seq<Items<V>>, log: seq<Item<V>>, limit: nat)
    requires InsertRun(states, log, limit) && limit < 10
    ensures states[|log|] == Latest(log)
    decreases |log|
  {
    if log != [] {
      var n := |log| - 1;
      SmallLimitNeverEvicts(states[..n + 1], log[..n], limit);
      assert Inserted(states[n], log[n], limit, states[n + 1]);
      var added := states[n][log[n].key := log[n]];
      if |added| >= limit {
        var evicted: set<string> :| Oldest(added, evicted, limit / 10) && states[n + 1] == added - evicted;
        assert evicted == {};
      }
    }
  }

  // ---------- The cache with a file per key ----------

  /** `os.path.join`: an absolute name replaces the directory. */
  function JoinPath(dir: string, name: string): string {
    if name != "" && name[0] == '/' then name
    else if dir == "" || dir[|dir| - 1] == '/' then dir + name
    else dir + "/" + name
  }

  function FilePath(dir: string, key: string): string {
    JoinPath(dir, key + ".cache")
  }

  /** Keys that name a file below the cache directory. */
  predicate RelativeKey(key: string) {
    key == "" || key[0] != '/'
  }

  lemma FilePathInjective(dir: string, k1: string, k2: string)
    requires RelativeKey(k1) && RelativeKey(k2) && FilePath(dir, k1) == FilePath(dir, k2)
    ensures k1 == k2
  {
    var n1, n2 := k1 + ".cache", k2 + ".cache";
    assert n1[0] != '/' && n2[0] != '/';
    var prefix := if dir == "" || dir[|dir| - 1] == '/' then dir else dir + "/";
    assert prefix + n1 == prefix + n2;
    assert (prefix + n1)[|prefix|..] == n1 && (prefix + n2)[|prefix|..] == n2;
    assert k1 == n1[..|n1| - 6] && k2 == n2[..|n2| - 6];
  }

  class FileSystemCache<V> {
    var files: Items<V>
    const dir: string

    constructor (dir: string)
      ensures files == map[] && this.dir == dir
    {
      files := map[];
      this.dir := dir;
    }

    method Insert(item: Item<V>)
      modifies this
      ensures files == old(files)[FilePath(dir, item.key) := item]
    {
      files := files[FilePath(dir, item.key) := item];
    }

    method GetItem(key: string, now: real) returns (item: Option<Item<V>>)
      modifies this
      ensures files == Looked(old(files), FilePath(dir, key), now)
      ensures item == if FilePath(dir, key) in files then Some(files[FilePath(dir, key)]) else None
    {
      var path := FilePath(dir, key);
      if path !in files {
        return None;
      }
      var stored := files[path];
      if IsExpired(stored, now) {
        files := files - {path};
        return None;
      }
      return Some(stored);
    }

    method GetValue(key: string, now: real) returns (value: Option<V>)
      modifies this
      ensures files == Looked(old(files), FilePath(dir, key), now)
      ensures value == Answer(old(files), FilePath(dir, key), now)
    {
      var item := GetItem(key, now);
      value := if item.Some? then Some(item.value.value) else None;
    }

    method Delete(key: string)
      modifies this
      ensures files == old(files) - {FilePath(dir, key)}
    {
      var path := FilePath(dir, key);
      if path in files {
        files := files - {path};
      }
    }
  }

  // ---------- Mixed runs ----------

  datatype Call<V> = Insert(item: Item<V>) | GetValue(key: string, now: real) | Delete(key: string)

  /** One call on the in-memory cache, and its answer. */
  ghost predicate MemoryStep<V>(items: Items<V>, call: Call<V>, limit: nat, items': Items<V>, answer: Option<V>) {
    match call
    case Insert(item) => Inserted(items, item, limit, items') && answer == None
    case GetValue(key, now) => items' == Looked(items, key, now) && answer == Answer(items, key, now)
    case Delete(key) => items' == items - {key} && answer == None
  }

  /** One call on the file cache, and its answer. */
  predicate FileStep<V(==)>(files: Items<V>, call: Call<V>, dir: string, files': Items<V>, answer: Option<V>) {
    match call
    case Insert(item) => files' == files[FilePath(dir, item.key) := item] && answer == None
    case GetValue(key, now) =>
      files' == Looked(files, FilePath(dir, key), now) && answer == Answer(files, FilePath(dir, key), now)
    case Delete(key) => files' == files - {FilePath(dir, key)} && answer == None
  }

  /** The unbounded map after some calls: what was inserted, not deleted since and not found expired since. */
  function Reference<V>(calls: seq<Call<V>>): Items<V> {
    if calls == [] then map[]
    else
      var before := Reference(calls[..|calls| - 1]);
      match calls[|calls| - 1]
      case Insert(item) => before[item.key := item]
      case GetValue(key, now) => Looked(before, key, now)
      case Delete(key) => before - {key}
  }

  ghost predicate MemoryRun<V>(states: seq<Items<V>>, calls: seq<Call<V>>, answers: seq<Option<V>>, limit: nat) {
    && |states| == |calls| + 1 && |answers| == |calls| && states[0] == map[]
    && forall i | 0 <= i < |calls| :: MemoryStep(states[i], calls[i], limit, states[i + 1], answers[i])
  }

  ghost predicate FileRun<V>(states: seq<Items<V>>, calls: seq<Call<V>>, answers: seq<Option<V>>, dir: string) {
    && |states| == |calls| + 1 && |answers| == |calls| && states[0] == map[]
    && forall i | 0 <= i < |calls| :: FileStep(states[i], calls[i], dir, states[i + 1], answers[i])
  }

  ghost predicate Within<V(!new)>(items: Items<V>, reference: Items<V>) {
    forall k | k in items :: k in reference && items[k] == reference[k]
  }

  lemma {:induction false} MemoryWithin<V(!new)>(states: seq<Items<V>>, calls: seq<Call<V>>, answers: seq<Option<V>>, limit: nat)
    requires MemoryRun(states, calls, answers, limit)
    ensures Within(states[|calls|], Reference(calls))
    decreases |calls|
  {
    if calls != [] {
      var n := |calls| - 1;
      MemoryWithin(states[..n + 1], calls[..n], answers[..n], limit);
      assert MemoryStep(states[n], calls[n], limit, states[n + 1], answers[n]);
    }
  }

  /**
   With inserts, reads, deletes and expiry mixed at will, the in-memory cache answers nothing, or the
   value last inserted under the key, which was not deleted since and has not expired, neither now nor
   at an earlier read.
   */
  lemma AnswersAreCurrent<V(!new)>(states: seq<Items<V>>, calls: seq<Call<V>>, answers: seq<Option<V>>, limit: nat, i: nat)
    requires MemoryRun(states, calls, answers, limit) && i < |calls| && answers[i].Some?
    ensures calls[i].GetValue?
    ensures var reference, key := Reference(calls[..i]), calls[i].key;
            key in reference && !IsExpired(reference[key], calls[i].now) && answers[i] == Some(reference[key].value)
  {
    MemoryWithin(states[..i + 1], calls[..i], answers[..i], limit);
    assert MemoryStep(states[i], calls[i], limit, states[i + 1], answers[i]);
  }

  function CallKey<V>(call: Call<V>): string {
    if call.Insert? then call.item.key else call.key
  }

  /** Every key of the in-memory cache has its file, and the other way round. */
  ghost predicate SameEntries<V(!new)>(items: Items<V>, files: Items<V>, dir: string) {
    forall k | RelativeKey(k) :: (k in items <==> FilePath(dir, k) in files) && (k in items ==> items[k] == files[FilePath(dir, k)])
  }

  lemma StepAlike<V(!new)>(items: Items<V>, files: Items<V>, call: Call<V>, limit: nat, dir: string,
                           items': Items<V>, answer: Option<V>, files': Items<V>, fileAnswer: Option<V>)
    requires SameEntries(items, files, dir) && RelativeKey(CallKey(call))
    requires MemoryStep(items, call, limit, items', answer) && FileStep(files, call, dir, files', fileAnswer)
    requires call.Insert? ==> |items[call.item.key := call.item]| < limit
    ensures answer == fileAnswer && SameEntries(items', files', dir)
  {
    OtherFile(dir, CallKey(call));
  }

  /** The file cache holds the unbounded map, a file per key. */
  ghost predicate Mirrors<V(!new)>(files: Items<V>, reference: Items<V>, dir: string) {
    forall k | RelativeKey(k) ::
      && (k in reference <==> FilePath(dir, k) in files)
      && (k in reference ==> reference[k] == files[FilePath(dir, k)])
  }

  lemma OtherFile(dir: string, key: string)
    requires RelativeKey(key)
    ensures forall k | RelativeKey(k) && FilePath(dir, k) == FilePath(dir, key) :: k == key
  {
    forall k | RelativeKey(k) && FilePath(dir, k) == FilePath(dir, key)
      ensures k == key
    {
      FilePathInjective(dir, k, key);
    }
  }

  lemma {:induction false} FileMirrors<V(!new)>(states: seq<Items<V>>, calls: seq<Call<V>>, answers: seq<Option<V>>, dir: string)
    requires FileRun(states, calls, answers, dir) && forall i | 0 <= i < |calls| :: RelativeKey(CallKey(calls[i]))
    ensures Mirrors(states[|calls|], Reference(calls), dir)
    decreases |calls|
  {
    if calls != [] {
      var n := |calls| - 1;
      FileMirrors(states[..n + 1], calls[..n], answers[..n], dir);
      assert FileStep(states[n], calls[n], dir, states[n + 1], answers[n]);
      OtherFile(dir, CallKey(calls[n]));
    }
  }

  /** The file cache, which evicts nothing, answers every read exactly as the unbounded map does. */
  lemma FileAnswersExactly<V(!new)>(states: seq<Items<V>>, calls: seq<Call<V>>, answers: seq<Option<V>>, dir: string, i: nat)
    requires FileRun(states, calls, answers, dir) && i < |calls| && forall k | 0 <= k < |calls| :: RelativeKey(CallKey(calls[k]))
    ensures answers[i] == if calls[i].GetValue? then Answer(Reference(calls[..i]), calls[i].key, calls[i].now) else None
  {
    FileMirrors(states[..i + 1], calls[..i], answers[..i], dir);
    assert FileStep(states[i], calls[i], dir, states[i + 1], answers[i]);
    assert RelativeKey(CallKey(calls[i]));
  }

  // ---------- How long a value is answered ----------

  /** An item without a time to live, or with -1 for it, lives for ever; any other until its time is over. */
  predicate Lives<V>(item: Item<V>, now: real) {
    match item.ttl
    case None => true
    case Some(ttl) => ttl == -1.0 || now <= item.createdAt + ttl
  }

  /** No call from `i` to `n` writes or deletes the key. */
  ghost predicate Untouched<V>(calls: seq<Call<V>>, key: string, i: nat, n: nat)
    requires n <= |calls|
  {
    forall k | i < k < n :: calls[k].GetValue? || CallKey(calls[k]) != key
  }

  /** Every read of the key from `i` to `n` came while the item lived. */
  ghost predicate ReadAlive<V>(calls: seq<Call<V>>, item: Item<V>, i: nat, n: nat)
    requires n <= |calls|
  {
    forall k | i < k < n && calls[k].GetValue? && calls[k].key == item.key :: Lives(item, calls[k].now)
  }

  /** What the unbounded map holds of an item from its insertion on. */
  lemma {:induction false} ItemKept<V>(calls: seq<Call<V>>, i: nat, n: nat)
    requires i < n <= |calls| && calls[i].Insert? && Untouched(calls, calls[i].item.key, i, n)
    ensures var item, reference := calls[i].item, Reference(calls[..n]);
            && (item.key in reference ==> reference[item.key] == item)
            && (ReadAlive(calls, item, i, n) ==> item.key in reference)
    decreases n
  {
    var last := n - 1;
    assert calls[..n][..last] == calls[..last] && calls[..n][last] == calls[last];
    if last > i {
      ItemKept(calls, i, last);
      assert calls[last].GetValue? || CallKey(calls[last]) != calls[i].item.key;
    }
  }

  /** What the unbounded map answers for an inserted item that was neither written nor deleted since. */
  lemma ItemAnswered<V>(calls: seq<Call<V>>, i: nat, j: nat, now: real)
    requires i < j <= |calls| && calls[i].Insert? && Untouched(calls, calls[i].item.key, i, j)
    ensures var item := calls[i].item; var answer := Answer(Reference(calls[..j]), item.key, now);
            && (Lives(item, now) && ReadAlive(calls, item, i, j) ==> answer == Some(item.value))
            && (!Lives(item, now) ==> answer == None)
  {
    ItemKept(calls, i, j);
  }

  /** From its deletion on, until it is written again, a key answers nothing. */
  lemma {:induction false} DeletedIsGone<V>(calls: seq<Call<V>>, i: nat, n: nat, now: real)
    requires i < n <= |calls| && calls[i].Delete? && Untouched(calls, calls[i].key, i, n)
    ensures calls[i].key !in Reference(calls[..n]) && Answer(Reference(calls[..n]), calls[i].key, now) == None
    decreases n
  {
    var last := n - 1;
    assert calls[..n][..last] == calls[..last] && calls[..n][last] == calls[last];
    if last > i {
      DeletedIsGone(calls, i, last, now);
      assert calls[last].GetValue? || CallKey(calls[last]) != calls[i].key;
    }
  }

  /**
   The file cache answers an inserted value, until its key is written or deleted, as long as it lives,
   and for ever when it has no time to live or -1 for it, as the session's working memory has; after
   its time it answers nothing.
   */
  lemma FileAnswersWhileAlive<V(!new)>(states: seq<Items<V>>, calls: seq<Call<V>>, answers: seq<Option<V>>, dir: string, i: nat, j: nat)
    requires FileRun(states, calls, answers, dir) && forall k | 0 <= k < |calls| :: RelativeKey(CallKey(calls[k]))
    requires i < j < |calls| && calls[i].Insert? && Untouched(calls, calls[i].item.key, i, j)
    requires calls[j].GetValue? && calls[j].key == calls[i].item.key
    ensures var item := calls[i].item;
            && (Lives(item, calls[j].now) && ReadAlive(calls, item, i, j) ==> answers[j] == Some(item.value))
            && (item.ttl == None || item.ttl == Some(-1.0) ==> answers[j] == Some(item.value))
            && (!Lives(item, calls[j].now) ==> answers[j] == None)
  {
    FileAnswersExactly(states, calls, answers, dir, j);
    ItemAnswered(calls, i, j, calls[j].now);
  }

  /** Below its limit the in-memory cache is the unbounded map. */
  lemma {:induction false} MemoryExact<V(!new)>(states: seq<Items<V>>, calls: seq<Call<V>>, answers: seq<Option<V>>, limit: nat)
    requires MemoryRun(states, calls, answers, limit) && NeverFull(states, calls, limit)
    ensures states[|calls|] == Reference(calls)
    decreases |calls|
  {
    if calls != [] {
      var n := |calls| - 1;
      MemoryExact(states[..n + 1], calls[..n], answers[..n], limit);
      assert MemoryStep(states[n], calls[n], limit, states[n + 1], answers[n]);
    }
  }

  /** So does the in-memory cache while it is never full. */
  lemma MemoryAnswersWhileAlive<V(!new)>(states: seq<Items<V>>, calls: seq<Call<V>>, answers: seq<Option<V>>, limit: nat, i: nat, j: nat)
    requires MemoryRun(states, calls, answers, limit) && NeverFull(states, calls, limit)
    requires i < j < |calls| && calls[i].Insert? && Untouched(calls, calls[i].item.key, i, j)
    requires calls[j].GetValue? && calls[j].key == calls[i].item.key
    ensures var item := calls[i].item;
            && (Lives(item, calls[j].now) && ReadAlive(calls, item, i, j) ==> answers[j] == Some(item.value))
            && (item.ttl == None || item.ttl == Some(-1.0) ==> answers[j] == Some(item.value))
            && (!Lives(item, calls[j].now) ==> answers[j] == None)
  {
    MemoryExact(states[..j + 1], calls[..j], answers[..j], limit);
    assert MemoryStep(states[j], calls[j], limit, states[j + 1], answers[j]);
    ItemAnswered(calls, i, j, calls[j].now);
  }

  /** No insert of the run fills the in-memory cache. */
  ghost predicate NeverFull<V>(states: seq<Items<V>>, calls: seq<Call<V>>, limit: nat)
    requires |states| == |calls| + 1
  {
    forall i | 0 <= i < |calls| && calls[i].Insert? :: |states[i][calls[i].item.key := calls[i].item]| < limit
  }

  /** On runs that stay below the limit, the two caches answer every call alike. */
  lemma {:induction false} CachesAgree<V(!new)>(memory: seq<Items<V>>, files: seq<Items<V>>, calls: seq<Call<V>>,
                                                answers: seq<Option<V>>, fileAnswers: seq<Option<V>>, limit: nat, dir: string)
    requires MemoryRun(memory, calls, answers, limit) && FileRun(files, calls, fileAnswers, dir)
    requires NeverFull(memory, calls, limit) && forall i | 0 <= i < |calls| :: RelativeKey(CallKey(calls[i]))
    ensures answers == fileAnswers && SameEntries(memory[|calls|], files[|calls|], dir)
    decreases |calls|
  {
    if calls != [] {
      var n := |calls| - 1;
      CachesAgree(memory[..n + 1], files[..n + 1], calls[..n], answers[..n], fileAnswers[..n], limit, dir);
      assert MemoryStep(memory[n], calls[n], limit, memory[n + 1], answers[n]);
      assert FileStep(files[n], calls[n], dir, files[n + 1], fileAnswers[n]);
      StepAlike(memory[n], files[n], calls[n], limit, dir, memory[n + 1], answers[n], files[n + 1], fileAnswers[n]);
      assert answers == answers[..n] + [answers[n]] && fileAnswers == fileAnswers[..n] + [fileAnswers[n]];
    }
  }
}
