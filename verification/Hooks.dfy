/** Hooks: ordering them by priority and piping a value through them. */
module Hooks {
  datatype Hook = Hook(name: string, priority: int, pluginId: string, code: nat)

  // ---------- Stable ordering by priority ----------

  predicate Descending(hooks: seq<Hook>) {
    forall i, j | 0 <= i < j < |hooks| :: hooks[i].priority >= hooks[j].priority
  }

  /** The hooks of one priority, in order. */
  function OfPriority(hooks: seq<Hook>, priority: int): seq<Hook> {
    if hooks == [] then []
    else (if hooks[0].priority == priority then [hooks[0]] else []) + OfPriority(hooks[1..], priority)
  }

  /** The same hooks, those of each priority in the same order. */
  ghost predicate SameWithinPriorities(a: seq<Hook>, b: seq<Hook>) {
    forall priority: int :: OfPriority(a, priority) == OfPriority(b, priority)
  }

  /** Behind the hooks of at least its priority, before all others. */
  function Inserted(sorted: seq<Hook>, hook: Hook): seq<Hook> {
    if sorted == [] || sorted[0].priority < hook.priority then [hook] + sorted
    else [sorted[0]] + Inserted(sorted[1..], hook)
  }

  /** The order in which the hooks run: `list.sort` by priority, reversed, which is stable. */
  function Prioritized(hooks: seq<Hook>): seq<Hook> {
    if hooks == [] then [] else Inserted(Prioritized(hooks[..|hooks| - 1]), hooks[|hooks| - 1])
  }

  lemma {:induction false} OfPriorityConcat(a: seq<Hook>, b: seq<Hook>, priority: int)
    ensures OfPriority(a + b, priority) == OfPriority(a, priority) + OfPriority(b, priority)
  {
    if a == [] {
      assert a + b == b;
    } else {
      OfPriorityConcat(a[1..], b, priority);
      assert (a + b)[1..] == a[1..] + b;
      var head := if a[0].priority == priority then [a[0]] else [];
      var rest, more := OfPriority(a[1..], priority), OfPriority(b, priority);
      assert head + (rest + more) == (head + rest) + more;
    }
  }

  lemma {:induction false} LowerNotOfPriority(hooks: seq<Hook>, priority: int)
    requires forall i | 0 <= i < |hooks| :: hooks[i].priority < priority
    ensures OfPriority(hooks, priority) == []
  {
    if hooks != [] {
      LowerNotOfPriority(hooks[1..], priority);
    }
  }

  lemma {:induction false} InsertedMember(sorted: seq<Hook>, hook: Hook)
    ensures forall h :: h in Inserted(sorted, hook) <==> h == hook || h in sorted
  {
    if sorted != [] && sorted[0].priority >= hook.priority {
      InsertedMember(sorted[1..], hook);
      assert forall h :: h in sorted <==> h == sorted[0] || h in sorted[1..];
    }
  }

  lemma {:induction false} InsertedDescends(sorted: seq<Hook>, hook: Hook)
    requires Descending(sorted)
    ensures Descending(Inserted(sorted, hook))
  {
    hide Descending;
    if sorted == [] {
      DescendingCons(hook, []);
    } else {
      DescendingTail(sorted);
      if sorted[0].priority < hook.priority {
        DescendingCons(hook, sorted);
      } else {
        InsertedDescends(sorted[1..], hook);
        InsertedMember(sorted[1..], hook);
        DescendingCons(sorted[0], Inserted(sorted[1..], hook));
      }
    }
  }

  lemma {:induction false} InsertedLast(sorted: seq<Hook>, hook: Hook, priority: int)
    requires Descending(sorted)
    ensures OfPriority(Inserted(sorted, hook), priority) ==
            OfPriority(sorted, priority) + (if hook.priority == priority then [hook] else [])
  {
    if sorted == [] || sorted[0].priority < hook.priority {
      assert ([hook] + sorted)[1..] == sorted;
      LowerNotOfPriority(sorted, hook.priority);
    } else {
      InsertedLast(sorted[1..], hook, priority);
      assert ([sorted[0]] + Inserted(sorted[1..], hook))[1..] == Inserted(sorted[1..], hook);
    }
  }

  lemma DescendingTail(hooks: seq<Hook>)
    requires Descending(hooks) && hooks != []
    ensures Descending(hooks[1..]) && forall h | h in hooks :: h.priority <= hooks[0].priority
  {
  }

  lemma DescendingCons(first: Hook, rest: seq<Hook>)
    requires Descending(rest) && forall h | h in rest :: h.priority <= first.priority
    ensures Descending([first] + rest)
  {
  }

  /** The running order is by descending priority, and leaves hooks of one priority as they came. */
  lemma {:induction false} PrioritizedIsStableSort(hooks: seq<Hook>)
    ensures Descending(Prioritized(hooks)) && SameWithinPriorities(Prioritized(hooks), hooks)
  {
    if hooks != [] {
      var n := |hooks| - 1;
      PrioritizedIsStableSort(hooks[..n]);
      InsertedDescends(Prioritized(hooks[..n]), hooks[n]);
      forall p: int
        ensures OfPriority(Prioritized(hooks), p) == OfPriority(hooks, p)
      {
        InsertedLast(Prioritized(hooks[..n]), hooks[n], p);
        OfPriorityConcat(hooks[..n], [hooks[n]], p);
        assert hooks == hooks[..n] + [hooks[n]];
        assert OfPriority([hooks[n]], p) == if hooks[n].priority == p then [hooks[n]] else [];
      }
    }
  }

  /** There is only one such order. */
  lemma {:induction false} StableSortUnique(a: seq<Hook>, b: seq<Hook>)
    requires Descending(a) && Descending(b) && SameWithinPriorities(a, b)
    ensures a == b
    decreases |a| + |b|
  {
    if a != [] {
      NonEmptyAlike(a, b);
      HeadsAlike(a, b);
      forall q: int
        ensures OfPriority(a[1..], q) == OfPriority(b[1..], q)
      {
        var k := if a[0].priority == q then 1 else 0;
        assert OfPriority(a[1..], q) == OfPriority(a, q)[k..] == OfPriority(b, q)[k..] == OfPriority(b[1..], q);
      }
      StableSortUnique(a[1..], b[1..]);
    } else if b != [] {
      NonEmptyAlike(b, a);
    }
  }

  lemma NonEmptyAlike(a: seq<Hook>, b: seq<Hook>)
    requires a != [] && SameWithinPriorities(a, b)
    ensures b != []
  {
    assert OfPriority(a, a[0].priority) == OfPriority(b, a[0].priority);
  }

  lemma {:induction false} SomeOfPriority(hooks: seq<Hook>, priority: int)
    requires OfPriority(hooks, priority) != []
    ensures exists i | 0 <= i < |hooks| :: hooks[i].priority == priority
  {
    if hooks[0].priority != priority {
      SomeOfPriority(hooks[1..], priority);
      var i :| 0 <= i < |hooks[1..]| && hooks[1..][i].priority == priority;
      assert hooks[i + 1].priority == priority;
    }
  }

  lemma HeadsAlike(a: seq<Hook>, b: seq<Hook>)
    requires a != [] && b != [] && Descending(a) && Descending(b) && SameWithinPriorities(a, b)
    ensures a[0] == b[0]
  {
    assert OfPriority(a, a[0].priority) == OfPriority(b, a[0].priority);
    assert OfPriority(a, b[0].priority) == OfPriority(b, b[0].priority);
    SomeOfPriority(b, a[0].priority);
    SomeOfPriority(a, b[0].priority);
    assert a[0].priority == b[0].priority;
    assert OfPriority(a, a[0].priority)[0] == a[0] && OfPriority(b, a[0].priority)[0] == b[0];
  }

  method SortByPriority(hooks: seq<Hook>) returns (sorted: seq<Hook>)
    ensures sorted == Prioritized(hooks)
  {
    sorted := [];
    for i := 0 to |hooks|
      invariant sorted == Prioritized(hooks[..i])
    {
      sorted := InsertByPriority(sorted, hooks[i]);
      assert hooks[..i + 1][..i] == hooks[..i];
    }
    assert hooks[..|hooks|] == hooks;
  }

  method InsertByPriority(sorted: seq<Hook>, hook: Hook) returns (result: seq<Hook>)
    ensures result == Inserted(sorted, hook)
  {
    hide Inserted;
    var k := 0;
    assert sorted[0..] == sorted;
    while k < |sorted| && sorted[k].priority >= hook.priority
      invariant 0 <= k <= |sorted|
      invariant Inserted(sorted, hook) == sorted[..k] + Inserted(sorted[k..], hook)
    {
      InsertLater(sorted, hook, k);
      k := k + 1;
    }
    InsertHere(sorted, hook, k);
    result := sorted[..k] + ([hook] + sorted[k..]);
  }

  lemma InsertHere(sorted: seq<Hook>, hook: Hook, k: nat)
    requires k <= |sorted| && (k < |sorted| ==> sorted[k].priority < hook.priority)
    ensures Inserted(sorted[k..], hook) == [hook] + sorted[k..]
  {
  }

  lemma InsertLater(sorted: seq<Hook>, hook: Hook, k: nat)
    requires k < |sorted| && sorted[k].priority >= hook.priority
    ensures sorted[..k] + Inserted(sorted[k..], hook) == sorted[..k + 1] + Inserted(sorted[k + 1..], hook)
  {
    assert sorted[k..][0] == sorted[k] && sorted[k..][1..] == sorted[k + 1..];
    var rest := Inserted(sorted[k + 1..], hook);
    assert sorted[..k] + ([sorted[k]] + rest) == sorted[..k + 1] + rest;
  }

  // ---------- Piping a value through the hooks ----------

  datatype Ending<V> = Returns(value: V) | ReturnsNone | Raises

  /** What a call of a hook does: what it makes of the copy it is given, and how it ends. */
  datatype Effect<V> = Effect(mutated: V, ending: Ending<V>)

  /**
   A value passed from hook to hook, each of which also gets the other arguments; a hook that raises
   or returns nothing passes it on unchanged.
   */
  function Piped<V>(hooks: seq<Hook>, run: (Hook, V, seq<V>) -> Effect<V>, cup: V, others: seq<V>): V {
    if hooks == [] then cup
    else
      var before := Piped(hooks[..|hooks| - 1], run, cup, others);
      var ending := run(hooks[|hooks| - 1], before, others).ending;
      if ending.Returns? then ending.value else before
  }

  /** A mutable value as plugins hold it. */
  class Cell<V> {
    var value: V

    constructor (value: V)
      ensures this.value == value
    {
      this.value := value;
    }
  }

  /** Piping through a chain of hooks is piping the result of its first part through the rest. */
  lemma {:induction false} PipedChain<V>(a: seq<Hook>, b: seq<Hook>, run: (Hook, V, seq<V>) -> Effect<V>, cup: V, others: seq<V>)
    ensures Piped(a + b, run, cup, others) == Piped(b, run, Piped(a, run, cup, others), others)
    decreases |b|
  {
    if b == [] {
      assert a + b == a;
    } else {
      var n := |b| - 1;
      PipedChain(a, b[..n], run, cup, others);
      assert (a + b)[..|a| + n] == a + b[..n];
    }
  }

  /** One hook gives what it returns for the value it gets, or passes that on when it raises or returns nothing. */
  lemma PipedOne<V>(hook: Hook, run: (Hook, V, seq<V>) -> Effect<V>, cup: V, others: seq<V>)
    ensures var ending := run(hook, cup, others).ending;
            && (forall v :: ending == Returns(v) ==> Piped([hook], run, cup, others) == v)
            && (ending == ReturnsNone || ending == Raises ==> Piped([hook], run, cup, others) == cup)
    ensures Piped([], run, cup, others) == cup
  {
    assert [hook][..0] == [];
  }

  /** What a call for all hooks of a name answers. */
  datatype Answer<V> = NoSuchHook | NoValue | Value(cup: Cell<V>)

  /** A hook that never returns a value might as well not be there. */
  lemma {:induction false} SilentHooksDoNothing<V>(hooks: seq<Hook>, run: (Hook, V, seq<V>) -> Effect<V>, cup: V,
                                                   others: seq<V>, silent: Hook -> bool)
    requires forall h, v | silent(h) :: !run(h, v, others).ending.Returns?
    ensures Piped(hooks, run, cup, others) == Piped(Speaking(hooks, silent), run, cup, others)
  {
    if hooks != [] {
      var n := |hooks| - 1;
      SilentHooksDoNothing(hooks[..n], run, cup, others, silent);
      var kept := Speaking(hooks[..n], silent);
      if silent(hooks[n]) {
        assert kept + [] == kept;
        assert !run(hooks[n], Piped(hooks[..n], run, cup, others), others).ending.Returns?;
      } else {
        assert (kept + [hooks[n]])[..|kept|] == kept;
      }
    }
  }

  function Speaking(hooks: seq<Hook>, silent: Hook -> bool): seq<Hook> {
    if hooks == [] then []
    else Speaking(hooks[..|hooks| - 1], silent) + (if silent(hooks[|hooks| - 1]) then [] else [hooks[|hooks| - 1]])
  }
}
