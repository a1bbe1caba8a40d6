/** The simulation engine: the numeric tags it drives, one tick of the
    update loop, and the start/stop state of the loop. The sine and noise
    generator, the clock and the task machinery are not part of this model:
    a tick takes the generated value of each key as input. */
module Simulation {
  import opened Wrappers
  import opened Models
  import opened Seqs

  /** `n.NodeClass == "Variable" && n.DataType == "Double"`: an exact,
      case-sensitive comparison; a missing data type never matches. */
  predicate IsSimulated(n: Node) {
    n.nodeClass == "Variable" && n.dataType == Some("Double")
  }

  /** `n.NodeId ?? n.DisplayName`. */
  function SimulationKey(n: Node): string {
    n.nodeId.GetOr(n.displayName)
  }

  /** Some node of `ns` is simulated under `key`. */
  predicate RegistersKey(ns: seq<Node>, key: string) {
    exists i :: 0 <= i < |ns| && IsSimulated(ns[i]) && SimulationKey(ns[i]) == key
  }

  /** The table after registering the simulated nodes of `ns` in order. */
  function Registered(values: map<string, real>, ns: seq<Node>): map<string, real> {
    if ns == [] then values
    else
      var before := Registered(values, ns[..|ns| - 1]);
      var n := ns[|ns| - 1];
      if IsSimulated(n) then before[SimulationKey(n) := 0.0] else before
  }

  /** Registration adds the key of every simulated node with value 0.0 and
      keeps every other key with its value: nothing is ever removed. */
  lemma {:induction false} RegisteredSpec(values: map<string, real>, ns: seq<Node>, key: string)
    ensures key in Registered(values, ns) <==> key in values || RegistersKey(ns, key)
    ensures RegistersKey(ns, key) ==> Registered(values, ns)[key] == 0.0
    ensures key in values && !RegistersKey(ns, key) ==> Registered(values, ns)[key] == values[key]
  {
    if ns != [] {
      var init := ns[..|ns| - 1];
      var n := ns[|ns| - 1];
      RegisteredSpec(values, init, key);
      if RegistersKey(init, key) {
        var i :| 0 <= i < |init| && IsSimulated(init[i]) && SimulationKey(init[i]) == key;
        assert ns[i] == init[i];
      }
      if RegistersKey(ns, key) && !(IsSimulated(n) && SimulationKey(n) == key) {
        var i :| 0 <= i < |ns| && IsSimulated(ns[i]) && SimulationKey(ns[i]) == key;
        assert init[i] == ns[i];
      }
      if IsSimulated(n) && SimulationKey(n) == key {
        assert RegistersKey(ns, key) by {
          assert ns[|ns| - 1] == n;
        }
      }
    }
  }

  /** One `ValueUpdated(key, value)` notification. */
  datatype Update = Update(key: string, value: real)

  /** The table after a tick that stores `next[i]` under `order[i]`. */
  function Ticked(values: map<string, real>, order: seq<string>, next: seq<real>): map<string, real>
    requires |next| == |order|
  {
    if order == [] then values
    else Ticked(values, order[..|order| - 1], next[..|next| - 1])[order[|order| - 1] := next[|next| - 1]]
  }

  /** The notifications of a tick, one per key in enumeration order. */
  function Emitted(order: seq<string>, next: seq<real>): (r: seq<Update>)
    requires |next| == |order|
    ensures |r| == |order|
  {
    if order == [] then [] else Emitted(order[..|order| - 1], next[..|next| - 1]) + [Update(order[|order| - 1], next[|next| - 1])]
  }

  /** A tick keeps the set of keys and gives each key the value generated for it. */
  lemma {:induction false} TickedSpec(values: map<string, real>, order: seq<string>, next: seq<real>, i: int)
    requires |next| == |order| && (forall a, b :: 0 <= a < b < |order| ==> order[a] != order[b])
    requires 0 <= i < |order|
    ensures order[i] in Ticked(values, order, next) && Ticked(values, order, next)[order[i]] == next[i]
  {
    if i < |order| - 1 {
      TickedSpec(values, order[..|order| - 1], next[..|next| - 1], i);
    }
  }

  lemma {:induction false} TickedKeys(values: map<string, real>, order: seq<string>, next: seq<real>, k: string)
    requires |next| == |order|
    ensures k in Ticked(values, order, next) <==> k in values || k in order
  {
    if order != [] {
      TickedKeys(values, order[..|order| - 1], next[..|next| - 1], k);
      assert order == order[..|order| - 1] + [order[|order| - 1]];
    }
  }

  /** The i-th notification carries the i-th key and its new value. */
  lemma {:induction false} EmittedAt(order: seq<string>, next: seq<real>, i: int)
    requires |next| == |order| && 0 <= i < |order|
    ensures Emitted(order, next)[i] == Update(order[i], next[i])
  {
    if i < |order| - 1 {
      EmittedAt(order[..|order| - 1], next[..|next| - 1], i);
    }
  }

  /** Every registered key is notified exactly once per tick, with the
      value the tick stored. */
  lemma EmittedOncePerKey(values: map<string, real>, order: seq<string>, next: seq<real>, k: string)
    requires |next| == |order| && Enumerates(order, values) && k in values
    ensures k in Ticked(values, order, next)
    ensures exists i :: 0 <= i < |order| && Emitted(order, next)[i].key == k
                        && Emitted(order, next)[i].value == Ticked(values, order, next)[k]
    ensures forall i, j :: (0 <= i < |order| && 0 <= j < |order| && Emitted(order, next)[i].key == k
                            && Emitted(order, next)[j].key == k) ==> i == j
  {
    var i :| 0 <= i < |order| && order[i] == k;
    EmittedAt(order, next, i);
    TickedSpec(values, order, next, i);
    forall a, b | 0 <= a < |order| && 0 <= b < |order| && Emitted(order, next)[a].key == k
                  && Emitted(order, next)[b].key == k
      ensures a == b
    {
      EmittedAt(order, next, a);
      EmittedAt(order, next, b);
    }
  }

  /** The start/stop state: whether `_cts`/`_task` are set, and how many
      update loops are running (started, and their token never cancelled). */
  datatype LoopState = LoopState(current: bool, running: nat)

  predicate ValidLoops(s: LoopState) {
    s.current ==> s.running > 0
  }

  /** `Start` makes a new token and task without cancelling an earlier one. */
  function Started(s: LoopState): (r: LoopState)
    ensures ValidLoops(r) && r.running == s.running + 1
  {
    LoopState(true, s.running + 1)
  }

  /** `Stop` cancels the current token, if any, and clears both fields. */
  function Stopped(s: LoopState): (r: LoopState)
    requires ValidLoops(s)
    ensures ValidLoops(r) && !r.current
    ensures r.running == if s.current then s.running - 1 else s.running
  {
    LoopState(false, if s.current then s.running - 1 else s.running)
  }

  /** Stopping an idle engine changes nothing. */
  lemma StopWhenIdle(s: LoopState)
    requires !s.current
    ensures Stopped(s) == s
  {
  }

  /** Starting twice and stopping leaves the first loop running with nothing
      left to cancel it. */
  lemma RestartLeaksLoop()
    ensures Stopped(Started(Started(LoopState(false, 0)))) == LoopState(false, 1)
  {
  }

  class SimulationEngine {
    var values: map<string, real>
    var current: bool
    var running: nat

    predicate Valid()
      reads this
    {
      ValidLoops(LoopState(current, running))
    }

    constructor ()
      ensures values == map[] && !current && running == 0
    {
      values := map[];
      current := false;
      running := 0;
    }

    /** Registers every simulated node of the tree, in preorder, with 0.0. */
    method Initialize(root: Node)
      modifies this`values
      ensures values == Registered(old(values), Preorder(root))
    {
      var ns := Preorder(root);
      var i := 0;
      while i < |ns|
        invariant 0 <= i <= |ns|
        invariant values == Registered(old(values), ns[..i])
      {
        assert ns[..i + 1][..i] == ns[..i];
        var n := ns[i];
        if IsSimulated(n) {
          values := values[SimulationKey(n) := 0.0];
        }
        i := i + 1;
      }
      assert ns[..|ns|] == ns;
    }

    method Start()
      modifies this`current, this`running
      ensures LoopState(current, running) == Started(old(LoopState(current, running)))
    {
      current := true;
      running := running + 1;
    }

    method Stop()
      requires Valid()
      modifies this`current, this`running
      ensures LoopState(current, running) == Stopped(old(LoopState(current, running)))
    {
      if current {
        running := running - 1;
      }
      current := false;
    }

    /** One pass of the update loop over the keys in enumeration order
        `order`, storing and announcing the generated value `next[i]`. */
    method Tick(order: seq<string>, next: seq<real>) returns (emitted: seq<Update>)
      requires Enumerates(order, values) && |next| == |order|
      modifies this`values
      ensures values == Ticked(old(values), order, next)
      ensures emitted == Emitted(order, next)
    {
      emitted := [];
      var i := 0;
      while i < |order|
        invariant 0 <= i <= |order|
        invariant values == Ticked(old(values), order[..i], next[..i])
        invariant emitted == Emitted(order[..i], next[..i])
      {
        assert order[..i + 1][..i] == order[..i];
        assert next[..i + 1][..i] == next[..i];
        values := values[order[i] := next[i]];
        emitted := emitted + [Update(order[i], next[i])];
        i := i + 1;
      }
      assert order[..|order|] == order;
      assert next[..|next|] == next;
    }
  }
}
