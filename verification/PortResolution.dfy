/** Resolving one command's declared ports (apps/runtime/src/commands/ports.ts). */
module PortResolution {
  import opened Optional

  type Port = nat
  type Name = nat

  datatype Declared = Fixed(port: Port, paths: seq<Name>) | Allocated(envVar: Name, paths: seq<Name>)

  // A fixed entry names no variable.
  datatype Resolved = Resolved(envVar: Option<Name>, port: Port, paths: seq<Name>)

  // The operating system either offers a port or cannot be asked.
  datatype Answer = Offers(port: Port) | OsError

  datatype Resolution = Ports(entries: seq<Resolved>) | CouldNotAsk | OnlyTakenPorts

  const MAX_OS_ASKS := 5

  // ----- What a resolution must be -----

  // The first remembered entry for a variable.
  function Previous(remembered: seq<Resolved>, envVar: Name): Option<Port> {
    if remembered == [] then None
    else if remembered[0].envVar == Some(envVar) then Some(remembered[0].port)
    else Previous(remembered[1..], envVar)
  }

  ghost predicate IsFixedPort(declared: seq<Declared>, port: Port) {
    exists i :: 0 <= i < |declared| && declared[i] == Fixed(port, declared[i].paths)
  }

  // Ports an entry may not take: every fixed port, wherever it is declared, and those already resolved.
  ghost predicate Taken(declared: seq<Declared>, earlier: seq<Resolved>, port: Port) {
    IsFixedPort(declared, port) || exists j :: 0 <= j < |earlier| && earlier[j].port == port
  }

  // The remembered port can be used again.
  ghost predicate Recalled(declared: seq<Declared>, earlier: seq<Resolved>, envVar: Name,
                           remembered: seq<Resolved>, inactive: Port -> bool) {
    var previous := Previous(remembered, envVar);
    previous.Some? && !Taken(declared, earlier, previous.value) && inactive(previous.value)
  }

  // An allocated entry keeps its remembered port when it can, and otherwise has one the system offered.
  ghost predicate Chosen(declared: seq<Declared>, earlier: seq<Resolved>, envVar: Name, port: Port,
                         remembered: seq<Resolved>, inactive: Port -> bool, os: nat -> Answer, asks: nat) {
    && !Taken(declared, earlier, port)
    && if Recalled(declared, earlier, envVar, remembered, inactive)
       then Previous(remembered, envVar) == Some(port)
       else exists k: nat :: k < asks && os(k) == Offers(port)
  }

  ghost predicate EntryFor(declared: seq<Declared>, resolved: seq<Resolved>, i: nat,
                           remembered: seq<Resolved>, inactive: Port -> bool, os: nat -> Answer, asks: nat)
    requires i < |declared| && i < |resolved|
  {
    match declared[i]
    case Fixed(port, paths) => resolved[i] == Resolved(None, port, paths)
    case Allocated(envVar, paths) =>
      && resolved[i].envVar == Some(envVar) && resolved[i].paths == paths
      && Chosen(declared, resolved[..i], envVar, resolved[i].port, remembered, inactive, os, asks)
  }

  // The first entries, in declaration order.
  ghost predicate Resolves(declared: seq<Declared>, resolved: seq<Resolved>,
                           remembered: seq<Resolved>, inactive: Port -> bool, os: nat -> Answer, asks: nat) {
    && |resolved| <= |declared|
    && forall i :: 0 <= i < |resolved| ==> EntryFor(declared, resolved, i, remembered, inactive, os, asks)
  }

  // ----- The resolver -----

  /** Success resolves every entry in declaration order. It fails only after the system could not be
      asked, or after five offers in a row, each of a port this command had already taken. */
  method ResolveCommandPorts(declared: seq<Declared>, remembered: seq<Resolved>, inactive: Port -> bool,
                             os: nat -> Answer)
    returns (result: Resolution, asks: nat, ghost resolved: seq<Resolved>)
    ensures Resolves(declared, resolved, remembered, inactive, os, asks)
    ensures result.Ports? ==> result.entries == resolved && |resolved| == |declared|
    ensures result.CouldNotAsk? ==> asks > 0 && os(asks - 1) == OsError
    ensures result.OnlyTakenPorts? ==>
              && asks >= MAX_OS_ASKS
              && forall k: nat :: asks - MAX_OS_ASKS <= k < asks ==>
                 os(k).Offers? && Taken(declared, resolved, os(k).port)
    ensures !result.Ports? ==>
              && |resolved| < |declared| && declared[|resolved|].Allocated?
              && !Recalled(declared, resolved, declared[|resolved|].envVar, remembered, inactive)
    ensures asks <= MAX_OS_ASKS * |declared|
  {
    var excluded := FixedPorts(declared);
    var entries: seq<Resolved> := [];
    asks := 0;
    for i := 0 to |declared|
      invariant |entries| == i && Resolves(declared, entries, remembered, inactive, os, asks)
      invariant forall port :: port in excluded <==> Taken(declared, entries, port)
      invariant asks <= MAX_OS_ASKS * i
    {
      ghost var before := entries;
      match declared[i] {
        case Fixed(port, paths) =>
          entries := entries + [Resolved(None, port, paths)];
          assert declared[i] == Fixed(port, declared[i].paths);
        case Allocated(envVar, paths) =>
          ghost var asked := asks;
          var outcome;
          outcome, asks := ResolveAllocatedPort(envVar, remembered, excluded, inactive, os, asks);
          MoreAsks(declared, entries, remembered, inactive, os, asked, asks);
          if !outcome.Found? {
            return if outcome.CannotAsk? then CouldNotAsk else OnlyTakenPorts, asks, entries;
          }
          excluded := excluded + {outcome.port};
          entries := entries + [Resolved(Some(envVar), outcome.port, paths)];
      }
      ResolvesFurther(declared, before, entries, remembered, inactive, os, asks);
      assert entries[..i] == before;
      forall port ensures Taken(declared, entries, port) <==> Taken(declared, before, port) || port == entries[i].port {
        TakenFurther(declared, before, entries, port);
      }
    }
    return Ports(entries), asks, entries;
  }

  method FixedPorts(declared: seq<Declared>) returns (fixed: set<Port>)
    ensures forall port :: port in fixed <==> Taken(declared, [], port)
  {
    fixed := {};
    for i := 0 to |declared|
      invariant forall port :: port in fixed <==>
                  exists k :: 0 <= k < i && declared[k] == Fixed(port, declared[k].paths)
    {
      if declared[i].Fixed? {
        fixed := fixed + {declared[i].port};
      }
    }
  }

  datatype Allocation = Found(port: Port) | CannotAsk | NoneFree

  method ResolveAllocatedPort(envVar: Name, remembered: seq<Resolved>, excluded: set<Port>,
                              inactive: Port -> bool, os: nat -> Answer, asked: nat)
    returns (outcome: Allocation, asks: nat)
    ensures asked <= asks <= asked + MAX_OS_ASKS
    ensures var previous := Previous(remembered, envVar);
            if previous.Some? && previous.value !in excluded && inactive(previous.value)
            then outcome == Found(previous.value) && asks == asked
            else
              && (outcome.Found? ==> outcome.port !in excluded && asks > asked && os(asks - 1) == Offers(outcome.port))
              && (outcome.CannotAsk? ==> asks > asked && os(asks - 1) == OsError)
              && (outcome.NoneFree? ==> asks == asked + MAX_OS_ASKS)
              && (forall k: nat :: asked <= k < asks && (k < asks - 1 || outcome.NoneFree?) ==>
                    os(k).Offers? && os(k).port in excluded)
  {
    var previous := FindPrevious(remembered, envVar);
    asks := asked;
    if previous.Some? && previous.value !in excluded && inactive(previous.value) {
      return Found(previous.value), asks;
    }
    for attempt := 0 to MAX_OS_ASKS
      invariant asks == asked + attempt
      invariant forall k: nat :: asked <= k < asks ==> os(k).Offers? && os(k).port in excluded
    {
      var candidate := os(asks);
      asks := asks + 1;
      if candidate.OsError? {
        return CannotAsk, asks;
      }
      if candidate.port !in excluded {
        return Found(candidate.port), asks;
      }
    }
    return NoneFree, asks;
  }

  method FindPrevious(remembered: seq<Resolved>, envVar: Name) returns (port: Option<Port>)
    ensures port == Previous(remembered, envVar)
  {
    var i := 0;
    while i < |remembered| && remembered[i].envVar != Some(envVar)
      invariant 0 <= i <= |remembered|
      invariant Previous(remembered, envVar) == Previous(remembered[i..], envVar)
    {
      assert remembered[i..][1..] == remembered[i + 1..];
      i := i + 1;
    }
    return if i < |remembered| then Some(remembered[i].port) else None;
  }

  lemma MoreAsks(declared: seq<Declared>, resolved: seq<Resolved>, remembered: seq<Resolved>,
                 inactive: Port -> bool, os: nat -> Answer, asked: nat, asks: nat)
    requires Resolves(declared, resolved, remembered, inactive, os, asked) && asked <= asks
    ensures Resolves(declared, resolved, remembered, inactive, os, asks)
  {
    forall i | 0 <= i < |resolved| ensures EntryFor(declared, resolved, i, remembered, inactive, os, asks) {
      assert EntryFor(declared, resolved, i, remembered, inactive, os, asked);
    }
  }

  lemma ResolvesFurther(declared: seq<Declared>, before: seq<Resolved>, after: seq<Resolved>, remembered: seq<Resolved>,
                        inactive: Port -> bool, os: nat -> Answer, asks: nat)
    requires Resolves(declared, before, remembered, inactive, os, asks)
    requires |after| == |before| + 1 <= |declared| && after[..|before|] == before
    requires EntryFor(declared, after, |before|, remembered, inactive, os, asks)
    ensures Resolves(declared, after, remembered, inactive, os, asks)
  {
    forall i | 0 <= i < |before| ensures EntryFor(declared, after, i, remembered, inactive, os, asks) {
      assert EntryFor(declared, before, i, remembered, inactive, os, asks);
      assert after[..i] == before[..i] && after[i] == before[i];
    }
  }

  lemma TakenFurther(declared: seq<Declared>, before: seq<Resolved>, after: seq<Resolved>, port: Port)
    requires |after| == |before| + 1 && after[..|before|] == before
    ensures Taken(declared, after, port) <==> Taken(declared, before, port) || port == after[|before|].port
  {
    if j :| 0 <= j < |before| && before[j].port == port {
      assert after[j].port == port;
    }
    if j :| 0 <= j < |after| && after[j].port == port {
      assert j < |before| ==> before[j].port == port;
    }
  }

  // ----- What resolving gives -----

  /** No two entries share a port, wherever the fixed ones stand, unless both are fixed at that port. */
  lemma PortsAreDistinct(declared: seq<Declared>, resolved: seq<Resolved>, remembered: seq<Resolved>,
                         inactive: Port -> bool, os: nat -> Answer, asks: nat, i: nat, j: nat)
    requires Resolves(declared, resolved, remembered, inactive, os, asks) && i < j < |resolved|
    requires resolved[i].port == resolved[j].port
    ensures declared[i].Fixed? && declared[j].Fixed? && declared[i].port == declared[j].port
  {
    assert EntryFor(declared, resolved, i, remembered, inactive, os, asks);
    assert EntryFor(declared, resolved, j, remembered, inactive, os, asks);
    assert resolved[..j][i] == resolved[i];
    if declared[j].Fixed? {
      assert declared[j] == Fixed(resolved[j].port, declared[j].paths);
    }
  }

  ghost predicate DistinctVariables(declared: seq<Declared>) {
    forall i, j :: 0 <= i < j < |declared| && declared[i].Allocated? && declared[j].Allocated? ==>
      declared[i].envVar != declared[j].envVar
  }

  lemma {:induction false} PreviousIsTheFirst(remembered: seq<Resolved>, i: nat)
    requires i < |remembered| && remembered[i].envVar.Some?
    requires forall k :: 0 <= k < i ==> remembered[k].envVar != remembered[i].envVar
    ensures Previous(remembered, remembered[i].envVar.value) == Some(remembered[i].port)
  {
    if i > 0 {
      PreviousIsTheFirst(remembered[1..], i - 1);
    }
  }

  // From a result, with every port free, the next entry's own port is recalled.
  lemma NextIsRecalled(declared: seq<Declared>, resolved: seq<Resolved>, remembered: seq<Resolved>,
                       inactive: Port -> bool, os: nat -> Answer, asks: nat, i: nat, free: Port -> bool)
    requires Resolves(declared, resolved, remembered, inactive, os, asks) && DistinctVariables(declared)
    requires (forall port :: free(port)) && i < |resolved| && declared[i].Allocated?
    ensures Previous(resolved, declared[i].envVar) == Some(resolved[i].port)
    ensures Recalled(declared, resolved[..i], declared[i].envVar, resolved, free)
  {
    assert EntryFor(declared, resolved, i, remembered, inactive, os, asks);
    forall k | 0 <= k < i ensures resolved[k].envVar != resolved[i].envVar {
      assert EntryFor(declared, resolved, k, remembered, inactive, os, asks);
    }
    PreviousIsTheFirst(resolved, i);
  }

  lemma {:induction false} SamePortsAgain(
    declared: seq<Declared>, resolved: seq<Resolved>, remembered: seq<Resolved>, inactive: Port -> bool,
      os: nat -> Answer, asks: nat,
    again: seq<Resolved>, free: Port -> bool, os': nat -> Answer, asks': nat, n: nat)
    requires Resolves(declared, resolved, remembered, inactive, os, asks) && n <= |resolved|
    requires Resolves(declared, again, resolved, free, os', asks') && n <= |again|
    requires DistinctVariables(declared) && forall port :: free(port)
    ensures again[..n] == resolved[..n]
    decreases n
  {
    if n > 0 {
      var i := n - 1;
      SamePortsAgain(declared, resolved, remembered, inactive, os, asks, again, free, os', asks', i);
      assert EntryFor(declared, resolved, i, remembered, inactive, os, asks);
      assert EntryFor(declared, again, i, resolved, free, os', asks');
      if declared[i].Allocated? {
        NextIsRecalled(declared, resolved, remembered, inactive, os, asks, i, free);
      }
      assert again[..n] == again[..i] + [again[i]] && resolved[..n] == resolved[..i] + [resolved[i]];
    }
  }

  /** Resolving again from a result, with every port free, gives that result back, whatever the system
      would now offer, and cannot fail. */
  method ResolveTwice(declared: seq<Declared>, remembered: seq<Resolved>, inactive: Port -> bool, os: nat -> Answer,
                      free: Port -> bool, later: nat -> Answer)
    returns (first: Resolution, second: Resolution)
    requires DistinctVariables(declared) && forall port :: free(port)
    ensures first.Ports? ==> second == first
  {
    var asks;
    ghost var resolved;
    first, asks, resolved := ResolveCommandPorts(declared, remembered, inactive, os);
    if !first.Ports? {
      return first, first;
    }
    var asksLater;
    ghost var again;
    second, asksLater, again := ResolveCommandPorts(declared, first.entries, free, later);
    var n := |again|;
    SamePortsAgain(declared, resolved, remembered, inactive, os, asks, again, free, later, asksLater, n);
    assert again[..n] == again && resolved[..|declared|] == resolved;
    if n < |declared| && declared[n].Allocated? {
      NextIsRecalled(declared, resolved, remembered, inactive, os, asks, n, free);
    }
  }
}
