/** Which execution a record belongs to (apps/runtime/src/harnesses/observer-state.ts, incarnation.ts). */
module Incarnations {
  import opened Optional

  type Incarnation = nat

  // An unmarked entry is from no known execution.
  datatype Entry<T> = Entry(incarnation: Option<Incarnation>, value: T)

  // ----- Dropping late records of replaced executions -----

  datatype Scan<T> = Scan(seen: set<Incarnation>, current: Option<Incarnation>, accepted: seq<Entry<T>>)

  predicate Takes<T>(s: Scan<T>, e: Entry<T>) {
    e.incarnation.None? || s.current == e.incarnation || e.incarnation.value !in s.seen
  }

  function Next<T>(s: Scan<T>, e: Entry<T>): Scan<T> {
    if !Takes(s, e) then s
    else if e.incarnation.None? then s.(accepted := s.accepted + [e])
    else Scan(s.seen + {e.incarnation.value}, e.incarnation, s.accepted + [e])
  }

  function Scanned<T>(records: seq<Entry<T>>): Scan<T> {
    if records == [] then Scan({}, None, [])
    else Next(Scanned(records[..|records| - 1]), records[|records| - 1])
  }

  function Current<T>(records: seq<Entry<T>>): seq<Entry<T>> {
    Scanned(records).accepted
  }

  method CurrentIncarnationRecords<T(0)>(records: seq<Entry<T>>) returns (accepted: seq<Entry<T>>)
    ensures accepted == Current(records)
  {
    var seen: set<Incarnation> := {};
    var current: Option<Incarnation> := None;
    accepted := [];
    for i := 0 to |records|
      invariant Scanned(records[..i]) == Scan(seen, current, accepted)
    {
      assert records[..i + 1][..i] == records[..i];
      var record := records[i];
      if record.incarnation.None? {
        accepted := accepted + [record];
      } else if current == record.incarnation {
        accepted := accepted + [record];
        assert seen + {record.incarnation.value} == seen by { CurrentIsSeen(records[..i]); }
      } else if record.incarnation.value !in seen {
        current := record.incarnation;
        seen := seen + {record.incarnation.value};
        accepted := accepted + [record];
      }
    }
    assert records[..|records|] == records;
  }

  lemma {:induction false} CurrentIsSeen<T>(records: seq<Entry<T>>)
    ensures Scanned(records).current.Some? ==> Scanned(records).current.value in Scanned(records).seen
  {
    if records != [] {
      CurrentIsSeen(records[..|records| - 1]);
    }
  }

  // ----- What is kept -----

  ghost predicate Marks<T>(records: seq<Entry<T>>, i: nat, e: Incarnation) {
    i < |records| && records[i].incarnation == Some(e)
  }

  // The first record of an execution.
  ghost predicate Begins<T>(records: seq<Entry<T>>, i: nat, e: Incarnation) {
    Marks(records, i, e) && forall k: nat :: k < i ==> !Marks(records, k, e)
  }

  // By the time of record `i`, some other execution had begun after record `i`'s own execution did.
  ghost predicate Superseded<T>(records: seq<Entry<T>>, i: nat) {
    exists own: nat, other: nat, e: Incarnation, f: Incarnation ::
      Marks(records, i, e) && Begins(records, own, e) && Begins(records, other, f) && own < other < i
  }

  // What the scan knows of the records so far: which executions appeared, and which began last.
  ghost predicate Knows<T>(records: seq<Entry<T>>, s: Scan<T>) {
    && (forall e :: e in s.seen <==> exists i: nat :: Marks(records, i, e))
    && (s.current.None? ==> s.seen == {})
    && (s.current.Some? ==> exists last: nat ::
          Begins(records, last, s.current.value) && forall k: nat, e :: Begins(records, k, e) ==> k <= last)
  }

  lemma {:induction false} FirstRecord<T>(records: seq<Entry<T>>, i: nat, e: Incarnation) returns (own: nat)
    requires Marks(records, i, e)
    ensures Begins(records, own, e) && own <= i
    decreases i
  {
    if k: nat :| k < i && Marks(records, k, e) {
      own := FirstRecord(records, k, e);
    } else {
      own := i;
    }
  }

  lemma MarksInPrefix<T>(records: seq<Entry<T>>, n: nat)
    requires n <= |records|
    ensures forall i: nat, e :: Marks(records[..n], i, e) <==> i < n && Marks(records, i, e)
    ensures forall i: nat, e :: Begins(records[..n], i, e) <==> i < n && Begins(records, i, e)
  {
    forall i: nat, e ensures Begins(records[..n], i, e) <==> i < n && Begins(records, i, e) {
      if i < n && Begins(records, i, e) {
        assert Marks(records[..n], i, e);
        assert forall k: nat :: k < i ==> (Marks(records[..n], k, e) ==> Marks(records, k, e));
      }
      if Begins(records[..n], i, e) {
        assert forall k: nat :: k < i ==> (Marks(records, k, e) ==> Marks(records[..n], k, e));
      }
    }
  }

  // A record from an execution already known begins nothing.
  lemma KnowsWithoutBeginning<T>(records: seq<Entry<T>>, s: Scan<T>)
    requires |records| > 0 && Knows(records[..|records| - 1], s)
    requires var e := records[|records| - 1].incarnation; e.None? || e.value in s.seen
    ensures Knows(records, s)
  {
    var n := |records| - 1;
    var init, last := records[..n], records[n].incarnation;
    MarksInPrefix(records, n);
    forall e ensures e in s.seen <==> exists i: nat :: Marks(records, i, e) {
      if i: nat :| Marks(records, i, e) {
        if i < n {
          assert Marks(init, i, e);
        }
      }
      if e in s.seen {
        var i: nat :| Marks(init, i, e);
        assert Marks(records, i, e);
      }
    }
    if last.Some? {
      var i: nat :| Marks(init, i, last.value);
      assert Marks(records, i, last.value);
    }
    assert forall e :: !Begins(records, n, e);
    if s.current.Some? {
      var first: nat :| Begins(init, first, s.current.value) && forall k: nat, e :: Begins(init, k, e) ==> k <= first;
      assert Begins(records, first, s.current.value);
      forall k: nat, e | Begins(records, k, e) ensures k <= first {
        assert Begins(init, k, e);
      }
    }
  }

  lemma KnowsTheBeginning<T>(records: seq<Entry<T>>, s: Scan<T>, accepted: seq<Entry<T>>)
    requires |records| > 0 && Knows(records[..|records| - 1], s)
    requires var e := records[|records| - 1].incarnation; e.Some? && e.value !in s.seen
    ensures var e := records[|records| - 1].incarnation;
            Begins(records, |records| - 1, e.value) && Knows(records, Scan(s.seen + {e.value}, e, accepted))
  {
    var n := |records| - 1;
    var init, own := records[..n], records[n].incarnation.value;
    MarksInPrefix(records, n);
    assert Marks(records, n, own);
    forall k: nat | k < n ensures !Marks(records, k, own) {
      assert Marks(records, k, own) ==> Marks(init, k, own);
    }
    forall e ensures e in s.seen + {own} <==> exists i: nat :: Marks(records, i, e) {
      if i: nat :| Marks(records, i, e) {
        if i < n {
          assert Marks(init, i, e);
        }
      }
      if e in s.seen {
        var i: nat :| Marks(init, i, e);
        assert Marks(records, i, e);
      }
    }
  }

  lemma {:induction false} ScanKnows<T>(records: seq<Entry<T>>)
    ensures Knows(records, Scanned(records))
  {
    if records != [] {
      var n := |records| - 1;
      var s, e := Scanned(records[..n]), records[n];
      ScanKnows(records[..n]);
      CurrentIsSeen(records[..n]);
      if e.incarnation.None? || e.incarnation.value in s.seen {
        KnowsWithoutBeginning(records, s);
        var t := Scanned(records);
        assert t.seen == s.seen && t.current == s.current;
        assert Knows(records, t);
      } else {
        KnowsTheBeginning(records, s, s.accepted + [e]);
      }
    }
  }

  // Whether record `i` is accepted when it arrives.
  predicate Kept<T>(records: seq<Entry<T>>, i: nat)
    requires i < |records|
  {
    Takes(Scanned(records[..i]), records[i])
  }

  /** A record is dropped exactly when it is marked and another execution had begun since its own did. */
  lemma DropsExactlyTheSuperseded<T>(records: seq<Entry<T>>, i: nat)
    requires i < |records|
    ensures Kept(records, i) <==> records[i].incarnation.None? || !Superseded(records, i)
  {
    if records[i].incarnation.Some? {
      var init := records[..i];
      var s, e := Scanned(init), records[i].incarnation.value;
      ScanKnows(init);
      MarksInPrefix(records, i);
      assert Marks(records, i, e);
      if e !in s.seen {
        forall own: nat, other: nat, f: Incarnation | Begins(records, own, e) && Begins(records, other, f)
        && own < other
          ensures i <= other
        {
          assert own < i ==> Marks(init, own, e);
        }
      } else {
        var k: nat :| Marks(init, k, e);
        var own := FirstRecord(init, k, e);
        var last: nat :| Begins(init, last, s.current.value) && forall j: nat, f :: Begins(init, j, f) ==> j <= last;
        if s.current == Some(e) {
          assert own == last && Begins(records, own, e);
          forall other: nat, f: Incarnation | Begins(records, other, f) && other < i
            ensures other <= own
          {
            assert Begins(init, other, f);
          }
        } else {
          assert own < last;
          assert Begins(records, own, e) && Begins(records, last, s.current.value);
        }
      }
    }
  }

  // ----- What keeping them this way gives -----

  /** Later records never change what was accepted before. */
  lemma {:induction false} PrefixStable<T>(records: seq<Entry<T>>, more: seq<Entry<T>>)
    ensures Current(records) <= Current(records + more)
    decreases |more|
  {
    if more == [] {
      assert records + more == records;
    } else {
      PrefixStable(records, more[..|more| - 1]);
      assert (records + more)[..|records + more| - 1] == records + more[..|more| - 1];
    }
  }

  /** Nothing accepted is dropped by a second pass. */
  lemma {:induction false} Idempotent<T>(records: seq<Entry<T>>)
    ensures Scanned(Current(records)) == Scanned(records) && Current(Current(records)) == Current(records)
  {
    if records != [] {
      var init, e := records[..|records| - 1], records[|records| - 1];
      Idempotent(init);
      if Takes(Scanned(init), e) {
        assert (Current(init) + [e])[..|Current(init)|] == Current(init);
      }
    }
  }

  ghost predicate Contiguous<T>(records: seq<Entry<T>>) {
    forall i, j, k ::
      (0 <= i < j < k < |records| && records[i].incarnation.Some?
       && records[i].incarnation == records[k].incarnation) ==>
      records[j].incarnation.None? || records[j].incarnation == records[i].incarnation
  }

  // Once the current execution has written, nothing else marked follows.
  ghost predicate EndsWith<T>(records: seq<Entry<T>>, current: Option<Incarnation>) {
    forall i, j :: 0 <= i < j < |records| && records[i].incarnation.Some? && records[i].incarnation == current ==>
      records[j].incarnation.None? || records[j].incarnation == current
  }

  /** Among marked accepted records, each execution's are contiguous. */
  lemma {:induction false} ExecutionsAreContiguous<T>(records: seq<Entry<T>>)
    ensures Contiguous(Current(records)) && EndsWith(Current(records), Scanned(records).current)
    ensures forall i :: 0 <= i < |Current(records)| && Current(records)[i].incarnation.Some? ==>
              Current(records)[i].incarnation.value in Scanned(records).seen
  {
    if records != [] {
      ExecutionsAreContiguous(records[..|records| - 1]);
    }
  }

  // ----- Execution intervals -----

  // From `since` on, the agent was controlled by this execution, or by none.
  datatype Interval = Interval(incarnation: Option<Incarnation>, since: int)

  predicate InOrder(intervals: seq<Interval>) {
    forall i, j :: 0 <= i < j < |intervals| ==> intervals[i].since <= intervals[j].since
  }

  /** The list stays in time order, and a tie goes after every interval already there. */
  method InsertExecutionInterval(intervals: seq<Interval>, interval: Interval) returns (result: seq<Interval>)
    requires InOrder(intervals)
    ensures InOrder(result)
    ensures exists at: nat :: at <= |intervals| && result == intervals[..at] + [interval] + intervals[at..]
              && (forall i :: 0 <= i < at ==> intervals[i].since <= interval.since)
              && (forall i :: at <= i < |intervals| ==> interval.since < intervals[i].since)
  {
    var index := 0;
    while index < |intervals| && intervals[index].since <= interval.since
      invariant 0 <= index <= |intervals|
      invariant forall i :: 0 <= i < index ==> intervals[i].since <= interval.since
    {
      index := index + 1;
    }
    result := intervals[..index] + [interval] + intervals[index..];
    assert index <= |intervals|;
  }
}
