/**
 One agent's ledger sources, read incrementally (apps/runtime/src/harnesses/observer.service.ts:
 `appendLedgerRecord`, `readLedgerSource`, `tailLedgerSource`, `inspectSources`, and the ledger half of
 `refreshAgent` and `rebuildBaseline`).
 */
module LedgerObserver {
  import opened Optional
  import opened ByteStrings
  import opened JsonlTail

  type Path = nat
  type SessionId = nat

  // What one parsed line says; `content` stands for the observed event.
  datatype Record = Record(agent: nat, session: SessionId, content: Bytes)

  datatype Observed = Observed(seqNo: nat, record: Record)

  datatype Cursor = Cursor(identity: nat, offset: nat, trailing: Bytes)

  // A source as a poll finds it. A path absent from the disk is missing.
  datatype Source = Unreadable | Readable(identity: nat, bytes: Bytes)

  type Disk = map<Path, Source>

  type Parser = Bytes -> Option<Record>

  // ----- A full parse -----

  function Pick(parse: Parser, agent: nat, session: SessionId, line: Bytes): seq<Record> {
    var r := parse(line);
    if r.Some? && r.value.agent == agent && r.value.session == session then [r.value] else []
  }

  // One session's records among some lines, in order.
  function Select(parse: Parser, agent: nat, session: SessionId, lines: seq<Bytes>): seq<Record> {
    if lines == [] then []
    else Select(parse, agent, session, lines[..|lines| - 1]) + Pick(parse, agent, session, lines[|lines| - 1])
  }

  /** The records of a session are the parsed lines that name it and its agent, and no other. */
  lemma {:induction false} SelectsExactly(parse: Parser, agent: nat, session: SessionId, lines: seq<Bytes>, r: Record)
    ensures r in Select(parse, agent, session, lines) <==>
              r.agent == agent && r.session == session && exists line :: line in lines && parse(line) == Some(r)
  {
    if lines != [] {
      var init, last := lines[..|lines| - 1], lines[|lines| - 1];
      SelectsExactly(parse, agent, session, init, r);
      assert lines == init + [last];
      assert last in lines;
    }
  }

  lemma {:induction false} SelectConcat(parse: Parser, agent: nat, session: SessionId, a: seq<Bytes>, b: seq<Bytes>)
    ensures Select(parse, agent, session, a + b) == Select(parse, agent, session, a) + Select(parse, agent, session, b)
    decreases |b|
  {
    if b == [] {
      assert a + b == a;
    } else {
      SelectConcat(parse, agent, session, a, b[..|b| - 1]);
      assert (a + b)[..|a + b| - 1] == a + b[..|b| - 1];
    }
  }

  // More records, numbered on from those already held.
  function Extended(records: seq<Observed>, more: seq<Record>): (r: seq<Observed>)
    ensures |r| == |records| + |more|
  {
    if more == [] then records
    else
      var init := Extended(records, more[..|more| - 1]);
      init + [Observed(|init|, more[|more| - 1])]
  }

  lemma {:induction false} ExtendedTwice(records: seq<Observed>, a: seq<Record>, b: seq<Record>)
    ensures Extended(Extended(records, a), b) == Extended(records, a + b)
    decreases |b|
  {
    if b == [] {
      assert a + b == a;
    } else {
      ExtendedTwice(records, a, b[..|b| - 1]);
      assert (a + b)[..|a + b| - 1] == a + b[..|b| - 1];
    }
  }

  function Number(records: seq<Record>): seq<Observed> {
    Extended([], records)
  }

  /** Numbered in order, from 0. */
  lemma {:induction false} NumberedFromZero(records: seq<Record>, i: nat)
    requires i < |records|
    ensures Number(records)[i] == Observed(i, records[i])
    decreases |records|
  {
    if i < |records| - 1 {
      NumberedFromZero(records[..|records| - 1], i);
    }
  }

  // What a fresh, complete read of a session's file yields.
  function FullParse(parse: Parser, agent: nat, session: SessionId, bytes: Bytes): seq<Observed> {
    Number(Select(parse, agent, session, Lines(bytes)))
  }

  predicate Silent(parse: Parser, agent: nat, session: SessionId, bytes: Bytes) {
    Select(parse, agent, session, Lines(bytes)) == []
  }

  // The session's records come from one path alone.
  ghost predicate Sole(parse: Parser, agent: nat, session: SessionId, contents: map<Path, Bytes>, path: Path) {
    path in contents && forall q :: q in contents && q != path ==> Silent(parse, agent, session, contents[q])
  }

  ghost predicate Unseen(parse: Parser, agent: nat, session: SessionId, contents: map<Path, Bytes>) {
    forall q :: q in contents ==> Silent(parse, agent, session, contents[q])
  }

  // What the in-memory records of a session must be, given what has been consumed of each path.
  ghost predicate Explained(parse: Parser, agent: nat, session: SessionId, contents: map<Path, Bytes>,
                            records: seq<Observed>) {
    && (Unseen(parse, agent, session, contents) ==> records == [])
    && (forall path :: Sole(parse, agent, session, contents, path) ==>
          records == FullParse(parse, agent, session, contents[path]))
  }

  lemma GrowsByALine(parse: Parser, agent: nat, session: SessionId, before: Bytes, more: Bytes)
    ensures Select(parse, agent, session, Lines(before + more)) ==
            Select(parse, agent, session, Lines(before)) + Select(parse, agent, session, Lines(Trailing(before) + more))
  {
    SplitAcrossReads(before, more);
    SelectConcat(parse, agent, session, Lines(before), Lines(Trailing(before) + more));
  }

  function Contents(contents: map<Path, Bytes>, path: Path): Bytes {
    if path in contents then contents[path] else []
  }

  lemma SilentBefore(parse: Parser, agent: nat, session: SessionId, before: Bytes, more: Bytes)
    ensures Silent(parse, agent, session, before + more) <==>
            Silent(parse, agent, session, before) && Select(parse, agent, session, Lines(Trailing(before) + more)) == []
  {
    GrowsByALine(parse, agent, session, before, more);
  }

  // A session unseen after consuming more of one path was unseen before, and the new lines hold none of it.
  lemma UnseenAfter(parse: Parser, agent: nat, session: SessionId, contents: map<Path, Bytes>, path: Path, more: Bytes)
    requires Unseen(parse, agent, session, contents[path := Contents(contents, path) + more])
    ensures Unseen(parse, agent, session, contents)
    ensures Select(parse, agent, session, Lines(Trailing(Contents(contents, path)) + more)) == []
  {
    var after := contents[path := Contents(contents, path) + more];
    SilentBefore(parse, agent, session, Contents(contents, path), more);
    assert Silent(parse, agent, session, after[path]);
    forall q | q in contents ensures Silent(parse, agent, session, contents[q]) {
      assert Silent(parse, agent, session, after[q]);
    }
  }

  /** Consuming more of one path keeps every session's records explained. */
  lemma ConsumingExplains(parse: Parser, agent: nat, session: SessionId, contents: map<Path, Bytes>,
                          records: seq<Observed>, path: Path, more: Bytes)
    requires Explained(parse, agent, session, contents, records)
    ensures var before := Contents(contents, path);
            var added := Select(parse, agent, session, Lines(Trailing(before) + more));
            Explained(parse, agent, session, contents[path := before + more], Extended(records, added))
  {
    var before := Contents(contents, path);
    var after := contents[path := before + more];
    var added := Select(parse, agent, session, Lines(Trailing(before) + more));
    if Unseen(parse, agent, session, after) {
      UnseenAfter(parse, agent, session, contents, path, more);
    }
    forall p | Sole(parse, agent, session, after, p)
      ensures Extended(records, added) == FullParse(parse, agent, session, after[p])
    {
      SoleAfter(parse, agent, session, contents, records, path, more, p);
    }
  }

  lemma SoleAfter(parse: Parser, agent: nat, session: SessionId, contents: map<Path, Bytes>,
                  records: seq<Observed>, path: Path, more: Bytes, p: Path)
    requires Explained(parse, agent, session, contents, records)
    requires Sole(parse, agent, session, contents[path := Contents(contents, path) + more], p)
    ensures var before := Contents(contents, path);
            Extended(records, Select(parse, agent, session, Lines(Trailing(before) + more))) ==
            FullParse(parse, agent, session, contents[path := before + more][p])
  {
    var before := Contents(contents, path);
    var after := contents[path := before + more];
    GrowsByALine(parse, agent, session, before, more);
    SilentBefore(parse, agent, session, before, more);
    assert forall q :: q in contents && q != p && q != path ==> after[q] == contents[q];
    if p != path {
      assert Silent(parse, agent, session, after[path]);
      assert Sole(parse, agent, session, contents, p);
    } else {
      ExtendedTwice([], Select(parse, agent, session, Lines(before)),
                    Select(parse, agent, session, Lines(Trailing(before) + more)));
      if path in contents {
        assert Sole(parse, agent, session, contents, path);
      } else {
        assert Unseen(parse, agent, session, contents);
      }
    }
  }

  // ----- The observer -----

  predicate Replaced(cursor: Cursor, source: Source) {
    source.Readable? && (source.identity != cursor.identity || |source.bytes| < cursor.offset)
  }

  // Inspecting the cursors in their order: the first unreadable source ends the inspection with no finding.
  function Inspected(order: seq<Path>, cursors: map<Path, Cursor>, disk: Disk, missing: bool): bool
    requires forall p :: p in order ==> p in cursors
  {
    if order == [] then missing
    else if order[0] !in disk then Inspected(order[1..], cursors, disk, true)
    else if disk[order[0]].Unreadable? then false
    else if Replaced(cursors[order[0]], disk[order[0]]) then true
    else Inspected(order[1..], cursors, disk, missing)
  }

  // Some source read before is gone or was replaced.
  ghost predicate NeedsRebase(order: seq<Path>, cursors: map<Path, Cursor>, disk: Disk) {
    exists p :: p in order && p in cursors && (p !in disk || Replaced(cursors[p], disk[p]))
  }

  /** With every source readable or gone, the inspection finds exactly what calls for a rebase. */
  lemma {:induction false} InspectionIsComplete(order: seq<Path>, cursors: map<Path, Cursor>, disk: Disk, missing: bool)
    requires forall p :: p in order ==> p in cursors && (p in disk ==> disk[p].Readable?)
    ensures Inspected(order, cursors, disk, missing) <==> missing || NeedsRebase(order, cursors, disk)
  {
    if order != [] {
      assert order == [order[0]] + order[1..];
      InspectionIsComplete(order[1..], cursors, disk, missing || order[0] !in disk);
    }
  }

  lemma {:induction false} InspectionStopsAtUnreadable(order: seq<Path>, cursors: map<Path, Cursor>, disk: Disk,
                                                       missing: bool, i: nat)
    requires (forall p :: p in order ==> p in cursors) && i < |order| && order[i] in disk && disk[order[i]].Unreadable?
    requires forall k :: 0 <= k < i && order[k] in disk ==>
               disk[order[k]].Readable? && !Replaced(cursors[order[k]], disk[order[k]])
    ensures !Inspected(order, cursors, disk, missing)
  {
    if i > 0 {
      InspectionStopsAtUnreadable(order[1..], cursors, disk, missing || order[0] !in disk, i - 1);
    }
  }

  // The cursor stands where the consumed bytes end, unless a truncation went unnoticed.
  ghost predicate AlignedAt(consumed: map<Path, Bytes>, cursors: map<Path, Cursor>, p: Path) {
    p in cursors && p in consumed && cursors[p].offset == |consumed[p]|
  }

  // Each source that has been read is still there and, if readable, holds at its head what was read of it
  // up to its cursor.
  ghost predicate Extends(consumed: map<Path, Bytes>, cursors: map<Path, Cursor>, disk: Disk) {
    forall p :: p in consumed ==>
      p in disk && (disk[p].Readable? ==> AlignedAt(consumed, cursors, p) && consumed[p] <= disk[p].bytes)
  }

  class Observer {
    const agent: nat
    const parse: Parser
    var cursors: map<Path, Cursor>
    // The cursors' paths in insertion order.
    var order: seq<Path>
    var records: map<SessionId, seq<Observed>>
    var nextSeq: map<SessionId, nat>

    // Every byte consumed so far, by path.
    ghost var consumed: map<Path, Bytes>

    constructor (agent: nat, parse: Parser)
      ensures this.agent == agent && this.parse == parse && Valid() && consumed == map[]
    {
      this.agent, this.parse := agent, parse;
      cursors, order, records, nextSeq, consumed := map[], [], map[], map[], map[];
    }

    function RecordsOf(session: SessionId): seq<Observed>
      reads `records
    {
      if session in records then records[session] else []
    }

    ghost predicate Valid()
      reads this
    {
      && cursors.Keys == consumed.Keys && (forall p :: p in order <==> p in cursors)
      && (forall p :: p in cursors ==> cursors[p].trailing == Trailing(consumed[p]))
      && (forall p :: p in cursors ==> cursors[p].offset <= |consumed[p]|)
      && Counted() && Told()
    }

    ghost predicate Counted()
      reads `records, `nextSeq
    {
      nextSeq.Keys == records.Keys && forall s :: s in records ==> nextSeq[s] == |records[s]|
    }

    ghost predicate Told()
      reads `records, `consumed
    {
      forall s: SessionId :: Explained(parse, agent, s, consumed, RecordsOf(s))
    }

    ghost predicate Aligned(p: Path)
      reads this
    {
      AlignedAt(consumed, cursors, p)
    }

    // Everything readable has been read, exactly, and nothing is remembered of a path that is gone.
    ghost predicate Synced(disk: Disk)
      reads this
    {
      && (forall p :: p in disk && disk[p].Readable? ==> p in consumed && consumed[p] == disk[p].bytes)
      && (forall p :: p in consumed ==> p in disk)
    }

    // Synced, and every cursor describes the source as it stands.
    ghost predicate InStep(disk: Disk)
      reads this
    {
      && Synced(disk)
      && forall p :: p in disk && disk[p].Readable? ==>
           p in cursors && cursors[p].identity == disk[p].identity && cursors[p].offset == |disk[p].bytes|
    }

    ghost predicate Extending(disk: Disk)
      reads this
    {
      Extends(consumed, cursors, disk)
    }

    /** When each session is written to one file, every session's records are a fresh, complete parse of
        that file, numbered from 0, however many reads it took. */
    lemma RecordsAreAFullParse(disk: Disk, session: SessionId, path: Path)
      requires Valid() && Synced(disk) && path in disk && disk[path].Readable?
      requires Sole(parse, agent, session, consumed, path)
      ensures RecordsOf(session) == FullParse(parse, agent, session, disk[path].bytes)
    {
      assert Explained(parse, agent, session, consumed, RecordsOf(session));
    }

    // Between polls each source is appended to, replaced under a new identity, truncated below what was
    // read of it, or removed.
    ghost predicate WellBehaved(disk: Disk)
      reads this
    {
      forall p :: p in cursors && p in consumed && p in disk && disk[p].Readable? && !Replaced(cursors[p], disk[p]) ==>
        consumed[p] <= disk[p].bytes
    }

    /** A poll over well-behaved sources, none of them unreadable, is one that ends in step with the disk. */
    lemma WellBehavedSourcesAreFollowed(disk: Disk)
      requires Valid() && WellBehaved(disk) && forall p :: p in cursors && p in disk ==> disk[p].Readable?
      requires forall p :: p in cursors ==> Aligned(p)
      ensures Inspected(order, cursors, disk, false) || Extending(disk)
    {
      InspectionIsComplete(order, cursors, disk, false);
    }

    /** The condition a poll needs does fail: a source that cannot be read, met before the one that was
        removed or rewritten, hides it, and the poll goes on from the old file's records. */
    lemma UnreadableSourceHidesTheRest(disk: Disk, i: nat, hidden: Path)
      requires Valid() && i < |order| && order[i] in disk && disk[order[i]].Unreadable?
      requires forall k :: 0 <= k < i && order[k] in disk ==>
                 disk[order[k]].Readable? && !Replaced(cursors[order[k]], disk[order[k]])
      requires hidden in consumed
               && (hidden in disk ==> disk[hidden].Readable? && !(consumed[hidden] <= disk[hidden].bytes))
      ensures !(Inspected(order, cursors, disk, false) || Extending(disk))
    {
      InspectionStopsAtUnreadable(order, cursors, disk, false, i);
    }

    method AppendLedgerRecord(record: Record)
      requires Counted()
      modifies this`records, this`nextSeq
      ensures Counted()
      ensures forall s :: RecordsOf(s) ==
                Extended(old(RecordsOf(s)), if record.agent == agent && record.session == s then [record] else [])
    {
      if record.agent != agent {
        return;
      }
      var s := record.session;
      var sofar := if s in records then records[s] else [];
      var next := if s in nextSeq then nextSeq[s] else 0;
      records := records[s := sofar + [Observed(next, record)]];
      nextSeq := nextSeq[s := next + 1];
    }

    // Lines that do not parse are counted and ignored.
    method AppendLines(lines: seq<Bytes>) returns (ignored: nat)
      requires Counted()
      modifies this`records, this`nextSeq
      ensures Counted()
      ensures forall s :: RecordsOf(s) == Extended(old(RecordsOf(s)), Select(parse, agent, s, lines))
    {
      ignored := 0;
      for i := 0 to |lines|
        invariant Counted()
        invariant forall s :: RecordsOf(s) == Extended(old(RecordsOf(s)), Select(parse, agent, s, lines[..i]))
      {
        assert lines[..i + 1][..i] == lines[..i];
        label Before:
        var parsed := AppendLine(lines[i]);
        if !parsed {
          ignored := ignored + 1;
        }
        forall s
          ensures RecordsOf(s) == Extended(old(RecordsOf(s)), Select(parse, agent, s, lines[..i + 1]))
        {
          assert RecordsOf(s) == Extended(old@Before(RecordsOf(s)), Pick(parse, agent, s, lines[i]));
          ExtendedTwice(old(RecordsOf(s)), Select(parse, agent, s, lines[..i]), Pick(parse, agent, s, lines[i]));
        }
      }
      assert lines[..|lines|] == lines;
    }

    method AppendLine(line: Bytes) returns (parsed: bool)
      requires Counted()
      modifies this`records, this`nextSeq
      ensures Counted() && parsed == parse(line).Some?
      ensures forall s :: RecordsOf(s) == Extended(old(RecordsOf(s)), Pick(parse, agent, s, line))
    {
      var record := parse(line);
      parsed := record.Some?;
      if parsed {
        AppendLedgerRecord(record.value);
      }
    }

    // Consume `appended`, which follows what the cursor last left over.
    method Consume(path: Path, identity: nat, size: nat, trailing: Bytes, appended: Bytes)
      requires Valid() && trailing == Trailing(Contents(consumed, path))
               && size <= |Contents(consumed, path)| + |appended|
      modifies this
      ensures Valid() && consumed == old(consumed)[path := Contents(old(consumed), path) + appended]
      ensures cursors == old(cursors)[path := Cursor(identity, size, Trailing(consumed[path]))]
      ensures order == if path in old(cursors) then old(order) else old(order) + [path]
    {
      ghost var before := Contents(consumed, path);
      SplitAcrossReads(before, appended);
      var lines, rest := SplitCompleteJsonlLines(trailing + appended);
      AbsorbLines(path, lines, appended);
      if path !in cursors {
        order := order + [path];
      }
      cursors := cursors[path := Cursor(identity, size, rest)];
    }

    // The records of the new lines join those already held.
    method AbsorbLines(path: Path, lines: seq<Bytes>, ghost appended: Bytes)
      requires Counted() && Told() && lines == Lines(Trailing(Contents(consumed, path)) + appended)
      modifies this`records, this`nextSeq, this`consumed
      ensures Counted() && Told() && consumed == old(consumed)[path := Contents(old(consumed), path) + appended]
    {
      var _ := AppendLines(lines);
      forall s: SessionId
        ensures Explained(parse, agent, s, consumed[path := Contents(consumed, path) + appended], RecordsOf(s))
      {
        ConsumingExplains(parse, agent, s, consumed, old(RecordsOf(s)), path, appended);
      }
      consumed := consumed[path := Contents(consumed, path) + appended];
    }

    method ReadLedgerSource(path: Path, identity: nat, bytes: Bytes)
      requires Valid() && path !in cursors
      modifies this
      ensures Valid() && consumed == old(consumed)[path := bytes] && order == old(order) + [path]
      ensures cursors == old(cursors)[path := Cursor(identity, |bytes|, Trailing(bytes))]
    {
      assert [] + bytes == bytes;
      Consume(path, identity, |bytes|, [], bytes);
    }

    method TailLedgerSource(path: Path, identity: nat, bytes: Bytes) returns (changed: bool)
      requires Valid() && path in cursors
      modifies this
      ensures Valid() && order == old(order)
      ensures var offset := old(cursors[path].offset);
              && consumed == old(consumed)[path := old(consumed[path]) + From(offset, bytes)]
              && cursors == old(cursors)[path := if offset == |bytes| then old(cursors[path])
                                                 else Cursor(identity, |bytes|, Trailing(consumed[path]))]
              && changed == (offset < |bytes|)
    {
      var cursor := cursors[path];
      if |bytes| == cursor.offset {
        assert consumed[path] + [] == consumed[path] && consumed == consumed[path := consumed[path]];
        return false;
      }
      var appended := if cursor.offset < |bytes| then bytes[cursor.offset..] else [];
      Consume(path, identity, |bytes|, cursor.trailing, appended);
      return |appended| > 0;
    }

    method InspectSources(disk: Disk) returns (rebased: bool)
      requires Valid()
      ensures rebased == Inspected(order, cursors, disk, false)
    {
      var missing := false;
      assert order[0..] == order;
      for i := 0 to |order|
        invariant Inspected(order, cursors, disk, false) == Inspected(order[i..], cursors, disk, missing)
      {
        assert order[i..][1..] == order[i + 1..];
        if order[i] !in disk {
          missing := true;
        } else {
          match disk[order[i]] {
            case Unreadable => return false;
            case Readable(identity, bytes) =>
              if identity != cursors[order[i]].identity || |bytes| < cursors[order[i]].offset {
                return true;
              }
          }
        }
      }
      return missing;
    }

    // Exactly the readable sources among these paths have been read, each in full.
    ghost predicate HasRead(disk: Disk, done: seq<Path>)
      reads this
    {
      && (forall p :: p in cursors ==> Aligned(p) && p in disk && cursors[p].identity == Identity(disk[p]))
      && (forall p :: p in consumed <==> p in done && p in disk && disk[p].Readable?)
      && (forall p :: p in consumed && p in disk && disk[p].Readable? ==> consumed[p] == disk[p].bytes)
    }

    method RebuildBaseline(disk: Disk, paths: seq<Path>)
      requires Lists(paths, disk)
      modifies this
      ensures Valid() && InStep(disk) && (forall p :: p in cursors ==> Aligned(p))
      ensures forall p :: p in consumed ==> p in disk && disk[p].Readable?
      ensures AllReadable(disk) ==> order == paths
    {
      cursors, order, records, nextSeq, consumed := map[], [], map[], map[], map[];
      for i := 0 to |paths|
        invariant Valid() && HasRead(disk, paths[..i])
        invariant AllReadable(disk) ==> order == paths[..i]
      {
        assert paths[..i + 1] == paths[..i] + [paths[i]];
        assert paths[i] !in paths[..i];
        ReadNext(disk, paths[..i], paths[i]);
      }
      assert paths[..|paths|] == paths;
    }

    method ReadNext(disk: Disk, ghost done: seq<Path>, path: Path)
      requires Valid() && HasRead(disk, done) && path in disk && path !in done
      modifies this
      ensures Valid() && HasRead(disk, done + [path])
      ensures order == if disk[path].Readable? then old(order) + [path] else old(order)
    {
      if disk[path].Readable? {
        ReadLedgerSource(path, disk[path].identity, disk[path].bytes);
      }
    }

    /** One poll, from any state an earlier one may have left. It ends in step with the disk exactly when the
        inspection found something to rebase on, or when every source that was read still holds what was
        read of it: an inspection that meets an unreadable source first overlooks the others. A cursor that
        has fallen behind stays behind until the next rebase. */
    method RefreshLedger(disk: Disk, paths: seq<Path>)
      requires Valid() && Lists(paths, disk)
      modifies this
      ensures Valid()
      ensures Synced(disk) <==> old(Inspected(order, cursors, disk, false) || Extending(disk))
      ensures old(Inspected(order, cursors, disk, false)) ==> InStep(disk)
      ensures old(!Inspected(order, cursors, disk, false)) ==>
                && Tailed(old(consumed), old(cursors), disk)
                && forall p :: p in old(consumed) && old(!Aligned(p)) ==> !Aligned(p)
    {
      var rebased := InspectSources(disk);
      if rebased {
        RebuildBaseline(disk, paths);
        return;
      }
      TailSources(disk, paths);
      TailingFollowsGrowth(old(consumed), old(cursors), disk);
    }

    // Reading on from the cursors ends in step exactly when there was only growth to read.
    lemma TailingFollowsGrowth(was: map<Path, Bytes>, cursorsWere: map<Path, Cursor>, disk: Disk)
      requires Valid() && Tailed(was, cursorsWere, disk) && was.Keys == cursorsWere.Keys
      requires forall p :: p in was ==> cursorsWere[p].offset <= |was[p]|
      ensures Synced(disk) <==> Extends(was, cursorsWere, disk)
      ensures forall p :: p in was && !AlignedAt(was, cursorsWere, p) ==> !Aligned(p)
    {
      forall p | p in was
        ensures !AlignedAt(was, cursorsWere, p) ==> !Aligned(p)
        ensures p in disk && disk[p].Readable? ==>
                  (consumed[p] == disk[p].bytes <==> AlignedAt(was, cursorsWere, p) && was[p] <= disk[p].bytes)
      {
        if p in disk && disk[p].Readable? {
          TailRestores(was[p], cursorsWere[p].offset, disk[p].bytes);
        }
      }
    }

    // Every readable source was read on from its cursor, or from its start, and no other was touched.
    ghost predicate Tailed(was: map<Path, Bytes>, cursorsWere: map<Path, Cursor>, disk: Disk)
      reads this
    {
      && was.Keys <= consumed.Keys
      && (forall p :: p in consumed ==> p in was || (p in disk && disk[p].Readable?))
      && (forall p :: p in disk && disk[p].Readable? ==> Caught(was, cursorsWere, disk[p].identity, disk[p].bytes, p))
      && (forall p :: p in was && !(p in disk && disk[p].Readable?) ==> Untouched(was, cursorsWere, p))
    }

    ghost predicate Untouched(was: map<Path, Bytes>, cursorsWere: map<Path, Cursor>, p: Path)
      reads this
    {
      && p in consumed && p in was && consumed[p] == was[p]
      && p in cursors && p in cursorsWere && cursors[p] == cursorsWere[p]
    }

    ghost predicate Caught(was: map<Path, Bytes>, cursorsWere: map<Path, Cursor>, identity: nat, bytes: Bytes, p: Path)
      reads this
    {
      && p in consumed && p in cursors && consumed[p] == Polled(was, cursorsWere, p, bytes)
      && cursors[p].offset == |bytes|
      && (cursors[p].identity == identity
          || (p in cursorsWere && cursorsWere[p].offset == |bytes| && cursors[p] == cursorsWere[p]))
    }

    // Read what is new of every readable source.
    method TailSources(disk: Disk, paths: seq<Path>)
      requires Valid() && Lists(paths, disk)
      modifies this
      ensures Valid() && Tailed(old(consumed), old(cursors), disk)
    {
      for i := 0 to |paths|
        invariant Valid() && old(consumed).Keys <= consumed.Keys
        invariant forall p :: p in consumed ==> p in old(consumed) || (p in paths[..i] && disk[p].Readable?)
        invariant forall p :: p in paths[..i] && disk[p].Readable? ==>
                    Caught(old(consumed), old(cursors), disk[p].identity, disk[p].bytes, p)
        invariant forall p :: p in old(consumed) && !(p in paths[..i] && disk[p].Readable?) ==>
                    Untouched(old(consumed), old(cursors), p)
      {
        assert paths[..i + 1] == paths[..i] + [paths[i]];
        var path := paths[i];
        assert path !in paths[..i];
        if disk[path].Readable? {
          CatchUp(path, disk[path].identity, disk[path].bytes, old(consumed), old(cursors));
        }
      }
      assert paths[..|paths|] == paths;
    }

    method CatchUp(path: Path, identity: nat, bytes: Bytes, ghost was: map<Path, Bytes>,
                   ghost cursorsWere: map<Path, Cursor>)
      requires Valid() && was.Keys == cursorsWere.Keys
      requires if path in was then Untouched(was, cursorsWere, path) else path !in consumed
      modifies this
      ensures Valid() && Caught(was, cursorsWere, identity, bytes, path) && consumed.Keys == old(consumed).Keys + {path}
      ensures forall p :: p in old(consumed) && p != path ==>
                consumed[p] == old(consumed)[p] && cursors[p] == old(cursors)[p]
    {
      if path !in cursors {
        ReadLedgerSource(path, identity, bytes);
      } else {
        var _ := TailLedgerSource(path, identity, bytes);
      }
    }

    ghost predicate FullyParsed(disk: Disk)
      reads this
    {
      forall session, path :: WrittenTo(parse, agent, session, disk, path) ==>
        RecordsOf(session) == FullParse(parse, agent, session, disk[path].bytes)
    }

    /** Any number of polls: while every source is only appended to, replaced under a new identity, truncated
        below what it held, removed or added, and none is unreadable, the observer ends in step with the last
        disk, and each session written to one file has exactly the records a fresh parse of it would give. */
    method FollowLedger(disks: seq<Disk>, listings: seq<seq<Path>>)
      requires |disks| == |listings| > 0
      requires forall i :: 0 <= i < |disks| ==> Lists(listings[i], disks[i]) && AllReadable(disks[i])
      requires forall i :: 0 <= i < |disks| - 1 ==> ChangesCleanly(disks[i], disks[i + 1])
      modifies this
      ensures Valid() && InStep(disks[|disks| - 1])
      ensures FullyParsed(disks[|disks| - 1])
    {
      RebuildBaseline(disks[0], listings[0]);
      for i := 1 to |disks|
        invariant Valid() && InStep(disks[i - 1])
      {
        assert ChangesCleanly(disks[i - 1], disks[i]);
        StepIsFollowed(disks[i - 1], disks[i]);
        RefreshLedger(disks[i], listings[i]);
      }
      var last := disks[|disks| - 1];
      forall session, path | WrittenTo(parse, agent, session, last, path)
        ensures RecordsOf(session) == FullParse(parse, agent, session, last[path].bytes)
      {
        RecordsAreAFullParse(last, session, path);
      }
    }

    // A poll that reads nothing new leaves what the last one left.
    lemma NothingNew(was: map<Path, Bytes>, cursorsWere: map<Path, Cursor>, before: Disk, disk: Disk)
      requires Valid() && Tailed(was, cursorsWere, disk) && was.Keys == cursorsWere.Keys == before.Keys == disk.Keys
      requires AllReadable(before) && forall p :: p in was ==> was[p] == before[p].bytes
      requires forall p :: p in disk && disk[p].Readable? ==> |disk[p].bytes| <= cursorsWere[p].offset
      ensures Synced(before) && FullyParsed(before)
    {
      assert forall p :: p in was ==> consumed[p] == was[p];
      forall session, path | WrittenTo(parse, agent, session, before, path)
        ensures RecordsOf(session) == FullParse(parse, agent, session, before[path].bytes)
      {
        RecordsAreAFullParse(before, session, path);
      }
    }

    // A poll that finds no reason to rebase, and no source longer than it was, keeps every record.
    method PollOverNothingNew(ghost before: Disk, disk: Disk, paths: seq<Path>)
      requires Valid() && InStep(before) && AllReadable(before) && Lists(paths, disk)
               && consumed.Keys == before.Keys == disk.Keys
      requires !Inspected(order, cursors, disk, false)
      requires forall p :: p in disk && disk[p].Readable? ==> |disk[p].bytes| <= |before[p].bytes|
      modifies this
      ensures Valid() && Synced(before) && FullyParsed(before)
    {
      RefreshLedger(disk, paths);
      NothingNew(old(consumed), old(cursors), before, disk);
    }

    // In step with one disk, the next poll finds something to rebase on or only growth.
    lemma StepIsFollowed(before: Disk, disk: Disk)
      requires Valid() && InStep(before) && AllReadable(before) && AllReadable(disk) && ChangesCleanly(before, disk)
      ensures Inspected(order, cursors, disk, false) || Extending(disk)
      ensures !Inspected(order, cursors, disk, false) ==>
                forall p :: p in cursors ==> p in disk && disk[p].Readable? && disk[p].identity == cursors[p].identity
    {
      InspectionIsComplete(order, cursors, disk, false);
    }
  }

  function Identity(source: Source): nat {
    if source.Readable? then source.identity else 0
  }

  ghost predicate Lists(paths: seq<Path>, disk: Disk) {
    && (forall p :: p in paths <==> p in disk)
    && forall i, j :: 0 <= i < j < |paths| ==> paths[i] != paths[j]
  }

  ghost predicate AllReadable(disk: Disk) {
    forall p :: p in disk ==> disk[p].Readable?
  }

  // What may happen to a source between two polls: appended to, replaced under a new identity, or
  // truncated below what it held. Sources may also come and go.
  ghost predicate ChangesCleanly(before: Disk, after: Disk)
    requires AllReadable(before) && AllReadable(after)
  {
    forall p :: p in before && p in after ==>
      || after[p].identity != before[p].identity
      || |after[p].bytes| < |before[p].bytes|
      || before[p].bytes <= after[p].bytes
  }

  // The session's records are all in one file.
  ghost predicate WrittenTo(parse: Parser, agent: nat, session: SessionId, disk: Disk, path: Path) {
    && path in disk && disk[path].Readable?
    && forall q :: q in disk && q != path && disk[q].Readable? ==> Silent(parse, agent, session, disk[q].bytes)
  }

  /** A run that fails: two sources are read, then the first cannot be read while the second is replaced by
      a file no longer than what was read of it. The poll keeps the old file's records. */
  method ReplacementIsMissed(agent: nat, parse: Parser, before: Disk, after: Disk) returns (observer: Observer)
    requires before.Keys == {0, 1} && AllReadable(before)
    requires after.Keys == {0, 1} && after[0].Unreadable? && after[1].Readable?
    requires before[1].identity != after[1].identity && |after[1].bytes| <= |before[1].bytes|
    ensures fresh(observer) && observer.parse == parse && observer.agent == agent
    ensures observer.FullyParsed(before)
  {
    observer := new Observer(agent, parse);
    observer.RebuildBaseline(before, [0, 1]);
    assert observer.order[0] == 0;
    InspectionStopsAtUnreadable(observer.order, observer.cursors, after, false, 0);
    observer.PollOverNothingNew(before, after, [0, 1]);
  }

  // Every line is a record of session 0.
  function EachLine(line: Bytes): Option<Record> {
    Some(Record(0, 0, line))
  }

  lemma OneLineFile(b: Byte)
    requires b != LF && b != CR
    ensures FullParse(EachLine, 0, 0, [b, LF]) == [Observed(0, Record(0, 0, [b]))]
  {
    assert [b, LF][..1] == [b] && [b][..0] == [] && [] + [b] == [b];
    assert Trailing([]) == [] && Lines([]) == [];
    assert Trailing([b]) == [b] && Lines([b]) == [];
    assert Lines([b, LF]) == [[b]];
    assert [[b]][..0] == [];
    assert Select(EachLine, 0, 0, []) == [];
    assert Select(EachLine, 0, 0, [[b]]) == [Record(0, 0, [b])];
    assert [Record(0, 0, [b])][..0] == [];
    assert Extended([], []) == [];
  }

  /** One line replaced by another, behind an unreadable source: the observer still reports the old one. */
  method StaleLineIsReported(was: Byte, now: Byte) returns (observer: Observer, disk: Disk)
    requires was != now && was != LF && was != CR && now != LF && now != CR
    ensures fresh(observer) && 1 in disk && disk[1].Readable? && WrittenTo(EachLine, 0, 0, disk, 1)
    ensures observer.RecordsOf(0) != FullParse(EachLine, 0, 0, disk[1].bytes)
  {
    var before: Disk := map[0 := Readable(10, []), 1 := Readable(11, [was, LF])];
    disk := map[0 := Unreadable, 1 := Readable(12, [now, LF])];
    observer := ReplacementIsMissed(0, EachLine, before, disk);
    assert WrittenTo(EachLine, 0, 0, before, 1);
    assert observer.RecordsOf(0) == FullParse(EachLine, 0, 0, [was, LF]);
    OneLineFile(was);
    OneLineFile(now);
  }

  // What has been consumed of a source after tailing it, as it stands now, from its cursor on.
  function Polled(was: map<Path, Bytes>, cursors: map<Path, Cursor>, p: Path, bytes: Bytes): Bytes {
    if p in was && p in cursors then was[p] + From(cursors[p].offset, bytes) else bytes
  }

  function From(offset: nat, bytes: Bytes): Bytes {
    if offset < |bytes| then bytes[offset..] else []
  }

  lemma TailRestores(was: Bytes, offset: nat, bytes: Bytes)
    requires offset <= |was|
    ensures was + From(offset, bytes) == bytes <==> offset == |was| && was <= bytes
    ensures offset < |was| ==> |bytes| < |was + From(offset, bytes)|
  {
    if offset == |was| && was <= bytes {
      assert bytes == was + bytes[|was|..];
    }
  }
}
