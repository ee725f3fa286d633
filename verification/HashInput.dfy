/**
 The byte stream a workflow's inputs are hashed as
 (packages/workflow-verifier/src/receipt.ts, `hashWorkflowInputs`).
 */
module HashInput {
  import opened Optional
  import opened Sorting
  import opened ByteStrings

  // A normalized path, as the bytes of its UTF-8 encoding, and the file's bytes.
  datatype Input = Input(path: Bytes, bytes: Bytes)

  // ----- Length prefixes -----

  function Limit(width: nat): nat {
    if width == 0 then 1 else 256 * Limit(width - 1)
  }

  function BigEndian(n: nat, width: nat): (b: Bytes)
    ensures |b| == width
  {
    if width == 0 then [] else BigEndian(n / 256, width - 1) + [n % 256]
  }

  function Value(b: Bytes): nat {
    if b == [] then 0 else 256 * Value(b[..|b| - 1]) + b[|b| - 1]
  }

  lemma {:induction false} ReadsBack(n: nat, width: nat)
    requires n < Limit(width)
    ensures Value(BigEndian(n, width)) == n
  {
    if width > 0 {
      ReadsBack(n / 256, width - 1);
      var b := BigEndian(n, width);
      assert b[..|b| - 1] == BigEndian(n / 256, width - 1);
    }
  }

  // Lengths are written as unsigned 64-bit integers.
  const MAX_LENGTH := 0x1_0000_0000_0000_0000

  predicate Fits(input: Input) {
    |input.path| < MAX_LENGTH && |input.bytes| < MAX_LENGTH
  }

  lemma LengthReadsBack(n: nat)
    requires n < MAX_LENGTH
    ensures Value(BigEndian(n, 8)) == n
  {
    assert Limit(4) == 0x1_0000_0000;
    assert Limit(8) == 256 * (256 * (256 * (256 * Limit(4))));
    ReadsBack(n, 8);
  }

  // ----- The stream -----

  function Prefix(input: Input): Bytes {
    BigEndian(|input.path|, 8) + BigEndian(|input.bytes|, 8)
  }

  function Stream(inputs: seq<Input>): Bytes {
    if inputs == [] then [] else Stream(inputs[..|inputs| - 1]) + Encoded(inputs[|inputs| - 1])
  }

  function Encoded(input: Input): Bytes {
    Prefix(input) + input.path + input.bytes
  }

  lemma {:induction false} StreamFromTheFront(inputs: seq<Input>)
    requires inputs != []
    ensures Stream(inputs) == Encoded(inputs[0]) + Stream(inputs[1..])
  {
    if |inputs| > 1 {
      var init := inputs[..|inputs| - 1];
      StreamFromTheFront(init);
      assert init[1..] == inputs[1..][..|inputs| - 2];
    }
  }

  lemma SamePrefix(a: Input, b: Input, restA: Bytes, restB: Bytes)
    requires Fits(a) && Fits(b) && Encoded(a) + restA == Encoded(b) + restB
    ensures |a.path| == |b.path| && |a.bytes| == |b.bytes|
  {
    var x, y := Encoded(a) + restA, Encoded(b) + restB;
    assert x[..8] == BigEndian(|a.path|, 8) && y[..8] == BigEndian(|b.path|, 8);
    assert x[8..16] == BigEndian(|a.bytes|, 8) && y[8..16] == BigEndian(|b.bytes|, 8);
    LengthReadsBack(|a.path|);
    LengthReadsBack(|b.path|);
    LengthReadsBack(|a.bytes|);
    LengthReadsBack(|b.bytes|);
  }

  lemma SameFirst(a: Input, b: Input, restA: Bytes, restB: Bytes)
    requires Fits(a) && Fits(b) && Encoded(a) + restA == Encoded(b) + restB
    ensures a == b && restA == restB
  {
    SamePrefix(a, b, restA, restB);
    var x, y := Encoded(a) + restA, Encoded(b) + restB;
    var p, n := |a.path|, |a.bytes|;
    assert x[16..16 + p] == a.path && y[16..16 + p] == b.path;
    assert x[16 + p..16 + p + n] == a.bytes && y[16 + p..16 + p + n] == b.bytes;
    assert x[16 + p + n..] == restA && y[16 + p + n..] == restB;
  }

  lemma SameHead(a: seq<Input>, b: seq<Input>)
    requires a != [] && b != [] && Fits(a[0]) && Fits(b[0]) && Stream(a) == Stream(b)
    ensures a[0] == b[0] && Stream(a[1..]) == Stream(b[1..])
  {
    StreamFromTheFront(a);
    StreamFromTheFront(b);
    SameFirst(a[0], b[0], Stream(a[1..]), Stream(b[1..]));
  }

  // Where an input's part of the stream begins: after two lengths, a path and the bytes of each one before.
  function Start(inputs: seq<Input>, i: nat): nat
    requires i <= |inputs|
  {
    if i == 0 then 0 else Start(inputs, i - 1) + 16 + |inputs[i - 1].path| + |inputs[i - 1].bytes|
  }

  lemma {:induction false} StartOfPrefix(inputs: seq<Input>, some: seq<Input>, i: nat)
    requires i <= |some| <= |inputs| && some == inputs[..|some|]
    ensures Start(some, i) == Start(inputs, i)
  {
    if i > 0 {
      StartOfPrefix(inputs, some, i - 1);
    }
  }

  // The stream holds, from `at` on, the input's two lengths, then its path, then its bytes.
  ghost predicate LaidOut(stream: Bytes, at: nat, input: Input) {
    var path := at + 16;
    var bytes := path + |input.path|;
    && bytes + |input.bytes| <= |stream|
    && Value(stream[at..at + 8]) == |input.path| && Value(stream[at + 8..at + 16]) == |input.bytes|
    && stream[path..bytes] == input.path && stream[bytes..bytes + |input.bytes|] == input.bytes
  }

  lemma {:induction false} StreamEndsAt(inputs: seq<Input>)
    ensures |Stream(inputs)| == Start(inputs, |inputs|)
  {
    if inputs != [] {
      var n := |inputs| - 1;
      StreamEndsAt(inputs[..n]);
      StartOfPrefix(inputs, inputs[..n], n);
    }
  }

  /** Each input stands in the stream as its two lengths, its path and its bytes, one input after the other. */
  lemma {:induction false} StreamIsLaidOut(inputs: seq<Input>, i: nat)
    requires AllFit(inputs) && i < |inputs|
    ensures LaidOut(Stream(inputs), Start(inputs, i), inputs[i])
    decreases |inputs|
  {
    var n := |inputs| - 1;
    var init := inputs[..n];
    if i < n {
      assert AllFit(init);
      StreamIsLaidOut(init, i);
      StartOfPrefix(inputs, init, i);
      StaysLaidOut(Stream(init), Encoded(inputs[n]), Start(inputs, i), inputs[i]);
    } else {
      StreamEndsAt(init);
      StartOfPrefix(inputs, init, n);
      EncodedIsLaidOut(Stream(init), inputs[n]);
    }
  }

  lemma StaysLaidOut(stream: Bytes, more: Bytes, at: nat, input: Input)
    requires LaidOut(stream, at, input)
    ensures LaidOut(stream + more, at, input)
  {
    var path, bytes := at + 16, at + 16 + |input.path|;
    assert (stream + more)[at..at + 8] == stream[at..at + 8];
    assert (stream + more)[at + 8..at + 16] == stream[at + 8..at + 16];
    assert (stream + more)[path..bytes] == stream[path..bytes];
    assert (stream + more)[bytes..bytes + |input.bytes|] == stream[bytes..bytes + |input.bytes|];
  }

  lemma EncodedIsLaidOut(stream: Bytes, input: Input)
    requires Fits(input)
    ensures LaidOut(stream + Encoded(input), |stream|, input)
  {
    var whole, at := stream + Encoded(input), |stream|;
    var path, bytes := at + 16, at + 16 + |input.path|;
    LengthReadsBack(|input.path|);
    LengthReadsBack(|input.bytes|);
    assert whole[at..at + 8] == BigEndian(|input.path|, 8);
    assert whole[at + 8..at + 16] == BigEndian(|input.bytes|, 8);
    assert whole[path..bytes] == input.path;
    assert whole[bytes..bytes + |input.bytes|] == input.bytes;
  }

  predicate AllFit(inputs: seq<Input>) {
    forall i :: 0 <= i < |inputs| ==> Fits(inputs[i])
  }

  /** The stream is uniquely decodable: no two lists of inputs share one. */
  lemma {:induction false} StreamIsDecodable(a: seq<Input>, b: seq<Input>)
    requires AllFit(a) && AllFit(b)
    requires Stream(a) == Stream(b)
    ensures a == b
    decreases |a|
  {
    if a == [] || b == [] {
      EmptyOnlyWhenEmpty(a);
      EmptyOnlyWhenEmpty(b);
    } else {
      SameHead(a, b);
      assert AllFit(a[1..]) && AllFit(b[1..]);
      StreamIsDecodable(a[1..], b[1..]);
      assert a == [a[0]] + a[1..] && b == [b[0]] + b[1..];
    }
  }

  lemma EmptyOnlyWhenEmpty(a: seq<Input>)
    ensures Stream(a) == [] <==> a == []
  {
    if a != [] {
      assert |Encoded(a[|a| - 1])| >= 16;
    }
  }

  // ----- Order and duplicates -----

  type InputOrder = (Input, Input) -> bool

  // The inputs are ordered by their paths alone, and totally.
  ghost predicate OrdersByPath(le: InputOrder) {
    TotalPreorder(le) && forall a, b :: le(a, b) && le(b, a) <==> a.path == b.path
  }

  ghost predicate DistinctPaths(inputs: seq<Input>) {
    forall i, j :: 0 <= i < j < |inputs| ==> inputs[i].path != inputs[j].path
  }

  // The two lists hold the same path-to-bytes map.
  ghost predicate SameFiles(a: seq<Input>, b: seq<Input>) {
    forall input :: input in a <==> input in b
  }

  /** A path named twice is refused, whatever the bytes; otherwise the sorted inputs are streamed. */
  method HashWorkflowInputs(inputs: seq<Input>, le: InputOrder) returns (stream: Option<Bytes>)
    requires OrdersByPath(le)
    ensures stream.Some? <==> DistinctPaths(inputs)
    ensures stream.Some? ==> stream.value == Stream(Sort(inputs, le))
  {
    SortKeepsPaths(inputs, le);
    stream := StreamDistinct(Sort(inputs, le));
  }

  method StreamDistinct(normalized: seq<Input>) returns (stream: Option<Bytes>)
    ensures stream.Some? <==> DistinctPaths(normalized)
    ensures stream.Some? ==> stream.value == Stream(normalized)
  {
    var seen: set<Bytes> := {};
    var bytes: Bytes := [];
    for i := 0 to |normalized|
      invariant forall k :: 0 <= k < i ==> normalized[k].path in seen
      invariant forall path :: path in seen ==> exists k :: 0 <= k < i && normalized[k].path == path
      invariant DistinctPaths(normalized[..i]) && bytes == Stream(normalized[..i])
    {
      var input := normalized[i];
      if input.path in seen {
        return None;
      }
      seen := seen + {input.path};
      assert normalized[..i + 1][..i] == normalized[..i];
      bytes := bytes + (BigEndian(|input.path|, 8) + BigEndian(|input.bytes|, 8) + input.path + input.bytes);
    }
    assert normalized[..|normalized|] == normalized;
    return Some(bytes);
  }

  lemma {:induction false} MultisetKeepsPaths(a: seq<Input>, b: seq<Input>)
    requires multiset(a) == multiset(b) && DistinctPaths(a)
    ensures DistinctPaths(b) && SameFiles(a, b)
    decreases |a|
  {
    forall input ensures input in a <==> input in b {
      assert input in multiset(a) <==> input in multiset(b);
    }
    if a == [] {
      assert |multiset(b)| == 0;
    } else {
      assert a[0] in multiset(b);
      var j :| 0 <= j < |b| && b[j] == a[0];
      WithoutOne(a, 0);
      WithoutOne(b, j);
      MultisetKeepsPaths(Without(a, 0), Without(b, j));
      var rest := Without(b, j);
      forall k | 0 <= k < |rest| ensures rest[k].path != b[j].path {
        assert rest[k] in Without(a, 0);
      }
      BackInPlace(b, j);
    }
  }

  lemma BackInPlace(b: seq<Input>, j: nat)
    requires j < |b|
    requires var rest := Without(b, j); DistinctPaths(rest) && forall k :: 0 <= k < |rest| ==> rest[k].path != b[j].path
    ensures DistinctPaths(b)
  {
    var rest := Without(b, j);
    forall i, k | 0 <= i < k < |b| ensures b[i].path != b[k].path {
      var i', k' := if i < j then i else i - 1, if k < j then k else k - 1;
      if i != j {
        assert rest[i'] == b[i];
      }
      if k != j {
        assert rest[k'] == b[k];
      }
    }
  }

  lemma SortKeepsPaths(inputs: seq<Input>, le: InputOrder)
    requires OrdersByPath(le)
    ensures DistinctPaths(Sort(inputs, le)) <==> DistinctPaths(inputs)
    ensures multiset(Sort(inputs, le)) == multiset(inputs) && Sorted(Sort(inputs, le), le)
  {
    SortIsSorted(inputs, le);
    var sorted := Sort(inputs, le);
    if DistinctPaths(inputs) {
      MultisetKeepsPaths(inputs, sorted);
    }
    if DistinctPaths(sorted) {
      MultisetKeepsPaths(sorted, inputs);
    }
  }

  // Two sorted lists of the same files are the same list.
  lemma {:induction false} SortedFilesAreOneList(a: seq<Input>, b: seq<Input>, le: InputOrder)
    requires OrdersByPath(le) && DistinctPaths(a) && DistinctPaths(b) && SameFiles(a, b)
    requires Sorted(a, le) && Sorted(b, le)
    ensures a == b
    decreases |a|
  {
    if b != [] {
      FilesOnBothSides(a, b);
    }
    if a != [] {
      FilesOnBothSides(b, a);
      assert a[0] in b;
      assert b[0] in a;
      var i :| 0 <= i < |b| && b[i] == a[0];
      var j :| 0 <= j < |a| && a[j] == b[0];
      assert le(b[0], b[i]) && le(a[0], a[j]);
      assert a[0].path == b[0].path;
      assert a[0] == b[0];
      assert a == [a[0]] + a[1..] && b == [b[0]] + b[1..];
      SameFilesButTheFirst(a, b);
      SortedFilesAreOneList(a[1..], b[1..], le);
    }
  }

  lemma FilesOnBothSides(a: seq<Input>, b: seq<Input>)
    requires SameFiles(a, b) && b != []
    ensures a != []
  {
    assert b[0] in a;
  }

  lemma SameFilesButTheFirst(a: seq<Input>, b: seq<Input>)
    requires DistinctPaths(a) && DistinctPaths(b) && SameFiles(a, b) && a != [] && b != [] && a[0] == b[0]
    ensures DistinctPaths(a[1..]) && DistinctPaths(b[1..]) && SameFiles(a[1..], b[1..])
  {
    assert forall k :: 0 <= k < |a[1..]| ==> a[1..][k].path != a[0].path;
    assert forall k :: 0 <= k < |b[1..]| ==> b[1..][k].path != b[0].path;
    assert a == [a[0]] + a[1..] && b == [b[0]] + b[1..];
    forall input
      ensures input in a[1..] <==> input in b[1..]
    {
      assert input in a <==> input in b;
    }
  }

  /** Two lists of inputs feed the hash the same bytes exactly when they hold the same path-to-bytes map:
      list order leaves no trace, and nothing can move between a path, its bytes and the next file. */
  lemma SameStreamExactlyWhenSameFiles(a: seq<Input>, b: seq<Input>, le: InputOrder)
    requires OrdersByPath(le) && DistinctPaths(a) && DistinctPaths(b)
    requires AllFit(a) && AllFit(b)
    ensures Stream(Sort(a, le)) == Stream(Sort(b, le)) <==> SameFiles(a, b)
  {
    var x, y := Sort(a, le), Sort(b, le);
    SortKeepsPaths(a, le);
    SortKeepsPaths(b, le);
    MultisetKeepsPaths(a, x);
    MultisetKeepsPaths(b, y);
    if SameFiles(a, b) {
      SortedFilesAreOneList(x, y, le);
    }
    if Stream(x) == Stream(y) {
      MembersFit(x, a);
      MembersFit(y, b);
      StreamIsDecodable(x, y);
    }
  }

  lemma MembersFit(some: seq<Input>, all: seq<Input>)
    requires AllFit(all) && SameFiles(all, some)
    ensures AllFit(some)
  {
    assert forall i :: 0 <= i < |some| ==> some[i] in all;
  }
}
