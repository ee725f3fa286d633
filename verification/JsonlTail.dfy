/** Splitting a growing JSONL source into complete lines (apps/runtime/src/harnesses/jsonl-tailer.ts). */
module JsonlTail {
  import opened ByteStrings

  const LF: Byte := 10
  const CR: Byte := 13

  // A line's bytes, without the carriage return of a CR LF ending.
  function WithoutCr(line: Bytes): Bytes {
    if line != [] && line[|line| - 1] == CR then line[..|line| - 1] else line
  }

  // The complete lines, byte by byte, and what follows the last line feed.
  function Lines(b: Bytes): seq<Bytes> {
    if b == [] then []
    else
      var init := b[..|b| - 1];
      if b[|b| - 1] == LF then Lines(init) + [WithoutCr(Trailing(init))] else Lines(init)
  }

  function Trailing(b: Bytes): Bytes {
    if b == [] || b[|b| - 1] == LF then [] else Trailing(b[..|b| - 1]) + [b[|b| - 1]]
  }

  function LineFeeds(b: Bytes): nat {
    if b == [] then 0 else LineFeeds(b[..|b| - 1]) + if b[|b| - 1] == LF then 1 else 0
  }

  lemma {:induction false} TrailingIsASuffix(b: Bytes)
    ensures |Trailing(b)| <= |b| && Trailing(b) == b[|b| - |Trailing(b)|..] && LF !in Trailing(b)
    ensures |Trailing(b)| < |b| ==> b[|b| - |Trailing(b)| - 1] == LF
  {
    if b == [] || b[|b| - 1] == LF {
      assert Trailing(b) == [];
    } else {
      var init, last := b[..|b| - 1], b[|b| - 1];
      TrailingIsASuffix(init);
      var from := |init| - |Trailing(init)|;
      assert |b| - |Trailing(b)| == from;
      assert b[from..] == init[from..] + [last];
      assert from > 0 ==> b[from - 1] == init[from - 1];
    }
  }

  lemma {:induction false} NoLineFeedNoLine(b: Bytes)
    requires LF !in b
    ensures Lines(b) == [] && Trailing(b) == b
  {
    if b != [] {
      NoLineFeedNoLine(b[..|b| - 1]);
    }
  }

  /** No line holds a line feed, and there is one line for each. */
  lemma {:induction false} OneLinePerLineFeed(b: Bytes)
    ensures |Lines(b)| == LineFeeds(b) && forall i :: 0 <= i < |Lines(b)| ==> LF !in Lines(b)[i]
  {
    if b != [] {
      var init := b[..|b| - 1];
      OneLinePerLineFeed(init);
      TrailingIsASuffix(init);
    }
  }

  // How each line ended.
  datatype Ending = Lf | CrLf

  function Written(ending: Ending): Bytes {
    if ending.Lf? then [LF] else [CR, LF]
  }

  // Lines and their endings, one after the other.
  function Joined(lines: seq<Bytes>, endings: seq<Ending>): Bytes
    requires |lines| == |endings|
  {
    if lines == [] then []
    else
      var n := |lines| - 1;
      Joined(lines[..n], endings[..n]) + lines[n] + Written(endings[n])
  }

  // A line's own carriage return belongs to its ending.
  ghost predicate EndsAs(line: Bytes, ending: Ending) {
    LF !in line && (ending.Lf? ==> line == [] || line[|line| - 1] != CR)
  }

  function EndingOf(line: Bytes): Ending {
    if line != [] && line[|line| - 1] == CR then CrLf else Lf
  }

  // The endings of the complete lines.
  function Endings(b: Bytes): (endings: seq<Ending>)
    ensures |endings| == |Lines(b)|
  {
    if b == [] then []
    else
      var init := b[..|b| - 1];
      if b[|b| - 1] == LF then Endings(init) + [EndingOf(Trailing(init))] else Endings(init)
  }

  /** Nothing is lost or invented: the lines with their endings, and then the trailing bytes, are the input. */
  lemma {:induction false} LinesRejoin(b: Bytes)
    ensures Joined(Lines(b), Endings(b)) + Trailing(b) == b
  {
    if b != [] {
      var init, last := b[..|b| - 1], b[|b| - 1];
      LinesRejoin(init);
      assert b == init + [last];
      if last == LF {
        LineRejoins(init);
      } else {
        OneByteMore(Joined(Lines(init), Endings(init)), Trailing(init), last);
      }
    }
  }

  lemma OneByteMore(a: Bytes, b: Bytes, last: Byte)
    ensures a + (b + [last]) == a + b + [last]
  {
  }

  lemma LineRejoins(init: Bytes)
    requires Joined(Lines(init), Endings(init)) + Trailing(init) == init
    ensures var b := init + [LF]; Joined(Lines(b), Endings(b)) == b && Trailing(b) == []
  {
    var b := init + [LF];
    var line := Trailing(init);
    assert b[..|b| - 1] == init;
    OneLineMore(Lines(init), Endings(init), WithoutCr(line), EndingOf(line));
    OneLineWritten(Joined(Lines(init), Endings(init)), line);
  }

  /** A carriage return is taken off exactly where a line ends in CR LF. */
  lemma {:induction false} EachLineEndsAs(b: Bytes, i: nat)
    requires i < |Lines(b)|
    ensures EndsAs(Lines(b)[i], Endings(b)[i])
  {
    var init := b[..|b| - 1];
    if i < |Lines(init)| {
      EachLineEndsAs(init, i);
    } else {
      TrailingIsASuffix(init);
      OneLineWritten([], Trailing(init));
    }
  }

  lemma OneLineMore(lines: seq<Bytes>, endings: seq<Ending>, line: Bytes, ending: Ending)
    requires |lines| == |endings|
    ensures Joined(lines + [line], endings + [ending]) == Joined(lines, endings) + line + Written(ending)
  {
    assert (lines + [line])[..|lines|] == lines && (endings + [ending])[..|lines|] == endings;
  }

  lemma OneLineWritten(before: Bytes, line: Bytes)
    ensures before + WithoutCr(line) + Written(EndingOf(line)) == before + line + [LF]
    ensures LF !in line ==> EndsAs(WithoutCr(line), EndingOf(line))
  {
    assert WithoutCr(line) + Written(EndingOf(line)) == line + [LF];
    assert before + WithoutCr(line) + Written(EndingOf(line)) == before + (WithoutCr(line) + Written(EndingOf(line)));
  }

  /** Reading in two parts is reading at once: what the first read left over, followed by the second
      read's bytes, splits into the remaining lines, wherever the cut falls, between CR and LF included. */
  lemma {:induction false} SplitAcrossReads(a: Bytes, b: Bytes)
    ensures Lines(a + b) == Lines(a) + Lines(Trailing(a) + b)
    ensures Trailing(a + b) == Trailing(Trailing(a) + b)
    decreases |b|
  {
    if b == [] {
      TrailingIsASuffix(a);
      NoLineFeedNoLine(Trailing(a));
      assert a + b == a && Trailing(a) + b == Trailing(a);
    } else {
      var init := b[..|b| - 1];
      SplitAcrossReads(a, init);
      assert (a + b)[..|a + b| - 1] == a + init;
      assert (Trailing(a) + b)[..|Trailing(a) + b| - 1] == Trailing(a) + init;
    }
  }

  method SplitCompleteJsonlLines(input: Bytes) returns (completeLines: seq<Bytes>, trailingBytes: Bytes)
    ensures completeLines == Lines(input) && trailingBytes == Trailing(input)
  {
    completeLines := [];
    var start := 0;
    for index := 0 to |input|
      invariant 0 <= start <= index
      invariant completeLines == Lines(input[..index]) && input[start..index] == Trailing(input[..index])
    {
      assert input[..index + 1][..index] == input[..index];
      if input[index] == LF {
        var end := if index > start && input[index - 1] == CR then index - 1 else index;
        assert input[start..end] == WithoutCr(input[start..index]);
        completeLines := completeLines + [input[start..end]];
        start := index + 1;
      } else {
        assert input[start..index + 1] == input[start..index] + [input[index]];
      }
    }
    assert input[..|input|] == input;
    trailingBytes := input[start..];
  }
}
