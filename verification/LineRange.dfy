/**
  Reading a range of lines from a stream of chunks (src/runtime/file-read.ts). However the file is
  cut into chunks, the collector returns the first maxBytes bytes of the requested lines.

  The bytes of the range are defined twice: picked one by one with the number of their line (`Kept`), and
  as the stretch of the file between the starts of two lines (`Range`). `KeptIsRange` says that they agree;
  the collector is proved against the first and `ReadLineRange` states the second. A chunk may end inside
  a line, a line may span many chunks, and the limit may be reached anywhere; `LastLine` relates the line
  count of what was kept with the lines of the file.
*/
module LineRange {
  type Byte = bv8
  type Bytes = seq<Byte>

  const NEWLINE: Byte := 10

  // ---------------------------------------------------------------- lines of a file

  function Newlines(bytes: Bytes): nat {
    if bytes == [] then 0 else (if bytes[0] == NEWLINE then 1 else 0) + Newlines(bytes[1..])
  }

  /** The position after the n-th newline, or the end of the file when it has fewer. */
  function LineStart(file: Bytes, n: nat): (position: nat)
    ensures position <= |file|
    decreases |file|
  {
    if n == 0 then 0
    else if file == [] then 0
    else 1 + LineStart(file[1..], if file[0] == NEWLINE then n - 1 else n)
  }

  /** The number, from 0, of the line that holds a position. */
  function LineOf(file: Bytes, position: nat): nat
    requires position <= |file|
  {
    Newlines(file[..position])
  }

  lemma {:induction false} LineStartGrows(file: Bytes, m: nat, n: nat)
    requires m <= n
    ensures LineStart(file, m) <= LineStart(file, n)
    decreases |file|
  {
    if m > 0 && file != [] {
      if file[0] == NEWLINE { LineStartGrows(file[1..], m - 1, n - 1); } else { LineStartGrows(file[1..], m, n); }
    }
  }

  /** Lines [start, end) of the file. */
  function Range(file: Bytes, start: nat, end: nat): Bytes
    requires start <= end
  {
    LineStartGrows(file, start, end);
    file[LineStart(file, start)..LineStart(file, end)]
  }

  function Flatten(chunks: seq<Bytes>): Bytes {
    if chunks == [] then [] else chunks[0] + Flatten(chunks[1..])
  }

  lemma {:induction false} FlattenAppend(chunks: seq<Bytes>, chunk: Bytes)
    ensures Flatten(chunks + [chunk]) == Flatten(chunks) + chunk
  {
    if chunks == [] {
      assert chunks + [chunk] == [chunk];
    } else {
      assert (chunks + [chunk])[1..] == chunks[1..] + [chunk];
      FlattenAppend(chunks[1..], chunk);
    }
  }

  lemma {:induction false} NewlinesConcat(a: Bytes, b: Bytes)
    ensures Newlines(a + b) == Newlines(a) + Newlines(b)
  {
    if a == [] {
      assert a + b == b;
    } else {
      assert (a + b)[1..] == a[1..] + b;
      NewlinesConcat(a[1..], b);
    }
  }

  // ---------------------------------------------------------------- the bytes in the range, one by one

  /** The bytes whose line, counted from `line`, is in [start, end). */
  function Kept(bytes: Bytes, line: nat, start: nat, end: nat): Bytes {
    if bytes == [] then []
    else
      (if start <= line < end then [bytes[0]] else [])
      + Kept(bytes[1..], if bytes[0] == NEWLINE then line + 1 else line, start, end)
  }

  lemma {:induction false} KeptConcat(a: Bytes, b: Bytes, line: nat, start: nat, end: nat)
    ensures Kept(a + b, line, start, end) == Kept(a, line, start, end) + Kept(b, line + Newlines(a), start, end)
    decreases |a|
  {
    if a == [] {
      assert a + b == b;
    } else {
      assert (a + b)[0] == a[0] && (a + b)[1..] == a[1..] + b;
      KeptConcat(a[1..], b, if a[0] == NEWLINE then line + 1 else line, start, end);
    }
  }

  lemma {:induction false} KeptPastEnd(bytes: Bytes, line: nat, start: nat, end: nat)
    requires end <= line
    ensures Kept(bytes, line, start, end) == []
    decreases |bytes|
  {
    if bytes != [] { KeptPastEnd(bytes[1..], if bytes[0] == NEWLINE then line + 1 else line, start, end); }
  }

  lemma KeptFromStartIsRange(file: Bytes, line: nat, end: nat)
    requires line <= end
    ensures Kept(file, line, line, end) == Range(file, 0, end - line)
  {
    KeptShift(file, line, line, end);
    KeptFromStart(file, 0, end - line);
  }

  /** The bytes kept one by one are the lines of the range. */
  lemma {:induction false} KeptIsRange(file: Bytes, line: nat, start: nat, end: nat)
    requires line <= start <= end
    ensures Kept(file, line, start, end) == Range(file, start - line, end - line)
    decreases |file|
  {
    if line == start {
      KeptFromStartIsRange(file, line, end);
    } else if file != [] {
      var next := if file[0] == NEWLINE then line + 1 else line;
      hide LineStart, Range;
      KeptIsRange(file[1..], next, start, end);
      RangeOfRest(file, start - line, end - line, next - line);
    }
  }

  lemma RangeOfRest(file: Bytes, start: nat, end: nat, passed: nat)
    requires file != [] && 0 < start <= end && passed == if file[0] == NEWLINE then 1 else 0
    ensures Range(file, start, end) == Range(file[1..], start - passed, end - passed)
  {
    LineStartGrows(file[1..], start - passed, end - passed);
    var x, y := LineStart(file[1..], start - passed), LineStart(file[1..], end - passed);
    assert LineStart(file, start) == 1 + x && LineStart(file, end) == 1 + y;
    hide LineStart;
    SliceOfRest(file, x, y);
  }

  lemma SliceOfRest(file: Bytes, x: nat, y: nat)
    requires x <= y < |file|
    ensures file[1 + x..1 + y] == file[1..][x..y]
  {
    forall k | 0 <= k < y - x ensures file[1 + x..1 + y][k] == file[1..][x..y][k] {
    }
  }

  /** From the start of the range on, the kept bytes are the file up to the end of the range. */
  lemma {:induction false} KeptFromStart(file: Bytes, line: nat, end: nat)
    requires line <= end
    ensures Kept(file, line, 0, end) == file[..LineStart(file, end - line)]
    decreases |file|
  {
    if line == end {
      KeptPastEnd(file, line, 0, end);
    } else if file != [] {
      var rest, next := file[1..], if file[0] == NEWLINE then line + 1 else line;
      KeptFromStart(rest, next, end);
      assert file[..LineStart(file, end - line)] == [file[0]] + rest[..LineStart(rest, end - next)];
    }
  }

  /** Only the distance from the line count to the range matters. */
  lemma KeptShift(bytes: Bytes, line: nat, start: nat, end: nat)
    requires start <= line <= end
    ensures Kept(bytes, line, start, end) == Kept(bytes, 0, 0, end - line)
  {
    KeptOffset(bytes, line, start, end, line);
  }

  lemma {:induction false} KeptOffset(bytes: Bytes, line: nat, start: nat, end: nat, shift: nat)
    requires start <= shift <= line && shift <= end
    ensures Kept(bytes, line, start, end) == Kept(bytes, line - shift, 0, end - shift)
    decreases |bytes|
  {
    if bytes != [] {
      var next := if bytes[0] == NEWLINE then line + 1 else line;
      KeptOffset(bytes[1..], next, start, end, shift);
      assert Kept(bytes, line, start, end)
          == (if line < end then [bytes[0]] else []) + Kept(bytes[1..], next, start, end);
    }
  }

  // ---------------------------------------------------------------- the collector

  /** indexOf(10, from): the length of the chunk when there is no newline from there on. */
  function IndexOf(chunk: Bytes, from: nat): (i: nat)
    requires from <= |chunk|
    ensures from <= i <= |chunk|
    ensures i < |chunk| ==> chunk[i] == NEWLINE
    ensures forall k :: from <= k < i ==> chunk[k] != NEWLINE
    decreases |chunk| - from
  {
    if from == |chunk| || chunk[from] == NEWLINE then from else IndexOf(chunk, from + 1)
  }

  lemma {:induction false} OneLine(segment: Bytes, line: nat, start: nat, end: nat)
    requires forall k :: 0 <= k < |segment| - 1 ==> segment[k] != NEWLINE
    ensures Kept(segment, line, start, end) == if start <= line < end then segment else []
    ensures Newlines(segment) == if segment != [] && segment[|segment| - 1] == NEWLINE then 1 else 0
    decreases |segment|
  {
    if |segment| > 1 {
      OneLine(segment[1..], line, start, end);
    } else if segment != [] {
      assert segment[1..] == [] && segment == [segment[0]];
    }
  }

  class LineRangeCollector {
    const start: nat
    const end: nat
    const maxBytes: nat
    var line: nat
    var moreInChunk: bool
    var selected: seq<Bytes>
    var selectedBytes: nat
    var truncated: bool

    constructor (start: nat, end: nat, maxBytes: nat)
      requires start < end
      ensures this.start == start && this.end == end && this.maxBytes == maxBytes
      ensures Collecting([])
    {
      this.start, this.end, this.maxBytes := start, end, maxBytes;
      line, moreInChunk, selected, selectedBytes, truncated := 0, false, [], 0, false;
    }

    function Content(): Bytes
      reads this
    {
      Flatten(selected)
    }

    /** Every byte of the prefix has been seen, and the range goes on. */
    ghost predicate Collecting(prefix: Bytes)
      reads this
    {
      && line == Newlines(prefix) < end
      && !truncated && !moreInChunk
      && Content() == Kept(prefix, 0, start, end)
      && selectedBytes == |Content()| <= maxBytes
    }

    /** The range ended in the prefix, or did not fit; `more` when bytes of the prefix lie behind it. */
    ghost predicate Collected(prefix: Bytes)
      reads this
    {
      var kept := Kept(prefix, 0, start, end);
      if truncated then moreInChunk && |kept| > maxBytes && Content() == kept[..maxBytes]
      else
        && Newlines(prefix) >= end && |kept| <= maxBytes && Content() == kept
        && (moreInChunk <==> LineStart(prefix, end) < |prefix|)
    }

    /** Appends what fits of the segment; true when it did not fit. */
    method Append(segment: Bytes) returns (full: bool)
      requires selectedBytes == |Content()| <= maxBytes && !truncated
      modifies `selected, `selectedBytes, `truncated
      ensures full == truncated == (|old(Content())| + |segment| > maxBytes)
      ensures full ==> Content() == (old(Content()) + segment)[..maxBytes]
      ensures !full ==> Content() == old(Content()) + segment
      ensures selectedBytes == |Content()| <= maxBytes
    {
      var remaining := maxBytes - selectedBytes;
      if |segment| > remaining {
        if remaining > 0 {
          FlattenAppend(selected, segment[..remaining]);
          selected := selected + [segment[..remaining]];
          selectedBytes := selectedBytes + remaining;
        }
        truncated := true;
        return true;
      }
      if |segment| > 0 {
        FlattenAppend(selected, segment);
        selected := selected + [segment];
        selectedBytes := selectedBytes + |segment|;
      }
      full := false;
    }

    /** Takes the next chunk of the file; true when no later chunk is needed. */
    method Consume(chunk: Bytes, ghost prefix: Bytes) returns (done: bool)
      requires Collecting(prefix)
      modifies this
      ensures if done then Collected(prefix + chunk) else Collecting(prefix + chunk)
    {
      hide Kept, Newlines, Flatten, IndexOf, LineStart;
      var offset := 0;
      assert prefix + chunk[..0] == prefix;
      while offset < |chunk|
        invariant offset <= |chunk| && Collecting(prefix + chunk[..offset])
      {
        var newline := IndexOf(chunk, offset);
        var segmentEnd := if newline == |chunk| then |chunk| else newline + 1;
        ghost var seen, segment, rest := prefix + chunk[..offset], chunk[offset..segmentEnd], chunk[segmentEnd..];
        assert prefix + chunk[..segmentEnd] == seen + segment && prefix + chunk == seen + segment + rest;
        OneMoreSegment(seen, segment, start, end);
        if start <= line < end {
          var full := Append(chunk[offset..segmentEnd]);
          if full {
            moreInChunk := true;
            KeptConcat(seen + segment, rest, 0, start, end);
            return true;
          }
        }
        offset := segmentEnd;
        if newline == |chunk| {
          assert chunk[..offset] == chunk;
          return false;
        }
        line := line + 1;
        if line >= end {
          moreInChunk := offset < |chunk|;
          RangeEnds(seen + segment, rest, start, end);
          return true;
        }
      }
      assert chunk[..offset] == chunk;
      done := false;
    }
  }

  lemma OneMoreSegment(seen: Bytes, segment: Bytes, start: nat, end: nat)
    requires forall k :: 0 <= k < |segment| - 1 ==> segment[k] != NEWLINE
    ensures Kept(seen + segment, 0, start, end)
         == Kept(seen, 0, start, end) + (if start <= Newlines(seen) < end then segment else [])
    ensures Newlines(seen + segment)
         == Newlines(seen) + if segment != [] && segment[|segment| - 1] == NEWLINE then 1 else 0
  {
    OneMoreCount(seen, segment);
    KeptConcat(seen, segment, 0, start, end);
    LineIsKept(segment, Newlines(seen), start, end);
  }

  lemma OneMoreCount(seen: Bytes, segment: Bytes)
    requires forall k :: 0 <= k < |segment| - 1 ==> segment[k] != NEWLINE
    ensures Newlines(seen + segment)
         == Newlines(seen) + if segment != [] && segment[|segment| - 1] == NEWLINE then 1 else 0
  {
    OneLine(segment, 0, 0, 0);
    NewlinesConcat(seen, segment);
  }

  lemma LineIsKept(segment: Bytes, line: nat, start: nat, end: nat)
    requires forall k :: 0 <= k < |segment| - 1 ==> segment[k] != NEWLINE
    ensures Kept(segment, line, start, end) == if start <= line < end then segment else []
  {
    OneLine(segment, line, start, end);
  }

  /** Where the last line of the range ends, the range is complete. */
  lemma RangeEnds(seen: Bytes, rest: Bytes, start: nat, end: nat)
    requires end > 0 && Newlines(seen) == end && seen != [] && seen[|seen| - 1] == NEWLINE
    ensures Kept(seen + rest, 0, start, end) == Kept(seen, 0, start, end)
    ensures Newlines(seen + rest) >= end && LineStart(seen + rest, end) == |seen|
  {
    KeptConcat(seen, rest, 0, start, end);
    KeptPastEnd(rest, end, start, end);
    NewlinesConcat(seen, rest);
    RangeEndsHere(seen, rest, end);
  }

  /** A text that ends with the end-th newline ends the range, whatever follows. */
  lemma {:induction false} RangeEndsHere(seen: Bytes, rest: Bytes, end: nat)
    requires end > 0 && Newlines(seen) == end && seen != [] && seen[|seen| - 1] == NEWLINE
    ensures LineStart(seen + rest, end) == |seen|
    decreases |seen|
  {
    assert (seen + rest)[0] == seen[0] && (seen + rest)[1..] == seen[1..] + rest;
    if |seen| == 1 {
      assert seen[1..] == [] && end == 1;
    } else {
      var n := if seen[0] == NEWLINE then end - 1 else end;
      assert seen[1..][|seen| - 2] == NEWLINE;
      LastNewlineCounts(seen[1..]);
      RangeEndsHere(seen[1..], rest, n);
    }
  }

  lemma {:induction false} LastNewlineCounts(bytes: Bytes)
    requires bytes != [] && bytes[|bytes| - 1] == NEWLINE
    ensures Newlines(bytes) > 0
  {
    if |bytes| > 1 { LastNewlineCounts(bytes[1..]); }
  }

  // ---------------------------------------------------------------- the result

  /** bufferLineCount: the lines a text has, the last of them with or without its newline. */
  function LineCount(content: Bytes): nat {
    Newlines(content) + if content != [] && content[|content| - 1] != NEWLINE then 1 else 0
  }

  lemma NewlinesFrom(content: Bytes, from: nat)
    requires from <= |content|
    ensures var i := IndexOf(content, from);
            Newlines(content[from..]) == if i == |content| then 0 else 1 + Newlines(content[i + 1..])
    decreases |content| - from
  {
    if from < |content| {
      assert content[from..][1..] == content[from + 1..];
      if content[from] != NEWLINE { NewlinesFrom(content, from + 1); }
    }
  }

  method BufferLineCount(content: Bytes) returns (count: nat)
    ensures count == LineCount(content)
  {
    hide Newlines, IndexOf;
    count := 0;
    var newline := IndexOf(content, 0);
    assert content[0..] == content;
    NewlinesFrom(content, 0);
    while newline < |content|
      invariant newline <= |content|
      invariant newline < |content| ==> content[newline] == NEWLINE
      invariant Newlines(content)
             == count + if newline == |content| then 0 else 1 + Newlines(content[newline + 1..])
      decreases |content| - newline
    {
      count := count + 1;
      NewlinesFrom(content, newline + 1);
      newline := IndexOf(content, newline + 1);
    }
    if |content| > 0 && content[|content| - 1] != NEWLINE {
      count := count + 1;
    }
  }

  datatype LinesRead = LinesRead(content: Bytes, hasMore: bool, returnedStart: nat, returnedEnd: nat, truncated: bool)

  function Least(a: nat, b: nat): nat {
    if a < b then a else b
  }

  /** What a read of lines [start, end) with a limit of maxBytes has to return. */
  ghost predicate IsReadOf(read: LinesRead, file: Bytes, start: nat, end: nat, maxBytes: nat)
    requires start < end
  {
    var range, first := Range(file, start, end), LineStart(file, start);
    && read.content == range[..Least(maxBytes, |range|)]
    && read.truncated == (|range| > maxBytes)
    && read.hasMore == (first + |read.content| < |file|)
    && read.returnedStart == start
    && first + |read.content| <= |file|
    && read.returnedEnd == if read.content == [] then start else LineOf(file, first + |read.content| - 1) + 1
  }

  lemma {:induction false} NewlinesBeforeLine(file: Bytes, n: nat)
    requires LineStart(file, n) < |file|
    ensures LineOf(file, LineStart(file, n)) == n
    decreases |file|
  {
    if n > 0 {
      var m := if file[0] == NEWLINE then n - 1 else n;
      NewlinesBeforeLine(file[1..], m);
      var position := LineStart(file[1..], m);
      assert file[..1 + position][1..] == file[1..][..position];
    }
  }

  /** The last byte returned is on the last line that is returned. */
  lemma LastLine(file: Bytes, start: nat, content: Bytes)
    requires content != []
    requires LineStart(file, start) + |content| <= |file|
    requires content == file[LineStart(file, start)..LineStart(file, start) + |content|]
    ensures start + LineCount(content) == LineOf(file, LineStart(file, start) + |content| - 1) + 1
  {
    var first, n := LineStart(file, start), |content|;
    NewlinesBeforeLine(file, start);
    assert file[..first + n - 1] == file[..first] + content[..n - 1];
    NewlinesConcat(file[..first], content[..n - 1]);
    assert content == content[..n - 1] + [content[n - 1]];
    NewlinesConcat(content[..n - 1], [content[n - 1]]);
    assert [content[n - 1]][1..] == [];
  }

  /** The whole range lies in the part of the file before its end line. */
  lemma {:induction false} FewLines(file: Bytes, end: nat)
    requires Newlines(file) < end
    ensures LineStart(file, end) == |file|
    decreases |file|
  {
    if file != [] { FewLines(file[1..], if file[0] == NEWLINE then end - 1 else end); }
  }

  /** What was kept of a part of the file starts the range, and is all of it once the part reaches its end. */
  lemma KeptOfPart(file: Bytes, seen: Bytes, start: nat, end: nat)
    requires start <= end && seen <= file
    ensures Kept(seen, 0, start, end) <= Range(file, start, end)
    ensures Newlines(seen) >= end || seen == file ==> Kept(seen, 0, start, end) == Range(file, start, end)
  {
    var rest := file[|seen|..];
    assert file == seen + rest;
    KeptConcat(seen, rest, 0, start, end);
    KeptIsRange(file, 0, start, end);
    if Newlines(seen) >= end { KeptPastEnd(rest, Newlines(seen), start, end); }
  }

  lemma CollectedIsRead(
    file: Bytes, seen: Bytes, start: nat, end: nat, maxBytes: nat, content: Bytes, truncated: bool, hasMore: bool)
    requires start < end && seen <= file
    requires var kept := Kept(seen, 0, start, end);
             if truncated then |kept| > maxBytes && content == kept[..maxBytes] && hasMore
             else && |kept| <= maxBytes && content == kept
                  && (Newlines(seen) < end ==> seen == file)
                  && (hasMore <==> LineStart(seen, end) < |seen| || |seen| < |file|)
    ensures IsReadOf(
              LinesRead(content, hasMore, start, start + LineCount(content), truncated), file, start, end, maxBytes)
  {
    hide Kept, Newlines, LineStart, LineCount;
    KeptOfPart(file, seen, start, end);
    var range, first, rest := Range(file, start, end), LineStart(file, start), file[|seen|..];
    LineStartGrows(file, start, end);
    assert content == range[..Least(maxBytes, |range|)];
    assert content == file[first..first + |content|];
    assert file == seen + rest;
    if !truncated { WholeRangeMore(seen, rest, end); }
    if content != [] { LastLine(file, start, content); } else { NoLines(); }
    EmptyRange(file, start, end);
  }

  lemma NoLines()
    ensures LineCount([]) == 0
  {
  }

  /** A range without bytes lies behind the end of the file. */
  lemma EmptyRange(file: Bytes, start: nat, end: nat)
    requires start < end
    ensures LineStart(file, start) < |file| ==> LineStart(file, start) < LineStart(file, end)
    decreases |file|
  {
    if file != [] && start > 0 {
      if file[0] == NEWLINE { EmptyRange(file[1..], start - 1, end - 1); } else { EmptyRange(file[1..], start, end); }
    }
  }

  lemma WholeRangeMore(seen: Bytes, rest: Bytes, end: nat)
    requires Newlines(seen) < end ==> rest == []
    ensures LineStart(seen, end) < |seen| || rest != [] <==> LineStart(seen + rest, end) < |seen + rest|
  {
    if Newlines(seen) < end {
      assert seen + rest == seen;
    } else {
      StartInside(seen, rest, end);
    }
  }

  lemma {:induction false} StartInside(seen: Bytes, rest: Bytes, end: nat)
    requires Newlines(seen) >= end
    ensures LineStart(seen + rest, end) == LineStart(seen, end)
    decreases |seen|
  {
    if end > 0 {
      assert (seen + rest)[0] == seen[0] && (seen + rest)[1..] == seen[1..] + rest;
      StartInside(seen[1..], rest, if seen[0] == NEWLINE then end - 1 else end);
    }
  }

  /**
    readLineRange: for every way of cutting the file into chunks, the read returns the first maxBytes
    bytes of the requested lines, tells whether they were cut and whether bytes follow, and numbers them.
  */
  method ReadLineRange(chunks: seq<Bytes>, start: nat, end: nat, maxBytes: nat) returns (read: LinesRead)
    requires start < end && maxBytes >= 1
    ensures IsReadOf(read, Flatten(chunks), start, end, maxBytes)
  {
    hide Kept, Newlines, LineStart, IsReadOf;
    var collector := new LineRangeCollector(start, end, maxBytes);
    var fileSize := |Flatten(chunks)|;
    var collecting, bytesRead := true, 0;
    ghost var seen: Bytes := [];
    var i := 0;
    assert chunks[..0] == [];
    while i < |chunks|
      invariant i <= |chunks|
      invariant fresh(collector) && collector.start == start && collector.end == end && collector.maxBytes == maxBytes
      invariant bytesRead == |seen| && seen <= Flatten(chunks[..i])
      invariant if collecting then seen == Flatten(chunks[..i]) && collector.Collecting(seen)
                else collector.Collected(seen)
    {
      assert chunks[..i + 1] == chunks[..i] + [chunks[i]];
      FlattenAppend(chunks[..i], chunks[i]);
      if collecting {
        bytesRead := bytesRead + |chunks[i]|;
        var done := collector.Consume(chunks[i], seen);
        seen := seen + chunks[i];
        if done {
          collecting := false;
        }
      }
      i := i + 1;
    }
    assert chunks[..i] == chunks;
    var content := Flatten(collector.selected);
    var lines := BufferLineCount(content);
    var hasMore := collector.truncated || collector.moreInChunk || bytesRead < fileSize;
    if collecting { FewLines(seen, end); }
    CollectedIsRead(Flatten(chunks), seen, start, end, maxBytes, content, collector.truncated, hasMore);
    read := LinesRead(content, hasMore, start, start + lines, collector.truncated);
  }
}
