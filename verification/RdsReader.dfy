/** `RDSFile`: reading a file line by line through a sliding buffer. */
module RdsReader {
  const BUFSIZE: nat := 1024

  predicate IsEnd(c: char) {
    c == '\n' || c == '\r'
  }

  /** No line ends from `i` up to `j`. */
  ghost predicate Unbroken(data: string, i: nat, j: nat) {
    i <= j <= |data| && forall m | i <= m < j :: !IsEnd(data[m])
  }

  ghost predicate AllEnds(data: string, i: nat, j: nat) {
    i <= j <= |data| && forall m | i <= m < j :: IsEnd(data[m])
  }

  /** The first line end from `i` on, or the limit. */
  function EndOf(data: string, i: nat, limit: nat): (e: nat)
    requires i <= limit <= |data|
    ensures i <= e <= limit && Unbroken(data, i, e)
    ensures e < limit ==> IsEnd(data[e])
    decreases limit - i
  {
    if i == limit || IsEnd(data[i]) then i else EndOf(data, i + 1, limit)
  }

  /** The end of the run of line ends from `i` on, or the limit. */
  function SkipEnds(data: string, i: nat, limit: nat): (e: nat)
    requires i <= limit <= |data|
    ensures i <= e <= limit
    ensures AllEnds(data, i, e)
    ensures e < limit ==> !IsEnd(data[e])
    decreases limit - i
  {
    if i == limit || !IsEnd(data[i]) then i else SkipEnds(data, i + 1, limit)
  }

  // ---------------------------------------------------------------- lines

  /** The file from `i` on, split on runs of line ends. */
  function Lines(data: string, i: nat): seq<string>
    requires i <= |data|
    decreases |data| - i
  {
    if i == |data| then []
    else if IsEnd(data[i]) then Lines(data, i + 1)
    else [data[i..EndOf(data, i, |data|)]] + Lines(data, EndOf(data, i, |data|))
  }

  lemma {:induction false} EndIs(data: string, i: nat, e: nat, limit: nat)
    requires i <= limit <= |data| && Unbroken(data, i, e) && e <= limit && (e < limit ==> IsEnd(data[e]))
    ensures EndOf(data, i, limit) == e
    decreases limit - i
  {
    if i < e {
      EndIs(data, i + 1, e, limit);
    }
  }

  // ---------------------------------------------------------------- what the lines of a text are

  lemma {:induction false} EndOfSuffix(data: string, k: nat, i: nat)
    requires k <= i <= |data|
    ensures EndOf(data, i, |data|) == k + EndOf(data[k..], i - k, |data| - k)
    decreases |data| - i
  {
    hide IsEnd;
    if i < |data| {
      assert data[i] == data[k..][i - k];
      EndOfSuffix(data, k, i + 1);
    }
  }

  /** The lines from a place on depend on the text from there on only. */
  lemma {:induction false} LinesOfSuffix(data: string, k: nat, i: nat)
    requires k <= i <= |data|
    ensures Lines(data, i) == Lines(data[k..], i - k)
    decreases |data| - i
  {
    hide IsEnd, EndOf, Lines;
    var suffix := data[k..];
    NextLine(data, i);
    NextLine(suffix, i - k);
    if i < |data| {
      assert data[i] == suffix[i - k];
      if IsEnd(data[i]) {
        LinesOfSuffix(data, k, i + 1);
      } else {
        EndOfSuffix(data, k, i);
        LineGrows(data, i);
        var e := EndOf(data, i, |data|);
        LinesOfSuffix(data, k, e);
        SliceOfSuffix(data, k, i, e);
      }
    }
  }

  lemma SliceOfSuffix(data: string, k: nat, i: nat, e: nat)
    requires k <= i <= e <= |data|
    ensures data[k..][i - k..e - k] == data[i..e]
  {
  }

  lemma NextLine(data: string, i: nat)
    requires i <= |data|
    ensures Lines(data, i)
         == if i == |data| then []
            else if IsEnd(data[i]) then Lines(data, i + 1)
            else [data[i..EndOf(data, i, |data|)]] + Lines(data, EndOf(data, i, |data|))
  {
  }

  lemma LineGrows(data: string, i: nat)
    requires i < |data| && !IsEnd(data[i])
    ensures EndOf(data, i, |data|) > i
  {
  }

  /** Text without CR and LF is one line, if it is not empty. */
  lemma LinesOfLine(line: string)
    requires '\r' !in line && '\n' !in line
    ensures Lines(line, 0) == if line == "" then [] else [line]
  {
    if line != "" {
      EndIs(line, 0, |line|, |line|);
      assert Lines(line, |line|) == [];
      assert line[0..|line|] == line;
    }
  }

  /** CR and LF end a line; empty lines do not count. */
  lemma LinesOfText(line: string, c: char, rest: string)
    requires '\r' !in line && '\n' !in line && c in "\r\n"
    ensures Lines(line + [c] + rest, 0) == (if line == "" then [] else [line]) + Lines(rest, 0)
  {
    var data := line + [c] + rest;
    var n := |line|;
    assert data[n] == c && IsEnd(c) && data[n + 1..] == rest;
    LinesOfSuffix(data, n + 1, n + 1);
    assert Lines(data, n) == Lines(rest, 0);
    if n > 0 {
      assert forall m | 0 <= m < n :: data[m] == line[m];
      EndIs(data, 0, n, |data|);
      assert data[0..n] == line;
    }
  }

  function NonEmpty(lines: seq<string>): seq<string> {
    if lines == [] then [] else (if lines[0] == "" then [] else [lines[0]]) + NonEmpty(lines[1..])
  }

  /** Every line has at most `n` characters. */
  ghost predicate LinesUpTo(data: string, n: nat) {
    forall i: nat, j: nat | Unbroken(data, i, j) :: j - i <= n
  }

  // ---------------------------------------------------------------- the buffer

  /** The part of the file that is in the buffer. */
  datatype View = View(buf0: nat, buflen: nat)

  const NOTHING := View(0, 0)

  predicate Within(v: View, size: nat) {
    v.buflen <= BUFSIZE && v.buf0 + v.buflen <= size
  }

  /** The part that is read when `offset` has to be fetched. */
  function Fetched(size: nat, offset: nat): (v: View)
    requires offset <= size
    ensures Within(v, size) && v.buf0 <= offset <= v.buf0 + v.buflen
    ensures v.buf0 + v.buflen == size || offset + BUFSIZE / 2 <= v.buf0 + v.buflen
  {
    var buf0 := if offset > BUFSIZE / 2 then offset - BUFSIZE / 2 else 0;
    View(buf0, if size - buf0 > BUFSIZE then BUFSIZE else size - buf0)
  }

  /** The view keeps its place if it has a line end at or after `offset`. */
  function Loaded(data: string, v: View, offset: nat): (w: View)
    requires Within(v, |data|) && offset <= |data|
    ensures Within(w, |data|) && w.buf0 <= offset <= w.buf0 + w.buflen
    ensures w == v || w == Fetched(|data|, offset)
  {
    var limit := v.buf0 + v.buflen;
    if v.buf0 <= offset < limit && EndOf(data, offset, limit) < limit then v else Fetched(|data|, offset)
  }

  /** Going back from `i` to the start of the line; the loop never looks at the first character of the buffer. */
  function BackUp(data: string, buf0: nat, i: nat): (s: nat)
    requires buf0 + i <= |data|
    ensures s <= i && Unbroken(data, buf0 + s, buf0 + i)
    ensures s > 1 ==> IsEnd(data[buf0 + s - 1])
    ensures i >= 1 ==> s >= 1
  {
    if i > 1 && !IsEnd(data[buf0 + i - 1]) then BackUp(data, buf0, i - 1) else i
  }

  datatype Got = Got(view: View, line: string, nextLine: nat)

  /** The part of `getline` behind the loading of the buffer. */
  function LineIn(data: string, w: View, offset: nat): (g: Got)
    requires Within(w, |data|) && w.buf0 <= offset <= w.buf0 + w.buflen
    ensures g.view == w && offset <= g.nextLine <= |data|
  {
    var limit := w.buf0 + w.buflen;
    var end := EndOf(data, offset, limit);
    Got(w, data[w.buf0 + BackUp(data, w.buf0, offset - w.buf0)..end], SkipEnds(data, end, limit))
  }

  /** `getline`. */
  function GetLineOf(data: string, v: View, offset: nat): (g: Got)
    requires Within(v, |data|) && offset <= |data|
    ensures Within(g.view, |data|) && offset <= g.nextLine <= |data|
  {
    LineIn(data, Loaded(data, v, offset), offset)
  }

  /** Reading goes forward, whatever the length of the lines. */
  lemma Progress(data: string, v: View, offset: nat)
    requires Within(v, |data|) && offset < |data|
    ensures offset < GetLineOf(data, v, offset).nextLine
  {
    var w := Loaded(data, v, offset);
    var limit := w.buf0 + w.buflen;
    assert offset < limit;
    if IsEnd(data[offset]) {
      assert EndOf(data, offset, limit) == offset;
      assert SkipEnds(data, offset, limit) > offset;
    }
  }

  /** The strings that `nextline` returns from `offset` to the end of the file. */
  function ReadFrom(data: string, v: View, offset: nat): seq<string>
    requires Within(v, |data|) && offset <= |data|
    decreases |data| - offset
  {
    if offset == |data| then [] else
      Progress(data, v, offset);
      var g := GetLineOf(data, v, offset);
      [g.line] + ReadFrom(data, g.view, g.nextLine)
  }

  /** `getline(0)`, then `nextline` up to the end of the file. */
  function ReadAll(data: string): seq<string> {
    var g := GetLineOf(data, NOTHING, 0);
    [g.line] + ReadFrom(data, g.view, g.nextLine)
  }

  lemma NothingLeft(data: string, v: View)
    requires Within(v, |data|)
    ensures ReadFrom(data, v, |data|) == []
  {
  }

  lemma OneMoreLine(data: string, v: View, o: nat)
    requires Within(v, |data|) && o < |data|
    ensures
      var g := GetLineOf(data, v, o);
      o < g.nextLine && ReadFrom(data, v, o) == [g.line] + ReadFrom(data, g.view, g.nextLine)
  {
    hide GetLineOf;
    Progress(data, v, o);
  }

  // ---------------------------------------------------------------- short lines are read as they are

  predicate LineStart(data: string, i: nat)
    requires i <= |data|
  {
    i == 0 || IsEnd(data[i - 1])
  }

  lemma {:induction false} LinesAfterEnds(data: string, i: nat, limit: nat)
    requires i <= limit <= |data|
    ensures Lines(data, i) == Lines(data, SkipEnds(data, i, limit))
    decreases limit - i
  {
    if i < limit && IsEnd(data[i]) {
      LinesAfterEnds(data, i + 1, limit);
    }
  }

  /** How far the buffer reaches that is fetched for an offset, in a file that goes on behind it. */
  function Reach(o: nat): nat {
    if o > BUFSIZE / 2 then o + BUFSIZE / 2 else BUFSIZE
  }

  /** The line end after `o` is within that buffer, or the file is. */
  predicate EndIsNear(data: string, o: nat)
    requires o <= |data|
  {
    Reach(o) < |data| ==> EndOf(data, o, |data|) < Reach(o)
  }

  /** Every line ends in the buffer that is fetched at its start, or with the file. */
  predicate LinesFit(data: string) {
    forall o | 0 <= o < |data| && LineStart(data, o) :: EndIsNear(data, o)
  }

  /** Lines shorter than half the buffer fit. */
  lemma ShortIsNear(data: string, o: nat)
    requires o <= |data| && LinesUpTo(data, BUFSIZE / 2 - 1)
    ensures EndIsNear(data, o)
  {
    assert Unbroken(data, o, EndOf(data, o, |data|));
  }

  /** A line whose end is near ends in the buffer, or with the file. */
  lemma LineEndsInBuffer(data: string, v: View, o: nat)
    requires Within(v, |data|) && o < |data| && EndIsNear(data, o)
    ensures
      var w := Loaded(data, v, o);
      var limit := w.buf0 + w.buflen;
      var end := EndOf(data, o, limit);
      end == EndOf(data, o, |data|) && (end < limit || limit == |data|)
  {
    var w := Loaded(data, v, o);
    var limit: nat := w.buf0 + w.buflen;
    var end := EndOf(data, o, limit);
    if end < limit {
      EndIs(data, o, end, |data|);
    }
  }

  /** One line, with the run of line ends after it, is taken off the front. */
  lemma LinesOf(data: string, o: nat, limit: nat)
    requires o < limit <= |data|
    requires EndOf(data, o, limit) == EndOf(data, o, |data|)
    requires EndOf(data, o, limit) < limit || limit == |data|
    ensures
      var end := EndOf(data, o, limit);
      var next := SkipEnds(data, end, limit);
      && Lines(data, o) == (if end == o then [] else [data[o..end]]) + Lines(data, next)
      && (next == |data| || LineStart(data, next))
  {
    LinesAfterEnds(data, EndOf(data, o, limit), limit);
  }

  lemma NothingBeforeStart(data: string, buf0: nat, i: nat)
    requires buf0 + i <= |data| && LineStart(data, buf0 + i)
    ensures BackUp(data, buf0, i) == i
  {
  }

  /** At the start of a line whose end is near, that line is returned. */
  lemma LineIsRead(data: string, v: View, o: nat)
    requires Within(v, |data|) && o < |data| && LineStart(data, o) && EndIsNear(data, o)
    ensures
      var g := GetLineOf(data, v, o);
      && Lines(data, o) == (if g.line == "" then [] else [g.line]) + Lines(data, g.nextLine)
      && (g.nextLine == |data| || LineStart(data, g.nextLine))
  {
    hide Loaded, EndIsNear, Lines, LineStart, BackUp, EndOf, SkipEnds;
    LineEndsInBuffer(data, v, o);
    var w := Loaded(data, v, o);
    NothingBeforeStart(data, w.buf0, o - w.buf0);
    LinesOf(data, o, w.buf0 + w.buflen);
  }

  lemma {:induction false} ReadFromIsLines(data: string, v: View, o: nat)
    requires Within(v, |data|) && o <= |data| && (o == |data| || LineStart(data, o)) && LinesFit(data)
    ensures NonEmpty(ReadFrom(data, v, o)) == Lines(data, o)
    decreases |data| - o
  {
    if o < |data| {
      assert EndIsNear(data, o);
      hide LinesFit, EndIsNear, LineStart, Lines, GetLineOf;
      LineIsRead(data, v, o);
      OneMoreLine(data, v, o);
      var g := GetLineOf(data, v, o);
      ReadFromIsLines(data, g.view, g.nextLine);
      NonEmptyOfMore(g.line, ReadFrom(data, g.view, g.nextLine));
    } else {
      NothingLeft(data, v);
    }
  }

  lemma NonEmptyOfMore(line: string, lines: seq<string>)
    ensures NonEmpty([line] + lines) == (if line == "" then [] else [line]) + NonEmpty(lines)
  {
    assert ([line] + lines)[1..] == lines;
  }

  predicate NoEnds(line: string) {
    '\r' !in line && '\n' !in line
  }

  lemma CallReturnsNoEnds(data: string, v: View, o: nat)
    requires Within(v, |data|) && o <= |data|
    ensures NoEnds(GetLineOf(data, v, o).line)
  {
    hide Loaded;
    var w := Loaded(data, v, o);
    var start, end := w.buf0 + BackUp(data, w.buf0, o - w.buf0), EndOf(data, o, w.buf0 + w.buflen);
    hide BackUp, EndOf;
    assert forall m | start <= m < end :: !IsEnd(data[m]);
  }

  /** No string that is read has a line end in it, whether the lines fit or not. */
  lemma {:induction false} NoEndsAreRead(data: string, v: View, o: nat)
    requires Within(v, |data|) && o <= |data|
    ensures forall line | line in ReadFrom(data, v, o) :: NoEnds(line)
    decreases |data| - o
  {
    hide GetLineOf, NoEnds;
    if o < |data| {
      var g := GetLineOf(data, v, o);
      CallReturnsNoEnds(data, v, o);
      OneMoreLine(data, v, o);
      NoEndsAreRead(data, g.view, g.nextLine);
    }
  }

  lemma NoEndsInFile(data: string)
    ensures forall line | line in ReadAll(data) :: '\r' !in line && '\n' !in line
  {
    var g := GetLineOf(data, NOTHING, 0);
    CallReturnsNoEnds(data, NOTHING, 0);
    NoEndsAreRead(data, g.view, g.nextLine);
    hide ReadFrom, GetLineOf;
    forall line | line in ReadAll(data) ensures '\r' !in line && '\n' !in line {
      assert NoEnds(line);
    }
  }

  lemma ReadAllIsReadFrom(data: string)
    ensures NonEmpty(ReadAll(data)) == NonEmpty(ReadFrom(data, NOTHING, 0))
  {
    if data != "" {
      OneMoreLine(data, NOTHING, 0);
    }
  }

  // ---------------------------------------------------------------- a line that does not fit is read twice

  function Size(lines: seq<string>): nat {
    if lines == [] then 0 else |lines[0]| + Size(lines[1..])
  }

  /** The number of characters from `i` on that are not line ends. */
  function TextLength(data: string, i: nat): nat
    requires i <= |data|
    decreases |data| - i
  {
    if i == |data| then 0 else (if IsEnd(data[i]) then 0 else 1) + TextLength(data, i + 1)
  }

  lemma SizeOfMore(line: string, lines: seq<string>)
    ensures Size([line] + lines) == |line| + Size(lines)
  {
    assert ([line] + lines)[1..] == lines;
  }

  lemma {:induction false} SizeOfNonEmpty(lines: seq<string>)
    ensures Size(NonEmpty(lines)) == Size(lines)
  {
    if lines != [] {
      var rest := NonEmpty(lines[1..]);
      SizeOfNonEmpty(lines[1..]);
      if lines[0] == "" {
        assert NonEmpty(lines) == rest;
      } else {
        SizeOfMore(lines[0], rest);
      }
    }
  }

  lemma {:induction false} TextOfLine(data: string, i: nat, e: nat)
    requires Unbroken(data, i, e)
    ensures TextLength(data, i) == e - i + TextLength(data, e)
    decreases e - i
  {
    if i < e { TextOfLine(data, i + 1, e); }
  }

  lemma {:induction false} TextOfEnds(data: string, i: nat, e: nat)
    requires AllEnds(data, i, e)
    ensures TextLength(data, i) == TextLength(data, e)
    decreases e - i
  {
    if i < e { TextOfEnds(data, i + 1, e); }
  }

  /** The lines have all the text. */
  lemma {:induction false} SizeOfLines(data: string, i: nat)
    requires i <= |data|
    ensures Size(Lines(data, i)) == TextLength(data, i)
    decreases |data| - i
  {
    if i < |data| {
      if IsEnd(data[i]) {
        SizeOfLines(data, i + 1);
      } else {
        var e := EndOf(data, i, |data|);
        SizeOfLines(data, e);
        TextOfLine(data, i, e);
        SizeOfMore(data[i..e], Lines(data, e));
      }
    }
  }

  /** A call returns the text up to the next position, and the text before the offset that it goes back over. */
  lemma TextOfCall(data: string, v: View, o: nat)
    requires Within(v, |data|) && o <= |data|
    ensures
      var w, g := Loaded(data, v, o), GetLineOf(data, v, o);
      TextLength(data, o) + (o - w.buf0 - BackUp(data, w.buf0, o - w.buf0)) == |g.line| + TextLength(data, g.nextLine)
  {
    hide Loaded, BackUp, IsEnd, TextLength;
    var w := Loaded(data, v, o);
    var limit := w.buf0 + w.buflen;
    var end := EndOf(data, o, limit);
    TextOfLine(data, o, end);
    TextOfEnds(data, end, SkipEnds(data, end, limit));
  }

  lemma {:induction false} AllTextIsRead(data: string, v: View, o: nat)
    requires Within(v, |data|) && o <= |data|
    ensures Size(ReadFrom(data, v, o)) >= TextLength(data, o)
    decreases |data| - o
  {
    hide GetLineOf, TextLength, Loaded, BackUp;
    if o < |data| {
      var g := GetLineOf(data, v, o);
      OneMoreLine(data, v, o);
      TextOfCall(data, v, o);
      AllTextIsRead(data, g.view, g.nextLine);
      SizeOfMore(g.line, ReadFrom(data, g.view, g.nextLine));
    } else {
      NothingLeft(data, v);
      NoText(data);
    }
  }

  lemma NoText(data: string)
    ensures TextLength(data, |data|) == 0
  {
  }

  /** Inside a line, with an offset that has to be fetched, a call goes back. */
  lemma TextIsReadAgain(data: string, v: View, o: nat)
    requires Within(v, |data|) && v.buf0 + v.buflen <= o < |data| && o > BUFSIZE / 2 && !IsEnd(data[o - 1])
    ensures Size(ReadFrom(data, v, o)) > TextLength(data, o)
  {
    var g := GetLineOf(data, v, o);
    OneMoreLine(data, v, o);
    TextOfCall(data, v, o);
    AllTextIsRead(data, g.view, g.nextLine);
    SizeOfMore(g.line, ReadFrom(data, g.view, g.nextLine));
  }

  lemma LineGoesOn(data: string, o: nat, e: nat)
    requires o <= |data| && !EndIsNear(data, o) && o <= e <= Reach(o)
    ensures e < |data| && Unbroken(data, o, e) && EndOf(data, o, e) == e
  {
    assert Unbroken(data, o, EndOf(data, o, |data|));
    EndIs(data, o, e, e);
  }

  lemma LineIsCut(data: string, v: View, o: nat)
    requires Within(v, |data|) && v.buf0 + v.buflen <= Reach(o) && o < |data| && !EndIsNear(data, o)
    ensures
      var g := GetLineOf(data, v, o);
      g.view == Fetched(|data|, o) && g.nextLine == Reach(o) < |data| && !IsEnd(data[Reach(o) - 1])
  {
    var limit := Reach(o);
    LineGoesOn(data, o, limit);
    assert !IsEnd(data[limit - 1]);
    IsFetched(data, v, o);
    hide EndOf, BackUp, Unbroken, AllEnds, EndIsNear, IsEnd, Loaded;
    NothingToSkip(data, limit);
  }

  lemma IsFetched(data: string, v: View, o: nat)
    requires Within(v, |data|) && v.buf0 + v.buflen <= Reach(o) && o < |data| && !EndIsNear(data, o)
    ensures Loaded(data, v, o) == Fetched(|data|, o)
  {
    if o < v.buf0 + v.buflen {
      LineGoesOn(data, o, v.buf0 + v.buflen);
    }
    hide EndOf, Unbroken, EndIsNear, IsEnd;
  }

  lemma NothingToSkip(data: string, limit: nat)
    requires limit <= |data|
    ensures SkipEnds(data, limit, limit) == limit
  {
  }

  /** From the start of a line that does not fit, only what is in the buffer is returned, and the rest is read from
      inside the line. */
  lemma CutLineIsReadAgain(data: string, v: View, o: nat)
    requires Within(v, |data|) && v.buf0 + v.buflen <= Reach(o) && o < |data| && !EndIsNear(data, o)
    ensures Size(ReadFrom(data, v, o)) > TextLength(data, o)
  {
    hide TextLength, GetLineOf, EndIsNear, EndOf;
    var g, limit := GetLineOf(data, v, o), Reach(o);
    LineIsCut(data, v, o);
    OneMoreLine(data, v, o);
    TextOfCall(data, v, o);
    TextIsReadAgain(data, g.view, limit);
    SizeOfMore(g.line, ReadFrom(data, g.view, limit));
  }

  /** Reading a line that fits does not go beyond the start of a later line. */
  lemma NextIsBefore(data: string, v: View, o: nat, x: nat)
    requires Within(v, |data|) && v.buf0 + v.buflen <= Reach(o) && o < x < |data| && EndIsNear(data, o)
    requires LineStart(data, o) && LineStart(data, x) && !IsEnd(data[x])
    ensures
      var g := GetLineOf(data, v, o);
      g.nextLine <= x && LineStart(data, g.nextLine) && g.view.buf0 + g.view.buflen <= Reach(g.nextLine)
  {
    hide EndOf, SkipEnds, BackUp, Lines, EndIsNear;
    LineEndsInBuffer(data, v, o);
    LineIsRead(data, v, o);
    var end := EndOf(data, o, |data|);
    assert end <= x - 1;
  }

  /** If some line does not fit, more text is read than the file has. */
  lemma {:induction false} TooMuchIsRead(data: string, v: View, o: nat, x: nat)
    requires Within(v, |data|) && v.buf0 + v.buflen <= Reach(o) && o <= x < |data|
    requires LineStart(data, o) && LineStart(data, x) && !EndIsNear(data, x)
    ensures Size(ReadFrom(data, v, o)) > TextLength(data, o)
    decreases |data| - o
  {
    assert !IsEnd(data[x]);
    hide GetLineOf, TextLength, EndIsNear, LineStart, Loaded, BackUp;
    if EndIsNear(data, o) {
      var g := GetLineOf(data, v, o);
      NextIsBefore(data, v, o, x);
      OneMoreLine(data, v, o);
      TooMuchIsRead(data, g.view, g.nextLine, x);
      TextOfCall(data, v, o);
      SizeOfMore(g.line, ReadFrom(data, g.view, g.nextLine));
    } else {
      CutLineIsReadAgain(data, v, o);
    }
  }

  /** A file is read as its lines exactly if its lines fit. */
  lemma ReadAllIsLines(data: string)
    ensures NonEmpty(ReadAll(data)) == Lines(data, 0) <==> LinesFit(data)
  {
    ReadAllIsReadFrom(data);
    hide ReadAll, EndIsNear, TextLength, Lines;
    if LinesFit(data) {
      ReadFromIsLines(data, NOTHING, 0);
    } else {
      var x: nat :| x < |data| && LineStart(data, x) && !EndIsNear(data, x);
      TooMuchIsRead(data, NOTHING, 0, x);
      SizeOfNonEmpty(ReadFrom(data, NOTHING, 0));
      SizeOfLines(data, 0);
    }
  }

  lemma ShortLinesFit(data: string)
    requires LinesUpTo(data, BUFSIZE / 2 - 1)
    ensures LinesFit(data)
  {
    hide EndIsNear, LinesUpTo, LineStart;
    forall o | 0 <= o < |data| && LineStart(data, o) ensures EndIsNear(data, o) {
      ShortIsNear(data, o);
    }
  }

  // ---------------------------------------------------------------- longer lines may be read twice

  /** A line of 511 and a line of 512 characters. */
  function LongFile(): (data: string)
    ensures |data| == 1025
  {
    seq(511, _ => 'a') + "\n" + seq(512, _ => 'b') + "\n"
  }

  lemma LongFileShape()
    ensures
      var data := LongFile();
      && Unbroken(data, 0, 511) && IsEnd(data[511])
      && Unbroken(data, 512, 1024) && IsEnd(data[1024])
  {
  }

  lemma LongFileLines()
    ensures LinesUpTo(LongFile(), 512)
    ensures |Lines(LongFile(), 0)| == 2
  {
    var data := LongFile();
    LongFileShape();
    hide LongFile;
    EndIs(data, 0, 511, 1025);
    EndIs(data, 512, 1024, 1025);
    assert Lines(data, 1025) == [] && Lines(data, 1024) == [] && |Lines(data, 512)| == 1 && |Lines(data, 511)| == 1;
  }

  const ALL := View(0, 1024)
  const SECOND := View(512, 513)

  lemma LongFileFirst()
    ensures GetLineOf(LongFile(), NOTHING, 0) == Got(ALL, LongFile()[0..511], 512)
  {
    LongFileShape();
    hide LongFile;
    EndIs(LongFile(), 0, 511, 1024);
  }

  lemma LongFileSecond()
    ensures GetLineOf(LongFile(), ALL, 512) == Got(ALL, LongFile()[512..1024], 1024)
  {
    LongFileShape();
    hide LongFile;
    EndIs(LongFile(), 512, 1024, 1024);
  }

  lemma LongFileThird()
    ensures GetLineOf(LongFile(), ALL, 1024) == Got(SECOND, LongFile()[513..1024], 1025)
  {
    LongFileShape();
    LongFileBackUp();
    hide LongFile, BackUp;
    EndIs(LongFile(), 1024, 1024, 1025);
    assert Loaded(LongFile(), ALL, 1024) == SECOND;
    hide Loaded;
    assert SkipEnds(LongFile(), 1024, 1025) == 1025;
  }

  lemma LongFileBackUp()
    ensures BackUp(LongFile(), 512, 512) == 1
  {
    LongFileShape();
    hide LongFile;
  }

  /** The second line is returned, and then all of it but its first character once more. */
  lemma LongFileIsRead()
    ensures NonEmpty(ReadAll(LongFile())) == [LongFile()[0..511], LongFile()[512..1024], LongFile()[513..1024]]
  {
    var data := LongFile();
    LongFileFirst();
    LongFileSecond();
    LongFileThird();
    hide GetLineOf, LongFile;
    assert ReadFrom(data, ALL, 512) == [data[512..1024]] + ([data[513..1024]] + ReadFrom(data, SECOND, 1025));
    NonEmptyOfMore(data[0..511], ReadFrom(data, ALL, 512));
    NonEmptyOfMore(data[512..1024], [data[513..1024]] + ReadFrom(data, SECOND, 1025));
    NonEmptyOfMore(data[513..1024], ReadFrom(data, SECOND, 1025));
  }

  /** The longest lines that are always read correctly: shorter than half the buffer, not shorter than the buffer. */
  lemma LongestLine(n: nat)
    ensures (forall data: string | LinesUpTo(data, n) :: NonEmpty(ReadAll(data)) == Lines(data, 0)) <==> n < 512
  {
    hide ReadAll, Lines, LongFile;
    if n < BUFSIZE / 2 {
      forall data: string | LinesUpTo(data, n) ensures NonEmpty(ReadAll(data)) == Lines(data, 0) {
        ShortLinesFit(data);
        ReadAllIsLines(data);
      }
    } else {
      LongFileLines();
      LongFileIsRead();
      assert LinesUpTo(LongFile(), n);
    }
  }

  // ---------------------------------------------------------------- the line at any offset

  /** The first character of the line that contains offset `o`. */
  function StartOf(data: string, o: nat): (s: nat)
    requires o <= |data|
    ensures s <= o && Unbroken(data, s, o) && LineStart(data, s)
  {
    if LineStart(data, o) then o else StartOf(data, o - 1)
  }

  function LineAt(data: string, o: nat): string
    requires o < |data|
  {
    data[StartOf(data, o)..EndOf(data, o, |data|)]
  }

  /** Going back stops at the start of the line, or at the second character of the buffer. */
  lemma {:induction false} BackUpFinds(data: string, buf0: nat, i: nat)
    requires buf0 + i <= |data| && i >= 1
    ensures
      var start := StartOf(data, buf0 + i);
      buf0 + BackUp(data, buf0, i) == if start > buf0 then start else buf0 + 1
  {
    if !LineStart(data, buf0 + i) && i > 1 {
      BackUpFinds(data, buf0, i - 1);
    }
  }

  /** `getline` returns the line that contains the offset exactly when the offset starts its line, or the line starts
      behind the first character of the buffer. */
  lemma GetLineIsLineAt(data: string, v: View, o: nat)
    requires Within(v, |data|) && o < |data| && !IsEnd(data[o]) && LinesUpTo(data, BUFSIZE / 2 - 1)
    ensures GetLineOf(data, v, o).line == LineAt(data, o)
       <==> LineStart(data, o) || Loaded(data, v, o).buf0 < StartOf(data, o)
  {
    hide Loaded, LinesUpTo, BackUp, EndOf, StartOf, Unbroken, IsEnd, GetLineOf, SkipEnds, AllEnds, LineStart;
    var w := Loaded(data, v, o);
    LineIs(data, v, o);
    ShortIsNear(data, o);
    LineEndsInBuffer(data, v, o);
    StartIsFound(data, w.buf0, o);
    SameSuffix(data, w.buf0 + BackUp(data, w.buf0, o - w.buf0), StartOf(data, o), EndOf(data, o, |data|));
  }

  lemma StartIsFound(data: string, buf0: nat, o: nat)
    requires buf0 <= o <= |data|
    ensures buf0 + BackUp(data, buf0, o - buf0) == StartOf(data, o) <==> LineStart(data, o) || buf0 < StartOf(data, o)
  {
    StartsItself(data, o);
    if o > buf0 {
      BackUpFinds(data, buf0, o - buf0);
    } else {
      NoWayBack(data, buf0);
    }
  }

  lemma LineIs(data: string, v: View, o: nat)
    requires Within(v, |data|) && o <= |data|
    ensures
      var w := Loaded(data, v, o);
      var end := EndOf(data, o, w.buf0 + w.buflen);
      GetLineOf(data, v, o)
        == Got(w, data[w.buf0 + BackUp(data, w.buf0, o - w.buf0)..end], SkipEnds(data, end, w.buf0 + w.buflen))
  {
    hide EndOf, SkipEnds, BackUp, Loaded, Unbroken, AllEnds, IsEnd;
  }

  lemma SameSuffix(data: string, a: nat, b: nat, e: nat)
    requires a <= e <= |data| && b <= e
    ensures data[a..e] == data[b..e] <==> a == b
  {
    assert |data[a..e]| == e - a && |data[b..e]| == e - b;
  }

  lemma StartsItself(data: string, o: nat)
    requires o <= |data|
    ensures LineStart(data, o) <==> StartOf(data, o) == o
  {
  }

  lemma NoWayBack(data: string, buf0: nat)
    requires buf0 <= |data|
    ensures BackUp(data, buf0, 0) == 0
  {
  }

  /** The first call on a new reader returns the line that contains the offset, except inside the first line of the
      file. */
  lemma FirstGetLine(data: string, o: nat)
    requires o < |data| && !IsEnd(data[o]) && LinesUpTo(data, BUFSIZE / 2 - 1)
    ensures GetLineOf(data, NOTHING, o).line == LineAt(data, o) <==> o == 0 || StartOf(data, o) > 0
  {
    GetLineIsLineAt(data, NOTHING, o);
    if StartOf(data, o) < o {
      assert Unbroken(data, StartOf(data, o), o) ==> o - StartOf(data, o) < BUFSIZE / 2;
    }
  }

  // ---------------------------------------------------------------- the object

  lemma SliceOfBuffer(data: string, buf0: nat, buflen: nat, i: nat, j: nat)
    requires buf0 + buflen <= |data| && i <= j <= buflen
    ensures data[buf0..buf0 + buflen][i..j] == data[buf0 + i..buf0 + j]
  {
    var s, t := data[buf0..buf0 + buflen][i..j], data[buf0 + i..buf0 + j];
    assert forall m | 0 <= m < j - i :: s[m] == data[buf0 + i + m];
    assert s == t;
  }

  lemma SliceOfSlice(s: string, n: nat, i: nat, j: nat)
    requires i <= j <= n <= |s|
    ensures s[..n][i..j] == s[i..j]
  {
  }

  class RDSFile {
    /** The file. */
    const data: string
    const buf: array<char>
    var buf0: nat
    var buflen: nat
    var nextLinePos: nat

    ghost predicate Valid()
      reads this, buf
    {
      && buf.Length == BUFSIZE
      && Within(View(buf0, buflen), |data|)
      && nextLinePos <= |data|
      && buf[..buflen] == data[buf0..buf0 + buflen]
    }

    constructor (data: string)
      ensures Valid() && fresh(buf) && this.data == data
      ensures View(buf0, buflen) == NOTHING && nextLinePos == 0
    {
      this.data := data;
      buf := new char[BUFSIZE](_ => '\0');
      buf0, buflen, nextLinePos := 0, 0, 0;
    }

    /** `read`. */
    method Fetch()
      requires buf.Length == BUFSIZE && Within(View(buf0, buflen), |data|)
      modifies buf
      ensures buf[..buflen] == data[buf0..buf0 + buflen]
    {
      forall i | 0 <= i < buflen {
        buf[i] := data[buf0 + i];
      }
    }

    method HasEnd(offset: nat) returns (found: bool)
      requires Valid() && buf0 <= offset < buf0 + buflen
      ensures found == (EndOf(data, offset, buf0 + buflen) < buf0 + buflen)
    {
      ghost var limit := buf0 + buflen;
      found := false;
      var i := offset - buf0;
      while i < buflen
        invariant offset - buf0 <= i <= buflen && Unbroken(data, offset, buf0 + i)
      {
        assert buf[..buflen][i] == data[buf0 + i];
        if buf[i] == '\r' || buf[i] == '\n' {
          EndIs(data, offset, buf0 + i, limit);
          return true;
        }
        i := i + 1;
      }
      EndIs(data, offset, limit, limit);
    }

    method LoadBuffer(offset: nat)
      requires Valid() && offset <= |data|
      modifies `buf0, `buflen, buf
      ensures Valid() && View(buf0, buflen) == Loaded(data, old(View(buf0, buflen)), offset)
      ensures buf0 <= offset <= buf0 + buflen
    {
      if buf0 <= offset < buf0 + buflen {
        var found := HasEnd(offset);
        if found { return; }
      }
      buf0 := if offset > BUFSIZE / 2 then offset - BUFSIZE / 2 else 0;
      buflen := if |data| - buf0 > BUFSIZE then BUFSIZE else |data| - buf0;
      Fetch();
    }

    /** The loop that goes back to the start of the line. */
    method FindStart(offset: nat) returns (lineStart: nat)
      requires Valid() && buf0 <= offset <= buf0 + buflen
      ensures lineStart == BackUp(data, buf0, offset - buf0)
    {
      lineStart := offset - buf0;
      while lineStart > 1 && buf[lineStart - 1] != '\n' && buf[lineStart - 1] != '\r'
        invariant lineStart <= offset - buf0
        invariant BackUp(data, buf0, lineStart) == BackUp(data, buf0, offset - buf0)
      {
        assert buf[..buflen][lineStart - 1] == data[buf0 + (lineStart - 1)];
        lineStart := lineStart - 1;
      }
      if lineStart > 1 {
        assert buf[..buflen][lineStart - 1] == data[buf0 + (lineStart - 1)];
      }
    }

    /** The loop that goes on to the end of the line. */
    method FindEnd(offset: nat) returns (lineEnd: nat)
      requires Valid() && buf0 <= offset <= buf0 + buflen
      ensures buf0 + lineEnd == EndOf(data, offset, buf0 + buflen)
    {
      lineEnd := offset - buf0;
      while lineEnd < buflen && buf[lineEnd] != '\n' && buf[lineEnd] != '\r'
        invariant offset - buf0 <= lineEnd <= buflen
        invariant EndOf(data, buf0 + lineEnd, buf0 + buflen) == EndOf(data, offset, buf0 + buflen)
      {
        assert buf[..buflen][lineEnd] == data[buf0 + lineEnd];
        lineEnd := lineEnd + 1;
      }
      if lineEnd < buflen {
        assert buf[..buflen][lineEnd] == data[buf0 + lineEnd];
      }
    }

    /** The loop over the line ends behind the line. */
    method FindNext(lineEnd: nat) returns (next: nat)
      requires Valid() && lineEnd <= buflen
      ensures next == SkipEnds(data, buf0 + lineEnd, buf0 + buflen)
    {
      next := lineEnd + buf0;
      while next - buf0 < buflen && (buf[next - buf0] == '\n' || buf[next - buf0] == '\r')
        invariant buf0 + lineEnd <= next <= buf0 + buflen
        invariant SkipEnds(data, next, buf0 + buflen) == SkipEnds(data, buf0 + lineEnd, buf0 + buflen)
      {
        assert buf[..buflen][next - buf0] == data[buf0 + (next - buf0)];
        next := next + 1;
      }
      if next - buf0 < buflen {
        assert buf[..buflen][next - buf0] == data[buf0 + (next - buf0)];
      }
    }

    method GetLine(offset: nat) returns (line: string)
      requires Valid() && offset <= |data|
      modifies this, buf
      ensures Valid()
      ensures Got(View(buf0, buflen), line, nextLinePos) == GetLineOf(data, old(View(buf0, buflen)), offset)
    {
      hide Loaded, LineIn;
      LoadBuffer(offset);
      line := LineInBuffer(offset);
    }

    /** The part of `getline` behind the loading of the buffer. */
    method LineInBuffer(offset: nat) returns (line: string)
      requires Valid() && buf0 <= offset <= buf0 + buflen
      modifies `nextLinePos
      ensures Valid()
      ensures Got(View(buf0, buflen), line, nextLinePos) == LineIn(data, View(buf0, buflen), offset)
    {
      hide LineIn;
      var next;
      line, next := LineAround(offset);
      nextLinePos := next;
    }

    method LineAround(offset: nat) returns (line: string, next: nat)
      requires Valid() && buf0 <= offset <= buf0 + buflen
      ensures Got(View(buf0, buflen), line, next) == LineIn(data, View(buf0, buflen), offset)
    {
      hide EndOf, SkipEnds, BackUp, Unbroken, AllEnds, IsEnd, RDSFile.Valid;
      var lineStart := FindStart(offset);
      var lineEnd := FindEnd(offset);
      line := Text(lineStart, lineEnd);
      next := FindNext(lineEnd);
    }

    method Text(lineStart: nat, lineEnd: nat) returns (line: string)
      requires Valid() && lineStart <= lineEnd <= buflen
      ensures line == data[buf0 + lineStart..buf0 + lineEnd]
    {
      line := buf[lineStart..lineEnd];
      SliceOfSlice(buf[..], buflen, lineStart, lineEnd);
      SliceOfBuffer(data, buf0, buflen, lineStart, lineEnd);
    }

    method NextLine() returns (line: string)
      requires Valid()
      modifies this, buf
      ensures Valid()
      ensures Got(View(buf0, buflen), line, nextLinePos) == GetLineOf(data, old(View(buf0, buflen)), old(nextLinePos))
    {
      line := GetLine(nextLinePos);
    }
  }

  /** All lines of a file, as a program reads them. */
  method ReadLines(data: string) returns (lines: seq<string>)
    ensures lines == ReadAll(data)
    ensures NonEmpty(lines) == Lines(data, 0) <==> LinesFit(data)
    ensures forall line | line in lines :: '\r' !in line && '\n' !in line
  {
    NoEndsInFile(data);
    hide GetLineOf, ReadFrom, LinesUpTo, NonEmpty, Lines, Unbroken, IsEnd;
    var r := new RDSFile(data);
    var line := r.GetLine(0);
    var rest := ReadRest(r);
    lines := [line] + rest;
    ReadAllIsLines(data);
  }

  /** `nextline` up to the end of the file. */
  method ReadRest(r: RDSFile) returns (lines: seq<string>)
    requires r.Valid()
    modifies r, r.buf
    ensures r.Valid() && lines == ReadFrom(r.data, old(View(r.buf0, r.buflen)), old(r.nextLinePos))
  {
    hide GetLineOf, ReadFrom, LinesUpTo, NonEmpty, Lines, Unbroken, IsEnd;
    ghost var all := ReadFrom(r.data, View(r.buf0, r.buflen), r.nextLinePos);
    lines := [];
    while r.nextLinePos < |r.data|
      invariant r.Valid()
      invariant lines + ReadFrom(r.data, View(r.buf0, r.buflen), r.nextLinePos) == all
      decreases |r.data| - r.nextLinePos
    {
      OneMoreLine(r.data, View(r.buf0, r.buflen), r.nextLinePos);
      var line := r.NextLine();
      lines := lines + [line];
    }
    NothingLeft(r.data, View(r.buf0, r.buflen));
  }
}
