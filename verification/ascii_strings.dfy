/**
 * The debug view of a Litho buffer: every run of printable ASCII bytes of
 * at least four characters, each followed by a delimiter character.
 *
 * `Runs` splits a buffer at its non-printable bytes and `Extract` is the
 * reference text.  `FindAsciiStrings` is the scan as the source writes it,
 * which drops the buffer's final byte; `FindAsciiStringsCorrected` is the
 * scan with that byte kept.
 */
module AsciiStrings {
  import opened Common

  const MinimumAscii := 32
  const MaximumAscii := 126
  const MinimumLength := 4
  /** U+2759, a non-ASCII separator that is easy to search for in logs. */
  const Delimiter: string := "\U{2759}"

  /** A Java byte, read as a signed value, is a visible ASCII character or a space. */
  predicate Printable(b: Byte)
  {
    MinimumAscii <= Signed(b) <= MaximumAscii
  }

  /** The printable bytes of `s`, in order. */
  function Kept(s: seq<Byte>): seq<Byte>
    decreases |s|
  {
    if |s| == 0 then []
    else Kept(s[..|s| - 1]) + (if Printable(s[|s| - 1]) then [s[|s| - 1]] else [])
  }

  /** The number of non-printable bytes of `s`. */
  function Breaks(s: seq<Byte>): nat
    decreases |s|
  {
    if |s| == 0 then 0
    else Breaks(s[..|s| - 1]) + (if Printable(s[|s| - 1]) then 0 else 1)
  }

  function Flatten(rs: seq<seq<Byte>>): seq<Byte>
    decreases |rs|
  {
    if |rs| == 0 then [] else Flatten(rs[..|rs| - 1]) + rs[|rs| - 1]
  }

  lemma FlattenAppendToLast(rs: seq<seq<Byte>>, b: Byte)
    requires |rs| > 0
    ensures Flatten(rs[..|rs| - 1] + [rs[|rs| - 1] + [b]]) == Flatten(rs) + [b]
  {
    var init, last := rs[..|rs| - 1], rs[|rs| - 1];
    var rs' := init + [last + [b]];
    assert rs'[..|rs'| - 1] == init && rs'[|rs'| - 1] == last + [b];
    assert Flatten(rs) == Flatten(init) + last;
  }

  /** The maximal printable runs of `s`: a new run starts after each
      non-printable byte. */
  function Runs(s: seq<Byte>): (rs: seq<seq<Byte>>)
    ensures |rs| >= 1
    decreases |s|
  {
    if |s| == 0 then [[]]
    else
      var rs := Runs(s[..|s| - 1]);
      var b := s[|s| - 1];
      if Printable(b) then rs[..|rs| - 1] + [rs[|rs| - 1] + [b]] else rs + [[]]
  }

  /** A buffer has one run more than it has non-printable bytes. */
  lemma {:induction false} RunsCount(s: seq<Byte>)
    ensures |Runs(s)| == Breaks(s) + 1
    decreases |s|
  {
    if |s| > 0 {
      RunsCount(s[..|s| - 1]);
    }
  }

  /** Laid end to end, the runs hold exactly the printable bytes, in order. */
  lemma {:induction false} RunsKeepPrintable(s: seq<Byte>)
    ensures Flatten(Runs(s)) == Kept(s)
    decreases |s|
  {
    if |s| > 0 {
      var rs := Runs(s[..|s| - 1]);
      RunsKeepPrintable(s[..|s| - 1]);
      if Printable(s[|s| - 1]) {
        FlattenAppendToLast(rs, s[|s| - 1]);
      } else {
        assert (rs + [[]])[..|rs|] == rs;
      }
    }
  }

  /** No run holds a non-printable byte. */
  lemma {:induction false} RunsArePrintable(s: seq<Byte>)
    ensures forall i, j :: 0 <= i < |Runs(s)| && 0 <= j < |Runs(s)[i]| ==> Printable(Runs(s)[i][j])
    decreases |s|
  {
    if |s| > 0 {
      RunsArePrintable(s[..|s| - 1]);
    }
  }

  /** The run still open at the end of `s`. */
  function Open(s: seq<Byte>): seq<Byte>
  {
    Runs(s)[|Runs(s)| - 1]
  }

  /** A byte run as characters. */
  function Text(run: seq<Byte>): (t: string)
    ensures |t| == |run|
    ensures forall i :: 0 <= i < |run| ==> t[i] as int == run[i]
  {
    seq(|run|, i requires 0 <= i < |run| => run[i] as char)
  }

  /** What one run contributes: its text and a delimiter, when long enough. */
  function Emit(run: seq<Byte>): string
  {
    if |run| >= MinimumLength then Text(run) + Delimiter else ""
  }

  function EmitAll(rs: seq<seq<Byte>>): string
    decreases |rs|
  {
    if |rs| == 0 then "" else EmitAll(rs[..|rs| - 1]) + Emit(rs[|rs| - 1])
  }

  /** The reference text of a buffer. */
  function Extract(s: seq<Byte>): string
  {
    EmitAll(Runs(s))
  }

  /** The text of the runs of `s` that a break has already closed. */
  function Closed(s: seq<Byte>): string
  {
    EmitAll(Runs(s)[..|Runs(s)| - 1])
  }

  /** Before the first byte nothing is closed and the open run is empty. */
  lemma StepStart(s: seq<Byte>)
    requires |s| == 0
    ensures Closed(s) == "" && Open(s) == [] && Extract(s) == ""
  {
  }

  /** A printable byte extends the open run. */
  lemma StepPrintable(s: seq<Byte>, b: Byte, text: string, run: seq<Byte>)
    requires Printable(b) && text == Closed(s) && run == Open(s)
    ensures text == Closed(s + [b]) && run + [b] == Open(s + [b])
  {
    assert (s + [b])[..|s|] == s;
    var rs := Runs(s);
    assert Runs(s + [b])[..|rs| - 1] == rs[..|rs| - 1];
  }

  /** A non-printable byte closes the open run and starts an empty one. */
  lemma StepBreak(s: seq<Byte>, b: Byte, text: string, run: seq<Byte>)
    requires !Printable(b) && text == Closed(s) && run == Open(s)
    ensures text + Emit(run) == Closed(s + [b]) && [] == Open(s + [b])
  {
    assert (s + [b])[..|s|] == s;
    var rs := Runs(s);
    assert Runs(s + [b]) == rs + [[]];
    assert (rs + [[]])[..|rs|] == rs;
  }

  /** Closing the open run yields the whole text. */
  lemma StepEnd(s: seq<Byte>, text: string, run: seq<Byte>)
    requires text == Closed(s) && run == Open(s)
    ensures text + Emit(run) == Extract(s)
  {
  }

  /** The conditional append of the scans is `Emit`. */
  lemma AppendIsEmit(text: string, run: seq<Byte>, text': string)
    requires text' == if |run| >= MinimumLength then text + Text(run) + Delimiter else text
    ensures text' == text + Emit(run)
  {
  }

  /** The state of the as-written scan after looking at `buffer[..end]`:
      before the last byte, `text` holds the closed runs and `start` marks
      the open one; once past it, `text` is the reference text of the buffer
      without its last byte. */
  ghost predicate AsWrittenState(buffer: seq<Byte>, start: int, end: int, text: string)
  {
    && 0 <= start <= end <= |buffer|
    && (|buffer| == 0 ==> text == "")
    && (end < |buffer| ==> buffer[start..end] == Open(buffer[..end]) && text == Closed(buffer[..end]))
    && (end == |buffer| > 0 ==> text == Extract(buffer[..|buffer| - 1]))
  }

  /** A non-printable byte before the last one closes the open run. */
  lemma AsWrittenCut(buffer: seq<Byte>, start: int, end: int, text: string, text': string)
    requires AsWrittenState(buffer, start, end, text) && end < |buffer| - 1
    requires !Printable(buffer[end])
    requires text' == if end - start >= MinimumLength then text + Text(buffer[start..end]) + Delimiter else text
    ensures AsWrittenState(buffer, end + 1, end + 1, text')
  {
    AppendIsEmit(text, buffer[start..end], text');
    var prefix := buffer[..end];
    assert buffer[..end + 1] == prefix + [buffer[end]];
    StepBreak(prefix, buffer[end], text, buffer[start..end]);
  }

  /** The last byte closes the open run without joining it. */
  lemma AsWrittenLast(buffer: seq<Byte>, start: int, end: int, text: string, text': string)
    requires AsWrittenState(buffer, start, end, text) && end == |buffer| - 1
    requires text' == if end - start >= MinimumLength then text + Text(buffer[start..end]) + Delimiter else text
    ensures AsWrittenState(buffer, end + 1, end + 1, text')
  {
    AppendIsEmit(text, buffer[start..end], text');
    StepEnd(buffer[..end], text, buffer[start..end]);
  }

  lemma AsWrittenExtend(buffer: seq<Byte>, start: int, end: int, text: string)
    requires AsWrittenState(buffer, start, end, text) && end < |buffer| - 1
    requires Printable(buffer[end])
    ensures AsWrittenState(buffer, start, end + 1, text)
  {
    var prefix := buffer[..end];
    assert buffer[..end + 1] == prefix + [buffer[end]];
    StepPrintable(prefix, buffer[end], text, buffer[start..end]);
    assert buffer[start..end + 1] == buffer[start..end] + [buffer[end]];
  }

  /** One iteration of the as-written scan, looking at `buffer[end]`. */
  method AsWrittenStep(buffer: seq<Byte>, start: int, end: int, text: string) returns (start': int, text': string)
    requires AsWrittenState(buffer, start, end, text) && end < |buffer|
    ensures AsWrittenState(buffer, start', end + 1, text')
  {
    var value := Signed(buffer[end]);
    if value < MinimumAscii || value > MaximumAscii || end == |buffer| - 1 {
      text' := text;
      if end - start >= MinimumLength {
        text' := text + Text(buffer[start..end]) + Delimiter;
      }
      if end == |buffer| - 1 {
        AsWrittenLast(buffer, start, end, text, text');
      } else {
        AsWrittenCut(buffer, start, end, text, text');
      }
      start' := end + 1;
    } else {
      AsWrittenExtend(buffer, start, end, text);
      start', text' := start, text;
    }
  }

  /** The scan as written: a run is cut at a non-printable byte and at the
      last byte, and in both cases the cutting byte itself is left out. */
  method FindAsciiStrings(buffer: seq<Byte>) returns (text: string)
    ensures |buffer| == 0 ==> text == ""
    ensures |buffer| > 0 ==> text == Extract(buffer[..|buffer| - 1])
  {
    text := "";
    var start, end := 0, 0;
    StepStart(buffer[..0]);
    while end < |buffer|
      invariant AsWrittenState(buffer, start, end, text)
    {
      start, text := AsWrittenStep(buffer, start, end, text);
      end := end + 1;
    }
  }

  /** The state of the corrected scan: `text` holds the closed runs and
      `start` marks the open one; once past the end, `text` is the whole
      reference text. */
  ghost predicate CorrectedState(buffer: seq<Byte>, start: int, end: int, text: string)
  {
    && 0 <= start <= end <= |buffer|
    && (end < |buffer| ==> buffer[start..end] == Open(buffer[..end]) && text == Closed(buffer[..end]))
    && (end == |buffer| ==> text == Extract(buffer))
  }

  lemma CorrectedBreak(buffer: seq<Byte>, start: int, end: int, text: string, text': string)
    requires CorrectedState(buffer, start, end, text) && end < |buffer|
    requires !Printable(buffer[end])
    requires text' == if end - start >= MinimumLength then text + Text(buffer[start..end]) + Delimiter else text
    ensures CorrectedState(buffer, end + 1, end + 1, text')
  {
    AppendIsEmit(text, buffer[start..end], text');
    var prefix := buffer[..end];
    assert buffer[..end + 1] == prefix + [buffer[end]];
    StepBreak(prefix, buffer[end], text, buffer[start..end]);
    if end == |buffer| - 1 {
      assert buffer[..end + 1] == buffer;
      StepEnd(buffer, text', []);
    }
  }

  lemma CorrectedFinal(buffer: seq<Byte>, start: int, end: int, text: string, text': string)
    requires CorrectedState(buffer, start, end, text) && end == |buffer| - 1
    requires Printable(buffer[end])
    requires text' == if end + 1 - start >= MinimumLength then text + Text(buffer[start..end + 1]) + Delimiter else text
    ensures CorrectedState(buffer, end + 1, end + 1, text')
  {
    var prefix, run, b := buffer[..end], buffer[start..end], buffer[end];
    assert text == Closed(prefix) && run == Open(prefix);
    assert buffer == prefix + [b];
    StepPrintable(prefix, b, text, run);
    assert buffer[start..end + 1] == run + [b];
    AppendIsEmit(text, run + [b], text');
    StepEnd(buffer, text, run + [b]);
  }

  lemma CorrectedExtend(buffer: seq<Byte>, start: int, end: int, text: string)
    requires CorrectedState(buffer, start, end, text) && end < |buffer| - 1
    requires Printable(buffer[end])
    ensures CorrectedState(buffer, start, end + 1, text)
  {
    var prefix := buffer[..end];
    assert buffer[..end + 1] == prefix + [buffer[end]];
    StepPrintable(prefix, buffer[end], text, buffer[start..end]);
    assert buffer[start..end + 1] == buffer[start..end] + [buffer[end]];
  }

  /** One iteration of the corrected scan, looking at `buffer[end]`. */
  method CorrectedStep(buffer: seq<Byte>, start: int, end: int, text: string) returns (start': int, text': string)
    requires CorrectedState(buffer, start, end, text) && end < |buffer|
    ensures CorrectedState(buffer, start', end + 1, text')
  {
    var value := Signed(buffer[end]);
    var printable := MinimumAscii <= value <= MaximumAscii;
    if !printable || end == |buffer| - 1 {
      var stop := if printable then end + 1 else end;
      text' := text;
      if stop - start >= MinimumLength {
        text' := text + Text(buffer[start..stop]) + Delimiter;
      }
      if printable {
        CorrectedFinal(buffer, start, end, text, text');
      } else {
        CorrectedBreak(buffer, start, end, text, text');
      }
      start' := end + 1;
    } else {
      CorrectedExtend(buffer, start, end, text);
      start', text' := start, text;
    }
  }

  /** The scan with the final byte kept when it is printable. */
  method FindAsciiStringsCorrected(buffer: seq<Byte>) returns (text: string)
    ensures text == Extract(buffer)
  {
    text := "";
    var start, end := 0, 0;
    StepStart(buffer[..0]);
    if |buffer| == 0 {
      StepStart(buffer);
    }
    while end < |buffer|
      invariant CorrectedState(buffer, start, end, text)
    {
      start, text := CorrectedStep(buffer, start, end, text);
      end := end + 1;
    }
  }

  /** The two scans agree whenever the buffer ends in a non-printable byte. */
  lemma ScansAgreeAfterTrailingBreak(buffer: seq<Byte>)
    requires |buffer| > 0 && !Printable(buffer[|buffer| - 1])
    ensures Extract(buffer[..|buffer| - 1]) == Extract(buffer)
  {
    var s := buffer[..|buffer| - 1];
    assert buffer == s + [buffer[|buffer| - 1]];
    StepEnd(s, Closed(s), Open(s));
    StepBreak(s, buffer[|buffer| - 1], Closed(s), Open(s));
    StepEnd(buffer, Closed(buffer), Open(buffer));
  }

  /** A buffer of printable bytes is a single run. */
  lemma {:induction false} PrintableBufferIsOneRun(s: seq<Byte>)
    requires forall i :: 0 <= i < |s| ==> Printable(s[i])
    ensures Extract(s) == Emit(s)
    ensures Closed(s) == "" && Open(s) == s
    decreases |s|
  {
    if |s| == 0 {
      StepStart(s);
    } else {
      var prefix := s[..|s| - 1];
      PrintableBufferIsOneRun(prefix);
      assert s == prefix + [s[|s| - 1]];
      StepPrintable(prefix, s[|s| - 1], "", prefix);
      StepEnd(s, "", s);
    }
  }

  /** Any buffer of four printable bytes, "abcd" among them: the as-written
      scan (the reference text of all but the last byte) reports nothing,
      while the corrected scan reports the word and a delimiter. */
  lemma AsWrittenDropsFinalCharacter(word: seq<Byte>)
    requires |word| == MinimumLength
    requires forall i :: 0 <= i < |word| ==> Printable(word[i])
    ensures Extract(word[..|word| - 1]) == ""
    ensures Extract(word) == Text(word) + Delimiter
  {
    PrintableBufferIsOneRun(word);
    PrintableBufferIsOneRun(word[..|word| - 1]);
  }
}
