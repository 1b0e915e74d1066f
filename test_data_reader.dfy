/** The block reader: a state machine over a line scanner that assembles one
    test record per call of Next (directive, input, expected output), echoing
    the lines it passes over into an optional rewrite buffer. */
module DataReader {
  import opened Wrappers
  import opened Strings
  import opened LineParser

  /** The line between input and expected output. */
  const Separator := "----"

  /** One test record (Go's TestData): where its directive ends, the command
      and its arguments, the input and the expected output. */
  datatype TestData = TestData(pos: string, cmd: string, cmdArgs: seq<CmdArg>, input: string, expected: string)

  /** The zero record Next starts from. */
  const EmptyData := TestData("", "", [], "", "")

  /** The line scanner over the file: its lines, and how many of them have
      been scanned (Go's `line`, the number of the current line). */
  class LineScanner {
    const lines: seq<string>
    var line: nat

    ghost predicate Valid()
      reads this
    {
      line <= |lines|
    }

    constructor (lines: seq<string>)
      ensures Valid() && this.lines == lines && line == 0
    {
      this.lines := lines;
      line := 0;
    }

    /** Moves to the next line, if there is one. */
    method Scan() returns (ok: bool)
      requires Valid()
      modifies this
      ensures Valid()
      ensures ok <==> old(line) < |lines|
      ensures line == if ok then old(line) + 1 else old(line)
    {
      ok := line < |lines|;
      if ok {
        line := line + 1;
      }
    }

    /** The line last scanned. */
    function Text(): string
      reads this
      requires 0 < line <= |lines|
    {
      lines[line - 1]
    }
  }

  // ---------------------------------------------------------------------
  // The reader, as functions of the lines and the scanner position
  // ---------------------------------------------------------------------

  /** The position string `source:line`. */
  function PosOf(source: string, line: nat): string {
    source + ":" + Decimal(line)
  }

  /** The rewrite buffer after echoing `ls`: each line and a newline, and
      nothing at all when there is no buffer. */
  function Echo(rewrite: Option<string>, ls: seq<string>): Option<string> {
    match rewrite
    case None => None
    case Some(buf) => Some(buf + Unlines(ls))
  }

  /** Echoing a line extends what was echoed by that line. */
  lemma EchoLine(rewrite: Option<string>, ls: seq<string>, s: string)
    ensures Echo(Echo(rewrite, ls), [s]) == Echo(rewrite, ls + [s])
  {
    UnlinesSnoc(ls, s);
    UnlinesOne(s);
    if rewrite.Some? {
      var b := rewrite.value;
      assert Echo(Echo(rewrite, ls), [s]) == Some(b + Unlines(ls) + Unlines([s]));
      assert b + Unlines(ls) + (s + "\n") == b + (Unlines(ls) + s + "\n");
    }
  }

  /** Echoing and collecting one more line. */
  lemma LineStep(rewrite: Option<string>, lines: seq<string>, i0: nat, j: nat, q: nat)
    requires i0 <= q < |lines| && j <= q
    ensures Echo(Echo(rewrite, lines[i0..q]), [lines[q]]) == Echo(rewrite, lines[i0..q + 1])
    ensures Unlines(lines[j..q]) + lines[q] + "\n" == Unlines(lines[j..q + 1])
  {
    EchoLine(rewrite, lines[i0..q], lines[q]);
    assert lines[i0..q] + [lines[q]] == lines[i0..q + 1];
    UnlinesSnoc(lines[j..q], lines[q]);
    assert lines[j..q] + [lines[q]] == lines[j..q + 1];
  }

  lemma EchoNothing(rewrite: Option<string>)
    ensures Echo(rewrite, []) == rewrite
  {
    if rewrite.Some? {
      assert rewrite.value + "" == rewrite.value;
    }
  }

  /** The directive line `line` after joining continuation lines from index
      `j` on, and the scanner position after them. */
  function Continue(lines: seq<string>, line: string, j: nat): (r: (string, nat))
    requires j <= |lines|
    ensures j <= r.1 <= |lines|
    decreases |lines| - j
  {
    if HasSuffix(line, "\\") && j < |lines|
    then Continue(lines, line[..|line| - 1] + " " + TrimSpace(lines[j]), j + 1)
    else (line, j)
  }

  /** The index of the first separator line at or after `j`, or |lines|. */
  function FindSeparator(lines: seq<string>, j: nat): (k: nat)
    requires j <= |lines|
    ensures j <= k <= |lines|
    decreases |lines| - j
  {
    if j == |lines| || lines[j] == Separator then j else FindSeparator(lines, j + 1)
  }

  /** Expected output in the single-separator form: `line` is the line last
      scanned and `q` the scanner position; collects lines up to the first
      white-space-only line (which is consumed) or the end. */
  function SingleFrom(lines: seq<string>, line: string, q: nat): (r: (seq<string>, nat))
    requires q <= |lines|
    ensures q <= r.1 <= |lines|
    decreases |lines| - q
  {
    if TrimSpace(line) == "" then ([], q)
    else if q == |lines| then ([line], q)
    else
      var rest := SingleFrom(lines, lines[q], q + 1);
      ([line] + rest.0, rest.1)
  }

  /** Expected output in the double-separator form, from scanner position
      `q`: collects lines until two consecutive separators (both consumed). A
      separator followed by another line is kept with that line. */
  function DoubleFrom(lines: seq<string>, q: nat): (r: (seq<string>, nat))
    requires q <= |lines|
    ensures q <= r.1 <= |lines|
    decreases |lines| - q
  {
    if q == |lines| then ([], q)
    else if lines[q] == Separator then
      if q + 1 == |lines| then ([lines[q]], q + 1)
      else if lines[q + 1] == Separator then ([], q + 2)
      else
        var rest := DoubleFrom(lines, q + 2);
        ([lines[q], lines[q + 1]] + rest.0, rest.1)
    else
      var rest := DoubleFrom(lines, q + 1);
      ([lines[q]] + rest.0, rest.1)
  }

  /** readExpected from scanner position `p` (just after the separator): the
      lines of the expected output and the scanner position after it. The
      form is chosen by the line right after the separator. */
  function ExpectedFrom(lines: seq<string>, p: nat): (r: (seq<string>, nat))
    requires p <= |lines|
    ensures p <= r.1 <= |lines|
  {
    if p == |lines| then SingleFrom(lines, "", p)
    else if lines[p] == Separator then DoubleFrom(lines, p + 1)
    else SingleFrom(lines, lines[p], p + 1)
  }

  /** What one call of Next does: whether it found a record, the record, the
      scanner position afterwards and the lines it echoed. */
  datatype Step = Step(found: bool, data: TestData, end: nat, echoed: seq<string>)

  function Echoed(ls: seq<string>, s: Step): Step {
    s.(echoed := ls + s.echoed)
  }

  /** The record whose directive (ending at line `j`) has been parsed: its
      input up to the separator, then its expected output. */
  function Block(lines: seq<string>, j: nat, pos: string, cmd: string, args: seq<CmdArg>): (s: Step)
    requires j <= |lines|
    ensures s.found && j <= s.end <= |lines|
  {
    var k := FindSeparator(lines, j);
    var input := TrimSpace(Unlines(lines[j..k]));
    if k == |lines| then Step(true, TestData(pos, cmd, args, input, ""), k, lines[j..k])
    else
      var (body, end) := ExpectedFrom(lines, k + 1);
      Step(true, TestData(pos, cmd, args, input, Unlines(body)), end, lines[j..k])
  }

  /** Next from scanner position `i`: skips comment lines and lines with no
      command, joins continuation lines, and reads the block of the first
      directive. */
  function Seek(source: string, lines: seq<string>, i: nat): (s: Step)
    requires i <= |lines|
    ensures i <= s.end <= |lines|
    decreases |lines| - i
  {
    if i == |lines| then Step(false, EmptyData, i, [])
    else
      var t := TrimSpace(lines[i]);
      if HasPrefix(t, "#") then Echoed([lines[i]], Seek(source, lines, i + 1))
      else
        var (joined, j) := Continue(lines, t, i + 1);
        var (cmd, args) := Directive(joined);
        if cmd == "" then Echoed(lines[i..j], Seek(source, lines, j))
        else Echoed(lines[i..j], Block(lines, j, PosOf(source, j), cmd, args))
  }

  // ---------------------------------------------------------------------
  // The reader object
  // ---------------------------------------------------------------------

  /** testDataReader: the scanner, the record being assembled and, when
      recording, the rewrite buffer. */
  class TestDataReader {
    const sourceName: string
    const scanner: LineScanner
    var data: TestData
    var rewrite: Option<string>

    ghost predicate Valid()
      reads this, scanner
    {
      scanner.Valid()
    }

    /** newTestDataReader: a buffer exists only when recording. */
    constructor (sourceName: string, lines: seq<string>, record: bool)
      ensures Valid() && fresh(scanner)
      ensures this.sourceName == sourceName && scanner.lines == lines && scanner.line == 0
      ensures data == EmptyData
      ensures rewrite == if record then Some("") else None
    {
      this.sourceName := sourceName;
      scanner := new LineScanner(lines);
      data := EmptyData;
      rewrite := if record then Some("") else None;
    }

    /** emit: echoes a line into the rewrite buffer, if there is one. */
    method Emit(s: string)
      modifies this`rewrite
      ensures rewrite == Echo(old(rewrite), [s])
    {
      UnlinesOne(s);
      if rewrite.Some? {
        assert rewrite.value + s + "\n" == rewrite.value + (s + "\n");
        rewrite := Some(rewrite.value + s + "\n");
      }
    }

    /** Scans and emits the next line, if there is one. */
    method ScanEmit(ghost i0: nat, ghost rw0: Option<string>) returns (more: bool, line: string)
      requires Valid() && i0 <= scanner.line
      requires rewrite == Echo(rw0, scanner.lines[i0..scanner.line])
      modifies this`rewrite, scanner
      ensures Valid()
      ensures more <==> old(scanner.line) < |scanner.lines|
      ensures scanner.line == if more then old(scanner.line) + 1 else old(scanner.line)
      ensures more ==> line == scanner.lines[old(scanner.line)]
      ensures rewrite == Echo(rw0, scanner.lines[i0..scanner.line])
    {
      more := scanner.Scan();
      line := "";
      if more {
        line := scanner.Text();
        Emit(line);
        EchoLine(rw0, scanner.lines[i0..scanner.line - 1], line);
        assert scanner.lines[i0..scanner.line - 1] + [line] == scanner.lines[i0..scanner.line];
      }
    }

    /** Next: resets the record and reads the next one, if any. */
    method Next() returns (ok: bool)
      requires Valid()
      modifies this, scanner
      ensures Valid()
      ensures var s := Seek(sourceName, scanner.lines, old(scanner.line));
        && ok == s.found
        && data == s.data
        && scanner.line == s.end
        && rewrite == Echo(old(rewrite), s.echoed)
    {
      ghost var lines := scanner.lines;
      ghost var i0 := scanner.line;
      ghost var rw0 := rewrite;
      data := EmptyData;
      EchoNothing(rw0);
      assert lines[i0..i0] == [];
      ghost var whole := Seek(sourceName, lines, i0);
      while true
        invariant Valid() && i0 <= scanner.line
        invariant data == EmptyData
        invariant whole == Echoed(lines[i0..scanner.line], Seek(sourceName, lines, scanner.line))
        invariant rewrite == Echo(rw0, lines[i0..scanner.line])
        decreases |lines| - scanner.line
      {
        ghost var i := scanner.line;
        var more, line := ScanEmit(i0, rw0);
        if !more {
          break;
        }
        line := TrimSpace(line);
        if HasPrefix(line, "#") {
          SeekComment(sourceName, lines, i0, i, whole);
          assert scanner.line == i + 1;
          continue;
        }
        ghost var t := line;
        line := JoinContinuation(i0, rw0, line);
        assert (line, scanner.line) == Continue(lines, t, i + 1);
        var pos := sourceName + ":" + Decimal(scanner.line);
        var cmd, args, err := ParseLine(pos, line);
        ghost var j := scanner.line;
        SeekDirective(sourceName, lines, i0, i, whole, line, j, cmd, args);
        if cmd == "" {
          assert whole == Echoed(lines[i0..j], Seek(sourceName, lines, j));
          continue;
        }
        data := data.(pos := pos, cmd := cmd, cmdArgs := args);
        ReadBlock(i0, rw0);
        return true;
      }
      SeekExhausted(sourceName, lines, i0, whole);
      assert lines[i0..scanner.line] == lines[i0..];
      return false;
    }

    /** The continuation loop of Next: while the line ends in a backslash
        and there is a next line, drops the backslash and appends a space and
        the next line, trimmed. */
    method JoinContinuation(ghost i0: nat, ghost rw0: Option<string>, line: string) returns (joined: string)
      requires Valid() && i0 <= scanner.line
      requires rewrite == Echo(rw0, scanner.lines[i0..scanner.line])
      modifies this`rewrite, scanner
      ensures Valid()
      ensures (joined, scanner.line) == Continue(scanner.lines, line, old(scanner.line))
      ensures rewrite == Echo(rw0, scanner.lines[i0..scanner.line])
    {
      ghost var lines := scanner.lines;
      ghost var j0 := scanner.line;
      joined := line;
      while HasSuffix(joined, "\\")
        invariant Valid() && j0 <= scanner.line
        invariant Continue(lines, line, j0) == Continue(lines, joined, scanner.line)
        invariant rewrite == Echo(rw0, lines[i0..scanner.line])
        decreases |lines| - scanner.line
      {
        var more, nextLine := ScanEmit(i0, rw0);
        if !more {
          break;
        }
        joined := joined[..|joined| - 1] + " " + TrimSpace(nextLine);
      }
    }

    /** The rest of Next once a directive is found: the input, then the
        expected output if there is a separator. */
    method ReadBlock(ghost i0: nat, ghost rw0: Option<string>)
      requires Valid() && i0 <= scanner.line
      requires data.input == "" && data.expected == ""
      requires rewrite == Echo(rw0, scanner.lines[i0..scanner.line])
      modifies this, scanner
      ensures Valid()
      ensures var s := Block(scanner.lines, old(scanner.line), old(data.pos), old(data.cmd), old(data.cmdArgs));
        && data == s.data
        && scanner.line == s.end
        && rewrite == Echo(rw0, scanner.lines[i0..old(scanner.line)] + s.echoed)
    {
      ghost var lines := scanner.lines;
      ghost var j := scanner.line;
      ghost var k := FindSeparator(lines, j);
      ghost var target := Block(lines, j, data.pos, data.cmd, data.cmdArgs);
      assert target.echoed == lines[j..k];
      var buf, separator := ReadInput(i0, rw0);
      assert lines[i0..k] == lines[i0..j] + lines[j..k];
      data := data.(input := TrimSpace(buf));
      if separator {
        ReadExpected();
      }
      assert data == target.data && scanner.line == target.end;
    }

    /** The input loop of Next: the lines up to the separator (consumed,
        not echoed) or the end. */
    method ReadInput(ghost i0: nat, ghost rw0: Option<string>) returns (buf: string, separator: bool)
      requires Valid() && i0 <= scanner.line
      requires rewrite == Echo(rw0, scanner.lines[i0..scanner.line])
      modifies this`rewrite, scanner
      ensures Valid()
      ensures var k := FindSeparator(scanner.lines, old(scanner.line));
        && buf == Unlines(scanner.lines[old(scanner.line)..k])
        && separator == (k < |scanner.lines|)
        && scanner.line == (if separator then k + 1 else k)
        && rewrite == Echo(rw0, scanner.lines[i0..k])
    {
      ghost var lines := scanner.lines;
      ghost var j := scanner.line;
      buf := "";
      separator := false;
      assert lines[j..j] == [];
      while true
        invariant Valid() && j <= scanner.line
        invariant forall x :: j <= x < scanner.line ==> lines[x] != Separator
        invariant buf == Unlines(lines[j..scanner.line])
        invariant rewrite == Echo(rw0, lines[i0..scanner.line])
        invariant !separator
        decreases |lines| - scanner.line
      {
        ghost var q := scanner.line;
        var more := scanner.Scan();
        if !more {
          break;
        }
        var line := scanner.Text();
        assert line == lines[q];
        if line == Separator {
          separator := true;
          break;
        }
        Emit(line);
        LineStep(rw0, lines, i0, j, q);
        buf := buf + line + "\n";
        assert scanner.line == q + 1 && buf == Unlines(lines[j..q + 1]);
      }
      FindSeparatorIs(lines, j, if separator then scanner.line - 1 else scanner.line);
    }

    /** readExpected: reads the expected output after the separator; the
        line right after it chooses the form. */
    method ReadExpected()
      requires Valid()
      modifies this`data, scanner
      ensures Valid()
      ensures var (body, end) := ExpectedFrom(scanner.lines, old(scanner.line));
        data == old(data).(expected := Unlines(body)) && scanner.line == end
    {
      var buf := "";
      var line := "";
      var allowBlankLines := false;
      var more := scanner.Scan();
      if more {
        line := scanner.Text();
        if line == Separator {
          allowBlankLines := true;
        }
      }
      if allowBlankLines {
        buf := ReadDouble();
      } else {
        buf := ReadSingle(line);
      }
      data := data.(expected := buf);
    }

    /** The double-separator loop of readExpected. */
    method ReadDouble() returns (buf: string)
      requires Valid()
      modifies scanner
      ensures Valid()
      ensures var (body, end) := DoubleFrom(scanner.lines, old(scanner.line));
        buf == Unlines(body) && scanner.line == end
    {
      ghost var lines := scanner.lines;
      ghost var total := DoubleFrom(lines, scanner.line);
      ghost var acc: seq<string> := [];
      buf := "";
      while true
        invariant Valid()
        invariant total.0 == acc + DoubleFrom(lines, scanner.line).0
        invariant total.1 == DoubleFrom(lines, scanner.line).1
        invariant buf == Unlines(acc)
        decreases |lines| - scanner.line
      {
        ghost var q := scanner.line;
        var more := scanner.Scan();
        if !more {
          assert DoubleFrom(lines, q) == ([], q);
          break;
        }
        var line := scanner.Text();
        assert line == lines[q];
        if line == Separator {
          var more2 := scanner.Scan();
          if more2 {
            var line2 := scanner.Text();
            assert line2 == lines[q + 1];
            if line2 == Separator {
              assert DoubleFrom(lines, q) == ([], q + 2);
              break;
            }
            DoubleStepPair(lines, acc, q);
            UnlinesSnoc(acc, line);
            UnlinesSnoc(acc + [line], line2);
            acc := acc + [line] + [line2];
            buf := buf + line + "\n";
            buf := buf + line2 + "\n";
            continue;
          }
        }
        DoubleStepOne(lines, acc, q);
        UnlinesSnoc(acc, line);
        acc := acc + [line];
        buf := buf + line + "\n";
      }
      assert acc + [] == acc;
    }

    /** The single-separator loop of readExpected; `line` is the line last
        scanned ("" when there was none). */
    method ReadSingle(line: string) returns (buf: string)
      requires Valid()
      requires line == "" || (0 < scanner.line && line == scanner.Text())
      modifies scanner
      ensures Valid()
      ensures var (body, end) := SingleFrom(scanner.lines, line, old(scanner.line));
        buf == Unlines(body) && scanner.line == end
    {
      ghost var lines := scanner.lines;
      ghost var total := SingleFrom(lines, line, scanner.line);
      ghost var acc: seq<string> := [];
      var cur := line;
      buf := "";
      while true
        invariant Valid()
        invariant total.0 == acc + SingleFrom(lines, cur, scanner.line).0
        invariant total.1 == SingleFrom(lines, cur, scanner.line).1
        invariant buf == Unlines(acc)
        decreases |lines| - scanner.line
      {
        if TrimSpace(cur) == "" {
          break;
        }
        UnlinesSnoc(acc, cur);
        buf := buf + cur + "\n";
        var more := scanner.Scan();
        if !more {
          acc := acc + [cur];
          break;
        }
        SingleStep(lines, acc, cur, scanner.line - 1);
        acc := acc + [cur];
        cur := scanner.Text();
      }
      assert acc + [] == acc;
    }
  }

  // ---------------------------------------------------------------------
  // Properties of the reader
  // ---------------------------------------------------------------------

  /** FindSeparator is the first separator: every line before it is not one. */
  lemma {:induction false} FindSeparatorIs(lines: seq<string>, j: nat, k: nat)
    requires j <= k <= |lines|
    requires forall x :: j <= x < k ==> lines[x] != Separator
    requires k == |lines| || lines[k] == Separator
    ensures FindSeparator(lines, j) == k
    decreases k - j
  {
    if j < k {
      FindSeparatorIs(lines, j + 1, k);
    }
  }

  lemma SingleStep(lines: seq<string>, acc: seq<string>, cur: string, q: nat)
    requires q < |lines| && TrimSpace(cur) != ""
    ensures acc + SingleFrom(lines, cur, q).0 == acc + [cur] + SingleFrom(lines, lines[q], q + 1).0
    ensures SingleFrom(lines, cur, q).1 == SingleFrom(lines, lines[q], q + 1).1
  {
    var rest := SingleFrom(lines, lines[q], q + 1).0;
    assert acc + ([cur] + rest) == acc + [cur] + rest;
  }

  lemma DoubleStepOne(lines: seq<string>, acc: seq<string>, q: nat)
    requires q < |lines| && (lines[q] != Separator || q + 1 == |lines|)
    ensures acc + DoubleFrom(lines, q).0 == acc + [lines[q]] + DoubleFrom(lines, q + 1).0
    ensures DoubleFrom(lines, q).1 == DoubleFrom(lines, q + 1).1
  {
    var rest := DoubleFrom(lines, q + 1).0;
    assert acc + ([lines[q]] + rest) == acc + [lines[q]] + rest;
  }

  lemma DoubleStepPair(lines: seq<string>, acc: seq<string>, q: nat)
    requires q + 1 < |lines| && lines[q] == Separator && lines[q + 1] != Separator
    ensures acc + DoubleFrom(lines, q).0 == acc + [lines[q]] + [lines[q + 1]] + DoubleFrom(lines, q + 2).0
    ensures DoubleFrom(lines, q).1 == DoubleFrom(lines, q + 2).1
  {
    var rest := DoubleFrom(lines, q + 2).0;
    assert acc + ([lines[q], lines[q + 1]] + rest) == acc + [lines[q]] + [lines[q + 1]] + rest;
  }

  lemma EchoedEchoed(a: seq<string>, b: seq<string>, s: Step)
    ensures Echoed(a, Echoed(b, s)) == Echoed(a + b, s)
  {
    assert a + (b + s.echoed) == a + b + s.echoed;
  }

  /** A comment line at `i` is echoed and skipped. */
  lemma SeekComment(source: string, lines: seq<string>, i0: nat, i: nat, whole: Step)
    requires i0 <= i < |lines| && HasPrefix(TrimSpace(lines[i]), "#")
    requires whole == Echoed(lines[i0..i], Seek(source, lines, i))
    ensures whole == Echoed(lines[i0..i + 1], Seek(source, lines, i + 1))
  {
    EchoedEchoed(lines[i0..i], [lines[i]], Seek(source, lines, i + 1));
    assert lines[i0..i] + [lines[i]] == lines[i0..i + 1];
  }

  /** A directive line at `i` (with its continuations) is echoed, then
      either skipped when it has no command or followed by its block. */
  lemma SeekDirective(source: string, lines: seq<string>, i0: nat, i: nat, whole: Step,
                       joined: string, j: nat, cmd: string, args: seq<CmdArg>)
    requires i0 <= i < |lines| && !HasPrefix(TrimSpace(lines[i]), "#")
    requires whole == Echoed(lines[i0..i], Seek(source, lines, i))
    requires (joined, j) == Continue(lines, TrimSpace(lines[i]), i + 1)
    requires (cmd, args) == Directive(joined)
    ensures j <= |lines|
    ensures cmd == "" ==> whole == Echoed(lines[i0..j], Seek(source, lines, j))
    ensures cmd != "" ==> whole == Echoed(lines[i0..j], Block(lines, j, PosOf(source, j), cmd, args))
  {
    assert lines[i0..j] == lines[i0..i] + lines[i..j];
    var next := SeekStep(source, lines, i);
    EchoedEchoed(lines[i0..i], lines[i..j], next);
  }

  /** One step of Seek at a directive line. */
  lemma SeekStep(source: string, lines: seq<string>, i: nat) returns (next: Step)
    requires i < |lines| && !HasPrefix(TrimSpace(lines[i]), "#")
    ensures var (joined, j) := Continue(lines, TrimSpace(lines[i]), i + 1);
      var (cmd, args) := Directive(joined);
      && next == (if cmd == "" then Seek(source, lines, j) else Block(lines, j, PosOf(source, j), cmd, args))
      && Seek(source, lines, i) == Echoed(lines[i..j], next)
  {
    var (joined, j) := Continue(lines, TrimSpace(lines[i]), i + 1);
    var (cmd, args) := Directive(joined);
    next := if cmd == "" then Seek(source, lines, j) else Block(lines, j, PosOf(source, j), cmd, args);
  }

  /** Once the lines run out, Next finds nothing and has echoed the rest. */
  lemma SeekExhausted(source: string, lines: seq<string>, i0: nat, whole: Step)
    requires i0 <= |lines|
    requires whole == Echoed(lines[i0..|lines|], Seek(source, lines, |lines|))
    ensures whole == Step(false, EmptyData, |lines|, lines[i0..])
  {
    assert lines[i0..|lines|] + [] == lines[i0..];
  }

  /** The first line at or after `q` that starts two consecutive separator
      lines, or |lines|. */
  function FirstDouble(lines: seq<string>, q: nat): (d: nat)
    requires q <= |lines|
    ensures q <= d <= |lines|
    decreases |lines| - q
  {
    if q + 1 >= |lines| then |lines|
    else if lines[q] == Separator && lines[q + 1] == Separator then q
    else FirstDouble(lines, q + 1)
  }

  lemma {:induction false} FirstDoubleFacts(lines: seq<string>, q: nat)
    requires q <= |lines|
    ensures var d := FirstDouble(lines, q);
      && (d < |lines| ==> d + 1 < |lines| && lines[d] == Separator && lines[d + 1] == Separator)
      && (forall x :: q <= x < d && x + 1 < |lines| ==> !(lines[x] == Separator && lines[x + 1] == Separator))
    decreases |lines| - q
  {
    if q + 1 < |lines| && !(lines[q] == Separator && lines[q + 1] == Separator) {
      FirstDoubleFacts(lines, q + 1);
    }
  }

  /** In the double-separator form the expected output is every line up to
      the first pair of consecutive separators, which is consumed; with no
      such pair it runs to the end of the file. */
  lemma {:induction false} DoubleFromIs(lines: seq<string>, q: nat)
    requires q <= |lines|
    ensures var d := FirstDouble(lines, q);
      DoubleFrom(lines, q) == (lines[q..d], if d == |lines| then d else d + 2)
    decreases |lines| - q
  {
    if q < |lines| {
      if lines[q] == Separator && q + 1 == |lines| {
        assert lines[q..|lines|] == [lines[q]];
      } else if lines[q] == Separator && lines[q + 1] == Separator {
        assert FirstDouble(lines, q) == q;
        assert lines[q..q] == [];
      } else if lines[q] == Separator {
        DoubleFromIs(lines, q + 2);
        assert FirstDouble(lines, q) == FirstDouble(lines, q + 1) == FirstDouble(lines, q + 2);
        var d := FirstDouble(lines, q);
        assert [lines[q], lines[q + 1]] + lines[q + 2..d] == lines[q..d];
      } else if lines[q] != Separator {
        DoubleFromIs(lines, q + 1);
        var d := FirstDouble(lines, q);
        assert [lines[q]] + lines[q + 1..d] == lines[q..d];
      }
    } else {
      assert lines[q..q] == [];
    }
  }

  /** Whether a line is empty once trimmed. */
  predicate IsBlank(line: string) {
    TrimSpace(line) == ""
  }

  /** The first white-space-only line at or after `p`, or |lines|. */
  function FirstBlank(lines: seq<string>, p: nat): (b: nat)
    requires p <= |lines|
    ensures p <= b <= |lines|
    decreases |lines| - p
  {
    if p == |lines| || IsBlank(lines[p]) then p else FirstBlank(lines, p + 1)
  }

  lemma {:induction false} FirstBlankFacts(lines: seq<string>, p: nat)
    requires p <= |lines|
    ensures var b := FirstBlank(lines, p);
      && (b < |lines| ==> IsBlank(lines[b]))
      && (forall x :: p <= x < b ==> !IsBlank(lines[x]))
    decreases |lines| - p
  {
    if p < |lines| && !IsBlank(lines[p]) {
      FirstBlankFacts(lines, p + 1);
    }
  }

  /** In the single-separator form, starting at line `p`, the expected output
      is every line up to the first white-space-only line, which is consumed
      but not kept; with none it runs to the end of the file. */
  lemma {:induction false} SingleFromIs(lines: seq<string>, p: nat)
    requires p < |lines|
    ensures var b := FirstBlank(lines, p);
      SingleFrom(lines, lines[p], p + 1) == (lines[p..b], if b == |lines| then b else b + 1)
    decreases |lines| - p
  {
    if IsBlank(lines[p]) {
      assert FirstBlank(lines, p) == p;
      assert lines[p..p] == [];
    } else if p + 1 == |lines| {
      assert FirstBlank(lines, p) == FirstBlank(lines, p + 1) == |lines|;
      assert lines[p..|lines|] == [lines[p]];
    } else {
      SingleFromIs(lines, p + 1);
      var b := FirstBlank(lines, p);
      assert [lines[p]] + lines[p + 1..b] == lines[p..b];
    }
  }

  /** readExpected: with a second separator right after the first, the
      expected output runs to the next pair of separators and may hold blank
      lines; otherwise it runs to the first blank line and holds none. */
  lemma ExpectedForms(lines: seq<string>, p: nat)
    requires p <= |lines|
    ensures p == |lines| ==> ExpectedFrom(lines, p) == ([], p)
    ensures p < |lines| && lines[p] == Separator ==>
      ExpectedFrom(lines, p).0 == lines[p + 1..FirstDouble(lines, p + 1)]
    ensures p < |lines| && lines[p] != Separator ==>
      && ExpectedFrom(lines, p).0 == lines[p..FirstBlank(lines, p)]
      && forall x :: 0 <= x < |ExpectedFrom(lines, p).0| ==> !IsBlank(ExpectedFrom(lines, p).0[x])
  {
    if p < |lines| {
      if lines[p] == Separator {
        DoubleFromIs(lines, p + 1);
      } else {
        SingleFromIs(lines, p);
        FirstBlankFacts(lines, p);
      }
    }
  }

  /** The continuation loop only stops at a line with no trailing backslash
      or at the end of the file; a line with no backslash is left alone. */
  lemma {:induction false} ContinueStops(lines: seq<string>, line: string, j: nat)
    requires j <= |lines|
    ensures var (joined, k) := Continue(lines, line, j);
      && (k == |lines| || !HasSuffix(joined, "\\"))
      && (!HasSuffix(line, "\\") ==> joined == line && k == j)
    decreases |lines| - j
  {
    if HasSuffix(line, "\\") && j < |lines| {
      ContinueStops(lines, line[..|line| - 1] + " " + TrimSpace(lines[j]), j + 1);
    }
  }

  /** When Next finds no record it has consumed and echoed every remaining
      line and leaves the record empty. */
  lemma {:induction false} SeekNotFound(source: string, lines: seq<string>, i: nat)
    requires i <= |lines|
    ensures !Seek(source, lines, i).found ==> Seek(source, lines, i) == Step(false, EmptyData, |lines|, lines[i..])
    decreases |lines| - i
  {
    if i < |lines| {
      var t := TrimSpace(lines[i]);
      if HasPrefix(t, "#") {
        SeekNotFound(source, lines, i + 1);
        NotFoundPrefix(lines, i, i + 1, Seek(source, lines, i + 1));
        assert lines[i..i + 1] == [lines[i]];
      } else {
        var (joined, j) := Continue(lines, t, i + 1);
        var (cmd, args) := Directive(joined);
        if cmd == "" {
          SeekNotFound(source, lines, j);
          NotFoundPrefix(lines, i, j, Seek(source, lines, j));
        }
      }
    }
  }

  lemma NotFoundPrefix(lines: seq<string>, i: nat, j: nat, s: Step)
    requires i <= j <= |lines|
    requires !s.found ==> s == Step(false, EmptyData, |lines|, lines[j..])
    ensures !Echoed(lines[i..j], s).found ==> Echoed(lines[i..j], s) == Step(false, EmptyData, |lines|, lines[i..])
  {
    assert lines[i..j] + lines[j..] == lines[i..];
  }

  /** What a step echoes is the lines from `i` in order, up to its
      record's separator, which is consumed but not echoed; a record found
      has a command. */
  ghost predicate EchoShape(lines: seq<string>, i: nat, s: Step) {
    var e := i + |s.echoed|;
    && e <= s.end <= |lines|
    && s.echoed == lines[i..e]
    && (s.found && e < |lines| ==> lines[e] == Separator && e < s.end)
    && (s.found ==> s.data.cmd != "")
  }

  lemma EchoShapePrefix(lines: seq<string>, i: nat, j: nat, s: Step)
    requires i <= j <= |lines| && EchoShape(lines, j, s)
    ensures EchoShape(lines, i, Echoed(lines[i..j], s))
  {
    var e := j + |s.echoed|;
    assert lines[i..j] + lines[j..e] == lines[i..e];
  }

  /** Next echoes the unread lines in order up to its record's separator,
      which is consumed but not echoed; so the expected output after it is
      never echoed. */
  lemma {:induction false} SeekEchoes(source: string, lines: seq<string>, i: nat)
    requires i <= |lines|
    ensures EchoShape(lines, i, Seek(source, lines, i))
    decreases |lines| - i
  {
    if i == |lines| {
      assert lines[i..i] == [];
    } else {
      var t := TrimSpace(lines[i]);
      if HasPrefix(t, "#") {
        SeekEchoes(source, lines, i + 1);
        EchoShapePrefix(lines, i, i + 1, Seek(source, lines, i + 1));
        assert lines[i..i + 1] == [lines[i]];
      } else {
        var (joined, j) := Continue(lines, t, i + 1);
        var (cmd, args) := Directive(joined);
        if cmd == "" {
          SeekEchoes(source, lines, j);
          EchoShapePrefix(lines, i, j, Seek(source, lines, j));
        } else {
          BlockEchoes(lines, j, PosOf(source, j), cmd, args);
          EchoShapePrefix(lines, i, j, Block(lines, j, PosOf(source, j), cmd, args));
        }
      }
    }
  }

  lemma BlockEchoes(lines: seq<string>, j: nat, pos: string, cmd: string, args: seq<CmdArg>)
    requires j <= |lines| && cmd != ""
    ensures EchoShape(lines, j, Block(lines, j, pos, cmd, args))
  {
    FindSeparatorFacts(lines, j);
  }

  lemma {:induction false} FindSeparatorFacts(lines: seq<string>, j: nat)
    requires j <= |lines|
    ensures var k := FindSeparator(lines, j);
      && (k < |lines| ==> lines[k] == Separator)
      && (forall x :: j <= x < k ==> lines[x] != Separator)
    decreases |lines| - j
  {
    if j < |lines| && lines[j] != Separator {
      FindSeparatorFacts(lines, j + 1);
    }
  }

  /** A record's input holds the trimmed text of the lines between its
      directive and its separator, none of which is a separator; its
      expected output is empty or ends in a newline. */
  lemma BlockContents(lines: seq<string>, j: nat, pos: string, cmd: string, args: seq<CmdArg>)
    requires j <= |lines|
    ensures var s := Block(lines, j, pos, cmd, args);
      var k := FindSeparator(lines, j);
      && s.data.input == TrimSpace(Unlines(lines[j..k]))
      && TrimSpace(s.data.input) == s.data.input
      && (forall x :: j <= x < k ==> lines[x] != Separator)
      && (s.data.expected == "" || s.data.expected[|s.data.expected| - 1] == '\n')
  {
    var s := Block(lines, j, pos, cmd, args);
    var k := FindSeparator(lines, j);
    FindSeparatorFacts(lines, j);
    TrimSpaceFacts(Unlines(lines[j..k]));
    TrimSpaceOfTrimmed(s.data.input);
    if k < |lines| {
      UnlinesEnd(ExpectedFrom(lines, k + 1).0);
    }
  }
}
