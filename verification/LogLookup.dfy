/** The rows of a log as lines of a file: a capped lookup comes back with a row exactly when one is in reach. */
module LogLookup {
  import opened Text
  import opened TailReader
  import opened RowLog

  /** The file after each line was appended with its newline. */
  function FileOf(lines: seq<Line>): seq<Byte> { if lines == [] then [] else lines[0] + [NEWLINE] + FileOf(lines[1..]) }

  ghost predicate Describes(log: Log, lines: seq<Line>) {
    |log| == |lines| && forall i :: 0 <= i < |lines| ==> log[i].bytes == |lines[i]| + 1 && NEWLINE !in lines[i]
  }

  ghost predicate HasHit<R>(lines: seq<Line>, hit: Line -> Option<R>) {
    exists i :: 0 <= i < |lines| && lines[i] != [] && hit(lines[i]).Some?
  }

  predicate FindsWithin(log: Log, t: TaskId, cap: nat) {
    exists i :: 0 <= i < |log| && log[i].id == t && Bytes(log[i..]) <= cap
  }

  lemma {:induction false} SplitFile(lines: seq<Line>)
    requires forall i :: 0 <= i < |lines| ==> NEWLINE !in lines[i]
    ensures Split(FileOf(lines)) == lines + [[]]
  {
    if lines != [] {
      var rest := FileOf(lines[1..]);
      SplitFile(lines[1..]);
      SplitNoNewline(lines[0]);
      SplitAcross(lines[0], [NEWLINE] + rest);
      assert ([NEWLINE] + rest)[1..] == rest;
      assert lines[0] + [NEWLINE] + rest == lines[0] + ([NEWLINE] + rest);
      assert lines[0] + [] == lines[0];
    }
  }

  /** The lines appended are the lines of the file, no more and no fewer. */
  lemma LinesOfFile(lines: seq<Line>)
    requires forall i :: 0 <= i < |lines| ==> NEWLINE !in lines[i]
    ensures Lines(FileOf(lines)) == lines
  {
    SplitFile(lines);
  }

  /** So they are when the last one has no newline yet. */
  lemma LinesOfOpenFile(lines: seq<Line>, last: Line)
    requires forall i :: 0 <= i < |lines| ==> NEWLINE !in lines[i]
    requires NEWLINE !in last && last != []
    ensures Lines(FileOf(lines) + last) == lines + [last]
  {
    SplitFile(lines);
    SplitNoNewline(last);
    SplitAcross(FileOf(lines), last);
    assert [] + last == last;
  }

  /** Every file is of one of the two kinds. */
  lemma {:induction false} EveryFileIsLines(data: seq<Byte>) returns (lines: seq<Line>, last: Line)
    ensures data == FileOf(lines) + last && NEWLINE !in last
    ensures forall i :: 0 <= i < |lines| ==> NEWLINE !in lines[i]
  {
    if data == [] {
      lines, last := [], [];
    } else {
      var rest, end := EveryFileIsLines(data[1..]);
      if data[0] == NEWLINE {
        lines, last := [[]] + rest, end;
        assert FileOf(lines) == [NEWLINE] + FileOf(rest);
      } else if rest == [] {
        lines, last := [], data;
      } else {
        lines, last := [[data[0]] + rest[0]] + rest[1..], end;
        assert FileOf(lines) == [data[0]] + FileOf(rest);
      }
    }
  }

  /** The tail of a file of such lines is the last of them, where an empty very first line does not count. */
  lemma TailOfFile(lines: seq<Line>, last: Line, n: nat)
    requires forall i :: 0 <= i < |lines| ==> NEWLINE !in lines[i]
    requires NEWLINE !in last
    ensures var all := if last == [] then lines else lines + [last];
      LastN(TailView(FileOf(lines) + last), n) == LastN(if all != [] && all[0] == [] then all[1..] else all, n)
  {
    hide Lines;
    if last == [] {
      LinesOfFile(lines);
      assert FileOf(lines) + last == FileOf(lines);
    } else {
      LinesOfOpenFile(lines, last);
    }
  }

  /** What a scan comes back with is the value of the newest hit: nothing after it is one. */
  lemma {:induction false} NewestIsTheLastHit<R>(lines: seq<Line>, hit: Line -> Option<R>, r: R)
    ensures Newest(lines, hit) == Some(r) <==>
      exists i :: 0 <= i < |lines| && lines[i] != [] && hit(lines[i]) == Some(r)
        && forall k :: i < k < |lines| ==> lines[k] == [] || hit(lines[k]) == None
  {
    if lines != [] {
      var init, last := lines[..|lines| - 1], lines[|lines| - 1];
      NewestIsTheLastHit(init, hit, r);
      assert forall i :: 0 <= i < |init| ==> init[i] == lines[i];
    }
  }

  lemma {:induction false} NewestIsAHit<R>(lines: seq<Line>, hit: Line -> Option<R>)
    ensures Newest(lines, hit).Some? <==> HasHit(lines, hit)
  {
    if lines != [] {
      var init, last := lines[..|lines| - 1], lines[|lines| - 1];
      NewestIsAHit(init, hit);
      if i :| 0 <= i < |lines| && lines[i] != [] && hit(lines[i]).Some? {
        assert i < |init| ==> init[i] == lines[i];
      }
      if HasHit(init, hit) {
        var i :| 0 <= i < |init| && init[i] != [] && hit(init[i]).Some?;
        assert lines[i] == init[i];
      }
    }
  }

  lemma HitsOfFile<R>(lines: seq<Line>, hit: Line -> Option<R>)
    requires forall i :: 0 <= i < |lines| ==> NEWLINE !in lines[i]
    ensures Newest(Split(FileOf(lines)), hit).Some? <==> HasHit(lines, hit)
  {
    SplitFile(lines);
    NewestIsAHit(lines + [[]], hit);
    if i :| 0 <= i < |lines| && lines[i] != [] && hit(lines[i]).Some? { assert (lines + [[]])[i] == lines[i]; }
    if i :| 0 <= i < |lines| + 1 && (lines + [[]])[i] != [] && hit((lines + [[]])[i]).Some? { assert i < |lines|; }
  }

  lemma {:induction false} FileBytes(log: Log, lines: seq<Line>)
    requires Describes(log, lines)
    ensures |FileOf(lines)| == Bytes(log)
  {
    if lines != [] { FileBytes(log[1..], lines[1..]); }
  }

  lemma {:induction false} SuffixesAreSmaller(log: Log, i: nat)
    requires i <= |log|
    ensures Bytes(log[i..]) <= Bytes(log)
  {
    if i == 0 {
      assert log[0..] == log;
    } else {
      SuffixesAreSmaller(log[1..], i - 1);
      assert log[1..][i - 1..] == log[i..];
    }
  }

  /** Rows of the task among some lines. */
  ghost predicate Rows<R>(log: Log, lines: seq<Line>, t: TaskId, hit: Line -> Option<R>) {
    && Describes(log, lines)
    && (forall i :: 0 <= i < |lines| ==> (lines[i] != [] && hit(lines[i]).Some? <==> log[i].id == t))
    && (forall i, n :: 0 <= i < |lines| && 0 < n <= |lines[i]| ==> hit(lines[i][n..]) == None)
  }

  lemma AllInReach<R>(log: Log, lines: seq<Line>, t: TaskId, hit: Line -> Option<R>, cap: nat)
    requires Rows(log, lines, t, hit) && Bytes(log) <= cap
    ensures HasHit(lines, hit) <==> FindsWithin(log, t, cap)
  {
    if i :| 0 <= i < |lines| && lines[i] != [] && hit(lines[i]).Some? {
      SuffixesAreSmaller(log, i);
      assert log[i].id == t;
    }
  }

  lemma FirstOutOfReach(log: Log, t: TaskId, cap: nat)
    requires log != [] && Bytes(log) > cap
    ensures FindsWithin(log, t, cap) <==> FindsWithin(log[1..], t, cap)
  {
    if i :| 0 <= i < |log| && log[i].id == t && Bytes(log[i..]) <= cap {
      assert i > 0 by { assert log[0..] == log; }
      assert log[1..][i - 1..] == log[i..] && log[1..][i - 1] == log[i];
    }
    if i :| 0 <= i < |log[1..]| && log[1..][i].id == t && Bytes(log[1..][i..]) <= cap {
      assert log[1..][i..] == log[i + 1..] && log[i + 1] == log[1..][i];
    }
  }

  lemma {:induction false} LookupWithin<R>(log: Log, lines: seq<Line>, t: TaskId, hit: Line -> Option<R>, cap: nat)
    requires Rows(log, lines, t, hit)
    ensures Newest(Split(Window(FileOf(lines), cap)), hit).Some? <==> FindsWithin(log, t, cap)
    decreases |lines|
  {
    hide Newest, Split;
    FileBytes(log, lines);
    if Bytes(log) <= cap {
      HitsOfFile(lines, hit);
      AllInReach(log, lines, t, hit, cap);
    } else {
      FirstOutOfReach(log, t, cap);
      assert Rows(log[1..], lines[1..], t, hit);
      FileBytes(log[1..], lines[1..]);
      var file, rest := FileOf(lines), FileOf(lines[1..]);
      if |rest| >= cap {
        assert Window(file, cap) == Window(rest, cap);
        LookupWithin(log[1..], lines[1..], t, hit, cap);
      } else {
        FragmentFirst(lines, cap, hit);
        AllInReach(log[1..], lines[1..], t, hit, cap);
      }
    }
  }

  /** The window's edge cuts the first line: what is left of it is no hit. */
  lemma FragmentFirst<R>(lines: seq<Line>, cap: nat, hit: Line -> Option<R>)
    requires lines != [] && |FileOf(lines[1..])| < cap < |FileOf(lines)|
    requires forall i :: 0 <= i < |lines| ==> NEWLINE !in lines[i]
    requires forall n :: 0 < n <= |lines[0]| ==> hit(lines[0][n..]) == None
    ensures Newest(Split(Window(FileOf(lines), cap)), hit).Some? <==> HasHit(lines[1..], hit)
  {
    var n := |FileOf(lines)| - cap;
    var cut := [lines[0][n..]] + lines[1..];
    assert cut[1..] == lines[1..];
    assert Window(FileOf(lines), cap) == FileOf(cut);
    assert forall i :: 0 <= i < |cut| ==> NEWLINE !in cut[i];
    HitsOfFile(cut, hit);
    if i :| 0 <= i < |cut| && cut[i] != [] && hit(cut[i]).Some? { assert i > 0 && lines[1..][i - 1] == cut[i]; }
    if i :| 0 <= i < |lines[1..]| && lines[1..][i] != [] && hit(lines[1..][i]).Some? {
      assert cut[i + 1] == lines[1..][i];
    }
  }

  /** A lookup in the log file finds a row of the task exactly when one lies wholly within what it reads. `hit` is
      JSON parsing and the check of the task ID in one; no proper tail of a row reads as a row. */
  lemma LookupFindsExactly<R>(log: Log, lines: seq<Line>, t: TaskId, hit: Line -> Option<R>)
    requires Rows(log, lines, t, hit)
    ensures Newest(Split(Window(FileOf(lines), FIND_RECORD_MAX_BYTES)), hit).Some? <==> Finds(log, t)
  {
    LookupWithin(log, lines, t, hit, FIND_RECORD_MAX_BYTES);
    if i :| 0 <= i < |log| && log[i].id == t && InReach(log, i) { assert Bytes(log[i..]) <= FIND_RECORD_MAX_BYTES; }
    if i :| 0 <= i < |log| && log[i].id == t && Bytes(log[i..]) <= FIND_RECORD_MAX_BYTES { assert InReach(log, i); }
  }
}
