/** Reading the end of a line file backwards in chunks. */
module TailReader {
  import opened Text

  type Byte = b: int | 0 <= b < 256
  type Line = seq<Byte>

  const NEWLINE: Byte := 10

  // ----- the whole-file view -----

  /** `data.split(b"\\n")` */
  function Split(data: seq<Byte>): (parts: seq<Line>)
    ensures |parts| >= 1
  {
    if data == [] then [[]]
    else
      var rest := Split(data[1..]);
      if data[0] == NEWLINE then [[]] + rest else [[data[0]] + rest[0]] + rest[1..]
  }

  function DropTrailingEmpty(parts: seq<Line>): seq<Line> {
    if parts != [] && parts[|parts| - 1] == [] then parts[..|parts| - 1] else parts
  }

  /** The lines of a file; a final newline opens no further line. */
  function Lines(data: seq<Byte>): seq<Line> { DropTrailingEmpty(Split(data)) }

  function LastN<T>(s: seq<T>, n: nat): seq<T> { if |s| <= n then s else s[|s| - n..] }

  /** What `tail_lines` counts as lines: an empty very first line is not one. */
  function TailView(data: seq<Byte>): seq<Line> {
    var lines := Lines(data);
    if lines != [] && lines[0] == [] then lines[1..] else lines
  }

  /** The newest line that is a hit, scanning from the end. */
  function Newest<R>(lines: seq<Line>, hit: Line -> Option<R>): Option<R> {
    if lines == [] then None
    else
      var last := lines[|lines| - 1];
      if last != [] && hit(last).Some? then hit(last) else Newest(lines[..|lines| - 1], hit)
  }

  function Window(data: seq<Byte>, cap: nat): seq<Byte> { LastN(data, cap) }

  // ----- how lines come together across a cut -----

  /** Two lists of parts whose touching parts belong together. */
  function Join(x: seq<Line>, y: seq<Line>): (z: seq<Line>)
    requires x != [] && y != []
    ensures |z| == |x| + |y| - 1
  {
    x[..|x| - 1] + [x[|x| - 1] + y[0]] + y[1..]
  }

  lemma JoinEmptyFirst(r: seq<Line>, y: seq<Line>)
    requires r != [] && y != []
    ensures Join([[]] + r, y) == [[]] + Join(r, y)
  {}

  lemma JoinLongerFirst(c: Byte, r: seq<Line>, y: seq<Line>)
    requires r != [] && y != []
    ensures Join([[c] + r[0]] + r[1..], y) == [[c] + Join(r, y)[0]] + Join(r, y)[1..]
  {
    var l, z := [[c] + r[0]] + r[1..], Join(r, y);
    assert |r| == 1 ==> l[0] + y[0] == [c] + (r[0] + y[0]);
    forall i | 0 <= i < |z| ensures Join(l, y)[i] == ([[c] + z[0]] + z[1..])[i] { }
  }

  lemma {:induction false} SplitAcross(a: seq<Byte>, b: seq<Byte>)
    ensures Split(a + b) == Join(Split(a), Split(b))
  {
    if a == [] {
      assert a + b == b;
      assert [] + Split(b)[0] == Split(b)[0];
    } else {
      assert (a + b)[1..] == a[1..] + b;
      SplitAcross(a[1..], b);
      if a[0] == NEWLINE {
        JoinEmptyFirst(Split(a[1..]), Split(b));
      } else {
        JoinLongerFirst(a[0], Split(a[1..]), Split(b));
      }
    }
  }

  lemma JoinTail(x: seq<Line>, y: seq<Line>)
    requires x != [] && y != [] && DropTrailingEmpty(y) != []
    ensures DropTrailingEmpty(Join(x, y)) == Join(x, [y[0]]) + DropTrailingEmpty(y)[1..]
  {
    var z := Join(x, y);
    assert z == Join(x, [y[0]]) + y[1..];
    assert z[|z| - 1] == if |y| == 1 then x[|x| - 1] + y[0] else y[|y| - 1];
    if |y| > 1 && y[|y| - 1] == [] {
      assert z[..|z| - 1] == Join(x, [y[0]]) + y[..|y| - 1][1..];
    }
  }

  /** Splitting a chunk with the carried first line of the rest gives the lines of both together. */
  lemma ChunkExtendsLines(chunk: seq<Byte>, rest: seq<Byte>)
    requires Lines(rest) != []
    ensures Lines(chunk + rest) == Split(chunk + Lines(rest)[0]) + Lines(rest)[1..]
  {
    hide Split;
    SplitAcross(chunk, rest);
    SplitAcross(chunk, Split(rest)[0]);
    FirstPartHasNoNewline(rest);
    SplitNoNewline(Split(rest)[0]);
    assert Lines(rest)[0] == Split(rest)[0];
    JoinTail(Split(chunk), Split(rest));
  }

  lemma {:induction false} FirstPartHasNoNewline(data: seq<Byte>)
    ensures NEWLINE !in Split(data)[0]
  {
    if data != [] { FirstPartHasNoNewline(data[1..]); }
  }

  lemma {:induction false} SplitNoNewline(data: seq<Byte>)
    requires NEWLINE !in data
    ensures Split(data) == [data]
  {
    if data != [] {
      SplitNoNewline(data[1..]);
      assert [data[0]] + data[1..] == data;
    }
  }

  lemma {:induction false} LinesNonEmpty(data: seq<Byte>)
    requires data != []
    ensures Lines(data) != []
    ensures Lines(data)[0] == Split(data)[0]
    ensures Lines(data)[0] == [] <==> data[0] == NEWLINE
  {
    assert |Split(data)| == 1 ==> data[0] != NEWLINE;
    assert data[0] != NEWLINE ==> Split(data)[0] != [];
  }

  lemma LastNAppend<T>(a: seq<T>, b: seq<T>, n: nat)
    ensures LastN(a + LastN(b, n), n) == LastN(a + b, n)
    ensures |b| >= n ==> LastN(a + b, n) == LastN(b, n)
  {}

  // ----- tail_lines -----

  function Reverse<T>(s: seq<T>): seq<T> {
    seq(|s|, i requires 0 <= i < |s| => s[|s| - 1 - i])
  }

  lemma ReverseAppend<T>(s: seq<T>, x: T)
    ensures Reverse(s + [x]) == [x] + Reverse(s)
  {}

  /** The inner loop: takes over complete lines newest first, up to one more than wanted. */
  method CollectNewest(collected0: seq<Line>, parts: seq<Line>, n: nat) returns (collected: seq<Line>)
    requires |collected0| <= n && parts != []
    ensures Reverse(collected) == LastN(parts[1..] + Reverse(collected0), n + 1)
  {
    collected := collected0;
    ghost var older := Reverse(collected0);
    var k := |parts|;
    while k > 1
      invariant 1 <= k <= |parts| && |collected| <= n
      invariant Reverse(collected) == parts[k..] + older
    {
      k := k - 1;
      ReverseAppend(collected, parts[k]);
      collected := collected + [parts[k]];
      assert parts[k..] + older == [parts[k]] + (parts[k + 1..] + older);
      if |collected| >= n + 1 {
        assert parts[1..] + older == parts[1..k] + (parts[k..] + older);
        break;
      }
    }
  }

  /** Lines of a suffix after one more chunk, as the loop body assembles them. */
  function Assemble(chunk: seq<Byte>, remainder: Line, firstChunk: bool): (parts: seq<Line>) {
    var parts := Split(chunk + remainder);
    if firstChunk && parts[|parts| - 1] == [] then parts[..|parts| - 1] else parts
  }

  lemma AssembleIsRight(chunk: seq<Byte>, rest: seq<Byte>, remainder: Line)
    requires chunk != []
    requires if rest == [] then remainder == [] else Lines(rest) != [] && remainder == Lines(rest)[0]
    ensures var older := if rest == [] then [] else Lines(rest)[1..];
      && Lines(chunk + rest) == Assemble(chunk, remainder, rest == []) + older
      && Assemble(chunk, remainder, rest == []) != []
  {
    LinesNonEmpty(chunk + rest);
    if rest == [] {
      assert chunk + remainder == chunk + rest;
    } else {
      ChunkExtendsLines(chunk, rest);
    }
  }

  /** What the outer loop of `tail_lines` knows about the part of the file it has read. */
  ghost predicate Collected(rest: seq<Byte>, collected: seq<Line>, remainder: Line, n: nat) {
    if rest == [] then collected == [] && remainder == []
    else
      && Lines(rest) != [] && remainder == Lines(rest)[0]
      && Reverse(collected) == LastN(Lines(rest)[1..], n + 1)
  }

  /** The last `n` lines, newest last; None is a refused chunk size. */
  method TailLines(file: Option<seq<Byte>>, n: int, chunkSize: int) returns (lines: Option<seq<Line>>)
    ensures lines ==
      if n <= 0 then Some([])
      else if chunkSize <= 0 then None
      else if file == None then Some([])
      else Some(LastN(TailView(file.value), n))
  {
    hide Split, Lines, TailView, LastN, Collected, Reverse, Assemble;
    if n <= 0 { return Some([]); }
    if chunkSize <= 0 { return None; }
    if file == None { return Some([]); }
    var data := file.value;
    if |data| == 0 {
      NoLines(n);
      return Some([]);
    }

    var collected: seq<Line> := [];
    var remainder: Line := [];
    var firstChunk := true;
    var pos := |data|;
    NoLines(n);
    assert data[|data|..] == [];
    while pos > 0 && |collected| < n + 1
      invariant 0 <= pos <= |data| && |collected| <= n + 1
      invariant firstChunk <==> pos == |data|
      invariant pos == |data| ==> collected == []
      invariant Collected(data[pos..], collected, remainder, n)
      decreases pos
    {
      var readSize := if chunkSize < pos then chunkSize else pos;
      ghost var rest := data[pos..];
      pos := pos - readSize;
      var chunk := data[pos..pos + readSize];
      assert data[pos..] == chunk + rest;
      var parts := Assemble(chunk, remainder, firstChunk);
      SomePart(chunk, rest, remainder, collected, n);
      firstChunk := false;
      ghost var before, carried := collected, remainder;
      collected := CollectNewest(collected, parts, n);
      OneMoreChunk(chunk, rest, carried, before, collected, n);
      remainder := parts[0];
    }

    assert data[pos..] != [];
    FinishTail(data, pos, collected, remainder, n);
    if remainder != [] && |collected| < n + 1 {
      collected := collected + [remainder];
    }
    return Some(LastN(Reverse(collected), n));
  }

  lemma NoLines(n: nat)
    ensures LastN(TailView([]), n) == []
    ensures Collected([], [], [], n)
  {}

  /** The lines after the first of what has been read. */
  function LaterLines(rest: seq<Byte>): seq<Line> { if Lines(rest) == [] then [] else Lines(rest)[1..] }

  lemma CollectedIsNewest(rest: seq<Byte>, collected: seq<Line>, remainder: Line, n: nat)
    requires Collected(rest, collected, remainder, n)
    ensures Reverse(collected) == LastN(LaterLines(rest), n + 1)
    ensures rest == [] ==> LaterLines(rest) == []
  {}

  lemma NewestIsCollected(rest: seq<Byte>, collected: seq<Line>, n: nat)
    requires rest != [] && Reverse(collected) == LastN(LaterLines(rest), n + 1)
    ensures Lines(rest) != [] && Collected(rest, collected, Lines(rest)[0], n) && |collected| <= n + 1
  {
    LinesNonEmpty(rest);
    assert |Reverse(collected)| == |collected|;
  }

  lemma ChunkLines(chunk: seq<Byte>, rest: seq<Byte>, remainder: Line, before: seq<Line>, n: nat)
    requires chunk != [] && Collected(rest, before, remainder, n)
    ensures var parts := Assemble(chunk, remainder, rest == []);
      parts != [] && Lines(chunk + rest) != [] && Lines(chunk + rest)[0] == parts[0]
      && LaterLines(chunk + rest) == parts[1..] + LaterLines(rest)
  {
    hide Split, DropTrailingEmpty, Assemble;
    AssembleIsRight(chunk, rest, remainder);
    CollectedIsNewest(rest, before, remainder, n);
    hide Lines;
    var parts := Assemble(chunk, remainder, rest == []);
    assert Lines(chunk + rest) == parts + LaterLines(rest);
  }

  /** What one turn of the outer loop keeps. */
  lemma OneMoreChunk(chunk: seq<Byte>, rest: seq<Byte>, remainder: Line, before: seq<Line>, after: seq<Line>, n: nat)
    requires chunk != [] && Collected(rest, before, remainder, n)
    requires var parts := Assemble(chunk, remainder, rest == []);
      parts != [] ==> Reverse(after) == LastN(parts[1..] + Reverse(before), n + 1)
    ensures var parts := Assemble(chunk, remainder, rest == []);
      parts != [] && Collected(chunk + rest, after, parts[0], n) && |after| <= n + 1
  {
    hide Lines, Assemble, LastN, Reverse, Collected, LaterLines;
    ChunkLines(chunk, rest, remainder, before, n);
    CollectedIsNewest(rest, before, remainder, n);
    LastNAppend(Assemble(chunk, remainder, rest == [])[1..], LaterLines(rest), n + 1);
    NewestIsCollected(chunk + rest, after, n);
  }

  lemma SomePart(chunk: seq<Byte>, rest: seq<Byte>, remainder: Line, collected: seq<Line>, n: nat)
    requires chunk != [] && Collected(rest, collected, remainder, n)
    ensures Assemble(chunk, remainder, rest == []) != []
  {
    AssembleIsRight(chunk, rest, remainder);
  }

  lemma FinishTail(data: seq<Byte>, pos: nat, collected: seq<Line>, remainder: Line, n: nat)
    requires pos < |data| && Collected(data[pos..], collected, remainder, n)
    requires pos == 0 || |collected| >= n + 1
    ensures var all := if remainder != [] && |collected| < n + 1 then collected + [remainder] else collected;
      LastN(Reverse(all), n) == LastN(TailView(data), n)
  {
    var rest := Lines(data[pos..])[1..];
    assert |Reverse(collected)| == |collected|;
    if |collected| >= n + 1 {
      TailOfSuffix(data, pos, n);
      assert LastN(LastN(rest, n + 1), n) == LastN(rest, n);
    } else {
      assert data[pos..] == data;
      assert Lines(data) == [remainder] + rest;
      ReverseAppend(collected, remainder);
    }
  }

  /** Enough lines from the end of a suffix are the same lines from the end of the file. */
  lemma TailOfSuffix(data: seq<Byte>, pos: nat, n: nat)
    requires pos <= |data| && Lines(data[pos..]) != []
    ensures |Lines(data[pos..])[1..]| >= n ==>
      LastN(TailView(data), n) == LastN(Lines(data[pos..])[1..], n)
  {
    hide Split, Lines, LastN;
    var rest := data[pos..];
    assert data == data[..pos] + rest;
    ChunkExtendsLines(data[..pos], rest);
    var x, tail := Split(data[..pos] + Lines(rest)[0]), Lines(rest)[1..];
    LastNAppend(x, tail, n);
    LastNAppend(x[1..], tail, n);
    assert Lines(data) == x + tail;
    assert Lines(data)[1..] == x[1..] + tail;
  }

  /** `tail_lines` agrees with the last `n` lines of the file, blank ones included, exactly when the file does not
      open with a newline or has more than `n` lines. */
  lemma AgreesWithAllLines(data: seq<Byte>, n: nat)
    ensures LastN(TailView(data), n) == LastN(Lines(data), n) <==>
      (data == [] || data[0] != NEWLINE || |Lines(data)| > n)
  {
    if data != [] {
      LinesNonEmpty(data);
      LastNAppend(Lines(data)[..1], Lines(data)[1..], n);
      assert Lines(data) == Lines(data)[..1] + Lines(data)[1..];
      if data[0] == NEWLINE && |Lines(data)| <= n {
        assert |LastN(TailView(data), n)| < |LastN(Lines(data), n)|;
      }
    }
  }

  // ----- find_record_by_task_id -----

  lemma {:induction false} NewestAppend<R>(a: seq<Line>, b: seq<Line>, hit: Line -> Option<R>)
    ensures Newest(a + b, hit) == if Newest(b, hit).Some? then Newest(b, hit) else Newest(a, hit)
  {
    if b == [] {
      assert a + b == a;
    } else {
      assert (a + b)[..|a + b| - 1] == a + b[..|b| - 1];
      NewestAppend(a, b[..|b| - 1], hit);
    }
  }

  /** What the search knows about the part of the file it has read. */
  ghost predicate Searched<R>(rest: seq<Byte>, remainder: Line, hit: Line -> Option<R>) {
    if rest == [] then remainder == []
    else Lines(rest) != [] && remainder == Lines(rest)[0] && Newest(Lines(rest)[1..], hit) == None
  }

  /** The newest record of the wanted task within the last `maxBytes` bytes: `hit` is JSON parsing and the
      check of the task ID in one. The outer None is a refused chunk size. */
  method FindRecordByTaskId<R>(file: Option<seq<Byte>>, hit: Line -> Option<R>, maxBytes: int, chunkSize: int)
    returns (found: Option<Option<R>>)
    ensures found ==
      if chunkSize <= 0 then None
      else if maxBytes <= 0 || file == None then Some(None)
      else Some(Newest(Split(Window(file.value, maxBytes)), hit))
  {
    hide Split, DropTrailingEmpty, Newest;
    if chunkSize <= 0 { return None; }
    if maxBytes <= 0 { return Some(None); }
    if file == None { return Some(None); }
    var data := file.value;
    ghost var window := Window(data, maxBytes);
    NewestIgnoresEmptyTail(window, hit);
    NewestOfNothing(hit);
    if |data| == 0 { return Some(None); }

    var remainder: Line := [];
    var firstChunk := true;
    var bytesRead := 0;
    var pos := |data|;
    while pos > 0 && bytesRead < maxBytes
      invariant 0 <= pos <= |data| && bytesRead == |data| - pos <= maxBytes
      invariant firstChunk <==> pos == |data|
      invariant pos > 0 && bytesRead < maxBytes ==> Searched(data[pos..], remainder, hit)
      invariant pos == 0 || bytesRead >= maxBytes ==> Newest(Lines(window), hit) == None
      decreases pos
    {
      var readSize := if chunkSize < pos then chunkSize else pos;
      if maxBytes - bytesRead < readSize { readSize := maxBytes - bytesRead; }
      ghost var rest := data[pos..];
      ghost var older := if rest == [] then [] else Lines(rest)[1..];
      pos := pos - readSize;
      bytesRead := bytesRead + readSize;
      var chunk := data[pos..pos + readSize];
      assert data[pos..] == chunk + rest;
      var parts := Assemble(chunk, remainder, firstChunk);
      AssembleIsRight(chunk, rest, remainder);
      firstChunk := false;
      var atStart := pos == 0 || bytesRead >= maxBytes;
      var complete := if atStart then parts else parts[1..];
      remainder := if atStart then [] else parts[0];
      assert atStart ==> data[pos..] == window;
      assert complete + older == if atStart then Lines(window) else Lines(data[pos..])[1..];
      NewestAppend(complete, older, hit);

      var record := ScanNewestFirst(complete, hit);
      if record.Some? {
        NewestWithin(window, data, pos, complete, older, hit);
        return Some(record);
      }
    }
    return Some(None);
  }

  lemma NewestOfNothing<R>(hit: Line -> Option<R>)
    ensures Newest([], hit) == None && Newest(Split([]), hit) == None
  {}

  /** The inner loop: newest first, skipping empty lines and lines that are no hit. */
  method ScanNewestFirst<R>(lines: seq<Line>, hit: Line -> Option<R>) returns (record: Option<R>)
    ensures record == Newest(lines, hit)
  {
    var k := |lines|;
    assert lines[..k] == lines;
    while k > 0
      invariant 0 <= k <= |lines|
      invariant Newest(lines, hit) == Newest(lines[..k], hit)
    {
      k := k - 1;
      assert lines[..k + 1][..k] == lines[..k];
      if lines[k] == [] { continue; }
      record := hit(lines[k]);
      if record.Some? { return; }
    }
    record := None;
  }

  lemma NewestIgnoresEmptyTail<R>(data: seq<Byte>, hit: Line -> Option<R>)
    ensures Newest(Split(data), hit) == Newest(Lines(data), hit)
  {}

  /** A hit among the complete lines of a suffix of the window is the window's newest hit. */
  lemma NewestWithin<R>(window: seq<Byte>, data: seq<Byte>, pos: nat, complete: seq<Line>, older: seq<Line>,
                        hit: Line -> Option<R>)
    requires pos <= |data| && |window| >= |data[pos..]| && window == LastN(data, |window|)
    requires Lines(data[pos..]) != []
    requires Newest(complete, hit).Some? && Newest(older, hit) == None
    requires complete + older == Lines(data[pos..])[1..]
      || (complete + older == Lines(data[pos..]) && window == data[pos..])
    ensures Newest(Lines(window), hit) == Newest(complete, hit)
  {
    NewestAppend(complete, older, hit);
    if complete + older == Lines(data[pos..])[1..] {
      var head := window[..|window| - |data[pos..]|];
      assert window == head + data[pos..];
      ChunkExtendsLines(head, data[pos..]);
      NewestAppend(Split(head + Lines(data[pos..])[0]), Lines(data[pos..])[1..], hit);
    }
  }

  /** With a cap at least as large as the file, the search is a scan of the whole file. */
  lemma WholeFileWithinCap<R>(data: seq<Byte>, cap: nat, hit: Line -> Option<R>)
    requires |data| <= cap
    ensures Newest(Split(Window(data, cap)), hit) == Newest(Split(data), hit)
  {}

  /** Below the cap, a hit outside the fragment at the window's edge is the newest hit of the whole file. */
  lemma CappedHitIsNewest<R>(data: seq<Byte>, cap: nat, hit: Line -> Option<R>)
    requires 0 < cap && data != []
    requires Newest(Lines(Window(data, cap))[1..], hit).Some?
    ensures Lines(Window(data, cap)) != []
    ensures Newest(Split(Window(data, cap)), hit) == Newest(Split(data), hit)
  {
    var w := Window(data, cap);
    LinesNonEmpty(w);
    var head := data[..|data| - |w|];
    assert data == head + w;
    ChunkExtendsLines(head, w);
    NewestAppend(Split(head + Lines(w)[0]), Lines(w)[1..], hit);
    NewestAppend(Lines(w)[..1], Lines(w)[1..], hit);
    assert Lines(w) == Lines(w)[..1] + Lines(w)[1..];
    NewestIgnoresEmptyTail(w, hit);
    NewestIgnoresEmptyTail(data, hit);
  }
}
