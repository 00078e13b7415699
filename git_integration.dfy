/**
 * Hunk extraction and hunk identity (git_integration/src/lib.rs).
 *
 * git2 walks a tree-to-tree diff and, for every file, reports a stream of
 * "hunk header" and "line" events to callbacks. `compute_diff` folds that
 * stream with a handful of mutable accumulators into `DiffHunk`s. Here the
 * stream of one file is a `seq<DiffEvent>`, the fold is `ExtractFileHunks`,
 * and `FileHunks` is an independent description of its result: every header
 * opens a hunk whose body is every line up to the next header.
 */
module GitIntegration {
  import opened Common
  import opened Strings

  // ---------------------------------------------------------------------
  // Hunk identity
  // ---------------------------------------------------------------------

  /**
   * `DefaultHasher::new()` fed the file, the old start, the new start and the
   * content, in that order, then `finish()`ed. `DefaultHasher::new()` always
   * starts from the same keys, so the hash is a fixed function of the four
   * values; SipHash itself is not part of this model.
   */
  type Hasher = (string, usize, usize, string) -> u64

  /** `hunk_id`: the unpadded lower-case hex text of the 64-bit hash. */
  function HunkId(hash: Hasher, file: string, oldStart: usize, newStart: usize, content: string): string {
    LowerHex(hash(file, oldStart, newStart, content))
  }

  /** An id is one to sixteen lower-case hex digits. */
  lemma HunkIdShape(hash: Hasher, file: string, oldStart: usize, newStart: usize, content: string)
    ensures 1 <= |HunkId(hash, file, oldStart, newStart, content)| <= 16
    ensures forall k :: 0 <= k < |HunkId(hash, file, oldStart, newStart, content)| ==>
      IsLowerHexDigit(HunkId(hash, file, oldStart, newStart, content)[k])
  {
    LowerHexOfU64(hash(file, oldStart, newStart, content));
  }

  /** Two hunks get the same id exactly when their four hashed inputs collide. */
  lemma HunkIdCollision(hash: Hasher,
                        file: string, oldStart: usize, newStart: usize, content: string,
                        file': string, oldStart': usize, newStart': usize, content': string)
    ensures HunkId(hash, file, oldStart, newStart, content) == HunkId(hash, file', oldStart', newStart', content')
        <==> hash(file, oldStart, newStart, content) == hash(file', oldStart', newStart', content')
  {
    LowerHexInjective(hash(file, oldStart, newStart, content), hash(file', oldStart', newStart', content'));
  }

  // ---------------------------------------------------------------------
  // The event stream of one file
  // ---------------------------------------------------------------------

  /** What git2 reports for one file: hunk headers (positions as `u32`) and lines. */
  datatype DiffEvent =
    | HunkHeader(oldStart: u32, oldLines: u32, newStart: u32, newLines: u32)
    | Line(origin: char, text: string)

  /** One delta of the diff: the new file's path, if git has one, and its events. */
  datatype FileDelta = FileDelta(newPath: Option<string>, events: seq<DiffEvent>)

  /** `path().map(..).unwrap_or_default()`: a missing path becomes "". */
  function FilePath(path: Option<string>): string {
    if path.Some? then path.value else ""
  }

  /** `format!("@@ -{},{} +{},{} @@\n", old_start, old_lines, new_start, new_lines)`. */
  function HeaderLine(oldStart: nat, oldLines: nat, newStart: nat, newLines: nat): string {
    "@@ -" + Decimal(oldStart) + "," + Decimal(oldLines) + " +" + Decimal(newStart) + "," + Decimal(newLines) + " @@\n"
  }

  ghost predicate AllLines(evs: seq<DiffEvent>) {
    forall k :: 0 <= k < |evs| ==> evs[k].Line?
  }

  /**
   * The text line events contribute: origin character, then the line, in
   * order. (It is only ever applied to runs of lines.)
   */
  function Body(lines: seq<DiffEvent>): string {
    if lines == [] then ""
    else
      var e := lines[|lines| - 1];
      Body(lines[..|lines| - 1]) + (if e.Line? then [e.origin] + e.text else "")
  }

  /** The index of the last hunk header, if there is one. */
  function LastHeader(evs: seq<DiffEvent>): (r: Option<nat>)
    ensures r.Some? ==> r.value < |evs| && evs[r.value].HunkHeader?
  {
    if evs == [] then None
    else if evs[|evs| - 1].HunkHeader? then Some(|evs| - 1)
    else LastHeader(evs[..|evs| - 1])
  }

  /**
   * A hunk before it is formatted: its header's positions and the line
   * events that follow the header, up to the next header.
   */
  datatype Span = Span(oldStart: u32, oldLines: u32, newStart: u32, newLines: u32, lines: seq<DiffEvent>)

  /** The span opened by the header at `j`, reaching to the end of `evs`. */
  function SpanAt(evs: seq<DiffEvent>, j: nat): Span
    requires j < |evs| && evs[j].HunkHeader?
  {
    Span(evs[j].oldStart, evs[j].oldLines, evs[j].newStart, evs[j].newLines, evs[j + 1..])
  }

  /** The spans of a stream: one per header, in order, each ending where the next header starts. */
  function Spans(evs: seq<DiffEvent>): seq<Span>
    decreases |evs|
  {
    match LastHeader(evs)
    case None => []
    case Some(j) => Spans(evs[..j]) + [SpanAt(evs, j)]
  }

  /** The text of a hunk: its header line, then its lines. */
  function SpanText(sp: Span): string {
    HeaderLine(sp.oldStart, sp.oldLines, sp.newStart, sp.newLines) + Body(sp.lines)
  }

  /** The `DiffHunk` a span becomes, its id hashed from its file, positions and text. */
  function HunkOf(hash: Hasher, file: string, sp: Span): DiffHunk {
    var content := SpanText(sp);
    DiffHunk(HunkId(hash, file, sp.oldStart, sp.newStart, content), file,
             sp.oldStart, sp.oldLines, sp.newStart, sp.newLines, content)
  }

  function Build(hash: Hasher, file: string, spans: seq<Span>): seq<DiffHunk> {
    seq(|spans|, k requires 0 <= k < |spans| => HunkOf(hash, file, spans[k]))
  }

  /**
   * The hunks of one file: one per header, in order, each holding its header
   * line and the lines that follow it up to the next header.
   */
  function FileHunks(hash: Hasher, file: string, evs: seq<DiffEvent>): seq<DiffHunk> {
    Build(hash, file, Spans(evs))
  }

  /** The headers of a stream, in order. */
  function Headers(evs: seq<DiffEvent>): (r: seq<DiffEvent>)
    ensures forall k :: 0 <= k < |r| ==> r[k].HunkHeader?
  {
    if evs == [] then []
    else Headers(evs[..|evs| - 1]) + (if evs[|evs| - 1].HunkHeader? then [evs[|evs| - 1]] else [])
  }

  // ---------------------------------------------------------------------
  // Facts about the stream structure
  // ---------------------------------------------------------------------

  lemma BuildAppend(hash: Hasher, file: string, s1: seq<Span>, s2: seq<Span>)
    ensures Build(hash, file, s1 + s2) == Build(hash, file, s1) + Build(hash, file, s2)
  {
  }

  lemma BuildSnoc(hash: Hasher, file: string, s: seq<Span>, sp: Span)
    ensures Build(hash, file, s + [sp]) == Build(hash, file, s) + [HunkOf(hash, file, sp)]
  {
    BuildAppend(hash, file, s, [sp]);
  }

  lemma LastHeaderAfterLine(evs: seq<DiffEvent>, e: DiffEvent)
    requires e.Line?
    ensures LastHeader(evs + [e]) == LastHeader(evs)
  {
    assert (evs + [e])[..|evs|] == evs;
  }

  lemma BodyAfterLine(lines: seq<DiffEvent>, e: DiffEvent)
    requires e.Line?
    ensures Body(lines + [e]) == Body(lines) + [e.origin] + e.text
  {
    assert (lines + [e])[..|lines|] == lines;
  }

  lemma SpansAt(evs: seq<DiffEvent>, j: nat)
    requires LastHeader(evs) == Some(j)
    ensures Spans(evs) == Spans(evs[..j]) + [SpanAt(evs, j)]
  {
  }

  /** The header at `j` is the last one when only lines follow it. */
  lemma {:induction false} LastHeaderIs(evs: seq<DiffEvent>, j: nat)
    requires j < |evs| && evs[j].HunkHeader? && AllLines(evs[j + 1..])
    ensures LastHeader(evs) == Some(j)
    decreases |evs|
  {
    if j < |evs| - 1 {
      var init := evs[..|evs| - 1];
      assert evs[|evs| - 1] == evs[j + 1..][|evs| - j - 2];
      assert init[j + 1..] == evs[j + 1..][..|evs| - j - 2];
      LastHeaderIs(init, j);
    }
  }

  /** Only lines follow the last header, and without a header there are only lines. */
  lemma {:induction false} LinesAfterLastHeader(evs: seq<DiffEvent>)
    ensures LastHeader(evs).None? ==> AllLines(evs)
    ensures LastHeader(evs).Some? ==> AllLines(evs[LastHeader(evs).value + 1..])
    decreases |evs|
  {
    if evs != [] && evs[|evs| - 1].Line? {
      var init := evs[..|evs| - 1];
      LinesAfterLastHeader(init);
      match LastHeader(init)
      case None =>
        assert forall k :: 0 <= k < |evs| - 1 ==> evs[k] == init[k];
      case Some(j) =>
        var tail := evs[j + 1..];
        assert tail == init[j + 1..] + [evs[|evs| - 1]];
        assert AllLines(tail);
    }
  }

  lemma ConcatSlices(a: seq<DiffEvent>, b: seq<DiffEvent>, j: nat)
    requires j < |b|
    ensures (a + b)[|a| + j + 1..] == b[j + 1..] && (a + b)[|a| + j] == b[j]
    ensures (a + b)[..|a| + j] == a + b[..j]
  {
  }

  lemma LastHeaderAfterPrefix(a: seq<DiffEvent>, b: seq<DiffEvent>, j: nat)
    requires LastHeader(b) == Some(j)
    ensures LastHeader(a + b) == Some(|a| + j)
  {
    ConcatSlices(a, b, j);
    LinesAfterLastHeader(b);
    LastHeaderIs(a + b, |a| + j);
  }

  /** Putting any events in front of a stream leaves its last span as it was. */
  lemma SpansAfterPrefix(a: seq<DiffEvent>, b: seq<DiffEvent>, j: nat)
    requires LastHeader(b) == Some(j)
    ensures Spans(a + b) == Spans(a + b[..j]) + [SpanAt(b, j)]
  {
    LastHeaderAfterPrefix(a, b, j);
    ConcatSlices(a, b, j);
    SpansAt(a + b, |a| + j);
  }

  // ---------------------------------------------------------------------
  // The fold of `compute_diff`
  // ---------------------------------------------------------------------

  /**
   * What the callbacks' shared state holds after the events `seen`: when a
   * hunk is open (its header at `start`), the hunks pushed so far are those
   * of the events before that header and the open text is the header line
   * followed by every line since; before the first header nothing is held.
   */
  ghost predicate Accumulated(hash: Hasher, file: string, seen: seq<DiffEvent>, start: nat, inHunk: bool,
                              hunks: seq<DiffHunk>, content: string,
                              oldStart: nat, oldLines: nat, newStart: nat, newLines: nat)
  {
    && (inHunk <==> LastHeader(seen).Some?)
    && (!inHunk ==> hunks == [] && content == "")
    && (inHunk ==>
      && LastHeader(seen) == Some(start)
      && var sp := SpanAt(seen, start);
      && sp.oldStart == oldStart && sp.oldLines == oldLines
      && sp.newStart == newStart && sp.newLines == newLines
      && hunks == FileHunks(hash, file, seen[..start])
      && content == SpanText(sp))
  }

  /** What the state holds once the stream is over: the open hunk flushed, it is every hunk. */
  lemma AccumulatedAtEnd(hash: Hasher, file: string, seen: seq<DiffEvent>, start: nat, inHunk: bool,
                         hunks: seq<DiffHunk>, content: string,
                         oldStart: usize, oldLines: usize, newStart: usize, newLines: usize)
    requires Accumulated(hash, file, seen, start, inHunk, hunks, content, oldStart, oldLines, newStart, newLines)
    ensures inHunk ==> content != ""
    ensures FileHunks(hash, file, seen)
         == if inHunk then hunks + [DiffHunk(HunkId(hash, file, oldStart, newStart, content), file,
                                             oldStart, oldLines, newStart, newLines, content)]
            else hunks
  {
    if inHunk {
      SpansAt(seen, start);
      BuildSnoc(hash, file, Spans(seen[..start]), SpanAt(seen, start));
    }
  }

  /**
   * The hunk callback keeps the state in step: it flushes the open hunk (the
   * last of the events so far) and opens one holding just the header line.
   */
  lemma AccumulatedAfterHeader(hash: Hasher, file: string, seen: seq<DiffEvent>, start: nat, inHunk: bool,
                               hunks: seq<DiffHunk>, content: string,
                               oldStart: usize, oldLines: usize, newStart: usize, newLines: usize, e: DiffEvent,
                               hunks': seq<DiffHunk>, content': string)
    requires e.HunkHeader?
    requires Accumulated(hash, file, seen, start, inHunk, hunks, content, oldStart, oldLines, newStart, newLines)
    requires hunks' == if inHunk then hunks + [DiffHunk(HunkId(hash, file, oldStart, newStart, content), file,
                                                        oldStart, oldLines, newStart, newLines, content)]
                       else hunks
    requires content' == (if inHunk then "" else content) + HeaderLine(e.oldStart, e.oldLines, e.newStart, e.newLines)
    ensures Accumulated(hash, file, seen + [e], |seen|, true, hunks', content',
                        e.oldStart, e.oldLines, e.newStart, e.newLines)
  {
    AccumulatedAtEnd(hash, file, seen, start, inHunk, hunks, content, oldStart, oldLines, newStart, newLines);
    var seen' := seen + [e];
    assert seen'[..|seen|] == seen && seen'[|seen|] == e && seen'[|seen| + 1..] == [];
    assert LastHeader(seen') == Some(|seen|);
    assert content' == HeaderLine(e.oldStart, e.oldLines, e.newStart, e.newLines) + Body([]);
  }

  /** The line callback keeps the state in step: the line joins the open hunk, if there is one. */
  lemma AccumulatedAfterLine(hash: Hasher, file: string, seen: seq<DiffEvent>, start: nat, inHunk: bool,
                             hunks: seq<DiffHunk>, content: string,
                             oldStart: nat, oldLines: nat, newStart: nat, newLines: nat, e: DiffEvent,
                             content': string)
    requires e.Line?
    requires Accumulated(hash, file, seen, start, inHunk, hunks, content, oldStart, oldLines, newStart, newLines)
    requires content' == if inHunk then content + [e.origin] + e.text else content
    ensures Accumulated(hash, file, seen + [e], start, inHunk, hunks, content',
                        oldStart, oldLines, newStart, newLines)
  {
    var seen' := seen + [e];
    LastHeaderAfterLine(seen, e);
    if inHunk {
      assert seen'[..start] == seen[..start] && seen'[start] == seen[start];
      assert seen'[start + 1..] == seen[start + 1..] + [e];
      var sp := SpanAt(seen, start);
      assert SpanAt(seen', start) == sp.(lines := sp.lines + [e]);
      SpanTextAfterLine(sp, e);
      assert hunks == FileHunks(hash, file, seen'[..start]);
      assert content' == SpanText(SpanAt(seen', start));
    } else {
      assert LastHeader(seen').None?;
    }
  }

  lemma SpanTextAfterLine(sp: Span, e: DiffEvent)
    requires e.Line?
    ensures SpanText(sp.(lines := sp.lines + [e])) == SpanText(sp) + [e.origin] + e.text
  {
    BodyAfterLine(sp.lines, e);
  }

  /**
   * The state the two git2 callbacks of one file share (lines 31-38): the
   * open hunk's text and positions, whether a hunk is open, and the hunks
   * already pushed for this file. `seen` is the stream reported so far and
   * `start` the index of the open hunk's header in it.
   */
  class HunkAccumulator {
    const hash: Hasher
    const filePath: string
    var hunks: seq<DiffHunk>
    var hunkContent: string
    var oldStart: usize
    var oldLines: usize
    var newStart: usize
    var newLines: usize
    var inHunk: bool
    ghost var seen: seq<DiffEvent>
    ghost var start: nat

    /** The pushed hunks and the open one are exactly the hunks of the stream seen so far. */
    ghost predicate Valid()
      reads this
    {
      Accumulated(hash, filePath, seen, start, inHunk, hunks, hunkContent, oldStart, oldLines, newStart, newLines)
    }

    constructor (hash: Hasher, filePath: string)
      ensures Valid() && this.hash == hash && this.filePath == filePath && seen == []
    {
      this.hash := hash;
      this.filePath := filePath;
      hunks := [];
      hunkContent := "";
      oldStart, oldLines, newStart, newLines := 0, 0, 0, 0;
      inHunk := false;
      seen := [];
      start := 0;
    }

    /** The hunk callback (lines 40-62): flush the open hunk, then open one at this header. */
    method OnHunk(e: DiffEvent)
      requires Valid() && e.HunkHeader?
      modifies this
      ensures Valid() && seen == old(seen) + [e]
    {
      ghost var seen0, start0, inHunk0, hunks0, content0 := seen, start, inHunk, hunks, hunkContent;
      ghost var oldStart0, oldLines0, newStart0, newLines0 := oldStart, oldLines, newStart, newLines;
      if inHunk {
        hunks := hunks + [DiffHunk(HunkId(hash, filePath, oldStart, newStart, hunkContent), filePath,
                                   oldStart, oldLines, newStart, newLines, hunkContent)];
        hunkContent := "";
      }
      inHunk := true;
      oldStart, oldLines, newStart, newLines := e.oldStart, e.oldLines, e.newStart, e.newLines;
      hunkContent := hunkContent + HeaderLine(oldStart, oldLines, newStart, newLines);
      start := |seen|;
      seen := seen + [e];
      OpenedHunk(this, seen0, start0, inHunk0, hunks0, content0, oldStart0, oldLines0, newStart0, newLines0, e);
    }

    /** The line callback (lines 63-69): append origin and text to the open hunk, if any. */
    method OnLine(e: DiffEvent)
      requires Valid() && e.Line?
      modifies this
      ensures Valid() && seen == old(seen) + [e]
    {
      ghost var seen0, content0 := seen, hunkContent;
      if inHunk {
        hunkContent := hunkContent + [e.origin];
        hunkContent := hunkContent + e.text;
      }
      seen := seen + [e];
      ExtendedHunk(this, seen0, content0, e);
    }

    /**
     * The flush after the stream ends (lines 71-82). The emptiness test of the
     * source never fails: an open hunk always holds at least its header line.
     */
    method Finish()
      requires Valid()
      modifies this
      ensures hunks == FileHunks(hash, filePath, seen) && seen == old(seen)
    {
      AccumulatedAtEnd(hash, filePath, seen, start, inHunk, hunks, hunkContent,
                       oldStart, oldLines, newStart, newLines);
      if inHunk && hunkContent != "" {
        hunks := hunks + [DiffHunk(HunkId(hash, filePath, oldStart, newStart, hunkContent), filePath,
                                   oldStart, oldLines, newStart, newLines, hunkContent)];
      }
    }
  }

  /** `OnHunk`'s new state, read off the object: it is `Valid` again. */
  lemma OpenedHunk(acc: HunkAccumulator, seen: seq<DiffEvent>, start: nat, inHunk: bool,
                   hunks: seq<DiffHunk>, content: string,
                   oldStart: usize, oldLines: usize, newStart: usize, newLines: usize, e: DiffEvent)
    requires e.HunkHeader?
    requires Accumulated(acc.hash, acc.filePath, seen, start, inHunk, hunks, content, oldStart, oldLines, newStart, newLines)
    requires acc.seen == seen + [e] && acc.start == |seen| && acc.inHunk
    requires acc.oldStart == e.oldStart && acc.oldLines == e.oldLines
    requires acc.newStart == e.newStart && acc.newLines == e.newLines
    requires acc.hunks == if inHunk then hunks + [DiffHunk(HunkId(acc.hash, acc.filePath, oldStart, newStart, content),
                                                           acc.filePath, oldStart, oldLines, newStart, newLines, content)]
                          else hunks
    requires acc.hunkContent == (if inHunk then "" else content) + HeaderLine(e.oldStart, e.oldLines, e.newStart, e.newLines)
    ensures acc.Valid()
  {
    AccumulatedAfterHeader(acc.hash, acc.filePath, seen, start, inHunk, hunks, content,
                           oldStart, oldLines, newStart, newLines, e, acc.hunks, acc.hunkContent);
  }

  /** `OnLine`'s new state, read off the object: it is `Valid` again. */
  lemma ExtendedHunk(acc: HunkAccumulator, seen: seq<DiffEvent>, content: string, e: DiffEvent)
    requires e.Line?
    requires Accumulated(acc.hash, acc.filePath, seen, acc.start, acc.inHunk, acc.hunks, content,
                         acc.oldStart, acc.oldLines, acc.newStart, acc.newLines)
    requires acc.seen == seen + [e]
    requires acc.hunkContent == if acc.inHunk then content + [e.origin] + e.text else content
    ensures acc.Valid()
  {
    AccumulatedAfterLine(acc.hash, acc.filePath, seen, acc.start, acc.inHunk, acc.hunks, content,
                         acc.oldStart, acc.oldLines, acc.newStart, acc.newLines, e, acc.hunkContent);
  }

  /**
   * The per-file callback of `compute_diff` (lines 30-83): git2 reports the
   * file's events one by one to the hunk and line callbacks, then the last
   * hunk is flushed.
   */
  method ExtractFileHunks(hash: Hasher, delta: FileDelta) returns (hunks: seq<DiffHunk>)
    ensures hunks == FileHunks(hash, FilePath(delta.newPath), delta.events)
  {
    var events := delta.events;
    var acc := new HunkAccumulator(hash, FilePath(delta.newPath));
    for i := 0 to |events|
      invariant acc.Valid() && acc.seen == events[..i]
      invariant acc.hash == hash && acc.filePath == FilePath(delta.newPath)
    {
      assert events[..i + 1] == events[..i] + [events[i]];
      if events[i].HunkHeader? {
        acc.OnHunk(events[i]);
      } else {
        acc.OnLine(events[i]);
      }
    }
    assert events[..|events|] == events;
    acc.Finish();
    hunks := acc.hunks;
  }

  /** The hunks of a whole diff: each file's hunks, file after file. */
  function DiffHunks(hash: Hasher, deltas: seq<FileDelta>): seq<DiffHunk> {
    if deltas == [] then []
    else
      var d := deltas[|deltas| - 1];
      DiffHunks(hash, deltas[..|deltas| - 1]) + FileHunks(hash, FilePath(d.newPath), d.events)
  }

  /** `compute_diff` after git2 has produced the deltas (lines 28-89). */
  method ComputeDiff(hash: Hasher, deltas: seq<FileDelta>) returns (hunks: seq<DiffHunk>)
    ensures hunks == DiffHunks(hash, deltas)
  {
    hunks := [];
    for i := 0 to |deltas|
      invariant hunks == DiffHunks(hash, deltas[..i])
    {
      var fileHunks := ExtractFileHunks(hash, deltas[i]);
      assert deltas[..i + 1][..i] == deltas[..i];
      hunks := hunks + fileHunks;
    }
    assert deltas[..|deltas|] == deltas;
  }

  // ---------------------------------------------------------------------
  // What the fold promises
  // ---------------------------------------------------------------------

  lemma {:induction false} HeadersOfLines(evs: seq<DiffEvent>, lines: seq<DiffEvent>)
    requires AllLines(lines)
    ensures Headers(evs + lines) == Headers(evs)
    decreases |lines|
  {
    if lines != [] {
      var init := lines[..|lines| - 1];
      var all := evs + lines;
      assert all[..|all| - 1] == evs + init;
      assert all[|all| - 1] == lines[|lines| - 1];
      assert Headers(all) == Headers(evs + init);
      HeadersOfLines(evs, init);
    } else {
      assert evs + lines == evs;
    }
  }

  /** A span and a header start at the same place and span the same lines of both versions. */
  ghost predicate OpenedBy(sp: Span, e: DiffEvent)
    requires e.HunkHeader?
  {
    sp.oldStart == e.oldStart && sp.oldLines == e.oldLines && sp.newStart == e.newStart && sp.newLines == e.newLines
  }

  lemma {:induction false} SpanPerHeader(evs: seq<DiffEvent>)
    ensures |Spans(evs)| == |Headers(evs)|
    ensures forall k :: 0 <= k < |Headers(evs)| ==> OpenedBy(Spans(evs)[k], Headers(evs)[k])
    decreases |evs|
  {
    LinesAfterLastHeader(evs);
    match LastHeader(evs)
    case None =>
      HeadersOfLines([], evs);
      assert [] + evs == evs;
    case Some(j) =>
      SpanPerHeader(evs[..j]);
      assert evs[..j + 1][..j] == evs[..j];
      assert evs == evs[..j + 1] + evs[j + 1..];
      HeadersOfLines(evs[..j + 1], evs[j + 1..]);
  }

  /** Hunk `h` and header `e` start at the same place and span the same lines of both versions. */
  ghost predicate SamePosition(h: DiffHunk, e: DiffEvent)
    requires e.HunkHeader?
  {
    h.oldStart == e.oldStart && h.oldLines == e.oldLines && h.newStart == e.newStart && h.newLines == e.newLines
  }

  /**
   * A file yields exactly one hunk per header event, in the order of the
   * headers, each with that header's positions; no headers, no hunks.
   */
  lemma HunkPerHeader(hash: Hasher, file: string, evs: seq<DiffEvent>)
    ensures |FileHunks(hash, file, evs)| == |Headers(evs)|
    ensures forall k :: 0 <= k < |Headers(evs)| ==> SamePosition(FileHunks(hash, file, evs)[k], Headers(evs)[k])
  {
    SpanPerHeader(evs);
  }

  /** What every emitted hunk carries: its file, its own header line first, and the id of its own fields. */
  ghost predicate WellFormed(h: DiffHunk, file: string, hash: Hasher) {
    && h.file == file
    && StartsWith(h.content, HeaderLine(h.oldStart, h.oldLines, h.newStart, h.newLines))
    && h.id == HunkId(hash, h.file, h.oldStart, h.newStart, h.content)
  }

  /** `h` is one of the hunks of delta `d`, and well formed for `d`'s path. */
  ghost predicate FromDelta(h: DiffHunk, hash: Hasher, d: FileDelta) {
    && h in FileHunks(hash, FilePath(d.newPath), d.events)
    && WellFormed(h, FilePath(d.newPath), hash)
  }

  lemma FileHunksWellFormed(hash: Hasher, file: string, evs: seq<DiffEvent>)
    ensures forall h :: h in FileHunks(hash, file, evs) ==> WellFormed(h, file, hash)
  {
    var spans := Spans(evs);
    forall h | h in FileHunks(hash, file, evs)
      ensures WellFormed(h, file, hash)
    {
      var k :| 0 <= k < |spans| && h == HunkOf(hash, file, spans[k]);
      var header := HeaderLine(h.oldStart, h.oldLines, h.newStart, h.newLines);
      assert h.content[..|header|] == header;
    }
  }

  /** Line events before the first hunk header of a file contribute nothing. */
  lemma {:induction false} LinesBeforeFirstHeaderIgnored(hash: Hasher, file: string, pre: seq<DiffEvent>, evs: seq<DiffEvent>)
    requires AllLines(pre)
    ensures Spans(pre + evs) == Spans(evs)
    ensures FileHunks(hash, file, pre + evs) == FileHunks(hash, file, evs)
    decreases |evs|
  {
    match LastHeader(evs)
    case None =>
      LinesAfterLastHeader(evs);
      assert AllLines(pre + evs);
      LinesAfterLastHeader(pre + evs);
    case Some(j) =>
      SpansAfterPrefix(pre, evs, j);
      LinesBeforeFirstHeaderIgnored(hash, file, pre, evs[..j]);
  }

  /** A header followed only by lines makes exactly one hunk: the header line, then those lines. */
  lemma OneHeaderOneHunk(hash: Hasher, file: string, header: DiffEvent, lines: seq<DiffEvent>)
    requires header.HunkHeader? && AllLines(lines)
    ensures FileHunks(hash, file, [header] + lines)
         == [HunkOf(hash, file, Span(header.oldStart, header.oldLines, header.newStart, header.newLines, lines))]
  {
    var sp := Span(header.oldStart, header.oldLines, header.newStart, header.newLines, lines);
    LastHeaderIs([header] + lines, 0);
    assert ([header] + lines)[1..] == lines;
    assert ([header] + lines)[..0] == [];
    assert Spans([header] + lines) == [] + [sp];
    BuildSnoc(hash, file, [], sp);
  }

  lemma {:induction false} SpansSplitBeforeHeader(a: seq<DiffEvent>, b: seq<DiffEvent>)
    requires b != [] && b[0].HunkHeader?
    ensures Spans(a + b) == Spans(a) + Spans(b)
    decreases |b|
  {
    LinesAfterLastHeader(b);
    var j := LastHeader(b).value;
    SpansAfterPrefix(a, b, j);
    if j == 0 {
      assert a + b[..j] == a;
      assert b[..j] == [];
    } else {
      SpansSplitBeforeHeader(a, b[..j]);
    }
  }

  /**
   * Cutting a stream just before a header cuts its hunks in the same place:
   * a hunk's text never reaches past the next header.
   */
  lemma SplitBeforeHeader(hash: Hasher, file: string, a: seq<DiffEvent>, b: seq<DiffEvent>)
    requires b != [] && b[0].HunkHeader?
    ensures FileHunks(hash, file, a + b) == FileHunks(hash, file, a) + FileHunks(hash, file, b)
  {
    SpansSplitBeforeHeader(a, b);
    BuildAppend(hash, file, Spans(a), Spans(b));
  }

  /**
   * Every hunk of the diff comes from one delta's own hunks and is well
   * formed for that delta's path.
   */
  lemma {:induction false} DiffHunksWellFormed(hash: Hasher, deltas: seq<FileDelta>)
    ensures forall h :: h in DiffHunks(hash, deltas) ==>
      exists k :: 0 <= k < |deltas| && FromDelta(h, hash, deltas[k])
  {
    if deltas != [] {
      var n := |deltas| - 1;
      DiffHunksWellFormed(hash, deltas[..n]);
      FileHunksWellFormed(hash, FilePath(deltas[n].newPath), deltas[n].events);
      forall h | h in DiffHunks(hash, deltas)
        ensures exists k :: 0 <= k < |deltas| && FromDelta(h, hash, deltas[k])
      {
        if h in DiffHunks(hash, deltas[..n]) {
          var k :| 0 <= k < n && FromDelta(h, hash, deltas[..n][k]);
          assert deltas[..n][k] == deltas[k];
        } else {
          assert FromDelta(h, hash, deltas[n]);
        }
      }
    }
  }
}
