/**
 * The terminal client (cli/src/main.rs): the file list and hunk selection,
 * the command/chat input state machine, the key dispatch of the event loop,
 * and the routing of network messages by topic.
 *
 * The state machine is specified twice over: pure functions on a `View` of
 * the app's mutable fields (`Submit`, `Dispatch`) carry the properties, and
 * the `App` class mutates its fields as the source does and is proved to end
 * in the state those functions describe.
 */
module Cli {
  import opened Common
  import opened Strings
  import Store

  // ---------------------------------------------------------------------
  // Messages and topics
  // ---------------------------------------------------------------------

  datatype InputMode = Command | Chat

  /** `NetMsg`: what travels between the UI and the network thread. */
  datatype NetMsg = ChatMsg(line: ChatLine) | CommentMsg(comment: Comment)

  const CHAT_TOPIC_PREFIX: string := "chatmesh-"
  const COMMENT_TOPIC_PREFIX: string := "reviewmesh-"

  /**
   * serde_json's `to_vec` and `from_slice` for the two records; serde_json is
   * not part of this model.
   */
  datatype JsonCodec = JsonCodec(
    encodeChat: ChatLine -> seq<byte>,
    decodeChat: seq<byte> -> Option<ChatLine>,
    encodeComment: Comment -> seq<byte>,
    decodeComment: seq<byte> -> Option<Comment>)

  /**
   * Serialising a record and parsing it back gives the record. The chat-line
   * half is the `chatline_serde_roundtrip` test; the comment half is an
   * assumption that no test backs.
   */
  ghost predicate RoundTrips(json: JsonCodec) {
    && (forall m :: json.decodeChat(json.encodeChat(m)) == Some(m))
    && (forall c :: json.decodeComment(json.encodeComment(c)) == Some(c))
  }

  /**
   * The inbound router (lines 280-288): the topic's prefix picks the record
   * kind; other topics and payloads that do not parse are dropped.
   */
  function Route(json: JsonCodec, topic: string, data: seq<byte>): (r: Option<NetMsg>)
    ensures r.Some? && r.value.ChatMsg? ==> StartsWith(topic, CHAT_TOPIC_PREFIX)
    ensures r.Some? && r.value.CommentMsg? ==> StartsWith(topic, COMMENT_TOPIC_PREFIX)
    ensures !StartsWith(topic, CHAT_TOPIC_PREFIX) && !StartsWith(topic, COMMENT_TOPIC_PREFIX) ==> r.None?
    ensures StartsWith(topic, CHAT_TOPIC_PREFIX) && json.decodeChat(data).None? ==> r.None?
    ensures StartsWith(topic, CHAT_TOPIC_PREFIX) && json.decodeChat(data).Some? ==>
      r == Some(ChatMsg(json.decodeChat(data).value))
    ensures !StartsWith(topic, CHAT_TOPIC_PREFIX) && StartsWith(topic, COMMENT_TOPIC_PREFIX) ==>
      (json.decodeComment(data).None? ==> r.None?) &&
      (json.decodeComment(data).Some? ==> r == Some(CommentMsg(json.decodeComment(data).value)))
  {
    if StartsWith(topic, CHAT_TOPIC_PREFIX) then
      var m := json.decodeChat(data);
      if m.Some? then Some(ChatMsg(m.value)) else None
    else if StartsWith(topic, COMMENT_TOPIC_PREFIX) then
      var c := json.decodeComment(data);
      if c.Some? then Some(CommentMsg(c.value)) else None
    else None
  }

  /** The outbound side (lines 296-306): the topic and payload a message is published with. */
  function Publish(json: JsonCodec, sessionId: string, msg: NetMsg): (string, seq<byte>) {
    match msg
    case ChatMsg(m) => (CHAT_TOPIC_PREFIX + sessionId, json.encodeChat(m))
    case CommentMsg(c) => (COMMENT_TOPIC_PREFIX + sessionId, json.encodeComment(c))
  }

  /** What one peer publishes, another peer's router delivers unchanged, of the same kind. */
  lemma RouteRoundTrip(json: JsonCodec, sessionId: string, msg: NetMsg)
    requires RoundTrips(json)
    ensures var (topic, data) := Publish(json, sessionId, msg); Route(json, topic, data) == Some(msg)
  {
    var (topic, data) := Publish(json, sessionId, msg);
    match msg
    case ChatMsg(m) =>
      assert StartsWith(topic, CHAT_TOPIC_PREFIX) by {
        assert topic[..|CHAT_TOPIC_PREFIX|] == CHAT_TOPIC_PREFIX;
      }
      assert json.decodeChat(json.encodeChat(m)) == Some(m);
    case CommentMsg(c) =>
      assert StartsWith(topic, COMMENT_TOPIC_PREFIX) by {
        assert topic[..|COMMENT_TOPIC_PREFIX|] == COMMENT_TOPIC_PREFIX;
      }
      assert !StartsWith(topic, CHAT_TOPIC_PREFIX) by {
        assert topic[0] == 'r';
      }
      assert json.decodeComment(json.encodeComment(c)) == Some(c);
  }

  /** `format!("{}: {}", author, body)`: how a received or stored record is shown. */
  function Shown(author: string, body: string): (line: string)
    ensures |line| == |author| + 2 + |body|
    ensures line[..|author|] == author && line[|author| + 2..] == body
    ensures line[|author|..|author| + 2] == ": "
  {
    author + ": " + body
  }

  /** The display lines of a list of (author, body) pairs, one per record, in order. */
  function ShownAll(r: seq<(string, string)>): (lines: seq<string>)
    ensures |lines| == |r|
    ensures forall k :: 0 <= k < |r| ==> lines[k] == Shown(r[k].0, r[k].1)
  {
    if r == [] then [] else ShownAll(r[..|r| - 1]) + [Shown(r[|r| - 1].0, r[|r| - 1].1)]
  }

  /** Stored chat lines as the chat pane shows them (lines 57-61). */
  function ShownChat(r: seq<ChatLine>): seq<string> {
    ShownAll(seq(|r|, k requires 0 <= k < |r| => (r[k].author, r[k].body)))
  }

  /** Stored comments as the comment pane shows them (lines 62-66). */
  function ShownComments(r: seq<Comment>): seq<string> {
    ShownAll(seq(|r|, k requires 0 <= k < |r| => (r[k].author, r[k].body)))
  }

  // ---------------------------------------------------------------------
  // The file list: `files.sort(); files.dedup();` (lines 49-52)
  // ---------------------------------------------------------------------

  ghost predicate StrictlySorted(s: seq<string>) {
    forall i, j :: 0 <= i < j < |s| ==> Less(s[i], s[j])
  }

  /** The `file` of every hunk, in order. */
  function FilesOf(hunks: seq<DiffHunk>): (fs: seq<string>)
    ensures |fs| == |hunks| && forall k :: 0 <= k < |hunks| ==> fs[k] == hunks[k].file
  {
    seq(|hunks|, k requires 0 <= k < |hunks| => hunks[k].file)
  }

  /** Puts `x` into a strictly sorted list, unless it is there already. */
  function Insert(x: string, s: seq<string>): (r: seq<string>)
    requires StrictlySorted(s)
    ensures StrictlySorted(r)
    ensures forall y :: y in r <==> y == x || y in s
  {
    if s == [] then [x]
    else if x == s[0] then s
    else if Less(x, s[0]) then
      forall j | 0 < j < |s| ensures Less(x, s[j]) {
        LessTransitive(x, s[0], s[j]);
      }
      [x] + s
    else
      LessTotal(x, s[0]);
      var t := Insert(x, s[1..]);
      assert forall y :: y in t ==> Less(s[0], y) by {
        forall y | y in s[1..] ensures Less(s[0], y) {
          var j :| 0 <= j < |s[1..]| && s[1..][j] == y;
          assert s[j + 1] == y;
        }
      }
      assert s == [s[0]] + s[1..];
      [s[0]] + t
  }

  /** Sorting, then dropping repeats: the distinct members of `s` in ascending order. */
  function SortDedup(s: seq<string>): (r: seq<string>)
    ensures StrictlySorted(r)
    ensures forall y :: y in r <==> y in s
  {
    if s == [] then []
    else
      var r := Insert(s[|s| - 1], SortDedup(s[..|s| - 1]));
      assert s == s[..|s| - 1] + [s[|s| - 1]];
      r
  }

  /** `files` as `App::new` builds it. */
  function FileList(hunks: seq<DiffHunk>): (files: seq<string>)
    ensures StrictlySorted(files)
    ensures forall f :: f in files <==> exists h :: h in hunks && h.file == f
  {
    var files := SortDedup(FilesOf(hunks));
    assert forall f :: f in FilesOf(hunks) <==> exists h :: h in hunks && h.file == f by {
      forall f ensures f in FilesOf(hunks) <==> exists h :: h in hunks && h.file == f {
        if f in FilesOf(hunks) {
          var k :| 0 <= k < |hunks| && FilesOf(hunks)[k] == f;
          assert hunks[k] in hunks;
        }
        if exists h :: h in hunks && h.file == f {
          var h :| h in hunks && h.file == f;
          var k :| 0 <= k < |hunks| && hunks[k] == h;
          assert FilesOf(hunks)[k] == f;
        }
      }
    }
    files
  }

  /** A strictly sorted list holds no value twice. */
  lemma StrictlySortedDistinct(s: seq<string>)
    requires StrictlySorted(s)
    ensures forall i, j :: 0 <= i < j < |s| ==> s[i] != s[j]
  {
    forall i, j | 0 <= i < j < |s| ensures s[i] != s[j] {
      LessIrreflexive(s[i]);
    }
  }

  /**
   * There is only one strictly sorted list of given members, so `FileList`
   * is what any sort followed by dedup produces.
   */
  lemma {:induction false} SortedListUnique(a: seq<string>, b: seq<string>)
    requires StrictlySorted(a) && StrictlySorted(b)
    requires forall y :: y in a <==> y in b
    ensures a == b
  {
    if a != [] && b != [] {
      assert a[0] in b;
      assert b[0] in a;
      if a[0] != b[0] {
        var i :| 0 <= i < |a| && a[i] == b[0];
        var j :| 0 <= j < |b| && b[j] == a[0];
        assert Less(a[0], b[0]);
        assert Less(b[0], a[0]);
        LessAsymmetric(a[0], b[0]);
      }
      forall y ensures y in a[1..] <==> y in b[1..] {
        if y in a[1..] {
          var i :| 0 <= i < |a[1..]| && a[1..][i] == y;
          assert Less(a[0], a[i + 1]);
          LessIrreflexive(y);
          assert y in b && y != b[0];
          var j :| 0 <= j < |b| && b[j] == y;
          assert y == b[1..][j - 1];
        }
        if y in b[1..] {
          var j :| 0 <= j < |b[1..]| && b[1..][j] == y;
          assert Less(b[0], b[j + 1]);
          LessIrreflexive(y);
          assert y in a && y != a[0];
          var i :| 0 <= i < |a| && a[i] == y;
          assert y == a[1..][i - 1];
        }
      }
      SortedListUnique(a[1..], b[1..]);
      assert a == [a[0]] + a[1..] && b == [b[0]] + b[1..];
    } else if a != [] {
      FirstIsMember(a);
      assert false;
    } else if b != [] {
      FirstIsMember(b);
      assert false;
    }
  }

  lemma FirstIsMember(s: seq<string>)
    requires s != []
    ensures s[0] in s
  {
  }

  // ---------------------------------------------------------------------
  // Selection: `current_file`, `current_hunks`, `current_hunk` (lines 85-100)
  // ---------------------------------------------------------------------

  /** The hunks of file `f`, in their original order. */
  function HunksOf(hunks: seq<DiffHunk>, f: string): (r: seq<DiffHunk>)
    ensures |r| <= |hunks|
    ensures forall h :: h in r <==> h in hunks && h.file == f
  {
    if hunks == [] then []
    else
      assert hunks == [hunks[0]] + hunks[1..];
      (if hunks[0].file == f then [hunks[0]] else []) + HunksOf(hunks[1..], f)
  }

  /** Filtering keeps order: the hunks of a concatenation are the hunks of each part, in turn. */
  lemma {:induction false} HunksOfAppend(a: seq<DiffHunk>, b: seq<DiffHunk>, f: string)
    ensures HunksOf(a + b, f) == HunksOf(a, f) + HunksOf(b, f)
  {
    if a != [] {
      assert (a + b)[1..] == a[1..] + b;
      HunksOfAppend(a[1..], b, f);
    } else {
      assert a + b == b;
    }
  }

  /** Every file the list shows has at least one hunk to show. */
  lemma ListedFileHasHunks(hunks: seq<DiffHunk>, f: string)
    requires f in FileList(hunks)
    ensures |HunksOf(hunks, f)| >= 1
  {
    var h :| h in hunks && h.file == f;
    assert h in HunksOf(hunks, f);
  }

  function CurrentFile(files: seq<string>, selectedFile: nat): (r: Option<string>)
    ensures r.Some? <==> selectedFile < |files|
    ensures r.Some? ==> r.value == files[selectedFile]
  {
    if selectedFile < |files| then Some(files[selectedFile]) else None
  }

  function CurrentHunks(files: seq<string>, hunks: seq<DiffHunk>, selectedFile: nat): (r: seq<DiffHunk>)
    ensures selectedFile >= |files| ==> r == []
    ensures selectedFile < |files| ==> r == HunksOf(hunks, files[selectedFile])
  {
    var file := CurrentFile(files, selectedFile);
    if file.Some? then HunksOf(hunks, file.value) else []
  }

  function CurrentHunk(files: seq<string>, hunks: seq<DiffHunk>, selectedFile: nat, selectedHunk: nat)
    : (r: Option<DiffHunk>)
    ensures r.Some? <==> selectedHunk < |CurrentHunks(files, hunks, selectedFile)|
    ensures r.Some? ==> r.value in hunks && selectedFile < |files| && r.value.file == files[selectedFile]
    ensures r.Some? ==> r.value == CurrentHunks(files, hunks, selectedFile)[selectedHunk]
  {
    var current := CurrentHunks(files, hunks, selectedFile);
    if selectedHunk < |current| then
      assert current[selectedHunk] in current;
      Some(current[selectedHunk])
    else None
  }

  /**
   * The selection invariant the event loop keeps: with no files nothing is
   * selected; otherwise a file and one of its hunks are.
   */
  ghost predicate SelectionValid(files: seq<string>, hunks: seq<DiffHunk>, selectedFile: nat, selectedHunk: nat) {
    if files == [] then selectedFile == 0 && selectedHunk == 0
    else selectedFile < |files| && selectedHunk < |CurrentHunks(files, hunks, selectedFile)|
  }

  /** The selection `App::new` starts with is valid. */
  lemma InitialSelectionValid(hunks: seq<DiffHunk>)
    ensures SelectionValid(FileList(hunks), hunks, 0, 0)
  {
    var files := FileList(hunks);
    if files != [] {
      assert files[0] in files;
      ListedFileHasHunks(hunks, files[0]);
    }
  }

  // ---------------------------------------------------------------------
  // The input state machine, on values
  // ---------------------------------------------------------------------

  const CHAT_STATUS: string := "Chat mode (Enter to send, / to enter command)"
  const COMMAND_STATUS: string := "Command mode (type /help for commands)"
  const COMMENT_STATUS: string := "Comment added and sent."
  const RESOLVED_STATUS: string := "Last comment marked as resolved."
  const NOTHING_TO_RESOLVE_STATUS: string := "No comments to resolve."
  const HELP_STATUS: string := "Commands: /comment <text>, /resolve, /chat, /export, /export pdf, /help, q"
  const WELCOME: string := "Welcome to ReviewMesh! Type /help for commands."
  const COMMENT_PREFIX: string := "/comment "
  const RESOLVED_MARK: string := "[RESOLVED] "

  /** The mutable fields of `App`. */
  datatype View = View(
    input: string,
    mode: InputMode,
    chat: seq<string>,
    comments: seq<string>,
    status: string,
    selectedFile: nat,
    selectedHunk: nat)

  /** The fields of `App` that input handling reads but never writes. */
  datatype Context = Context(files: seq<string>, hunks: seq<DiffHunk>, sessionId: string, author: string)

  /** How an export's file I/O ended: `Ok`, or an error with its message. */
  datatype ExportOutcome = Exported | ExportFailed(message: string)

  /**
   * The outside world input handling consults: the fresh `Uuid::new_v4`, the
   * clock, and how the PDF and Markdown exports would end.
   */
  datatype World = World(uuid: string, now: Timestamp, pdfExport: ExportOutcome, markdownExport: ExportOutcome)

  /** A record handed to the network thread and to the store. */
  datatype Outgoing = Nothing | Send(msg: NetMsg)

  datatype Submitted = Submitted(view: View, outgoing: Outgoing)

  /**
   * The comment `/comment <body>` creates: anchored at the current hunk's
   * file, id and new start line, or at "", "", 0 when no hunk is selected.
   */
  function DraftComment(ctx: Context, selectedFile: nat, selectedHunk: nat, body: string, w: World): (c: Comment)
    ensures c.body == body && !c.resolved && c.id == w.uuid && c.sessionId == ctx.sessionId && c.author == ctx.author
    ensures var h := CurrentHunk(ctx.files, ctx.hunks, selectedFile, selectedHunk);
      if h.Some? then c.file == h.value.file && c.hunkId == h.value.id && c.line == h.value.newStart
      else c.file == "" && c.hunkId == "" && c.line == 0
  {
    var h := CurrentHunk(ctx.files, ctx.hunks, selectedFile, selectedHunk);
    var (file, hunkId, line) := if h.Some? then (h.value.file, h.value.id, h.value.newStart) else ("", "", 0);
    Comment(w.uuid, ctx.sessionId, ctx.author, file, hunkId, line, body, w.now, false)
  }

  /** A trimmed line that starts with "/comment " has a non-empty body after it. */
  lemma CommentBodyNonEmpty(input: string)
    requires StartsWith(Trim(input), COMMENT_PREFIX)
    ensures |Trim(input)| > |COMMENT_PREFIX|
  {
    var t := Trim(input);
    TrimSpec(input);
    assert t[8] == COMMENT_PREFIX[8] == ' ';
    assert IsWhitespace(t[8]);
  }

  /** The status `/export pdf` leaves. */
  function PdfExportStatus(e: ExportOutcome): string {
    match e
    case Exported => "Exported to reviewmesh_export.pdf"
    case ExportFailed(message) => "PDF export failed: " + message
  }

  /** The status `/export` leaves. */
  function MarkdownExportStatus(e: ExportOutcome): string {
    match e
    case Exported => "Exported to reviewmesh_export.md"
    case ExportFailed(message) => "Export failed: " + message
  }

  /** The command lines `handle_input` recognises in Command mode. */
  predicate IsKnownCommand(t: string) {
    || t == "/chat" || StartsWith(t, COMMENT_PREFIX) || t == "/resolve"
    || t == "/export pdf" || t == "/export" || t == "/help" || t == "q"
  }

  /**
   * `handle_input` in Command mode (lines 168-223): the trimmed line is a
   * command, and the buffer is emptied whatever it held.
   */
  function SubmitCommand(v: View, ctx: Context, w: World): (r: Submitted)
    requires v.mode == Command
    ensures r.view.input == ""
    ensures r.view.selectedFile == v.selectedFile && r.view.selectedHunk == v.selectedHunk
    ensures r.view.chat == v.chat
    ensures r.view.mode == Chat <==> Trim(v.input) == "/chat"
    ensures r.view.mode == Chat ==> r.view.status == CHAT_STATUS
    // `/comment <text>` records exactly the text after the command, and sends a comment
    ensures r.outgoing.Send? <==> StartsWith(Trim(v.input), COMMENT_PREFIX)
    ensures r.outgoing.Send? ==>
      var body := Trim(v.input)[|COMMENT_PREFIX|..];
      && body != ""
      && r.view.comments == v.comments + [body]
      && r.outgoing.msg == CommentMsg(DraftComment(ctx, v.selectedFile, v.selectedHunk, body, w))
    // `/resolve` marks only the last comment, and leaves an empty list alone
    ensures Trim(v.input) == "/resolve" ==>
      && |r.view.comments| == |v.comments|
      && (v.comments == [] ==> r.view.comments == [] && r.view.status == NOTHING_TO_RESOLVE_STATUS)
      && (v.comments != [] ==>
            && r.view.comments[..|v.comments| - 1] == v.comments[..|v.comments| - 1]
            && r.view.comments[|v.comments| - 1] == RESOLVED_MARK + v.comments[|v.comments| - 1])
    // every other command leaves the comments as they were
    ensures Trim(v.input) != "/resolve" && !r.outgoing.Send? ==> r.view.comments == v.comments
    // an unknown command changes only the status (and empties the buffer)
    ensures !IsKnownCommand(Trim(v.input)) ==>
      r == Submitted(v.(input := "", status := "Unknown command: " + Trim(v.input)), Nothing)
  {
    var t := Trim(v.input);
    var cleared := v.(input := "");
    if t == "/chat" then
      Submitted(cleared.(mode := Chat, status := CHAT_STATUS), Nothing)
    else if StartsWith(t, COMMENT_PREFIX) then
      CommentBodyNonEmpty(v.input);
      var body := t[|COMMENT_PREFIX|..];
      var c := DraftComment(ctx, v.selectedFile, v.selectedHunk, body, w);
      Submitted(cleared.(comments := v.comments + [body], status := COMMENT_STATUS), Send(CommentMsg(c)))
    else if t == "/resolve" then
      if v.comments == [] then
        Submitted(cleared.(status := NOTHING_TO_RESOLVE_STATUS), Nothing)
      else
        var n := |v.comments| - 1;
        Submitted(cleared.(comments := v.comments[n := RESOLVED_MARK + v.comments[n]], status := RESOLVED_STATUS),
                  Nothing)
    else if t == "/export pdf" then
      Submitted(cleared.(status := PdfExportStatus(w.pdfExport)), Nothing)
    else if t == "/export" then
      Submitted(cleared.(status := MarkdownExportStatus(w.markdownExport)), Nothing)
    else if t == "/help" then
      Submitted(cleared.(status := HELP_STATUS), Nothing)
    else if t == "q" then
      Submitted(cleared, Nothing)
    else
      Submitted(cleared.(status := "Unknown command: " + t), Nothing)
  }

  /**
   * `handle_input` in Chat mode (lines 224-246). A line starting with "/"
   * switches to Command mode and keeps the buffer, so the command is typed on
   * from it; any other non-empty line is posted and the buffer emptied; an
   * empty line changes nothing.
   */
  function SubmitChat(v: View, ctx: Context, w: World): (r: Submitted)
    requires v.mode == Chat
    ensures r.view.selectedFile == v.selectedFile && r.view.selectedHunk == v.selectedHunk
    ensures r.view.comments == v.comments
    ensures r.view.mode == Command <==> StartsWith(Trim(v.input), "/")
    ensures r.view.status == (if StartsWith(Trim(v.input), "/") then COMMAND_STATUS else v.status)
    // a chat line goes out exactly when the line is non-empty and not a command
    ensures r.outgoing.Send? <==> Trim(v.input) != "" && !StartsWith(Trim(v.input), "/")
    ensures r.outgoing.Send? ==>
      && r.outgoing.msg == ChatMsg(ChatLine(w.uuid, ctx.sessionId, ctx.author, Trim(v.input), w.now))
      && r.view.chat == v.chat + [Trim(v.input)]
      && r.view.input == ""
    ensures !r.outgoing.Send? ==> r.view.chat == v.chat && r.view.input == v.input
  {
    var t := Trim(v.input);
    if StartsWith(t, "/") then
      Submitted(v.(mode := Command, status := COMMAND_STATUS), Nothing)
    else if t != "" then
      Submitted(v.(chat := v.chat + [t], input := ""),
                Send(ChatMsg(ChatLine(w.uuid, ctx.sessionId, ctx.author, t, w.now))))
    else
      Submitted(v, Nothing)
  }

  /** `handle_input`: Enter, in whichever mode the app is. */
  function Submit(v: View, ctx: Context, w: World): (r: Submitted)
    ensures r.view.selectedFile == v.selectedFile && r.view.selectedHunk == v.selectedHunk
  {
    if v.mode == Command then SubmitCommand(v, ctx, w) else SubmitChat(v, ctx, w)
  }

  // ---------------------------------------------------------------------
  // Key dispatch (lines 435-483), on values
  // ---------------------------------------------------------------------

  /** The keys the event loop tells apart. */
  datatype Key = CharKey(c: char) | Backspace | Enter | Esc | Up | Down | Left | Right | OtherKey

  predicate IsArrow(k: Key) {
    k == Up || k == Down || k == Left || k == Right
  }

  /**
   * The arrow keys (lines 451-481): Up/Down pick the neighbouring file and
   * go back to its first hunk, Left/Right the neighbouring hunk of the
   * current file, never past either end; in Chat mode they do nothing.
   */
  function Navigate(v: View, k: Key, files: seq<string>, hunks: seq<DiffHunk>): (r: View)
    requires IsArrow(k)
    ensures v.mode == Chat ==> r == v
    ensures r == v.(selectedFile := r.selectedFile, selectedHunk := r.selectedHunk)
    ensures k == Up || k == Down ==>
      && (r.selectedFile != v.selectedFile ==> r.selectedHunk == 0)
      && (r.selectedFile == v.selectedFile ==> r.selectedHunk == v.selectedHunk)
    ensures k == Up && r.selectedFile != v.selectedFile ==> r.selectedFile + 1 == v.selectedFile
    ensures k == Down && r.selectedFile != v.selectedFile ==> r.selectedFile == v.selectedFile + 1 < |files|
    ensures k == Left || k == Right ==> r.selectedFile == v.selectedFile
    ensures k == Left && r.selectedHunk != v.selectedHunk ==> r.selectedHunk + 1 == v.selectedHunk
    ensures k == Right && r.selectedHunk != v.selectedHunk ==>
      r.selectedHunk == v.selectedHunk + 1 < |CurrentHunks(files, hunks, v.selectedFile)|
    ensures v.mode == Command && k == Up ==> (r.selectedFile != v.selectedFile <==> v.selectedFile > 0)
    ensures v.mode == Command && k == Down ==> (r.selectedFile != v.selectedFile <==> v.selectedFile + 1 < |files|)
    ensures v.mode == Command && k == Left ==> (r.selectedHunk != v.selectedHunk <==> v.selectedHunk > 0)
    ensures v.mode == Command && k == Right ==>
      (r.selectedHunk != v.selectedHunk <==> v.selectedHunk + 1 < |CurrentHunks(files, hunks, v.selectedFile)|)
  {
    if v.mode != Command then v
    else
      match k
      case Up =>
        if v.selectedFile > 0 then v.(selectedFile := v.selectedFile - 1, selectedHunk := 0) else v
      case Down =>
        if v.selectedFile + 1 < |files| then v.(selectedFile := v.selectedFile + 1, selectedHunk := 0) else v
      case Left =>
        if v.selectedHunk > 0 then v.(selectedHunk := v.selectedHunk - 1) else v
      case Right =>
        if v.selectedHunk + 1 < |CurrentHunks(files, hunks, v.selectedFile)| then
          v.(selectedHunk := v.selectedHunk + 1)
        else v
  }

  /** No arrow key breaks the selection invariant. */
  lemma NavigateKeepsSelection(v: View, k: Key, files: seq<string>, hunks: seq<DiffHunk>)
    requires IsArrow(k)
    ensures var r := Navigate(v, k, files, hunks);
      files == FileList(hunks) && SelectionValid(files, hunks, v.selectedFile, v.selectedHunk)
      ==> SelectionValid(files, hunks, r.selectedFile, r.selectedHunk)
  {
    var r := Navigate(v, k, files, hunks);
    MovedFileHasHunks(files, hunks, r.selectedFile);
  }

  /** Moving to another listed file leaves its first hunk selectable. */
  lemma MovedFileHasHunks(files: seq<string>, hunks: seq<DiffHunk>, selectedFile: nat)
    ensures files == FileList(hunks) && selectedFile < |files| ==> |CurrentHunks(files, hunks, selectedFile)| >= 1
  {
    if files == FileList(hunks) && selectedFile < |files| {
      assert files[selectedFile] in files;
      ListedFileHasHunks(hunks, files[selectedFile]);
    }
  }

  datatype Dispatched = Dispatched(view: View, outgoing: Outgoing, quit: bool)

  /**
   * A key press other than Enter. 'q' in Command mode ends the loop; other
   * characters are typed; Backspace drops the last character; Esc returns to
   * Chat mode with an empty buffer; arrows navigate. None of them sends
   * anything.
   */
  function Press(v: View, k: Key, files: seq<string>, hunks: seq<DiffHunk>): (r: Dispatched)
    requires k != Enter
    ensures r.quit <==> k == CharKey('q') && v.mode == Command
    ensures r.quit ==> r.view == v
    ensures r.outgoing == Nothing
    ensures k.CharKey? && !r.quit ==> r.view == v.(input := v.input + [k.c])
    ensures k == Backspace ==> r.view == v.(input := if v.input == [] then [] else v.input[..|v.input| - 1])
    ensures k == Esc ==> r.view == v.(mode := Chat, status := CHAT_STATUS, input := "")
    ensures k == OtherKey ==> r.view == v
    ensures IsArrow(k) ==> r.view == Navigate(v, k, files, hunks)
    // no key breaks the selection invariant
    ensures files == FileList(hunks) && SelectionValid(files, hunks, v.selectedFile, v.selectedHunk)
      ==> SelectionValid(files, hunks, r.view.selectedFile, r.view.selectedHunk)
  {
    if IsArrow(k) then
      NavigateKeepsSelection(v, k, files, hunks);
      Dispatched(Navigate(v, k, files, hunks), Nothing, false)
    else
      match k
      case CharKey(c) =>
        if c == 'q' && v.mode == Command then Dispatched(v, Nothing, true)
        else Dispatched(v.(input := v.input + [c]), Nothing, false)
      case Backspace =>
        Dispatched(v.(input := if v.input == [] then [] else v.input[..|v.input| - 1]), Nothing, false)
      case Esc =>
        Dispatched(v.(mode := Chat, status := CHAT_STATUS, input := ""), Nothing, false)
      case _ =>
        Dispatched(v, Nothing, false)
  }

  /** One key press: Enter submits the line, every other key is a `Press`. */
  function Dispatch(v: View, k: Key, ctx: Context, w: World): (r: Dispatched)
    ensures r.quit <==> k == CharKey('q') && v.mode == Command
    ensures k != Enter ==> r.outgoing == Nothing
    // no key breaks the selection invariant
    ensures ctx.files == FileList(ctx.hunks) && SelectionValid(ctx.files, ctx.hunks, v.selectedFile, v.selectedHunk)
      ==> SelectionValid(ctx.files, ctx.hunks, r.view.selectedFile, r.view.selectedHunk)
  {
    if k == Enter then
      var s := Submit(v, ctx, w);
      Dispatched(s.view, s.outgoing, false)
    else Press(v, k, ctx.files, ctx.hunks)
  }

  /** The view after a run of key presses, stopping at the first that quits. */
  function Replay(v: View, keys: seq<Key>, ctx: Context, worlds: seq<World>): View
    requires |worlds| == |keys|
    decreases |keys|
  {
    if keys == [] then v
    else
      var r := Dispatch(v, keys[0], ctx, worlds[0]);
      if r.quit then r.view else Replay(r.view, keys[1..], ctx, worlds[1..])
  }

  /**
   * The selection invariant holds after any run of key presses from a state
   * that satisfies it, such as the one `App::new` starts in.
   */
  lemma {:induction false} SelectionValidAlways(v: View, keys: seq<Key>, ctx: Context, worlds: seq<World>)
    requires ctx.files == FileList(ctx.hunks)
    requires SelectionValid(ctx.files, ctx.hunks, v.selectedFile, v.selectedHunk)
    requires |worlds| == |keys|
    ensures var u := Replay(v, keys, ctx, worlds); SelectionValid(ctx.files, ctx.hunks, u.selectedFile, u.selectedHunk)
    decreases |keys|
  {
    if keys != [] {
      var r := Dispatch(v, keys[0], ctx, worlds[0]);
      if !r.quit {
        SelectionValidAlways(r.view, keys[1..], ctx, worlds[1..]);
      }
    }
  }

  /** What reaches the network thread: the record, when a thread listens. */
  function Posted(linked: bool, out: Outgoing): seq<NetMsg> {
    if linked && out.Send? then [out.msg] else []
  }

  /**
   * The store after `out` was saved: a comment replaces the row under its id
   * in `comments`, a chat line the row under its id in `chat`, and nothing
   * else changes.
   */
  ghost predicate Saved(store: Store.Storage, comments0: map<string, Store.CommentRow>, chat0: map<string, Store.ChatRow>,
                        out: Outgoing)
    reads store
  {
    match out
    case Send(CommentMsg(c)) =>
      store.comments == comments0[c.id := Store.EncodeComment(c, store.times)] && store.chat == chat0
    case Send(ChatMsg(m)) =>
      store.chat == chat0[m.id := Store.EncodeChat(m, store.times)] && store.comments == comments0
    case Nothing =>
      store.comments == comments0 && store.chat == chat0
  }

  // ---------------------------------------------------------------------
  // The app
  // ---------------------------------------------------------------------

  /** `App`: the client's state, mutated by the event loop. */
  class App {
    var input: string
    var mode: InputMode
    var chat: seq<string>
    var comments: seq<string>
    var status: string
    var selectedFile: nat
    var selectedHunk: nat
    /** `net_tx.is_some()`: whether a network thread listens. */
    var linked: bool
    /** The messages handed to the network thread, oldest first. */
    var outbox: seq<NetMsg>
    const session: ReviewSession
    const author: string
    const files: seq<string>
    const hunks: seq<DiffHunk>
    const storage: Store.Storage?

    function Fields(): View
      reads this
    {
      View(input, mode, chat, comments, status, selectedFile, selectedHunk)
    }

    function Ctx(): Context {
      Context(files, hunks, session.id, author)
    }

    ghost predicate Valid()
      reads this
    {
      files == FileList(hunks) && SelectionValid(files, hunks, selectedFile, selectedHunk)
    }

    /**
     * `App::new` (lines 47-83): `hunks` is what `compute_diff` returned. With
     * a store, the session's stored chat lines and comments are shown after
     * the welcome line; `now` stands for the clock the store's fallback reads.
     */
    constructor (session: ReviewSession, author: string, storage: Store.Storage?, hunks: seq<DiffHunk>, now: Timestamp)
      ensures Valid()
      ensures this.session == session && this.author == author && this.storage == storage && this.hunks == hunks
      ensures input == "" && mode == Chat && status == CHAT_STATUS && !linked && outbox == []
      ensures selectedFile == 0 && selectedHunk == 0
      ensures |chat| >= 1 && chat[0] == WELCOME
      ensures storage == null ==> chat == [WELCOME] && comments == []
      ensures storage != null ==>
        && (exists r :: Store.IsChatListing(storage.chat, session.id, storage.times, now, r)
                        && chat == [WELCOME] + ShownChat(r))
        && (exists r :: Store.IsCommentListing(storage.comments, session.id, storage.times, now, r)
                        && comments == ShownComments(r))
    {
      this.session := session;
      this.author := author;
      this.storage := storage;
      this.hunks := hunks;
      this.files := FileList(hunks);
      var chat := [WELCOME];
      var comments := [];
      if storage != null {
        var loadedChat := storage.LoadChat(session.id, now);
        chat := chat + ShownChat(loadedChat);
        var loadedComments := storage.LoadComments(session.id, now);
        comments := ShownComments(loadedComments);
      }
      this.chat := chat;
      this.comments := comments;
      input := "";
      mode := Chat;
      status := CHAT_STATUS;
      selectedFile := 0;
      selectedHunk := 0;
      linked := false;
      outbox := [];
      InitialSelectionValid(hunks);
    }

    /** `app.net_tx = Some(net_tx)`. */
    method Link()
      modifies this
      ensures linked && Fields() == old(Fields()) && outbox == old(outbox)
    {
      linked := true;
    }

    /** Posts and saves a newly created record. */
    method Emit(msg: NetMsg)
      modifies this, storage
      ensures Fields() == old(Fields()) && linked == old(linked)
      ensures outbox == old(outbox) + Posted(linked, Send(msg))
      ensures storage != null ==> Saved(storage, old(storage.comments), old(storage.chat), Send(msg))
    {
      if linked {
        outbox := outbox + [msg];
      }
      if storage != null {
        match msg
        case CommentMsg(c) => storage.SaveComment(c);
        case ChatMsg(m) => storage.SaveChat(m);
      }
    }

    /** `handle_input` in Command mode. */
    method HandleCommand(w: World)
      requires mode == Command
      modifies this, storage
      ensures var s := SubmitCommand(old(Fields()), Ctx(), w);
        && Fields() == s.view
        && linked == old(linked)
        && outbox == old(outbox) + Posted(linked, s.outgoing)
        && (storage != null ==> Saved(storage, old(storage.comments), old(storage.chat), s.outgoing))
    {
      ghost var s := SubmitCommand(Fields(), Ctx(), w);
      var t := Trim(input);
      if t == "/chat" {
        mode := Chat;
        status := CHAT_STATUS;
      } else if StartsWith(t, COMMENT_PREFIX) {
        var body := t[|COMMENT_PREFIX|..];
        var c := DraftComment(Ctx(), selectedFile, selectedHunk, body, w);
        comments := comments + [body];
        Emit(CommentMsg(c));
        status := COMMENT_STATUS;
      } else if t == "/resolve" {
        if comments != [] {
          var n := |comments| - 1;
          comments := comments[n := RESOLVED_MARK + comments[n]];
          status := RESOLVED_STATUS;
        } else {
          status := NOTHING_TO_RESOLVE_STATUS;
        }
      } else if t == "/export pdf" {
        status := PdfExportStatus(w.pdfExport);
      } else if t == "/export" {
        status := MarkdownExportStatus(w.markdownExport);
      } else if t == "/help" {
        status := HELP_STATUS;
      } else if t == "q" {
      } else {
        status := "Unknown command: " + t;
      }
      input := "";
    }

    /** `handle_input` in Chat mode. */
    method HandleChat(w: World)
      requires mode == Chat
      modifies this, storage
      ensures var s := SubmitChat(old(Fields()), Ctx(), w);
        && Fields() == s.view
        && linked == old(linked)
        && outbox == old(outbox) + Posted(linked, s.outgoing)
        && (storage != null ==> Saved(storage, old(storage.comments), old(storage.chat), s.outgoing))
    {
      ghost var s := SubmitChat(Fields(), Ctx(), w);
      var t := Trim(input);
      if StartsWith(t, "/") {
        mode := Command;
        status := COMMAND_STATUS;
        assert s.outgoing == Nothing;
      } else if t != "" {
        var line := ChatLine(w.uuid, session.id, author, t, w.now);
        assert s.outgoing == Send(ChatMsg(line));
        chat := chat + [t];
        Emit(ChatMsg(line));
        input := "";
      } else {
        assert s.outgoing == Nothing;
      }
    }

    /** `handle_input` (lines 166-247). */
    method HandleInput(w: World)
      requires Valid()
      modifies this, storage
      ensures Valid()
      ensures var s := Submit(old(Fields()), Ctx(), w);
        && Fields() == s.view
        && linked == old(linked)
        && outbox == old(outbox) + Posted(linked, s.outgoing)
        && (storage != null ==> Saved(storage, old(storage.comments), old(storage.chat), s.outgoing))
    {
      if mode == Command {
        HandleCommand(w);
      } else {
        HandleChat(w);
      }
    }

    /** An arrow key (lines 451-481). */
    method Move(k: Key)
      requires IsArrow(k) && Valid()
      modifies this
      ensures Valid()
      ensures Fields() == Navigate(old(Fields()), k, files, hunks)
      ensures linked == old(linked) && outbox == old(outbox)
    {
      NavigateKeepsSelection(Fields(), k, files, hunks);
      if mode == Command {
        match k
        case Up =>
          if selectedFile > 0 {
            selectedFile := selectedFile - 1;
            selectedHunk := 0;
          }
        case Down =>
          if selectedFile + 1 < |files| {
            selectedFile := selectedFile + 1;
            selectedHunk := 0;
          }
        case Left =>
          if selectedHunk > 0 {
            selectedHunk := selectedHunk - 1;
          }
        case Right =>
          var current := CurrentHunks(files, hunks, selectedFile);
          if selectedHunk + 1 < |current| {
            selectedHunk := selectedHunk + 1;
          }
      }
    }

    /** A key press other than Enter (lines 441-481); `quit` is the loop's `return Ok(())`. */
    method PressKey(k: Key) returns (quit: bool)
      requires k != Enter && Valid()
      modifies this
      ensures Valid()
      ensures var d := Press(old(Fields()), k, files, hunks);
        quit == d.quit && Fields() == d.view && linked == old(linked) && outbox == old(outbox)
    {
      ghost var d := Press(Fields(), k, files, hunks);
      quit := false;
      if IsArrow(k) {
        Move(k);
      } else {
        match k
        case CharKey(c) =>
          if c == 'q' && mode == Command {
            quit := true;
          } else {
            input := input + [c];
          }
        case Backspace =>
          if input != [] {
            input := input[..|input| - 1];
          }
        case Esc =>
          mode := Chat;
          status := CHAT_STATUS;
          input := "";
        case _ =>
      }
    }

    /** One key press of `run_app` (lines 435-483). */
    method HandleKey(k: Key, w: World) returns (quit: bool)
      requires Valid()
      modifies this, storage
      ensures Valid()
      ensures var d := Dispatch(old(Fields()), k, Ctx(), w);
        && quit == d.quit
        && Fields() == d.view
        && linked == old(linked)
        && outbox == old(outbox) + Posted(linked, d.outgoing)
        && (storage != null ==> Saved(storage, old(storage.comments), old(storage.chat), d.outgoing))
    {
      if k == Enter {
        HandleInput(w);
        quit := false;
      } else {
        quit := PressKey(k);
      }
    }

    /** A message from the network thread (lines 332-341) is shown in its pane. */
    method Receive(msg: NetMsg)
      modifies this
      ensures msg.ChatMsg? ==> Fields() == old(Fields()).(chat := old(chat) + [Shown(msg.line.author, msg.line.body)])
      ensures msg.CommentMsg? ==>
        Fields() == old(Fields()).(comments := old(comments) + [Shown(msg.comment.author, msg.comment.body)])
      ensures linked == old(linked) && outbox == old(outbox)
    {
      match msg
      case ChatMsg(m) =>
        chat := chat + [Shown(m.author, m.body)];
      case CommentMsg(c) =>
        comments := comments + [Shown(c.author, c.body)];
    }
  }
}
