# review-mesh in Dafny

review-mesh is a peer-to-peer code review tool. Each peer runs a terminal
client that shows the hunks of a git tree-to-tree diff between two commits. Peers
post chat lines and comments on hunks, keep them in a local SQLite store and
exchange them over libp2p floodsub topics. Invite tokens carry a session id
authenticated with HMAC-SHA256.

This project models the logic at the centre of the tool and proves what it
promises:

- `common.dfy` (module `Common`) holds the shared records `ReviewSession`,
  `Comment`, `ChatLine` and `DiffHunk`, plus the fixed-width integer types
  they use.
- `strings.dfy` (module `Strings`) holds the parts of Rust's string behaviour
  the tool relies on:
  - `str::trim` and `starts_with`;
  - the `Ord` used by `sort`;
  - `{}` and `{:x}` formatting of unsigned integers.
- `git_integration.dfy` (module `GitIntegration`) holds `hunk_id` and the
  fold inside `compute_diff`.
  - git2 reports each file's diff as a stream of hunk-header and line events.
    Two callbacks fold that stream through mutable accumulators into
    `DiffHunk`s.
  - The class `HunkAccumulator` has those accumulators as fields and the two
    callbacks as methods.
  - `FileHunks` states the intended result independently: one hunk per
    header, holding its header line and every line up to the next header.
  - The fold is proved to compute `FileHunks`.
- `storage.dfy` (module `Store`) models the store.
  - The `comments` and `chat` tables are maps from primary key to row, held
    in the class `Storage`.
  - The saves are upserts. The loads are session-scoped scans that skip rows
    which do not decode.
- `network.dfy` (module `Network`) holds invite-token generation and parsing.
- `cli.dfy` (module `Cli`) models the terminal client:
  - the sorted, de-duplicated file list;
  - the current file, its hunks and the current hunk;
  - the command/chat input state machine of `handle_input`;
  - the key dispatch of the event loop;
  - the routing of inbound messages by topic prefix.

  Pure functions on a `View` of the app's fields carry the properties. The
  class `App` mutates its fields as the client does. Each of its methods is
  proved to end in the state those functions describe, and to keep the
  selection invariant.

Foreign code is passed in as function-valued parameters. That covers SipHash,
HMAC-SHA256, base58, UTF-8 conversion, serde_json and chrono's RFC 3339
text. Each such parameter comes with a predicate stating only the laws the
tool relies on, such as decode undoing encode, or a 32-byte tag.
Nondeterministic inputs are parameters too: the fresh UUID, the clock and the
outcome of an export.

Where the specification and the code disagree, the model follows the code:

- The listing queries have no `ORDER BY`, so a load returns the session's
  rows in no particular order. `IsCommentListing` and `IsChatListing` fix
  the contents and leave the order open. `CommentListingUnique` shows that
  two listings can differ only in order.
- The store has no operation on the `sessions` table. The table is created
  and never used.
- The source never declares a `hunks` vector per file. A single vector is
  shared by all files and appended to file after file. The model gives each
  file its own accumulator and concatenates the results, which yields the
  same sequence.
- Each file is represented by its own stream of events, in the order git
  reports them.
- Inbound chat lines and comments are only shown in the client's panes
  (cli/src/main.rs:332-341). They are never saved to the store, whereas the
  specification's inbound handler upserts them. `App.Receive` follows the
  code.

## Model

| member | source | states |
|---|---|---|
| GitIntegration.HunkIdShape | git_integration/src/lib.rs:92-99 | an id is the unpadded lower-case hex of a 64-bit hash: 1 to 16 characters, each in 0-9a-f |
| GitIntegration.HunkIdCollision | git_integration/src/lib.rs:92-99 | two ids are equal exactly when the hash of (file, old start, new start, content) is equal; the line counts play no part |
| GitIntegration.HunkAccumulator.constructor | git_integration/src/lib.rs:31-38 | the accumulators start empty, with no hunk open, which matches the empty stream |
| GitIntegration.HunkAccumulator.OnHunk | git_integration/src/lib.rs:40-62 | after a header, the accumulators still describe the stream seen so far: the open hunk is pushed, and a new one holding just the header line is opened |
| GitIntegration.HunkAccumulator.OnLine | git_integration/src/lib.rs:63-69 | after a line, the accumulators still describe the stream: origin and text are appended to the open hunk, and dropped when no hunk is open |
| GitIntegration.HunkAccumulator.Finish | git_integration/src/lib.rs:71-82 | after the final flush, the pushed hunks are exactly `FileHunks` of the whole stream |
| GitIntegration.AccumulatedAfterHeader | git_integration/src/lib.rs:40-62 | the hunk callback's update preserves the accumulator invariant `Accumulated` |
| GitIntegration.AccumulatedAfterLine | git_integration/src/lib.rs:63-69 | the line callback's update preserves `Accumulated` |
| GitIntegration.AccumulatedAtEnd | git_integration/src/lib.rs:71-82 | an open hunk is never empty, and pushing it completes `FileHunks` of the stream |
| GitIntegration.OpenedHunk | git_integration/src/lib.rs:40-62 | the fields `OnHunk` leaves make the accumulator valid again |
| GitIntegration.ExtendedHunk | git_integration/src/lib.rs:63-69 | the fields `OnLine` leaves make the accumulator valid again |
| GitIntegration.ExtractFileHunks | git_integration/src/lib.rs:30-83 | feeding a file's events to the callbacks and flushing yields `FileHunks` of that file, under its path or "" |
| GitIntegration.ComputeDiff | git_integration/src/lib.rs:28-89 | the hunks of the whole diff are each file's `FileHunks`, file after file |
| GitIntegration.SpanPerHeader | git_integration/src/lib.rs:40-62 | the stream has one span per header event, in order, each opened at that header's positions |
| GitIntegration.HunkPerHeader | git_integration/src/lib.rs:40-82 | a file yields exactly one hunk per header event, in header order, with that header's positions; no headers give no hunks |
| GitIntegration.FileHunksWellFormed | git_integration/src/lib.rs:43-60 | every hunk names its file, its content starts with the `@@ -a,b +c,d @@` line built from its own fields, and its id is `hunk_id` of its own fields |
| GitIntegration.DiffHunksWellFormed | git_integration/src/lib.rs:31-81 | every hunk of the diff is one of the hunks of a single file of the diff, and is well formed for that file's path |
| GitIntegration.LinesBeforeFirstHeaderIgnored | git_integration/src/lib.rs:63-69 | line events before a file's first header change neither its spans nor its hunks |
| GitIntegration.OneHeaderOneHunk | git_integration/src/lib.rs:53-69 | a header followed only by lines makes one hunk: the header line, then origin and text of each line, in order |
| GitIntegration.SpansSplitBeforeHeader | git_integration/src/lib.rs:40-54 | cutting a stream just before a header cuts its spans at the same place |
| GitIntegration.SplitBeforeHeader | git_integration/src/lib.rs:40-54 | cutting a stream just before a header cuts its hunks at the same place, so no hunk's text reaches past the next header |
| GitIntegration.SpansAfterPrefix | git_integration/src/lib.rs:40-69 | events put in front of a stream leave its last span unchanged |
| GitIntegration.LinesAfterLastHeader | git_integration/src/lib.rs:63-69 | only line events follow the last header, and a stream without headers is all lines |
| Strings.DecimalDigits | git_integration/src/lib.rs:60 | `{}` of a number is a non-empty run of decimal digits with no leading zero |
| Strings.ParseDecimalOf | git_integration/src/lib.rs:60 | reading the decimal digits back gives the number, so `{}` writes exactly its value |
| Strings.LowerHexOfU64 | git_integration/src/lib.rs:98 | `{:x}` of a 64-bit value has 1 to 16 lower-case hex digits |
| Strings.ParseLowerHex | git_integration/src/lib.rs:98 | reading the hex digits back gives the number, so `{:x}` loses nothing |
| Strings.LowerHexInjective | git_integration/src/lib.rs:98 | distinct numbers have distinct `{:x}` texts |
| Strings.TrimSpec | cli/src/main.rs:167 | `trim` removes exactly the leading and trailing Unicode white space; the result neither starts nor ends with white space |
| Strings.TrimStartSpec | cli/src/main.rs:167 | the leading part `trim_start` drops is all white space, and what remains is a suffix that does not start with white space |
| Strings.TrimEndSpec | cli/src/main.rs:167 | the trailing part `trim_end` drops is all white space, and what remains is a prefix that does not end with white space |
| Strings.LessIrreflexive | cli/src/main.rs:51 | no string sorts before itself |
| Strings.LessAsymmetric | cli/src/main.rs:51 | two strings never sort each before the other |
| Strings.LessTotal | cli/src/main.rs:51 | of two different strings, one sorts before the other |
| Strings.LessTransitive | cli/src/main.rs:51 | the string order is transitive |
| Store.UsizeAsI64 | storage/src/lib.rs:50 | `line as i64` stays within i64 and is the identity up to `i64::MAX` |
| Store.I64AsUsize | storage/src/lib.rs:82 | `as usize` is the identity on non-negative values |
| Store.LineRoundTrip | storage/src/lib.rs:82 | `line` is read back unchanged for every `usize`, because the two wrapping casts undo each other |
| Store.BoolAsI64 | storage/src/lib.rs:53 | `resolved` is stored as 0 or 1 |
| Store.ResolvedRoundTrip | storage/src/lib.rs:85 | reading `resolved` back as `!= 0` gives the saved flag |
| Store.DecodeComment | storage/src/lib.rs:75-87 | a decoded comment carries its row's key as id |
| Store.DecodeChat | storage/src/lib.rs:93-100 | a decoded chat line carries its row's key as id |
| Store.CommentRowRoundTrip | storage/src/lib.rs:41-87 | a saved comment's row decodes to the same comment, every field included |
| Store.ChatRowRoundTrip | storage/src/lib.rs:59-100 | a saved chat line's row decodes to the same chat line |
| Store.CommentListingUnique | storage/src/lib.rs:73-89 | two listings of the same table hold the same comments, possibly in a different order |
| Store.Storage.Open | storage/src/lib.rs:9-39 | opening keeps whatever rows the database already holds |
| Store.Storage.SaveComment | storage/src/lib.rs:41-57 | the comments table gets the comment's row under its id, replacing any row there; the chat table is unchanged |
| Store.Storage.SaveChat | storage/src/lib.rs:59-71 | the chat table gets the line's row under its id, replacing any row there; the comments table is unchanged |
| Store.Storage.LoadComments | storage/src/lib.rs:73-89 | the result is one comment per row of the session that decodes, with no repeats; rows that do not decode are skipped |
| Store.Storage.LoadChat | storage/src/lib.rs:91-103 | the result is one chat line per row of the session that decodes, with no repeats; rows that do not decode are skipped |
| Store.SavedCommentIsListed | storage/src/lib.rs:41-89 | after a save, loading the comment's session returns the comment, and no other comment under its id |
| Store.SaveCommentIdempotent | storage/src/lib.rs:43 | saving the same comment twice leaves the table as saving it once |
| Store.SaveCommentLastWriteWins | storage/src/lib.rs:43 | a second save under the same id replaces every field, `resolved` included, and leaves every other id as it was |
| Store.SaveChatIdempotent | storage/src/lib.rs:61 | saving the same chat line twice leaves the table as saving it once |
| Store.SaveChatLastWriteWins | storage/src/lib.rs:61 | a second chat save under the same id replaces the line and leaves every other id as it was |
| Store.SavedChatIsListed | storage/src/lib.rs:59-103 | after a save, loading the line's session returns the line, and no other line under its id |
| Store.ListingIsSessionScoped | storage/src/lib.rs:74 | a comment listing holds only comments of the requested session |
| Store.ChatListingIsSessionScoped | storage/src/lib.rs:92 | a chat listing holds only lines of the requested session |
| Network.ParseInviteToken | network/src/lib.rs:82-93 | a token that is accepted was valid base58 of at least 32 bytes |
| Network.ParseAcceptsExactlyTagged | network/src/lib.rs:82-93 | a token is accepted exactly when it decodes to at least 32 bytes whose last 32 are the HMAC of the rest; the result is then the rest, as text |
| Network.InviteRoundTrip | network/src/lib.rs:73-93 | parsing a generated token under the same secret gives back the session id |
| Network.InvalidBase58Rejected | network/src/lib.rs:83 | text that is not base58 is refused |
| Network.ShortTokenRejected | network/src/lib.rs:84 | fewer than 32 decoded bytes are refused |
| Network.BareTagGivesEmptyId | network/src/lib.rs:84-89 | exactly 32 bytes forming the tag of nothing parse to the empty session id |
| Network.WrongSecretRejected | network/src/lib.rs:86-92 | a token checked under a secret whose tag differs from the issuer's is refused |
| Cli.Route | cli/src/main.rs:280-288 | a "chatmesh-" topic delivers the payload as a chat line when it parses and drops it otherwise; any other "reviewmesh-" topic does the same with a comment; every other topic is dropped |
| Cli.RouteRoundTrip | cli/src/main.rs:280-305 | what one peer publishes on the topic built at line 299 or 303 is routed by another peer to the same kind, unchanged |
| Cli.Shown | cli/src/main.rs:59 | a shown record is its author, then ": ", then its body |
| Cli.ShownAll | cli/src/main.rs:57-66 | stored chat lines and comments are shown one `Shown` line per record, in order |
| Cli.Insert | cli/src/main.rs:51-52 | inserting into a strictly sorted list keeps it strictly sorted and adds exactly the one value |
| Cli.SortDedup | cli/src/main.rs:51-52 | `sort` then `dedup` gives a strictly sorted list with the same members |
| Cli.FileList | cli/src/main.rs:49-52 | `files` is strictly ascending and holds exactly the distinct files of the hunks |
| Cli.StrictlySortedDistinct | cli/src/main.rs:51-52 | the file list has no duplicates |
| Cli.SortedListUnique | cli/src/main.rs:51-52 | only one strictly sorted list has a given set of members, so `FileList` is determined by the set of files |
| Cli.HunksOf | cli/src/main.rs:91 | the filter keeps exactly the hunks of the file |
| Cli.HunksOfAppend | cli/src/main.rs:91 | the filter keeps the original order |
| Cli.ListedFileHasHunks | cli/src/main.rs:49-95 | every listed file has at least one hunk |
| Cli.CurrentHunks | cli/src/main.rs:85-95 | the hunks of `files[selected_file]`, in order; empty when `selected_file` is out of range |
| Cli.CurrentHunk | cli/src/main.rs:97-100 | present exactly when `selected_hunk` is within the current hunks, and then it is element `selected_hunk` of `CurrentHunks`, a hunk of the current file |
| Cli.InitialSelectionValid | cli/src/main.rs:77-80 | the starting selection (0, 0) is valid |
| Cli.DraftComment | cli/src/main.rs:174-190 | the comment carries the body, the fresh id, the session and author, and `resolved = false`; it names the current hunk's file, id and `new_start`, or "", "" and 0 when there is none |
| Cli.CommentBodyNonEmpty | cli/src/main.rs:172-173 | a trimmed line that starts with "/comment " has text after the prefix |
| Cli.SubmitCommand | cli/src/main.rs:168-223 | Command mode: the buffer is always emptied. Otherwise, by command: `/chat` switches mode; `/comment` appends exactly the text after the prefix and sends one comment; `/resolve` marks only the last comment and leaves an empty list alone; an unknown command changes only the status |
| Cli.SubmitChat | cli/src/main.rs:224-246 | Chat mode: a "/" line switches to Command mode and keeps the buffer; a non-empty line is appended and sent, and the buffer is emptied; an empty line changes nothing |
| Cli.Submit | cli/src/main.rs:166-247 | Enter never moves the selection |
| Cli.Navigate | cli/src/main.rs:451-481 | arrows act only in Command mode. Up/Down move to the neighbouring file exactly when there is one, and reset the hunk. Left/Right move to the neighbouring hunk of the current file exactly when there is one. Nothing else changes |
| Cli.NavigateKeepsSelection | cli/src/main.rs:451-481 | no arrow key breaks the selection invariant |
| Cli.MovedFileHasHunks | cli/src/main.rs:459-465 | the file Up/Down selects has a first hunk |
| Cli.Press | cli/src/main.rs:436-482 | 'q' in Command mode quits and changes nothing; other characters are typed; Backspace drops the last character; Esc returns to Chat mode with an empty buffer; no key but Enter sends anything |
| Cli.Dispatch | cli/src/main.rs:435-483 | a key quits exactly when it is 'q' in Command mode, only Enter sends, and no key breaks the selection invariant |
| Cli.SelectionValidAlways | cli/src/main.rs:329-487 | the selection invariant holds after any run of key presses from the starting state |
| Cli.App.constructor | cli/src/main.rs:47-83 | the app starts in Chat mode with selection (0, 0), the file list of the hunks, the welcome line, and the session's stored chat and comments |
| Cli.App.Link | cli/src/main.rs:319 | attaching the network sender changes none of the visible fields |
| Cli.App.Emit | cli/src/main.rs:192-197 | a new record is handed to the network thread when one listens, and saved when there is a store; nothing else changes |
| Cli.App.HandleCommand | cli/src/main.rs:168-223 | the fields end as `SubmitCommand` says; the comment it sends is posted and saved |
| Cli.App.HandleChat | cli/src/main.rs:224-246 | the fields end as `SubmitChat` says; the chat line it sends is posted and saved |
| Cli.App.HandleInput | cli/src/main.rs:166-247 | the fields end as `Submit` says, and the selection invariant is kept |
| Cli.App.Move | cli/src/main.rs:451-481 | the fields end as `Navigate` says, and the selection invariant is kept |
| Cli.App.PressKey | cli/src/main.rs:436-482 | the fields end as `Press` says, and the selection invariant is kept |
| Cli.App.HandleKey | cli/src/main.rs:435-483 | the fields end as `Dispatch` says, its message is posted and saved, and the selection invariant is kept |
| Cli.App.Receive | cli/src/main.rs:332-341 | a received chat line or comment is appended, shown, to its pane, and nothing else changes |

## Left out

- Record equality and `Clone` (common/src/lib.rs:4-43) are built into Dafny datatypes, which are values compared structurally. There is nothing to prove about them.
- serde_json, for the records and for routing, is a parameter. `Cli.RoundTrips` assumes that decoding undoes encoding for both chat lines and comments. The `chatline_serde_roundtrip` test backs only the chat-line half; the comment half is an assumption.
- Which commits are diffed is not part of this model. `App::new` calls `compute_diff(".", "HEAD")` (cli/src/main.rs:49), which diffs HEAD's tree against itself and so yields no hunks. The model's `App` takes the hunks as a parameter and covers any diff.
- git2 itself is not part of this model: opening the repository, resolving `HEAD`, the tree diff and the order of deltas. The file path's lossy conversion and the lossy UTF-8 decoding of line text are also left out. A file's events arrive as a sequence of `DiffEvent`s whose text is already a string.
- SipHash (`DefaultHasher`) is a parameter `Hasher`. It is deterministic and nothing else is assumed of it.
- HMAC-SHA256, base58, `as_bytes` and `from_utf8_lossy` are parameters. `Network.Lawful` states what is assumed of them.
- `Hmac::new_from_slice` accepts keys of every length, so its failure paths are not modelled. The constant-time comparison in `verify_slice` is a timing property that the model does not capture.
- libp2p is not part of this model: swarm, floodsub, mDNS, transports, `Network::new`, `join_topic`, `send_message` and `poll_next`.
- The network thread, its tokio runtime and the mpsc channels are not modelled. The channel to the network thread is the field `App.outbox`, and `tx.send` is taken to succeed. Inbound routing is the pure function `Cli.Route`.
- SQLite is not part of this model: the engine, the SQL text and `Connection::open`. The `sessions` table is never used. Errors from `execute`, `prepare` and `query_map` are not modelled, and the client ignores the results of its saves.
- `Storage.Open` takes the rows already in the database file as parameters.
- The `created_at` column is opaque: the clock read when its text does not parse is a parameter `now` of the loads. The source calls `Utc::now()` once for each row that fails to parse (storage/src/lib.rs:84,99). The model uses one `now` for the whole load, so it does not capture rows of one load getting different fallback times.
- `queue_offline` and `replay_queue` are `todo!()` and have no behaviour.
- Terminal rendering and event polling (cli/src/main.rs:343-434) are I/O.
- `export_markdown` and `export_pdf` (cli/src/main.rs:102-164) do file I/O. Only their outcome, a parameter, reaches the model, through the status line it sets.
- The UUID, `Utc::now` and `whoami::username` are parameters.
- `Cli.App.selectedFile` and `Cli.App.selectedHunk` are `nat`s, not `usize`s, because they stay below the length of a `Vec` and cannot reach 2^64.
- `Cli.Submit`: its own contract states only that the selection does not move. The full behaviour is stated by `Cli.SubmitCommand` and `Cli.SubmitChat`, between which it chooses by mode.
- `Network.ParseInviteToken`: its own contract states only the necessary conditions for acceptance. The exact condition is `Network.ParseAcceptsExactlyTagged`.
