/**
 * The SQLite-backed record store (storage/src/lib.rs).
 *
 * The `comments` and `chat` tables have `id TEXT PRIMARY KEY` and are written
 * with `INSERT OR REPLACE`, so each table is a map from id to row and every
 * save is an upsert. A row holds SQL values; reading it back into a record
 * fails when a column has the wrong storage class, and such rows are skipped.
 */
module Store {
  import opened Common

  // ---------------------------------------------------------------------
  // Rows
  // ---------------------------------------------------------------------

  /** The SQLite storage classes the tables use; SQLite integers are 64-bit. */
  datatype SqlValue = Null | Integer(i: int) | Text(s: string)

  const I64_MIN: int := -0x8000_0000_0000_0000
  const I64_MAX: int := 0x7FFF_FFFF_FFFF_FFFF

  /** A row of `comments`, apart from its `id` key. */
  datatype CommentRow = CommentRow(
    sessionId: SqlValue,
    author: SqlValue,
    file: SqlValue,
    hunkId: SqlValue,
    line: SqlValue,
    body: SqlValue,
    createdAt: SqlValue,
    resolved: SqlValue)

  /** A row of `chat`, apart from its `id` key. */
  datatype ChatRow = ChatRow(
    sessionId: SqlValue,
    author: SqlValue,
    body: SqlValue,
    createdAt: SqlValue)

  /**
   * chrono's `to_rfc3339` and `parse`; chrono is not part of this model. The
   * store relies only on parse undoing format, `RoundTrips`.
   */
  datatype TimeCodec = TimeCodec(format: Timestamp -> string, parse: string -> Option<Timestamp>)

  ghost predicate RoundTrips(tc: TimeCodec) {
    forall t :: tc.parse(tc.format(t)) == Some(t)
  }

  // ---------------------------------------------------------------------
  // Column encodings
  // ---------------------------------------------------------------------

  /** `n as i64` on a 64-bit target: values past `i64::MAX` wrap to negatives. */
  function UsizeAsI64(n: usize): (i: int)
    ensures I64_MIN <= i <= I64_MAX
    ensures n <= I64_MAX ==> i == n
  {
    if n <= I64_MAX then n else n - U64_LIMIT
  }

  /** `i as usize` on a 64-bit target: negatives wrap to values past `i64::MAX`. */
  function I64AsUsize(i: int): (n: usize)
    requires I64_MIN <= i <= I64_MAX
    ensures 0 <= i ==> n == i
  {
    if 0 <= i then i else i + U64_LIMIT
  }

  /** `line` survives the store: the two wrapping casts undo each other for every `usize`. */
  lemma LineRoundTrip(n: usize)
    ensures I64AsUsize(UsizeAsI64(n)) == n
  {
  }

  /** `b as i64`. */
  function BoolAsI64(b: bool): (i: int)
    ensures i == 0 || i == 1
  {
    if b then 1 else 0
  }

  /** `resolved` survives the store: it is written as 0/1 and read back as `!= 0`. */
  lemma ResolvedRoundTrip(b: bool)
    ensures (BoolAsI64(b) != 0) == b
  {
  }

  /** `row.get::<_, String>`: only TEXT converts to a string. */
  function GetText(v: SqlValue): Option<string> {
    if v.Text? then Some(v.s) else None
  }

  /** `row.get::<_, i64>`: only an INTEGER converts to an `i64`. */
  function GetI64(v: SqlValue): Option<int> {
    if v.Integer? && I64_MIN <= v.i <= I64_MAX then Some(v.i) else None
  }

  /** The bound parameters of `save_comment` (lines 44-54). */
  function EncodeComment(c: Comment, tc: TimeCodec): CommentRow {
    CommentRow(Text(c.sessionId), Text(c.author), Text(c.file), Text(c.hunkId),
               Integer(UsizeAsI64(c.line)), Text(c.body), Text(tc.format(c.createdAt)),
               Integer(BoolAsI64(c.resolved)))
  }

  /** The bound parameters of `save_chat` (lines 62-68). */
  function EncodeChat(m: ChatLine, tc: TimeCodec): ChatRow {
    ChatRow(Text(m.sessionId), Text(m.author), Text(m.body), Text(tc.format(m.createdAt)))
  }

  /** A timestamp column: the parsed text, or `Utc::now()` (here `now`) when it does not parse. */
  function DecodeTime(text: string, tc: TimeCodec, now: Timestamp): Timestamp {
    var t := tc.parse(text);
    if t.Some? then t.value else now
  }

  /**
   * The row closure of `load_comments` (lines 75-87): `None` when a column
   * does not convert, which `filter_map(Result::ok)` then drops.
   */
  function DecodeComment(id: string, row: CommentRow, tc: TimeCodec, now: Timestamp): (r: Option<Comment>)
    ensures r.Some? ==> r.value.id == id
  {
    var sessionId := GetText(row.sessionId);
    var author := GetText(row.author);
    var file := GetText(row.file);
    var hunkId := GetText(row.hunkId);
    var line := GetI64(row.line);
    var body := GetText(row.body);
    var createdAt := GetText(row.createdAt);
    var resolved := GetI64(row.resolved);
    if sessionId.None? || author.None? || file.None? || hunkId.None? || line.None?
       || body.None? || createdAt.None? || resolved.None?
    then None
    else
      Some(Comment(id, sessionId.value, author.value, file.value, hunkId.value, I64AsUsize(line.value),
                   body.value, DecodeTime(createdAt.value, tc, now), resolved.value != 0))
  }

  /** The row closure of `load_chat` (lines 93-100). */
  function DecodeChat(id: string, row: ChatRow, tc: TimeCodec, now: Timestamp): (r: Option<ChatLine>)
    ensures r.Some? ==> r.value.id == id
  {
    var sessionId := GetText(row.sessionId);
    var author := GetText(row.author);
    var body := GetText(row.body);
    var createdAt := GetText(row.createdAt);
    if sessionId.None? || author.None? || body.None? || createdAt.None?
    then None
    else Some(ChatLine(id, sessionId.value, author.value, body.value, DecodeTime(createdAt.value, tc, now)))
  }

  /** A saved comment reads back as itself, every field included. */
  lemma CommentRowRoundTrip(c: Comment, tc: TimeCodec, now: Timestamp)
    requires RoundTrips(tc)
    ensures DecodeComment(c.id, EncodeComment(c, tc), tc, now) == Some(c)
  {
    assert tc.parse(tc.format(c.createdAt)) == Some(c.createdAt);
    LineRoundTrip(c.line);
  }

  /** A saved chat line reads back as itself. */
  lemma ChatRowRoundTrip(m: ChatLine, tc: TimeCodec, now: Timestamp)
    requires RoundTrips(tc)
    ensures DecodeChat(m.id, EncodeChat(m, tc), tc, now) == Some(m)
  {
    assert tc.parse(tc.format(m.createdAt)) == Some(m.createdAt);
  }

  // ---------------------------------------------------------------------
  // What a scoped listing returns
  // ---------------------------------------------------------------------

  /** The row under `id` passes `WHERE session_id = ?1` and decodes. */
  ghost predicate ListedComment(table: map<string, CommentRow>, id: string, sid: string, tc: TimeCodec, now: Timestamp) {
    id in table && table[id].sessionId == Text(sid) && DecodeComment(id, table[id], tc, now).Some?
  }

  ghost predicate ListedChat(table: map<string, ChatRow>, id: string, sid: string, tc: TimeCodec, now: Timestamp) {
    id in table && table[id].sessionId == Text(sid) && DecodeChat(id, table[id], tc, now).Some?
  }

  /** No record appears twice: ids are the table's primary key. */
  ghost predicate DistinctCommentIds(r: seq<Comment>) {
    forall i, j :: 0 <= i < j < |r| ==> r[i].id != r[j].id
  }

  ghost predicate DistinctChatIds(r: seq<ChatLine>) {
    forall i, j :: 0 <= i < j < |r| ==> r[i].id != r[j].id
  }

  /**
   * The comments a scoped listing returns, in no particular order (the query
   * has no ORDER BY): one per listed row, each decoded from its own row.
   */
  ghost predicate IsCommentListing(table: map<string, CommentRow>, sid: string, tc: TimeCodec, now: Timestamp,
                                   r: seq<Comment>) {
    && DistinctCommentIds(r)
    && (forall c :: c in r ==> ListedComment(table, c.id, sid, tc, now)
                                && DecodeComment(c.id, table[c.id], tc, now) == Some(c))
    && (forall id :: ListedComment(table, id, sid, tc, now) ==> DecodeComment(id, table[id], tc, now).value in r)
  }

  ghost predicate IsChatListing(table: map<string, ChatRow>, sid: string, tc: TimeCodec, now: Timestamp,
                                r: seq<ChatLine>) {
    && DistinctChatIds(r)
    && (forall m :: m in r ==> ListedChat(table, m.id, sid, tc, now)
                               && DecodeChat(m.id, table[m.id], tc, now) == Some(m))
    && (forall id :: ListedChat(table, id, sid, tc, now) ==> DecodeChat(id, table[id], tc, now).value in r)
  }

  /** Two listings of the same table may differ only in order. */
  lemma {:induction false} CommentListingUnique(table: map<string, CommentRow>, sid: string, tc: TimeCodec,
                                                now: Timestamp, r1: seq<Comment>, r2: seq<Comment>)
    requires IsCommentListing(table, sid, tc, now, r1) && IsCommentListing(table, sid, tc, now, r2)
    ensures multiset(r1) == multiset(r2)
  {
    forall c ensures multiset(r1)[c] == multiset(r2)[c] {
      if c in r1 || c in r2 {
        assert c in r1 && c in r2;
        DistinctOnce(r1, c);
        DistinctOnce(r2, c);
      }
    }
  }

  /** In a sequence with distinct ids, a member occurs exactly once. */
  lemma {:induction false} DistinctOnce(r: seq<Comment>, c: Comment)
    requires DistinctCommentIds(r) && c in r
    ensures multiset(r)[c] == 1
  {
    var k := |r| - 1;
    assert r == r[..k] + [r[k]];
    assert DistinctCommentIds(r[..k]);
    if r[k] == c {
      assert c !in r[..k];
    } else {
      DistinctOnce(r[..k], c);
    }
  }

  // ---------------------------------------------------------------------
  // The store
  // ---------------------------------------------------------------------

  /** `Storage`: the connection's two record tables. */
  class Storage {
    var comments: map<string, CommentRow>
    var chat: map<string, ChatRow>
    const times: TimeCodec

    /**
     * `Storage::new` (lines 9-39): `CREATE TABLE IF NOT EXISTS` keeps whatever
     * the database file already holds, given here as the two tables.
     */
    constructor Open(comments: map<string, CommentRow>, chat: map<string, ChatRow>, times: TimeCodec)
      ensures this.comments == comments && this.chat == chat && this.times == times
    {
      this.comments := comments;
      this.chat := chat;
      this.times := times;
    }

    /** `save_comment` (lines 41-57): insert or replace the row keyed by the comment's id. */
    method SaveComment(c: Comment)
      modifies this
      ensures comments == old(comments)[c.id := EncodeComment(c, times)]
      ensures chat == old(chat)
    {
      comments := comments[c.id := EncodeComment(c, times)];
    }

    /** `save_chat` (lines 59-71): insert or replace the row keyed by the chat line's id. */
    method SaveChat(m: ChatLine)
      modifies this
      ensures chat == old(chat)[m.id := EncodeChat(m, times)]
      ensures comments == old(comments)
    {
      chat := chat[m.id := EncodeChat(m, times)];
    }

    /**
     * `load_comments` (lines 73-89): every row of session `sid` that decodes,
     * in whatever order the table yields them; rows that do not decode are
     * skipped without an error.
     */
    method LoadComments(sid: string, now: Timestamp) returns (r: seq<Comment>)
      ensures IsCommentListing(comments, sid, times, now, r)
    {
      r := [];
      var rest := comments.Keys;
      while rest != {}
        invariant rest <= comments.Keys
        invariant DistinctCommentIds(r)
        invariant forall c :: c in r ==> c.id !in rest && ListedComment(comments, c.id, sid, times, now)
                                         && DecodeComment(c.id, comments[c.id], times, now) == Some(c)
        invariant forall id ::
          (id !in rest && ListedComment(comments, id, sid, times, now)) ==> DecodeComment(id, comments[id], times, now).value in r
        decreases rest
      {
        var id :| id in rest;
        var row := comments[id];
        if row.sessionId == Text(sid) {
          var decoded := DecodeComment(id, row, times, now);
          if decoded.Some? {
            r := r + [decoded.value];
          }
        }
        rest := rest - {id};
      }
    }

    /** `load_chat` (lines 91-103), as `LoadComments` for the chat table. */
    method LoadChat(sid: string, now: Timestamp) returns (r: seq<ChatLine>)
      ensures IsChatListing(chat, sid, times, now, r)
    {
      r := [];
      var rest := chat.Keys;
      while rest != {}
        invariant rest <= chat.Keys
        invariant DistinctChatIds(r)
        invariant forall m :: m in r ==> m.id !in rest && ListedChat(chat, m.id, sid, times, now)
                                         && DecodeChat(m.id, chat[m.id], times, now) == Some(m)
        invariant forall id ::
          (id !in rest && ListedChat(chat, id, sid, times, now)) ==> DecodeChat(id, chat[id], times, now).value in r
        decreases rest
      {
        var id :| id in rest;
        var row := chat[id];
        if row.sessionId == Text(sid) {
          var decoded := DecodeChat(id, row, times, now);
          if decoded.Some? {
            r := r + [decoded.value];
          }
        }
        rest := rest - {id};
      }
    }
  }

  // ---------------------------------------------------------------------
  // Upsert semantics
  // ---------------------------------------------------------------------

  /** After a save, the table holds exactly one row under the comment's id, and it reads back as the comment. */
  lemma SavedCommentIsListed(table: map<string, CommentRow>, c: Comment, tc: TimeCodec, now: Timestamp,
                             r: seq<Comment>)
    requires RoundTrips(tc)
    requires IsCommentListing(table[c.id := EncodeComment(c, tc)], c.sessionId, tc, now, r)
    ensures c in r
    ensures forall d :: d in r && d.id == c.id ==> d == c
  {
    CommentRowRoundTrip(c, tc, now);
    assert ListedComment(table[c.id := EncodeComment(c, tc)], c.id, c.sessionId, tc, now);
  }

  /** Saving the same comment twice leaves the table as saving it once. */
  lemma SaveCommentIdempotent(table: map<string, CommentRow>, c: Comment, tc: TimeCodec)
    ensures table[c.id := EncodeComment(c, tc)][c.id := EncodeComment(c, tc)] == table[c.id := EncodeComment(c, tc)]
  {
  }

  /**
   * Saving a comment under an id already present replaces every field
   * (`resolved` included): the later save wins, and no other id changes.
   */
  lemma SaveCommentLastWriteWins(table: map<string, CommentRow>, c1: Comment, c2: Comment, tc: TimeCodec, now: Timestamp)
    requires RoundTrips(tc) && c1.id == c2.id
    ensures var t := table[c1.id := EncodeComment(c1, tc)][c2.id := EncodeComment(c2, tc)];
      && DecodeComment(c2.id, t[c2.id], tc, now) == Some(c2)
      && t == table[c2.id := EncodeComment(c2, tc)]
      && forall id :: id != c2.id ==> (id in t <==> id in table) && (id in table ==> t[id] == table[id])
  {
    CommentRowRoundTrip(c2, tc, now);
  }

  /** Saving a chat line twice leaves the table as saving it once. */
  lemma SaveChatIdempotent(table: map<string, ChatRow>, m: ChatLine, tc: TimeCodec)
    ensures table[m.id := EncodeChat(m, tc)][m.id := EncodeChat(m, tc)] == table[m.id := EncodeChat(m, tc)]
  {
  }

  /** A later chat line under the same id replaces the earlier one, and no other id changes. */
  lemma SaveChatLastWriteWins(table: map<string, ChatRow>, m1: ChatLine, m2: ChatLine, tc: TimeCodec, now: Timestamp)
    requires RoundTrips(tc) && m1.id == m2.id
    ensures var t := table[m1.id := EncodeChat(m1, tc)][m2.id := EncodeChat(m2, tc)];
      && DecodeChat(m2.id, t[m2.id], tc, now) == Some(m2)
      && t == table[m2.id := EncodeChat(m2, tc)]
      && forall id :: id != m2.id ==> (id in t <==> id in table) && (id in table ==> t[id] == table[id])
  {
    ChatRowRoundTrip(m2, tc, now);
  }

  /** After a save, the chat listing of the line's session holds it once, as saved. */
  lemma SavedChatIsListed(table: map<string, ChatRow>, m: ChatLine, tc: TimeCodec, now: Timestamp,
                          r: seq<ChatLine>)
    requires RoundTrips(tc)
    requires IsChatListing(table[m.id := EncodeChat(m, tc)], m.sessionId, tc, now, r)
    ensures m in r
    ensures forall d :: d in r && d.id == m.id ==> d == m
  {
    ChatRowRoundTrip(m, tc, now);
    assert ListedChat(table[m.id := EncodeChat(m, tc)], m.id, m.sessionId, tc, now);
  }

  /** A listing holds only records of the requested session. */
  lemma ListingIsSessionScoped(table: map<string, CommentRow>, sid: string, tc: TimeCodec, now: Timestamp,
                               r: seq<Comment>)
    requires IsCommentListing(table, sid, tc, now, r)
    ensures forall c :: c in r ==> c.sessionId == sid
  {
    forall c | c in r ensures c.sessionId == sid {
      assert DecodeComment(c.id, table[c.id], tc, now) == Some(c);
    }
  }

  /** A chat listing holds only lines of the requested session. */
  lemma ChatListingIsSessionScoped(table: map<string, ChatRow>, sid: string, tc: TimeCodec, now: Timestamp,
                                   r: seq<ChatLine>)
    requires IsChatListing(table, sid, tc, now, r)
    ensures forall m :: m in r ==> m.sessionId == sid
  {
    forall m | m in r ensures m.sessionId == sid {
      assert DecodeChat(m.id, table[m.id], tc, now) == Some(m);
    }
  }
}
