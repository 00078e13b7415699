/**
 * Invite tokens (network/src/lib.rs, lines 73-93).
 *
 * A token is the base58 text of the session id's UTF-8 bytes followed by the
 * 32-byte HMAC-SHA256 tag (RFC 2104) of those bytes under a shared secret.
 * Parsing decodes the base58, splits off the last 32 bytes as the tag,
 * recomputes the tag over the rest and, if they agree, returns the rest as
 * (lossily decoded) text.
 */
module Network {
  import opened Common

  /** Bytes of the tag HMAC-SHA256 produces. */
  const TAG_LEN: nat := 32

  /**
   * The foreign primitives the token code calls: HMAC-SHA256 (key, message),
   * base58 encoding and decoding, `str::as_bytes` and
   * `String::from_utf8_lossy`. None of them is part of this model.
   */
  datatype Primitives = Primitives(
    hmac: (seq<byte>, seq<byte>) -> seq<byte>,
    toBase58: seq<byte> -> string,
    fromBase58: string -> Option<seq<byte>>,
    utf8: string -> seq<byte>,
    utf8Lossy: seq<byte> -> string)

  /**
   * What the token code relies on: the tag is 32 bytes, base58 decoding undoes
   * encoding, and lossy decoding undoes UTF-8 encoding (of which the empty
   * string's is empty).
   */
  ghost predicate Lawful(p: Primitives) {
    && (forall key, msg :: |p.hmac(key, msg)| == TAG_LEN)
    && (forall b :: p.fromBase58(p.toBase58(b)) == Some(b))
    && (forall s :: p.utf8Lossy(p.utf8(s)) == s)
    && p.utf8("") == []
  }

  /** `generate_invite_token`: base58(bytes(session id) ++ HMAC(secret, bytes(session id))). */
  function GenerateInviteToken(p: Primitives, sessionId: string, secret: seq<byte>): string {
    var id := p.utf8(sessionId);
    p.toBase58(id + p.hmac(secret, id))
  }

  /**
   * `parse_invite_token`. `Hmac::new_from_slice` accepts keys of every length,
   * so its `.ok()?` never returns early.
   */
  function ParseInviteToken(p: Primitives, token: string, secret: seq<byte>): (r: Option<string>)
    ensures r.Some? ==> p.fromBase58(token).Some? && |p.fromBase58(token).value| >= TAG_LEN
  {
    var decoded := p.fromBase58(token);
    if decoded.None? then None
    else
      var data := decoded.value;
      if |data| < TAG_LEN then None
      else
        var split := |data| - TAG_LEN;
        var (sessionId, tag) := (data[..split], data[split..]);
        if tag == p.hmac(secret, sessionId) then Some(p.utf8Lossy(sessionId)) else None
  }

  /** A token parses under the secret that generated it, giving back the session id. */
  lemma InviteRoundTrip(p: Primitives, sessionId: string, secret: seq<byte>)
    requires Lawful(p)
    ensures ParseInviteToken(p, GenerateInviteToken(p, sessionId, secret), secret) == Some(sessionId)
  {
    var id := p.utf8(sessionId);
    var data := id + p.hmac(secret, id);
    assert p.fromBase58(p.toBase58(data)) == Some(data);
    assert |p.hmac(secret, id)| == TAG_LEN;
    assert data[..|data| - TAG_LEN] == id;
    assert data[|data| - TAG_LEN..] == p.hmac(secret, id);
  }

  /**
   * The whole decision: a token is accepted exactly when it is valid base58
   * of at least 32 bytes whose last 32 are the tag of the rest, and then the
   * result is the rest as text.
   */
  lemma ParseAcceptsExactlyTagged(p: Primitives, token: string, secret: seq<byte>)
    ensures ParseInviteToken(p, token, secret).Some? <==>
      && p.fromBase58(token).Some?
      && |p.fromBase58(token).value| >= TAG_LEN
      && Tagged(p, p.fromBase58(token).value, secret)
    ensures ParseInviteToken(p, token, secret).Some? ==>
      ParseInviteToken(p, token, secret).value == p.utf8Lossy(CandidateId(p.fromBase58(token).value))
  {
  }

  /** The prefix before the last 32 bytes: the candidate session id. */
  function CandidateId(data: seq<byte>): (id: seq<byte>)
    requires |data| >= TAG_LEN
    ensures |id| + TAG_LEN == |data| && data == id + data[|id|..]
  {
    data[..|data| - TAG_LEN]
  }

  /** The last 32 bytes are the HMAC of the candidate id under `secret`. */
  ghost predicate Tagged(p: Primitives, data: seq<byte>, secret: seq<byte>)
    requires |data| >= TAG_LEN
  {
    data[|data| - TAG_LEN..] == p.hmac(secret, CandidateId(data))
  }

  /** Text that is not base58 is refused. */
  lemma InvalidBase58Rejected(p: Primitives, token: string, secret: seq<byte>)
    requires p.fromBase58(token).None?
    ensures ParseInviteToken(p, token, secret) == None
  {
  }

  /** Fewer than 32 decoded bytes cannot carry a tag and are refused. */
  lemma ShortTokenRejected(p: Primitives, token: string, secret: seq<byte>)
    requires p.fromBase58(token).Some? && |p.fromBase58(token).value| < TAG_LEN
    ensures ParseInviteToken(p, token, secret) == None
  {
  }

  /** Exactly 32 bytes that are the tag of nothing name the empty session id. */
  lemma BareTagGivesEmptyId(p: Primitives, token: string, secret: seq<byte>)
    requires Lawful(p)
    requires p.fromBase58(token) == Some(p.hmac(secret, []))
    ensures ParseInviteToken(p, token, secret) == Some("")
  {
    var data := p.hmac(secret, []);
    assert |data| == TAG_LEN;
    assert data[..0] == [] && data[0..] == data;
    assert p.utf8Lossy(p.utf8("")) == "";
  }

  /** A token checked under a secret whose tag differs from the issuer's is refused. */
  lemma WrongSecretRejected(p: Primitives, sessionId: string, issued: seq<byte>, checked: seq<byte>)
    requires Lawful(p)
    requires p.hmac(checked, p.utf8(sessionId)) != p.hmac(issued, p.utf8(sessionId))
    ensures ParseInviteToken(p, GenerateInviteToken(p, sessionId, issued), checked) == None
  {
    var id := p.utf8(sessionId);
    var data := id + p.hmac(issued, id);
    assert p.fromBase58(p.toBase58(data)) == Some(data);
    assert |p.hmac(issued, id)| == TAG_LEN;
    assert data[..|data| - TAG_LEN] == id;
    assert data[|data| - TAG_LEN..] == p.hmac(issued, id);
  }
}
