/**
 * The confirmation token that every delete tool mints and checks: the request's
 * identifying fields and an issue time, joined with `:`, encoded as UTF-8 and then
 * as Base64. Nothing is signed and nothing is stored; a token is valid for
 * `ValidityDuration` seconds after the time written in it.
 */
module ConfirmationToken {
  import opened Wrappers
  import opened Text
  import Base64
  import Utf8

  /** How long a token stays valid, in seconds: five minutes. */
  const ValidityDuration := 5 * 60

  const Delimiter := ':'

  /** The text that is encoded: each field, then the issue time, separated by `:`. */
  function Payload(fields: seq<string>, issuedAt: int): string {
    Join(fields + [IntToString(issuedAt)], Delimiter)
  }

  /** A fresh token for `fields`, stamped with `issuedAt`; it is never empty, so it is always taken as supplied. */
  function Mint(fields: seq<string>, issuedAt: int): (token: string)
    ensures token != []
  {
    var payload := Payload(fields, issuedAt);
    assert payload != [] by {
      var parts := fields + [IntToString(issuedAt)];
      if |parts| == 1 {
        assert parts[0] == IntToString(issuedAt);
      }
    }
    Base64.Encode(Utf8.Encode(payload))
  }

  /** What a well-formed token carries: the fields in their minted order and the issue time. */
  datatype Opened = Opened(fields: seq<string>, issuedAt: int)

  /**
   * Decoding a supplied token: Base64, then strict UTF-8, then `split(":")`
   * into exactly `arity` pieces, the last of which must read as an integer.
   * Any failure leaves nothing.
   */
  function Open(token: string, arity: nat): (r: Option<Opened>)
    requires arity >= 1
    ensures r.Some? ==> |r.value.fields| == arity - 1
  {
    match Base64.Decode(token)
    case None => None
    case Some(octets) =>
      match Utf8.Decode(octets)
      case None => None
      case Some(text) =>
        var parts := Split(text, Delimiter);
        if |parts| != arity then None
        else
          match ParseInt(parts[arity - 1])
          case None => None
          case Some(issuedAt) => Some(Opened(parts[..arity - 1], issuedAt))
  }

  /** The expiry test: strictly more than `ValidityDuration` seconds have passed since the issue time. */
  predicate IsExpired(now: int, issuedAt: int) {
    now - issuedAt > ValidityDuration
  }

  /** Python's `if not confirmation_token`: a missing and an empty token both ask for a new one. */
  predicate Supplied(token: Option<string>) {
    token.Some? && token.value != ""
  }

  /** The verdict on a supplied token before its fields are compared with the request. */
  datatype Verdict = Malformed | Stale | Fresh(fields: seq<string>)

  /** Decode, then check expiry; the fields of a fresh token are left for the tool to compare. */
  function Check(token: string, now: int, arity: nat): (v: Verdict)
    requires arity >= 1
    ensures v.Fresh? ==> |v.fields| == arity - 1
  {
    match Open(token, arity)
    case None => Malformed
    case Some(read) => if IsExpired(now, read.issuedAt) then Stale else Fresh(read.fields)
  }

  /** No field contains the delimiter `:`. */
  predicate DelimiterFree(fields: seq<string>) {
    forall i :: 0 <= i < |fields| ==> Delimiter !in fields[i]
  }

  /**
   * Opening a minted token gives back its fields and issue time exactly when no
   * field contains `:`; a field that does makes the token unreadable.
   */
  lemma OpenMint(fields: seq<string>, issuedAt: int)
    ensures Open(Mint(fields, issuedAt), |fields| + 1)
         == if DelimiterFree(fields) then Some(Opened(fields, issuedAt)) else None
  {
    var stamp := IntToString(issuedAt);
    var parts := fields + [stamp];
    var payload := Payload(fields, issuedAt);
    Base64.DecodeEncode(Utf8.Encode(payload));
    Utf8.DecodeEncode(payload);
    assert Base64.Decode(Mint(fields, issuedAt)) == Some(Utf8.Encode(payload));
    if DelimiterFree(fields) {
      forall i | 0 <= i < |parts| ensures Delimiter !in parts[i] {
        if i == |fields| {
          assert parts[i] == stamp;
        } else {
          assert parts[i] == fields[i];
        }
      }
      SplitJoin(parts, Delimiter);
      ParseIntToString(issuedAt);
      assert parts[|fields|] == stamp;
      assert parts[..|fields|] == fields;
    } else {
      var k :| 0 <= k < |fields| && Delimiter in fields[k];
      assert parts[k] == fields[k];
      SplitJoinCollision(parts, Delimiter, k);
    }
  }

  /**
   * The whole verdict on a minted token: unreadable if a field contains `:`,
   * otherwise stale after the validity window and fresh with the minted fields within it.
   */
  lemma CheckMint(fields: seq<string>, issuedAt: int, now: int)
    ensures Check(Mint(fields, issuedAt), now, |fields| + 1)
         == if !DelimiterFree(fields) then Malformed
            else if IsExpired(now, issuedAt) then Stale
            else Fresh(fields)
  {
    OpenMint(fields, issuedAt);
  }

  /** The expiry boundary: a token is still accepted 300 seconds after its issue time and refused one second later. */
  lemma ExpiryBoundary(fields: seq<string>, issuedAt: int)
    requires DelimiterFree(fields)
    ensures Check(Mint(fields, issuedAt), issuedAt + ValidityDuration, |fields| + 1) == Fresh(fields)
    ensures Check(Mint(fields, issuedAt), issuedAt + ValidityDuration + 1, |fields| + 1) == Stale
  {
    CheckMint(fields, issuedAt, issuedAt + ValidityDuration);
    CheckMint(fields, issuedAt, issuedAt + ValidityDuration + 1);
  }
}
