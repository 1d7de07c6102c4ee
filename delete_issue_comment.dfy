/**
 * `delete_issue_comment_tool`: a comment is deleted only with a fresh token minted
 * for the same comment ID and repository. The repository is a required argument
 * here (there is no header fallback), and the comment ID is compared as an integer.
 */
module DeleteIssueComment {
  import opened Wrappers
  import opened Text
  import opened ConfirmationToken
  import opened Access
  import opened Outcomes

  const PromptHead := "Confirmation required to delete comment ID "

  function Prompt(commentId: int): string {
    PromptHead + IntToString(commentId) + ". " + ConfirmHint
  }

  function CommentParams(commentId: Value, repo: string): Params {
    [("comment_id", commentId), ("repo", Str(repo))]
  }

  /** What the remote reports for the DELETE: a status code and the response body (empty when there is none), or a request exception. */
  datatype StatusReply = Status(code: int, body: string) | Failed(reason: string)

  const Success := "Comment deleted successfully."
  const NotFoundError := "Comment not found. Please verify the comment ID."
  const ForbiddenError := "Forbidden. You do not have permission to delete this comment."
  const BadRequestError := "Bad request. The request parameters are invalid."
  const UnauthorizedError := "Unauthorized. Authentication failed."

  /** The answer built from the status of the DELETE. */
  function Report(reply: StatusReply): (r: Response)
    ensures r == Message(Success) <==> reply.Status? && reply.code == 204
    ensures reply.Failed? ==> r == Error(RequestFailed(reply.reason))
    ensures reply.Status? && reply.code == 404 ==> r == Error(NotFoundError)
    ensures reply.Status? && reply.code == 403 ==> r == Error(ForbiddenError)
    ensures reply.Status? && reply.code == 400 ==> r == Error(BadRequestError)
    ensures reply.Status? && reply.code == 401 ==> r == Error(UnauthorizedError)
    ensures reply.Status? && reply.code !in {204, 400, 401, 403, 404} ==>
              r == ErrorWithBody("GitHub API error: " + IntToString(reply.code),
                                 if reply.body == "" then "No message" else reply.body)
  {
    match reply
    case Failed(reason) => Error(RequestFailed(reason))
    case Status(code, body) =>
      if code == 404 then Error(NotFoundError)
      else if code == 403 then Error(ForbiddenError)
      else if code == 400 then Error(BadRequestError)
      else if code == 401 then Error(UnauthorizedError)
      else if code != 204 then
        ErrorWithBody("GitHub API error: " + IntToString(code), if body == "" then "No message" else body)
      else Message(Success)
  }

  /** An issued comment deletion and the answer built from its status. */
  datatype CommentDispatch = CommentDispatch(call: Mutation, response: Response)

  /**
   * The tool. The token is `comment_id:repo:ts`; it is decoded into exactly three
   * fields and checked for expiry; then the first field is read as an integer (a
   * field that is not one makes the token invalid) and compared with the request.
   */
  function DeleteIssueCommentTool(session: Session, repo: string, commentId: int, token: Option<string>,
                                  now: int, remote: Mutation -> StatusReply): (r: Outcome<CommentDispatch>)
    ensures r.Authorized? ==>
      && session.authenticated
      && Supplied(token)
      && var read := Open(token.value, 3);
      && read.Some?
      && ParseInt(read.value.fields[0]) == Some(commentId)
      && read.value.fields[1] == repo
      && !IsExpired(now, read.value.issuedAt)
      && r.effect.call == DeleteComment(repo, commentId)
  {
    match CheckAccess(session)
    case Some(denial) => Denied(denial)
    case None =>
      if !Supplied(token) then AwaitingConfirmation(Prompt(commentId), Mint([IntToString(commentId), repo], now))
      else
        match Check(token.value, now, 3)
        case Malformed => InvalidToken
        case Stale => Expired
        case Fresh(fields) =>
          match ParseInt(fields[0])
          case None => InvalidToken
          case Some(tokenId) =>
            if tokenId != commentId || fields[1] != repo then
              Mismatch(CommentParams(Str(fields[0]), fields[1]), CommentParams(Int(commentId), repo))
            else
              var call := DeleteComment(repo, commentId);
              Authorized(CommentDispatch(call, Report(remote(call))))
  }

  /** The authentication check comes before everything else. */
  lemma DeniedFirst(session: Session, repo: string, commentId: int, token: Option<string>, now: int,
                    remote: Mutation -> StatusReply)
    requires !session.authenticated
    ensures DeleteIssueCommentTool(session, repo, commentId, token, now, remote)
         == Denied(Denial(session.errorMessage.GetOr(NotAuthenticated)))
  {
  }

  /** The repository named in the request headers plays no part: only the argument is used. */
  lemma HeaderRepoIgnored(session: Session, header: Option<string>, repo: string, commentId: int,
                          token: Option<string>, now: int, remote: Mutation -> StatusReply)
    ensures DeleteIssueCommentTool(session, repo, commentId, token, now, remote)
         == DeleteIssueCommentTool(session.(repo := header), repo, commentId, token, now, remote)
  {
  }

  /**
   * Without a token a token for `comment_id:repo:now` is minted and nothing is
   * deleted; when the repository has no `:`, it reads back as the decimal ID, the
   * repository and the time.
   */
  lemma MintWithoutToken(session: Session, repo: string, commentId: int, token: Option<string>, now: int,
                         remote: Mutation -> StatusReply)
    requires session.authenticated && !Supplied(token)
    ensures var r := DeleteIssueCommentTool(session, repo, commentId, token, now, remote);
            && r == AwaitingConfirmation(Prompt(commentId), Mint([IntToString(commentId), repo], now))
            && r.Action() == Some(ConfirmAction)
            && (Delimiter !in repo ==> Open(r.token, 3) == Some(Opened([IntToString(commentId), repo], now)))
  {
    var fields := [IntToString(commentId), repo];
    OpenMint(fields, now);
    if Delimiter !in repo {
      IdFieldFree(commentId);
      assert fields[0] == IntToString(commentId) && fields[1] == repo;
      assert DelimiterFree(fields);
    }
  }

  /** The decimal text of an ID never contains the delimiter. */
  lemma IdFieldFree(commentId: int)
    ensures Delimiter !in IntToString(commentId)
  {
  }

  /**
   * Minting at `t` and confirming at `now`: the comment is deleted exactly when the
   * repository has no `:` and at most 300 seconds have passed.
   */
  lemma ConfirmRoundTrip(session: Session, repo: string, commentId: int, t: int, now: int,
                         remote: Mutation -> StatusReply)
    requires session.authenticated
    ensures var minted := DeleteIssueCommentTool(session, repo, commentId, None, t, remote);
            && minted.AwaitingConfirmation?
            && var confirmed := DeleteIssueCommentTool(session, repo, commentId, Some(minted.token), now, remote);
            && var call := DeleteComment(repo, commentId);
            confirmed == if Delimiter in repo then InvalidToken
                         else if now - t > ValidityDuration then Expired
                         else Authorized(CommentDispatch(call, Report(remote(call))))
  {
    var token := Mint([IntToString(commentId), repo], t);
    assert DeleteIssueCommentTool(session, repo, commentId, None, t, remote)
        == AwaitingConfirmation(Prompt(commentId), token);
    ConfirmVerdict(repo, commentId, t, now);
    var confirmed := DeleteIssueCommentTool(session, repo, commentId, Some(token), now, remote);
    if Delimiter in repo {
      assert confirmed == InvalidToken;
    } else if IsExpired(now, t) {
      assert confirmed == Expired;
    } else {
      var call := DeleteComment(repo, commentId);
      assert confirmed == Authorized(CommentDispatch(call, Report(remote(call))));
    }
  }

  /** The verdict on a minted comment token, and the ID read back from it. */
  lemma ConfirmVerdict(repo: string, commentId: int, t: int, now: int)
    ensures var fields := [IntToString(commentId), repo];
            Check(Mint(fields, t), now, 3)
              == if Delimiter in repo then Malformed else if IsExpired(now, t) then Stale else Fresh(fields)
    ensures ParseInt(IntToString(commentId)) == Some(commentId)
  {
    var fields := [IntToString(commentId), repo];
    CheckMint(fields, t, now);
    IdFieldFree(commentId);
    ParseIntToString(commentId);
    assert fields[0] == IntToString(commentId) && fields[1] == repo;
    assert DelimiterFree(fields) <==> Delimiter !in repo;
  }

  /** Expiry is checked before the ID field is read as an integer or compared. */
  lemma ExpiredBeforeMismatch(session: Session, repo: string, commentId: int, token: string, now: int,
                              remote: Mutation -> StatusReply)
    requires session.authenticated && token != ""
    requires Open(token, 3).Some? && IsExpired(now, Open(token, 3).value.issuedAt)
    ensures DeleteIssueCommentTool(session, repo, commentId, Some(token), now, remote) == Expired
  {
  }

  /**
   * A readable, unexpired token whose ID field is an integer other than the
   * requested one, or whose repository differs, is refused; the details carry the
   * token's ID as text and the requested ID as an integer.
   */
  lemma MismatchDetails(session: Session, repo: string, commentId: int, token: string, now: int,
                        remote: Mutation -> StatusReply)
    requires session.authenticated && token != ""
    requires Open(token, 3).Some? && !IsExpired(now, Open(token, 3).value.issuedAt)
    requires ParseInt(Open(token, 3).value.fields[0]).Some?
    requires ParseInt(Open(token, 3).value.fields[0]) != Some(commentId) || Open(token, 3).value.fields[1] != repo
    ensures var f := Open(token, 3).value.fields;
            DeleteIssueCommentTool(session, repo, commentId, Some(token), now, remote)
              == Mismatch(CommentParams(Str(f[0]), f[1]), CommentParams(Int(commentId), repo))
  {
  }

  /** A token that does not decode, split into three fields, end in an integer, or start with one, is invalid. */
  lemma UnreadableToken(session: Session, repo: string, commentId: int, token: string, now: int,
                        remote: Mutation -> StatusReply)
    requires session.authenticated && token != ""
    requires Open(token, 3).None?
          || (!IsExpired(now, Open(token, 3).value.issuedAt) && ParseInt(Open(token, 3).value.fields[0]).None?)
    ensures DeleteIssueCommentTool(session, repo, commentId, Some(token), now, remote) == InvalidToken
  {
  }

  /** `int("0123")` is 123 and `int("+7")` is 7. */
  lemma ParseSignedAndPadded()
    ensures ParseInt("0123") == Some(123)
    ensures ParseInt("+7") == Some(7)
  {
    assert AllDigits("0123");
    assert DigitsValue("0123") == 123 by {
      assert "0123"[..3] == "012" && "012"[..2] == "01" && "01"[..1] == "0" && "0"[..0] == "";
    }
    assert "+7"[1..] == "7";
    assert DigitsValue("7") == 7 by { assert "7"[..0] == ""; }
  }

  /**
   * Because the ID is compared as an integer, a token whose ID field is written with a
   * leading zero or a plus sign still authorises the deletion of that comment.
   */
  lemma NumericIdComparison(session: Session, repo: string, t: int, remote: Mutation -> StatusReply)
    requires session.authenticated && Delimiter !in repo
    ensures DeleteIssueCommentTool(session, repo, 123, Some(Mint(["0123", repo], t)), t, remote).Authorized?
    ensures DeleteIssueCommentTool(session, repo, 7, Some(Mint(["+7", repo], t)), t, remote).Authorized?
  {
    ParseSignedAndPadded();
    var padded := ["0123", repo];
    var signed := ["+7", repo];
    assert padded[0] == "0123" && padded[1] == repo && signed[0] == "+7" && signed[1] == repo;
    assert Delimiter !in "0123" && Delimiter !in "+7";
    assert DelimiterFree(padded) && DelimiterFree(signed);
    CheckMint(padded, t, t);
    CheckMint(signed, t, t);
  }

  /**
   * The delete-comment scenario: asking for a comment of a repository, then confirming
   * with the returned token, reports the comment deleted once the remote answers 204.
   */
  lemma DeleteCommentScenario(session: Session, repo: string, commentId: int, t: int, now: int,
                              remote: Mutation -> StatusReply)
    requires session.authenticated && Delimiter !in repo && t <= now <= t + ValidityDuration
    requires remote(DeleteComment(repo, commentId)).Status? && remote(DeleteComment(repo, commentId)).code == 204
    ensures var asked := DeleteIssueCommentTool(session, repo, commentId, None, t, remote);
            && asked.Action() == Some(ConfirmAction)
            && var confirmed := DeleteIssueCommentTool(session, repo, commentId, Some(asked.token), now, remote);
            && confirmed.Authorized?
            && confirmed.effect.response == Message(Success)
  {
    ConfirmRoundTrip(session, repo, commentId, t, now, remote);
  }
}
