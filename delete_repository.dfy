/** `delete_repository_tool`: a repository is deleted only with a fresh token minted for that repository. */
module DeleteRepository {
  import opened Wrappers
  import opened Text
  import opened ConfirmationToken
  import opened Access
  import opened Outcomes

  const PromptHead := "Confirmation required to delete repository '"

  function Prompt(repo: string): string {
    PromptHead + repo + "'. " + ConfirmHint
  }

  function RepoParams(repo: string): Params {
    [("repo", Str(repo))]
  }

  function Deleted(repo: string): string {
    "Repository '" + repo + "' deleted successfully."
  }

  /** The answer after the remote delete. */
  function Report(repo: string, reply: Reply): Response {
    match reply
    case Completed => Message(Deleted(repo))
    case Raised(reason) => Error(RequestFailed(reason))
  }

  /**
   * The tool. The token is `repo:ts`; it is decoded into exactly two fields,
   * checked for expiry, then compared with the request, and only then is the
   * repository deleted through `remote`.
   */
  function DeleteRepositoryTool(session: Session, repo: Option<string>, token: Option<string>,
                                now: int, remote: Mutation -> Reply): (r: Outcome<Dispatch>)
    ensures r.Authorized? ==>
      && session.authenticated
      && Supplied(token)
      && var target := ResolveRepo(repo, session.repo);
      && target.Some?
      && var read := Open(token.value, 2);
      && read.Some?
      && read.value.fields == [target.value]
      && !IsExpired(now, read.value.issuedAt)
      && r.effect.call == DeleteRepo(target.value)
  {
    match CheckAccess(session)
    case Some(denial) => Denied(denial)
    case None =>
      match ResolveRepo(repo, session.repo)
      case None => MissingRepo
      case Some(target) =>
        if !Supplied(token) then AwaitingConfirmation(Prompt(target), Mint([target], now))
        else
          match Check(token.value, now, 2)
          case Malformed => InvalidToken
          case Stale => Expired
          case Fresh(fields) =>
            if fields[0] != target then
              Mismatch(RepoParams(fields[0]), RepoParams(target))
            else
              var call := DeleteRepo(target);
              Authorized(Dispatch(call, Report(target, remote(call))))
  }

  /** The authentication check comes before everything else. */
  lemma DeniedFirst(session: Session, repo: Option<string>, token: Option<string>, now: int, remote: Mutation -> Reply)
    requires !session.authenticated
    ensures DeleteRepositoryTool(session, repo, token, now, remote)
         == Denied(Denial(session.errorMessage.GetOr(NotAuthenticated)))
  {
  }

  /** Without a repository argument or header, the answer is the missing-repo error, whatever the token. */
  lemma MissingRepoSecond(session: Session, repo: Option<string>, token: Option<string>, now: int,
                          remote: Mutation -> Reply)
    requires session.authenticated && !Truthy(repo) && !Truthy(session.repo)
    ensures DeleteRepositoryTool(session, repo, token, now, remote) == MissingRepo
  {
  }

  /**
   * Without a token a token for `repo:now` is minted and nothing is deleted; when
   * the repository name has no `:`, the token reads back as that name and time.
   */
  lemma MintWithoutToken(session: Session, repo: Option<string>, token: Option<string>, now: int,
                         remote: Mutation -> Reply)
    requires session.authenticated && ResolveRepo(repo, session.repo).Some?
    requires !Supplied(token)
    ensures var target := ResolveRepo(repo, session.repo).value;
            var r := DeleteRepositoryTool(session, repo, token, now, remote);
            && r == AwaitingConfirmation(Prompt(target), Mint([target], now))
            && r.Action() == Some(ConfirmAction)
            && (Delimiter !in target ==> Open(r.token, 2) == Some(Opened([target], now)))
  {
    var target := ResolveRepo(repo, session.repo).value;
    OpenMint([target], now);
    assert DelimiterFree([target]) <==> Delimiter !in target by {
      assert [target][0] == target;
    }
  }

  /**
   * Minting at `t` and confirming at `now`: the repository is deleted exactly when
   * its name has no `:` and at most 300 seconds have passed.
   */
  lemma ConfirmRoundTrip(session: Session, repo: Option<string>, t: int, now: int, remote: Mutation -> Reply)
    requires session.authenticated && ResolveRepo(repo, session.repo).Some?
    ensures var target := ResolveRepo(repo, session.repo).value;
            var minted := DeleteRepositoryTool(session, repo, None, t, remote);
            && minted.AwaitingConfirmation?
            && var confirmed := DeleteRepositoryTool(session, repo, Some(minted.token), now, remote);
            && var call := DeleteRepo(target);
            confirmed == if Delimiter in target then InvalidToken
                         else if now - t > ValidityDuration then Expired
                         else Authorized(Dispatch(call, Report(target, remote(call))))
  {
    var target := ResolveRepo(repo, session.repo).value;
    var token := Mint([target], t);
    assert DeleteRepositoryTool(session, repo, None, t, remote) == AwaitingConfirmation(Prompt(target), token);
    MintedVerdict(target, t, now);
    var confirmed := DeleteRepositoryTool(session, repo, Some(token), now, remote);
    if Delimiter in target {
      assert confirmed == InvalidToken;
    } else if IsExpired(now, t) {
      assert confirmed == Expired;
    } else {
      var call := DeleteRepo(target);
      assert confirmed == Authorized(Dispatch(call, Report(target, remote(call))));
    }
  }

  /** The verdict on a token minted for a repository. */
  lemma MintedVerdict(target: string, t: int, now: int)
    ensures Check(Mint([target], t), now, 2)
         == if Delimiter in target then Malformed else if IsExpired(now, t) then Stale else Fresh([target])
  {
    var fields := [target];
    CheckMint(fields, t, now);
    assert fields[0] == target;
    assert DelimiterFree(fields) <==> Delimiter !in target;
  }

  /** Expiry is checked before the name is compared. */
  lemma ExpiredBeforeMismatch(session: Session, repo: Option<string>, token: string, now: int,
                              remote: Mutation -> Reply)
    requires session.authenticated && ResolveRepo(repo, session.repo).Some? && token != ""
    requires Open(token, 2).Some? && IsExpired(now, Open(token, 2).value.issuedAt)
    ensures DeleteRepositoryTool(session, repo, Some(token), now, remote) == Expired
  {
  }

  /** A readable, unexpired token for another repository is refused with both names in the details. */
  lemma MismatchDetails(session: Session, repo: Option<string>, token: string, now: int, remote: Mutation -> Reply)
    requires session.authenticated && ResolveRepo(repo, session.repo).Some? && token != ""
    requires Open(token, 2).Some? && !IsExpired(now, Open(token, 2).value.issuedAt)
    requires Open(token, 2).value.fields != [ResolveRepo(repo, session.repo).value]
    ensures DeleteRepositoryTool(session, repo, Some(token), now, remote)
              == Mismatch(RepoParams(Open(token, 2).value.fields[0]), RepoParams(ResolveRepo(repo, session.repo).value))
  {
    var f := Open(token, 2).value.fields;
    assert f == [f[0]];
  }

  /** A token that does not decode, split into two fields or end in an integer is invalid. */
  lemma UnreadableToken(session: Session, repo: Option<string>, token: string, now: int, remote: Mutation -> Reply)
    requires session.authenticated && ResolveRepo(repo, session.repo).Some? && token != ""
    requires Open(token, 2).None?
    ensures DeleteRepositoryTool(session, repo, Some(token), now, remote) == InvalidToken
  {
  }

  /**
   * The teardown of the repository fixture: asking for `user/name`, then confirming
   * with the returned token, yields the success message once the remote completes.
   */
  lemma TeardownScenario(session: Session, user: string, name: string, t: int, now: int, remote: Mutation -> Reply)
    requires session.authenticated && Delimiter !in user && Delimiter !in name
    requires t <= now <= t + ValidityDuration
    requires remote(DeleteRepo(user + "/" + name)) == Completed
    ensures var repo := Some(user + "/" + name);
            var asked := DeleteRepositoryTool(session, repo, None, t, remote);
            && asked.AwaitingConfirmation?
            && var confirmed := DeleteRepositoryTool(session, repo, Some(asked.token), now, remote);
            && confirmed.Authorized?
            && confirmed.effect.response == Message(Deleted(user + "/" + name))
  {
    var target := user + "/" + name;
    assert Delimiter !in target;
    var token := DeleteRepositoryTool(session, Some(target), None, t, remote).token;
    ConfirmRoundTrip(session, Some(target), t, now, remote);
    assert DeleteRepositoryTool(session, Some(target), Some(token), now, remote)
        == Authorized(Dispatch(DeleteRepo(target), Report(target, Completed)));
  }
}
