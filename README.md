# Confirmation-gated delete tools and issue search of a GitHub MCP tool server

This project models, in Dafny, the core of a set of GitHub tools exposed to an
assistant through the Model Context Protocol.

It covers two groups of tools.

- **The four delete tools**: `delete_branch`, `delete_repository`,
  `delete_files` and `delete_issue_comment`.
  - Each is a gate in front of a destructive remote call.
  - A first call without a confirmation token only mints one. The token is
    the request's identifying fields and the current time, joined with `:`,
    UTF-8-encoded and Base64-encoded.
  - A second call must present that token with the same request parameters.
  - Such a token is readable, no more than 300 seconds old, and names the same
    target. Only then is the mutation issued.
- **The listing and search tools**:
  - `list_files` filters a git tree down to blob paths under the requested
    folders.
  - `get_issues` and `search_issues` build a search query from the optional
    filters, reshape the returned items and count them.
  - `search_issues` can also attach the comments that contain the search term.

## How the model is organised

`wrappers.dfy`, `text.dfy`, `utf8.dfy` and `base64.dfy` model the Python
primitives the tools rely on:

- `str.split` and `str.join`;
- `str(n)` and `int(s)`;
- the substring `in` test;
- `str.encode()` and `bytes.decode()` as strict UTF-8;
- `base64.b64encode` and `base64.b64decode`.

`token.dfy` puts these primitives together into the token format:

- `Mint` writes a token.
- `Open` reads one back.
- `Check` reads a token and applies the expiry rule.

`access.dfy` has two parts:

- What the authentication middleware leaves behind: whether the caller is
  authenticated, the recorded error, and the repository named in the request
  headers.
- The `repo or middleware_repo` resolution.

`outcomes.dfy` holds the answers a delete tool can give. A delete tool issues
a mutation only in the `Authorized` case. The other cases leave the remote
untouched.

Each tool is one module:

- The delete gates are functions. Their remote calls are function-typed
  parameters, so the gates stay pure.
- The loops of the source are methods with loop invariants:
  - the per-file deletion loop;
  - the tree filter;
  - the qualifier-by-qualifier query builder;
  - the issue summarising loop.

  Each method is proved equal to a specification function, and the lemmas are
  stated about those functions.

Two notes on how the model treats the source.

- The code and its documentation differ on one point: the source documents
  `delete_files` as binding the token to "the intended files". The code
  compares only the *set* of comma-split names. The model follows the code.
  `DeleteFiles.PathOrderIgnored` and `DeleteFiles.CommaPathAliasing` state what
  the code actually accepts.
- The clock, the GitHub HTTP API and the middleware's global state are
  parameters of the model: `now`, the `remote`, `lookup`, `fetch…` and
  `search` functions, and `Session`.

## Model

| member | source | states |
|---|---|---|
| Access.CheckAccess | middleware/github/GithubAuthMiddleware.py:86-103 | An authenticated caller passes. Any other caller is refused with the recorded error, or with "User is not authenticated." when none was recorded. |
| Access.ResolveRepo | tools/delete_branch.py:64-68 | A repository is resolved exactly when the argument or the header value is truthy. The result is non-empty and is one of the two. A truthy argument always wins over the header. |
| Text.Split | tools/delete_branch.py:87 | `split(":")` yields one more piece than the text has delimiters, and no piece contains the delimiter. |
| Text.Join | tools/delete_files.py:84 | `','.join` of a single piece is that piece. The join is at least as long as the gaps between the pieces. |
| Text.SplitJoin | tools/delete_branch.py:73 | Joining delimiter-free fields and splitting again gives back exactly those fields. |
| Text.SplitJoinCollision | tools/delete_branch.py:87 | Once any joined field contains the delimiter, splitting the join yields more pieces than were joined. The source's exact-arity unpacking then fails. |
| Text.JoinContains | tools/delete_files.py:84 | A character occurs in a join iff it occurs in some piece, or it is the separator and there is a gap. |
| Text.JoinCount | tools/delete_files.py:84 | The delimiters in a join are the gaps plus those inside the pieces. |
| Text.IntToString | tools/delete_branch.py:73 | `str(n)` of the issue time is non-empty and consists of ASCII digits and `-` only. |
| Text.ParseIntToString | tools/delete_branch.py:88 | `int(str(n)) == n` for every integer: the issue time written into a token reads back unchanged. |
| Text.ParseNegated | tools/delete_branch.py:88 | A minus sign followed by the digits of a natural number reads as its negation. |
| Text.DigitsValueNatToString | tools/delete_branch.py:88 | The digits of a natural number read back as that number. |
| Text.ParseInt | tools/delete_branch.py:88 | `int(s)` succeeds only on a sign or digit followed by digits. A digit string reads as its decimal value, and `-` followed by digits as its negation. |
| Text.Contains | tools/search_issues.py:171 | A contained text is no longer than the text it is found in. Every prefix is contained. |
| Text.ContainsInfix | tools/search_issues.py:171 | A text is contained in anything that has it between a prefix and a suffix. |
| Text.ContainsWindow | tools/search_issues.py:171 | The substring test `query in body` holds iff some index of the body starts an occurrence of the query. |
| Utf8.Encode | tools/delete_branch.py:74 | `str.encode()` gives at least one octet per character and at most four. |
| Utf8.Decode | tools/delete_branch.py:86 | A decoded string has no more characters than the input has octets. No octets decode to the empty string. |
| Utf8.EncodeScalar | tools/delete_branch.py:74 | One scalar value takes one to four octets. |
| Utf8.DecodeScalar | tools/delete_branch.py:86 | A decoded scalar consumes between one octet and the whole input. |
| Utf8.DecodeEncodeScalar | tools/delete_branch.py:74-86 | The octets of one scalar value decode to it, whatever follows. |
| Utf8.DecodeEncode | tools/delete_branch.py:74-86 | Strict UTF-8 decoding undoes `str.encode()` for every string. |
| Base64.Symbol | tools/delete_branch.py:74 | No six-bit value is written as the pad character `=`. |
| Base64.SymbolValue | tools/delete_branch.py:86 | Every alphabet character decodes to a six-bit value that encodes back to it. |
| Base64.SymbolValueOfSymbol | tools/delete_branch.py:74-86 | The alphabet is a bijection on 0..63. |
| Base64.Encode | tools/delete_branch.py:74 | The encoding of octets has a length that is a multiple of four, and is empty only for no octets. |
| Base64.Decode | tools/delete_branch.py:86 | A text whose length is not a multiple of four does not decode. The empty text decodes to no octets. |
| Base64.LeftoverBitsIgnored | tools/delete_branch.py:86 | `"QR=="` and `"QQ=="` both decode to the single octet 65: unused bits of the last group are not checked. |
| Base64.DecodeEncodeGroup | tools/delete_branch.py:74-86 | A full group of three octets round-trips through its four symbols. |
| Base64.DecodeEncodeOne | tools/delete_branch.py:74-86 | A trailing single octet round-trips through its `==`-padded group. |
| Base64.DecodeLastPair | tools/delete_branch.py:86 | A last group ending in one `=` decodes to its two octets. |
| Base64.DecodeEncodeTwo | tools/delete_branch.py:74-86 | Two trailing octets round-trip through their `=`-padded group. |
| Base64.DecodeEncode | tools/delete_branch.py:74-86 | `b64decode(b64encode(b)) == b` for every octet sequence. |
| ConfirmationToken.Mint | tools/delete_branch.py:73-74 | A minted token is never empty, so returning it always counts as a supplied token. |
| ConfirmationToken.Open | tools/delete_branch.py:85-88 | A token that opens has exactly the arity's number of fields before the issue time. |
| ConfirmationToken.Check | tools/delete_branch.py:85-94 | A fresh verdict carries exactly the expected number of fields. |
| ConfirmationToken.OpenMint | tools/delete_branch.py:73-88 | Opening a minted token gives back its fields and time iff no field contains `:`. Otherwise it does not open. |
| ConfirmationToken.CheckMint | tools/delete_branch.py:73-94 | A minted token's verdict is unreadable if a field has `:`, stale after 300 seconds, and fresh with the minted fields otherwise. |
| ConfirmationToken.ExpiryBoundary | tools/delete_branch.py:14 | A token is accepted exactly 300 seconds after its issue time and refused one second later (`>` is strict). |
| DeleteBranch.DeleteBranchTool | tools/delete_branch.py:56-133 | A branch is deleted only if all of these hold: the caller is authenticated; a non-empty token was supplied; the repository resolves; the token opens as exactly `[branch, repo]`; the token is not expired. The only call issued is that branch's ref deletion. |
| DeleteBranch.DeniedFirst | middleware/github/GithubAuthMiddleware.py:86-103 | An unauthenticated caller gets the recorded error (default "User is not authenticated."), whatever the other arguments. |
| DeleteBranch.MissingRepoSecond | tools/delete_branch.py:65-66 | Without a truthy argument or header repository, the answer is the missing-repo error, whatever the token. |
| DeleteBranch.MintWithoutToken | tools/delete_branch.py:71-82 | A missing or empty token mints `branch:repo:now` and asks for confirmation with action `confirm_deletion`. Nothing is deleted. The token reads back as those values when they are `:`-free. |
| DeleteBranch.ConfirmRoundTrip | tools/delete_branch.py:71-130 | Confirming the same request with its own token deletes the branch iff neither field has `:` and at most 300 seconds passed. A `:` gives the invalid-token error. A late confirmation gives the expired error. |
| DeleteBranch.MintedVerdict | tools/delete_branch.py:73-91 | The verdict on a token minted for a branch and a repository, as a function of `:`-freedom and elapsed time. |
| DeleteBranch.JudgedByVerdict | tools/delete_branch.py:85-115 | Past authentication and repository resolution, a token counts only through its verdict. Unreadable gives the invalid-token error and stale gives the expired error. Fresh with `[branch, repo]` deletes that branch. Any other fresh fields give a mismatch with both parameter sets. |
| DeleteBranch.ExpiredBeforeMismatch | tools/delete_branch.py:91-94 | Any readable token older than 300 seconds is expired, even when its fields differ from the request. |
| DeleteBranch.MismatchDetails | tools/delete_branch.py:97-112 | A readable, fresh token for another branch or repository is refused. The details hold the token's and the request's branch and repository. |
| DeleteBranch.UnreadableToken | tools/delete_branch.py:113-115 | A token that does not decode, split into three, or end in an integer gives the invalid-token error. |
| DeleteBranch.WrongBranch | tools/delete_branch.py:97-112 | A token minted for one branch and shown with another branch of the same repository is refused with both names. |
| DeleteBranch.FeatureBranchScenario | tests/test_branch_tools.py:26-50 | Asking to delete `feat` then confirming with the returned token deletes it. Presenting the same token for `other` is a mismatch. |
| DeleteRepository.DeleteRepositoryTool | tools/delete_repository.py:60-126 | A repository is deleted only if the caller is authenticated, a token was supplied, it opens as exactly `[repo]` and it is not expired. The only call is that repository's deletion. |
| DeleteRepository.DeniedFirst | tools/delete_repository.py:51-53 | An unauthenticated caller gets the recorded error or the default text, whatever the other arguments. |
| DeleteRepository.MissingRepoSecond | tools/delete_repository.py:60-61 | Without a truthy repository, the answer is the missing-repo error. |
| DeleteRepository.MintWithoutToken | tools/delete_repository.py:66-77 | No token: `repo:now` is minted and confirmation is asked for. Nothing is deleted. |
| DeleteRepository.ConfirmRoundTrip | tools/delete_repository.py:66-123 | Confirming with its own token deletes the repository iff its name has no `:` and at most 300 seconds passed. Otherwise the answer is the invalid-token or the expired error. |
| DeleteRepository.MintedVerdict | tools/delete_repository.py:68-86 | The verdict on a token minted for a repository. |
| DeleteRepository.ExpiredBeforeMismatch | tools/delete_repository.py:86-89 | Expiry is decided before the name is compared. |
| DeleteRepository.MismatchDetails | tools/delete_repository.py:92-105 | A fresh token for another repository is refused with both names in the details. |
| DeleteRepository.UnreadableToken | tools/delete_repository.py:106-108 | A token that does not decode, split into two, or end in an integer is invalid. |
| DeleteRepository.TeardownScenario | tests/conftest.py:46-59 | Asking to delete `user/name` then confirming with the returned token yields "Repository 'user/name' deleted successfully." |
| DeleteIssueComment.Report | tools/delete_issue_comment.py:134-158 | The success message comes exactly on status 204. Statuses 404, 403, 400 and 401 give their fixed error texts. Any other status gives "GitHub API error: <status>" with the body, or "No message" when the body is empty. A request exception gives "Request failed: <reason>". |
| DeleteIssueComment.DeleteIssueCommentTool | tools/delete_issue_comment.py:78-158 | A comment is deleted only if all of these hold: the caller is authenticated; a token was supplied; it opens into three fields; its ID field reads as the integer ID; its repository field equals the argument; it is not expired. The only call is that comment's deletion. |
| DeleteIssueComment.DeniedFirst | tools/delete_issue_comment.py:78-80 | An unauthenticated caller is refused first. |
| DeleteIssueComment.HeaderRepoIgnored | tools/delete_issue_comment.py:18-21 | The header repository plays no part: the repository is a required argument, with no fallback. |
| DeleteIssueComment.MintWithoutToken | tools/delete_issue_comment.py:85-93 | No token: `comment_id:repo:now` is minted and confirmation is asked for. |
| DeleteIssueComment.IdFieldFree | tools/delete_issue_comment.py:86 | The decimal text of an ID never contains `:`. |
| DeleteIssueComment.ConfirmRoundTrip | tools/delete_issue_comment.py:85-158 | Confirming with its own token deletes the comment iff the repository has no `:` and at most 300 seconds passed. |
| DeleteIssueComment.ConfirmVerdict | tools/delete_issue_comment.py:86-106 | The verdict on a minted comment token. Its ID field reads back as the ID. |
| DeleteIssueComment.ExpiredBeforeMismatch | tools/delete_issue_comment.py:101-104 | Expiry is decided before the ID field is read as an integer. |
| DeleteIssueComment.MismatchDetails | tools/delete_issue_comment.py:106-119 | A fresh token whose ID or repository differs is refused. The details carry the token's ID as text and the requested ID as an integer. |
| DeleteIssueComment.UnreadableToken | tools/delete_issue_comment.py:121-123 | A token that does not open, or whose fresh ID field is not an integer, is invalid. |
| DeleteIssueComment.ParseSignedAndPadded | tools/delete_issue_comment.py:106 | `int("0123") == 123` and `int("+7") == 7`. |
| DeleteIssueComment.NumericIdComparison | tools/delete_issue_comment.py:106 | The ID is compared as an integer. A token written with `0123` or `+7` authorises deleting comment 123 or 7. |
| DeleteIssueComment.DeleteCommentScenario | tests/test_issues_tools.py:243-261 | Asking, then confirming with the returned token, reports "Comment deleted successfully." once the remote answers 204. |
| DeleteFiles.FilesGate | tools/delete_files.py:66-134 | An unauthenticated caller is denied. An authenticated caller without a resolvable repository gets the missing-repo error. A confirmation is asked for iff the caller is authenticated, the repository resolves and no token was supplied. |
| DeleteFiles.Compare | tools/delete_files.py:110-131 | The answer is authorised or a mismatch. It is authorised iff the token's repository and branch equal the request's and its comma-split paths form the request's set. The target is then the request's own path list. |
| DeleteFiles.AuthorizedOnlyWithFreshToken | tools/delete_files.py:66-134 | Files are authorised only if all of these hold: the caller is authenticated; a token was supplied; the repository resolves; a branch is given; the token opens into four fields naming that repository and branch; its comma-split path set equals the request's; it is not expired. What is deleted is the request's own list. |
| DeleteFiles.FileOutcome | tools/delete_files.py:137-174 | Each entry names its path. It reports deletion iff the SHA lookup on the branch, made after the earlier deletions, succeeded and the DELETE with that SHA completed. A failed lookup or a failed DELETE is reported as "Request failed: <reason>". |
| DeleteFiles.Removed | tools/delete_files.py:137-174 | The paths deleted after a prefix of the list are among that prefix's paths. |
| DeleteFiles.DeleteEach | tools/delete_files.py:137-174 | The loop yields one entry per requested path, in order. Each entry is taken once the paths before it have been handled, with the deletions they made. |
| DeleteFiles.DeleteFilesTool | tools/delete_files.py:66-179 | A refusal of the gate is passed on unchanged. Otherwise the request's own path list is deleted, and the answer is exactly its list of per-path entries. |
| DeleteFiles.RemovedGrows | tools/delete_files.py:137-174 | The set of deleted paths only grows as the loop goes on. |
| DeleteFiles.RepeatedPathFails | tools/delete_files.py:137-174 | A path listed twice is deleted at most once. Once an earlier entry for the path reports deletion and the remote no longer finds deleted files, the later lookup fails and its entry is "Request failed: <reason>". |
| DeleteFiles.ReadableFields | tools/delete_files.py:84-99 | The four token fields are `:`-free iff no path, nor the repository, nor the branch text contains `:`. |
| DeleteFiles.ListedSetRoundTrip | tools/delete_files.py:84-113 | The paths read back from a token form the request's set iff the list is non-empty and no path has a comma. |
| DeleteFiles.EmptyListRefused | tools/delete_files.py:110-114 | With any token, a request with no paths is never authorised (an empty join splits back as `[""]`). |
| DeleteFiles.ListedNonempty | tools/delete_files.py:113 | Splitting any token field gives a non-empty set. |
| DeleteFiles.CommaNotListed | tools/delete_files.py:113 | A path with a comma is never among the comma-split names. |
| DeleteFiles.CommaPathRefused | tools/delete_files.py:110-114 | With any token, a request naming a path with a comma is never authorised. |
| DeleteFiles.MissingBranchRefused | tools/delete_files.py:84-112 | With an explicit `None` branch, no token can authorise: the token holds the text `None`. |
| DeleteFiles.DeniedFirst | tools/delete_files.py:67-69 | An unauthenticated caller is refused first. |
| DeleteFiles.MissingRepoSecond | tools/delete_files.py:76-77 | Without a truthy repository, the answer is the missing-repo error. |
| DeleteFiles.MintWithoutToken | tools/delete_files.py:82-93 | No token: `paths:repo:branch:now` is minted and confirmation is asked for. A readable token opens as those fields. |
| DeleteFiles.ConfirmRoundTrip | tools/delete_files.py:82-134 | Confirming the same request: a field with `:` gives the invalid-token error, and a late token gives the expired error. Otherwise the request is authorised iff the list is non-empty, comma-free and the branch is given. In the remaining case the answer is a mismatch. |
| DeleteFiles.Replay | tools/delete_files.py:82-114 | A token minted for one path list and shown with another is judged by comparing the minted fields with the new request. |
| DeleteFiles.MintedVerdict | tools/delete_files.py:84-107 | The verdict on a token minted for a request. |
| DeleteFiles.PathOrderIgnored | tools/delete_files.py:113 | A token minted for a list confirms any reordering or repetition with the same set. Then the request's list is what is deleted. |
| DeleteFiles.CompareMinted | tools/delete_files.py:110-131 | The comparison is authorised iff the comma-split token set equals the request's set and the branch is given. Otherwise it is a mismatch with both parameter sets. |
| DeleteFiles.CommaPathAliasing | tools/delete_files.py:84-113 | A token minted for the single path `a,b` authorises deleting the two files `a` and `b`. |
| DeleteFiles.CommaPairSplit | tools/delete_files.py:84-113 | `"a,b"` joined and split on commas is `["a", "b"]`. |
| DeleteFiles.ExpiredBeforeMismatch | tools/delete_files.py:104-107 | Expiry is decided before any field is compared. |
| DeleteFiles.UnreadableToken | tools/delete_files.py:132-134 | A token that does not open into four fields is invalid. |
| DeleteFiles.SingleFileScenario | tests/test_files_tools.py:394-430 | One file on the default branch `main`: asking, then confirming, deletes it and reports "File deleted successfully." for that path. |
| ListFiles.FilterTree | tools/list_files.py:91-97 | The loop lists exactly `Selected`: the blob paths under the folders, in tree order. |
| ListFiles.SelectedAppend | tools/list_files.py:91-97 | The filter distributes over concatenation, so tree order is kept. |
| ListFiles.SelectedMembers | tools/list_files.py:91-97 | A path is listed iff some tree entry is a blob with that path under a folder. |
| ListFiles.SelectedLength | tools/list_files.py:91-97 | No more paths are listed than the tree has entries. |
| ListFiles.FolderEdgeCases | tools/list_files.py:94-96 | An empty folder list keeps nothing. The folder `""` keeps every blob, as no folder list does. |
| ListFiles.Selected | tools/list_files.py:91-97 | Every listed path lies under the folders. |
| ListFiles.ChooseBranch | tools/list_files.py:70-78 | A truthy branch argument is used as given. Otherwise a non-200 branch fetch gives the API error with its text, an empty branch list gives the index failure, and otherwise the first listed branch is used. |
| ListFiles.Listing | tools/list_files.py:48-100 | Files are listed only for an authenticated caller whose repository resolves, and each lies under the folders. An unauthenticated caller gets the recorded error or the default text. A missing repository gives the missing-repo error. |
| ListFiles.ListFilesTool | tools/list_files.py:48-100 | The method answers `Listing`: authentication error, missing repo, API error on a non-200 branch or tree fetch, the empty-branch-list failure, or the filtered files. |
| ListFiles.ListedAreKeptBlobs | tools/list_files.py:81-97 | Every listed path is a blob of the tree fetched for the chosen branch, under the folders, and every such path is listed. |
| ListFiles.GivenBranchSkipsLookup | tools/list_files.py:71 | With a truthy branch the branch list is never consulted. |
| ListFiles.EmptyBranchList | tools/list_files.py:78 | Without a branch, an empty branch list ends the request with the index failure. |
| Issues.BuildFilterQuery | tools/get_issues.py:92-100 | The qualifier-by-qualifier builder yields `FilterQuery`: `repo:<repo>`, then ` state:`, ` labels:`, ` assignee:`, ` milestone:` for each truthy filter, in that order. |
| Issues.FilterQuery | tools/get_issues.py:92-100 | Every query starts with the repository qualifier `repo:<repo>`. |
| Issues.QualifiersInQuery | tools/get_issues.py:93-100 | Each truthy filter's qualifier (` state:`, ` labels:`, ` assignee:`, ` milestone:` with its value) occurs in the query. |
| Issues.UnfilteredQuery | tools/get_issues.py:93-100 | Without truthy filters, the query is the repository qualifier alone. |
| Issues.EmptyFilterIsMissing | tools/get_issues.py:93-100 | An empty filter value builds the same query as a missing one. |
| GetIssues.IssueList | tools/get_issues.py:131-142 | One summary per item, in order. Each copies the item's id, title, `html_url` as url, state, dates and comment count, with no messages. |
| GetIssues.GetIssuesTool | tools/get_issues.py:78-153 | Covers each case: denied, missing repo, "Request failed: …" on a request exception, the decode error on a non-JSON body, and otherwise the reshaped items (none when `items` is absent). `total_count` is always the number of issues returned. |
| SearchIssues.BuildQuery | tools/search_issues.py:103-113 | The query is the filter query, then ` <query>` when the term is truthy. |
| SearchIssues.SearchQuery | tools/search_issues.py:103-113 | Every search query starts with the repository qualifier. |
| SearchIssues.SearchQueryExtendsFilterQuery | tools/search_issues.py:103-113 | The filter query is a prefix of the search query. They are equal without a term. With a term, the rest is exactly ` <query>`, so the term occurs in the query. |
| SearchIssues.MatchingComments | tools/search_issues.py:163-172 | No more matches than comments, and none without a truthy term. Every match contains the term and is marked `matched_in: message`. |
| SearchIssues.MatchingAppend | tools/search_issues.py:163-172 | The matches of two comment lists in a row are the matches of the first, then those of the second: comment order is kept, and a comment matches once per occurrence in the list. |
| SearchIssues.MatchingSingle | tools/search_issues.py:163-172 | One comment gives exactly one match if its body contains the term, and none otherwise. |
| SearchIssues.MatchingMembers | tools/search_issues.py:163-172 | A match is reported iff some comment's body contains the truthy term, and it carries that comment's id, body and url. |
| SearchIssues.Summarize | tools/search_issues.py:146-175 | The summary copies the item's seven fields. `messages` is present iff comments were searched and at least one matched, and then holds exactly the matches. |
| SearchIssues.NoTermNoMessages | tools/search_issues.py:163-175 | Without comment search, or without a term, no `messages` key is added. |
| SearchIssues.PlainSearchIsGetIssues | tools/search_issues.py:144-177 | Without comment search or a term, every item is reshaped exactly as `get_issues` reshapes it. |
| SearchIssues.SummarizeIssues | tools/search_issues.py:144-177 | The loop yields one summary per item, in order. |
| SearchIssues.SearchIssuesTool | tools/search_issues.py:89-188 | Covers each case: denied, missing repo, request failure, decode error, and otherwise one summary per item, in order. `total_count` is the number of issues returned. |

## Left out

- HTTP, JSON encoding and logging are not modelled. Each remote call is a function-typed parameter: `remote`, `lookup`, `remove`, `fetchBranches`, `fetchTree`, `search`, `fetchComments`. A tool's answer is a datatype, not a JSON string.
- The clock is a parameter `now` in whole seconds. The source subtracts the truncated issue time from the fractional `time.time()`. Its expiry boundary therefore falls within a second, not on a whole second as in the model.
- `base64.b64decode` without `validate=True` also discards characters outside the alphabet before decoding. The model accepts only the strict alphabet and padding. As in Python, non-zero leftover bits in the last group are ignored (`"QR=="` decodes like `"QQ=="`). Lenient variants of a minted token with foreign characters are not covered.
- `int()` also accepts surrounding whitespace, `_` between digits and non-ASCII digits. The model reads an optional sign and ASCII digits only.
- Strings are sequences of Unicode scalar values. A lone surrogate, which `str.encode()` rejects, is not represented.
- Credentials, the middleware's token handling and its global state are outside the model. `Session` carries only what the tools read: authentication, recorded error and header repository.
- `delete_issue_comment` returns a dictionary rather than a JSON string. The body of a non-204 status is kept as text: `response.json()` and its possible decode error are not modelled.
- `DeleteFiles.DeleteEach`: the remote's state is represented only by the set of paths this request has already deleted, passed to `lookup`. Changes made by other clients between the requests are not modelled.
- `DeleteFiles.FileOutcome`: a SHA lookup answer without a `sha` key raises outside the handler. The model assumes the key is present.
- `ListFiles.ChooseBranch`: the source documents the fallback as the repository's default branch (tools/list_files.py:27, 38). The code takes the first branch of the branch list (tools/list_files.py:78), which the model follows.
- `ListFiles.ListFilesTool`: connection errors on the branch or tree fetch are uncaught exceptions in the source. They are not modelled, and neither is a missing `name` key.
- `ListFiles.ListFilesTool`: the authentication error returns the JSON string produced by `check_access` nested inside another JSON object. The model returns the denial itself.
- `search_comments` is a boolean in the model. The source treats `None` like `False`.
- The comments fetch of `search_issues` calls `raise_for_status()` outside any handler. A failing comments request aborts the whole tool in the source. The model's `fetchComments` always answers.
- Missing JSON fields in search items or comments (a `KeyError` in the source) are not modelled.
- The confirmation prompt of `delete_files` renders the path list with Python's `repr`. The model writes each path in single quotes without `repr`'s escaping.
