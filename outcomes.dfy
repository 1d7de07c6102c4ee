/**
 * The results the delete tools return and the remote mutations they issue.
 * A tool issues a mutation only in the `Authorized` case; every other case is
 * an answer that leaves the remote repository untouched.
 */
module Outcomes {
  import opened Wrappers
  import opened Access

  /** A value in the `details` of a mismatch answer. */
  datatype Value = Str(s: string) | Int(n: int) | Null | Strs(items: seq<string>)

  /** An ordered dictionary of request parameters, as the source writes `token_params` and `request_params`. */
  type Params = seq<(string, Value)>

  const ConfirmAction := "confirm_deletion"
  /** The closing sentence of every confirmation prompt. */
  const ConfirmHint := "Once confirmed, use the given confirmation_token with the same request parameters."
  const MissingRepoError := "Missing required parameters: repo"
  const ExpiredError := "Confirmation token has expired. Please request a new token."
  const MismatchError := "Invalid confirmation token. Parameters do not match, please request a new token."
  const InvalidTokenError := "Invalid confirmation token."

  /** The answer of a delete tool; `X` is what an authorised request went on to do. */
  datatype Outcome<X> =
    | Denied(denial: Denial)
    | MissingRepo
    | AwaitingConfirmation(message: string, token: string)
    | Expired
    | Mismatch(tokenParams: Params, requestParams: Params)
    | InvalidToken
    | Authorized(effect: X)
  {
    /** The `action` key of the answer, present only when a confirmation is asked for. */
    function Action(): Option<string> {
      if AwaitingConfirmation? then Some(ConfirmAction) else None
    }

    /** The `error` key the gate itself puts in the answer; an authorised request has none of its own. */
    function Error(): Option<string> {
      match this
      case Denied(d) => Some(d.error)
      case MissingRepo => Some(MissingRepoError)
      case AwaitingConfirmation(_, _) => None
      case Expired => Some(ExpiredError)
      case Mismatch(_, _) => Some(MismatchError)
      case InvalidToken => Some(InvalidTokenError)
      case Authorized(_) => None
    }

    /** The same refusal at another effect type. */
    function Refused<Y>(): Outcome<Y>
      requires !Authorized?
    {
      match this
      case Denied(d) => Denied(d)
      case MissingRepo => MissingRepo
      case AwaitingConfirmation(m, t) => AwaitingConfirmation(m, t)
      case Expired => Expired
      case Mismatch(tp, rp) => Mismatch(tp, rp)
      case InvalidToken => InvalidToken
    }
  }

  /** The remote deletions the tools can issue. */
  datatype Mutation =
    | DeleteRef(repo: string, branch: string)
    | DeleteRepo(repo: string)
    | DeleteComment(repo: string, commentId: int)

  /** What the remote executor reports: done, or a request exception (including a 4xx or 5xx status) and its text. */
  datatype Reply = Completed | Raised(reason: string)

  /** The JSON answer after the remote call: a `message`, an `error`, or an `error` with the remote's `message`. */
  datatype Response = Message(text: string) | Error(text: string) | ErrorWithBody(text: string, body: string)

  /** An issued mutation together with the answer built from the executor's report. */
  datatype Dispatch = Dispatch(call: Mutation, response: Response)

  function RequestFailed(reason: string): string {
    "Request failed: " + reason
  }
}
