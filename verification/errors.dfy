/**
 * The CLI's error type and its mapping to process exit codes
 * (`src/error.rs`). Errors that wrap a library error (I/O, HTTP, TOML,
 * JSON) carry that error's text as a plain string.
 */
module Errors {
  import opened Wrappers
  import opened Text

  /** `ApiErrorResponse`: the body n8n returns on a failed request. */
  datatype ApiErrorResponse = ApiErrorResponse(code: nat, message: string, hint: Option<string>)

  const HintSeparator: string := "\n\nHint: "

  /**
   * `ApiErrorResponse::user_message`: the message, followed by the hint
   * after a blank line when there is one.
   */
  function UserMessage(e: ApiErrorResponse): (r: string)
    ensures |r| >= |e.message| && r[..|e.message|] == e.message
    ensures e.hint.None? <==> r == e.message
    ensures e.hint.Some? ==> r[|e.message|..] == HintSeparator + e.hint.value
  {
    match e.hint
    case None => e.message
    case Some(h) =>
      var r := e.message + HintSeparator + h;
      assert r[..|e.message|] == e.message;
      assert r[|e.message|..] == HintSeparator + h;
      r
  }

  /**
   * A user message splits back into message and hint at the first hint
   * separator, provided the message itself holds none.
   */
  function SplitUserMessage(s: string): (r: (string, Option<string>))
    decreases |s|
  {
    if |s| < |HintSeparator| then (s, None)
    else if s[..|HintSeparator|] == HintSeparator then ("", Some(s[|HintSeparator|..]))
    else
      var (m, h) := SplitUserMessage(s[1..]);
      ([s[0]] + m, h)
  }

  /** A short non-empty message cannot make the separator appear earlier than where it was put. */
  lemma SeparatorNotEarly(m: string, h: string)
    requires 0 < |m| < |HintSeparator|
    ensures (m + HintSeparator + h)[..|HintSeparator|] != HintSeparator
  {
    var s := m + HintSeparator + h;
    var k := if |m| == 1 then 2 else |m|;
    assert s[k] == '\n' && HintSeparator[k] != '\n';
    assert s[..|HintSeparator|][k] != HintSeparator[k];
  }

  lemma {:induction false} SplitUserMessageRoundTrip(e: ApiErrorResponse)
    requires !Contains(e.message, HintSeparator)
    ensures SplitUserMessage(UserMessage(e)) == (e.message, e.hint)
    decreases |e.message|
  {
    var s := UserMessage(e);
    if e.message == [] {
      match e.hint
      case None =>
      case Some(h) =>
        assert s == HintSeparator + h;
        assert s[..|HintSeparator|] == HintSeparator;
    } else {
      var tail := e.(message := e.message[1..]);
      SplitUserMessageRoundTrip(tail);
      assert s[1..] == UserMessage(tail);
      if |s| >= |HintSeparator| && s[..|HintSeparator|] == HintSeparator {
        if |e.message| < |HintSeparator| {
          SeparatorNotEarly(e.message, e.hint.value);
        }
      } else if |s| >= |HintSeparator| {
        assert e.message == [s[0]] + tail.message;
      } else {
        assert e.hint.None?;
      }
    }
  }

  /** `N8nError`. */
  datatype CliError =
    | Config(detail: string)
    | InvalidApiKey
    | MissingApiKey
    | MissingBaseUrl
    | ProfileNotFound(profile: string)
    | ConfigFileRead(detail: string)
    | ConfigFileParse(detail: string)
    | HttpClient(detail: string)
    | Request(detail: string)
    | ConnectionFailed(url: string, message: string)
    | Api(response: ApiErrorResponse)
    | Deserialize(detail: string)
    | InvalidInput(detail: string)
    | Serialize(detail: string)
    | WorkflowNotFound(id: string)
    | ExecutionNotFound(id: string)
    | CredentialNotFound(id: string)
    | FileRead(path: string, detail: string)
    | FileWrite(path: string, detail: string)
    | StdinRead(detail: string)
    | Cancelled
    | NodeNotFound(node: string)
    | ConnectionNotFound(from: string, to: string)
    | ValidationFailed(report: string)
    | EditorFailed(detail: string)
    | NoChanges

  /** Exit codes from BSD `sysexits.h`, plus the shell's code for an interrupt. */
  const EX_DATAERR: int := 65
  const EX_UNAVAILABLE: int := 69
  const EX_IOERR: int := 74
  const EX_NOPERM: int := 77
  const EX_CONFIG: int := 78
  const INTERRUPTED: int := 130

  /** Configuration problems: bad or missing settings, an unknown profile, an unreadable file. */
  predicate IsConfigError(e: CliError) {
    e.Config? || e.ProfileNotFound? || e.ConfigFileRead? || e.ConfigFileParse? || e.MissingBaseUrl?
  }

  /** Something the user asked for does not exist or cannot be reached. */
  predicate IsUnavailable(e: CliError) {
    || (e.Api? && e.response.code == 404)
    || e.WorkflowNotFound? || e.ExecutionNotFound? || e.CredentialNotFound?
    || e.ConnectionFailed? || e.Request? || e.HttpClient?
    || e.NodeNotFound? || e.ConnectionNotFound?
  }

  /** `N8nError::exit_code`, checked arm by arm in the source's order. */
  function ExitCode(e: CliError): (r: int)
    ensures r in {0, 1, EX_DATAERR, EX_UNAVAILABLE, EX_IOERR, EX_NOPERM, EX_CONFIG, INTERRUPTED}
    ensures r == 0 <==> e.NoChanges?
    ensures r == INTERRUPTED <==> e.Cancelled?
    ensures r == EX_CONFIG <==> IsConfigError(e)
    ensures r == EX_UNAVAILABLE <==> IsUnavailable(e)
    ensures r == EX_NOPERM <==>
      e.InvalidApiKey? || e.MissingApiKey? || (e.Api? && e.response.code in {401, 403})
    ensures r == EX_IOERR <==> e.FileRead? || e.FileWrite? || e.StdinRead? || e.EditorFailed?
    ensures r == EX_DATAERR <==> e.InvalidInput? || e.Serialize? || e.Deserialize? || e.ValidationFailed?
    ensures r == 1 <==> e.Api? && e.response.code !in {401, 403, 404}
  {
    match e
    case Config(_) => EX_CONFIG
    case ProfileNotFound(_) => EX_CONFIG
    case ConfigFileRead(_) => EX_CONFIG
    case ConfigFileParse(_) => EX_CONFIG
    case MissingBaseUrl => EX_CONFIG
    case InvalidApiKey => EX_NOPERM
    case MissingApiKey => EX_NOPERM
    case Api(resp) =>
      if resp.code == 401 || resp.code == 403 then EX_NOPERM
      else if resp.code == 404 then EX_UNAVAILABLE
      else 1
    case WorkflowNotFound(_) => EX_UNAVAILABLE
    case ExecutionNotFound(_) => EX_UNAVAILABLE
    case CredentialNotFound(_) => EX_UNAVAILABLE
    case ConnectionFailed(_, _) => EX_UNAVAILABLE
    case Request(_) => EX_UNAVAILABLE
    case HttpClient(_) => EX_UNAVAILABLE
    case FileRead(_, _) => EX_IOERR
    case FileWrite(_, _) => EX_IOERR
    case StdinRead(_) => EX_IOERR
    case InvalidInput(_) => EX_DATAERR
    case Serialize(_) => EX_DATAERR
    case Deserialize(_) => EX_DATAERR
    case Cancelled => INTERRUPTED
    case NodeNotFound(_) => EX_UNAVAILABLE
    case ConnectionNotFound(_, _) => EX_UNAVAILABLE
    case ValidationFailed(_) => EX_DATAERR
    case EditorFailed(_) => EX_IOERR
    case NoChanges => 0
  }

  /** The `Display` text of each error; an API error shows the response's user message. */
  function Describe(e: CliError): string {
    match e
    case Config(d) => "Configuration error: " + d
    case InvalidApiKey => "Invalid API key format"
    case MissingApiKey => "API key not configured. Set N8N_API_KEY environment variable or use --api-key"
    case MissingBaseUrl => "Base URL not configured. Set N8N_BASE_URL environment variable or use --url"
    case ProfileNotFound(p) => "Profile '" + p + "' not found in configuration"
    case ConfigFileRead(d) => "Failed to read config file: " + d
    case ConfigFileParse(d) => "Failed to parse config file: " + d
    case HttpClient(d) => "HTTP client error: " + d
    case Request(d) => "Request failed: " + d
    case ConnectionFailed(url, m) =>
      "Connection failed to " + url + ": " + m + "\n\nHint: Check that n8n is running and accessible"
    case Api(resp) => UserMessage(resp)
    case Deserialize(d) => "Failed to parse response: " + d
    case InvalidInput(d) => "Failed to parse input: " + d
    case Serialize(d) => "Failed to serialize data: " + d
    case WorkflowNotFound(id) => "Workflow '" + id + "' not found"
    case ExecutionNotFound(id) => "Execution '" + id + "' not found"
    case CredentialNotFound(id) => "Credential '" + id + "' not found"
    case FileRead(p, d) => "Failed to read file '" + p + "': " + d
    case FileWrite(p, d) => "Failed to write file '" + p + "': " + d
    case StdinRead(d) => "Failed to read from stdin: " + d
    case Cancelled => "Operation cancelled by user"
    case NodeNotFound(n) => "Node '" + n + "' not found in workflow"
    case ConnectionNotFound(f, t) => "Connection not found: " + f + " -> " + t
    case ValidationFailed(r) => "Validation failed:\n" + r
    case EditorFailed(d) => "Editor failed: " + d
    case NoChanges => "No changes detected"
  }
}
