/**
 * The decision rules of the workflow client: finding a workflow by project
 * and workflow name, finding a session by id, deciding whether a finished
 * session failed, and resolving which workflow a run request names. The
 * workflow and session lists the platform returns are passed in as values.
 */
module Workflow {
  import opened Wrappers

  /** An identifier as a caller passes it: an integer or a string. */
  datatype Ident = IntId(n: int) | StrId(s: string)

  /** A registered workflow: its id, its name and the name of its project. */
  datatype WorkflowInfo = WorkflowInfo(id: Ident, name: string, projectName: string)

  /** The last attempt of a session; `success` is None when the record holds null. */
  datatype Attempt = Attempt(success: Option<bool>)

  /** A workflow session: its id (a string in the platform's records) and its last attempt. */
  datatype Session = Session(id: string, lastAttempt: Attempt)

  datatype WorkflowError =
    | MissingIdentifier            // neither `_id` nor `names` was given
    | MalformedNames               // `names` has no dot separating project and workflow
    | SessionNotFound              // the session lookup found nothing to inspect
    | WorkflowFailed(session: Session)  // the session's last attempt did not succeed

  // ---------------------------------------------------------------------------
  // First match of a filter

  /** The position of the first element of `xs` that satisfies `p`, if any. */
  function FirstMatch<T>(xs: seq<T>, p: T -> bool): (r: Option<nat>)
    ensures r.None? <==> forall i :: 0 <= i < |xs| ==> !p(xs[i])
    ensures r.Some? ==> r.value < |xs| && p(xs[r.value]) && forall i :: 0 <= i < r.value ==> !p(xs[i])
    decreases |xs|
  {
    if xs == [] then None
    else if p(xs[0]) then Some(0)
    else
      match FirstMatch(xs[1..], p)
      case None => None
      case Some(i) => Some(i + 1)
  }

  // ---------------------------------------------------------------------------
  // Rendering an identifier as text

  function Digit(d: nat): char
    requires d < 10
  {
    "0123456789"[d]
  }

  function DecimalDigits(n: nat): string
    decreases n
  {
    if n < 10 then [Digit(n)] else DecimalDigits(n / 10) + [Digit(n % 10)]
  }

  /** The identifier as `str` renders it: a string as is, an integer in decimal. */
  function Str(id: Ident): string
  {
    match id
    case StrId(s) => s
    case IntId(n) => if n < 0 then "-" + DecimalDigits(-n) else DecimalDigits(n)
  }

  // ---------------------------------------------------------------------------
  // Lookups

  predicate SessionHasId(s: Session, key: string)
  {
    s.id == key
  }

  /**
   * The first session whose id equals the text of `sessionId`, or None when
   * no session has it.
   */
  function GetSessionInfo(sessions: seq<Session>, sessionId: Ident): (r: Option<Session>)
    ensures r.None? <==> forall i :: 0 <= i < |sessions| ==> sessions[i].id != Str(sessionId)
    ensures r.Some? ==> exists i :: (0 <= i < |sessions| && sessions[i] == r.value && r.value.id == Str(sessionId)
      && forall k :: 0 <= k < i ==> sessions[k].id != Str(sessionId))
  {
    var key := Str(sessionId);
    match FirstMatch(sessions, s => SessionHasId(s, key))
    case None => None
    case Some(i) => Some(sessions[i])
  }

  predicate Named(wf: WorkflowInfo, projectName: string, workflowName: string)
  {
    wf.name == workflowName && wf.projectName == projectName
  }

  /**
   * The id of the first workflow whose name and project name both match, or
   * None when no workflow matches.
   */
  function GetWfidByName(workflows: seq<WorkflowInfo>, projectName: string, workflowName: string): (r: Option<Ident>)
    ensures r.None? <==> forall i :: 0 <= i < |workflows| ==> !Named(workflows[i], projectName, workflowName)
    ensures r.Some? ==> exists i :: (0 <= i < |workflows| && workflows[i].id == r.value
      && Named(workflows[i], projectName, workflowName)
      && forall k :: 0 <= k < i ==> !Named(workflows[k], projectName, workflowName))
  {
    match FirstMatch(workflows, wf => Named(wf, projectName, workflowName))
    case None => None
    case Some(i) => Some(workflows[i].id)
  }

  /**
   * The failure check of a session: it fails when no session has the id, and
   * raises the workflow failure exactly when the session's last attempt is
   * anything other than a success of exactly true (false or null alike).
   */
  function CheckFailed(sessions: seq<Session>, sessionId: Ident): (r: Result<(), WorkflowError>)
    ensures r == Err(SessionNotFound) <==> forall i :: 0 <= i < |sessions| ==> sessions[i].id != Str(sessionId)
    ensures r.Err? && r.error.WorkflowFailed? <==>
      GetSessionInfo(sessions, sessionId).Some? && GetSessionInfo(sessions, sessionId).value.lastAttempt.success != Some(true)
    ensures r.Err? && r.error.WorkflowFailed? ==> Some(r.error.session) == GetSessionInfo(sessions, sessionId)
    ensures r.Ok? <==>
      GetSessionInfo(sessions, sessionId).Some? && GetSessionInfo(sessions, sessionId).value.lastAttempt.success == Some(true)
    ensures r.Err? ==> r.error.SessionNotFound? || r.error.WorkflowFailed?
    ensures r.Ok? ==> exists i :: (0 <= i < |sessions| && sessions[i].id == Str(sessionId)
      && sessions[i].lastAttempt.success == Some(true))
  {
    match GetSessionInfo(sessions, sessionId)
    case None => Err(SessionNotFound)
    case Some(session) =>
      if session.lastAttempt.success != Some(true) then Err(WorkflowFailed(session)) else Ok(())
  }

  // ---------------------------------------------------------------------------
  // Splitting `names`

  /** The text split at every `sep`, as the language's `split` with an explicit separator does. */
  function Split(s: string, sep: char): (parts: seq<string>)
    ensures |parts| >= 1
    decreases |s|
  {
    if s == [] then [""]
    else
      var rest := Split(s[1..], sep);
      if s[0] == sep then [""] + rest else [[s[0]] + rest[0]] + rest[1..]
  }

  /** The parts joined back with `sep` between them. */
  function Join(parts: seq<string>, sep: char): string
    requires |parts| >= 1
    decreases |parts|
  {
    if |parts| == 1 then parts[0] else parts[0] + [sep] + Join(parts[1..], sep)
  }

  /**
   * Splitting is undone by joining, no part contains the separator, and there
   * are at least two parts exactly when the text contains the separator.
   */
  lemma {:induction false} SplitJoin(s: string, sep: char)
    ensures Join(Split(s, sep), sep) == s
    ensures forall i :: 0 <= i < |Split(s, sep)| ==> sep !in Split(s, sep)[i]
    ensures |Split(s, sep)| >= 2 <==> sep in s
    decreases |s|
  {
    if s != [] {
      var rest := Split(s[1..], sep);
      SplitJoin(s[1..], sep);
      assert s == [s[0]] + s[1..];
      if s[0] == sep {
        assert ([""] + rest)[1..] == rest;
      } else {
        var parts := [[s[0]] + rest[0]] + rest[1..];
        if |rest| > 1 {
          assert parts[1..] == rest[1..];
          assert Join(rest, sep) == rest[0] + [sep] + Join(rest[1..], sep);
        }
        forall i | 1 <= i < |parts|
          ensures sep !in parts[i]
        {
          assert parts[i] == rest[i];
        }
      }
    }
  }

  /** `_id` and `names` count as given when they are present and not zero or empty. */
  predicate IdGiven(id: Option<Ident>)
  {
    match id
    case None => false
    case Some(IntId(n)) => n != 0
    case Some(StrId(s)) => s != ""
  }

  predicate NamesGiven(names: Option<string>)
  {
    names.Some? && names.value != ""
  }

  /**
   * Which workflow a run request names. Without `_id` or `names` it is an
   * error; `names` must hold a dot, and its first two dot-separated parts are
   * the project and workflow names looked up in `workflows`; when `names` is
   * given its lookup decides, whatever `_id` says, even when the lookup finds
   * nothing; otherwise `_id` is used.
   */
  function ResolveWorkflowId(id: Option<Ident>, names: Option<string>, workflows: seq<WorkflowInfo>)
    : (r: Result<Option<Ident>, WorkflowError>)
    ensures r == Err(MissingIdentifier) <==> !IdGiven(id) && !NamesGiven(names)
    ensures r == Err(MalformedNames) <==> NamesGiven(names) && '.' !in names.value
    ensures IdGiven(id) && !NamesGiven(names) ==> r == Ok(id)
    ensures NamesGiven(names) && '.' in names.value ==>
      var parts := Split(names.value, '.');
      |parts| >= 2 && r == Ok(GetWfidByName(workflows, parts[0], parts[1]))
  {
    if !IdGiven(id) && !NamesGiven(names) then Err(MissingIdentifier)
    else if NamesGiven(names) then
      var parts := Split(names.value, '.');
      SplitJoin(names.value, '.');
      if |parts| < 2 then Err(MalformedNames)
      else Ok(GetWfidByName(workflows, parts[0], parts[1]))
    else Ok(id)
  }

  /** When `names` is given, `_id` makes no difference to the resolved workflow. */
  lemma NamesOverrideId(id: Option<Ident>, names: Option<string>, workflows: seq<WorkflowInfo>)
    requires NamesGiven(names)
    ensures ResolveWorkflowId(id, names, workflows) == ResolveWorkflowId(None, names, workflows)
  {
  }

  /**
   * The project and workflow names are the text before the first dot and the
   * text between the first dot and the next one (or the end); what follows is
   * ignored.
   */
  lemma NameParts(names: string)
    requires '.' in names
    ensures var parts := Split(names, '.');
      && |parts| >= 2
      && '.' !in parts[0] && '.' !in parts[1]
      && |parts[0]| + 1 + |parts[1]| <= |names|
      && names[..|parts[0]| + 1 + |parts[1]|] == parts[0] + "." + parts[1]
      && (|names| == |parts[0]| + 1 + |parts[1]| || names[|parts[0]| + 1 + |parts[1]|] == '.')
  {
    var parts := Split(names, '.');
    SplitJoin(names, '.');
    assert Join(parts, '.') == parts[0] + "." + Join(parts[1..], '.');
    assert parts[1..][0] == parts[1];
    if |parts| > 2 {
      assert Join(parts[1..], '.') == parts[1] + "." + Join(parts[2..], '.');
    }
  }
}
