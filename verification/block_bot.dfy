/**
 The per-event decision of the block bot's message handler and the
 delete-and-re-raise step that acts on it.

 The handler's ambient inputs are parameters here: the configuration, a
 `render` function standing for Python's `str(data)`, and an `api` function
 standing for the result the remote `chat.delete` call would return.
 */
module BlockBot {
  import opened Events
  import opened Substrings

  /** The one outcome the handler chooses for an event. */
  datatype Action =
    | ProtocolError(msg: string)
    | Delete(cmd: DeleteCommand)
    | NoOp

  /** What the caller observes once the handler returns or raises. */
  datatype Outcome = Completed | Raised(error: SlackApiError)

  /** The remote calls the handler made, in order, and how it finished. */
  datatype Handled = Handled(calls: seq<DeleteCommand>, outcome: Outcome)

  /** The message an error frame is reported with: its nested `msg`, or the whole event rendered. */
  ghost predicate ReportsFrame(e: Event, render: Event -> string, msg: string) {
    if e.error.Some? && e.error.value.msg.Some?
    then msg == e.error.value.msg.value
    else msg == render(e)
  }

  /** The moderation policy, stated with the reference substring relation. */
  ghost predicate Violates(e: Event, cfg: Config) {
    && e.kind == Some("message")
    && e.channel == Some(cfg.channel)
    && e.user.Some?
    && e.user.value != ""
    && Occurs(e.user.value, cfg.restricted)
  }

  /** `user and user in RESTRICTED_USERS`: a present, non-empty user id that occurs inside the setting. */
  function IsRestricted(user: Option<string>, restricted: string): (r: bool)
    ensures r <==> user.Some? && user.value != "" && Occurs(user.value, restricted)
  {
    match user
    case None => false
    case Some(u) => |u| > 0 && Contains(u, restricted)
  }

  /** The classification made by the handler, before any remote call. */
  function Decide(e: Event, cfg: Config, render: Event -> string): (a: Action)
    // An error frame is always reported, never acted on, whatever else it carries.
    ensures a.ProtocolError? <==> e.kind == Some("error")
    ensures a.ProtocolError? ==> ReportsFrame(e, render, a.msg)
    // A delete is produced exactly when the policy is violated.
    ensures a.Delete? <==> Violates(e, cfg)
    ensures a.Delete? ==> a.cmd.channel == cfg.channel && e.channel == Some(a.cmd.channel)
    ensures a.Delete? ==> a.cmd.ts == e.ts
    // Anything else is ignored.
    ensures a.NoOp? <==> e.kind != Some("error") && !Violates(e, cfg)
  {
    if e.kind == Some("error") then
      var msg := match e.error
        case Some(ErrorFrame(Some(m))) => m
        case _ => render(e);
      ProtocolError(msg)
    else if e.kind == Some("message") && e.channel == Some(cfg.channel) && IsRestricted(e.user, cfg.restricted) then
      Delete(DeleteCommand(cfg.channel, e.ts))
    else
      NoOp
  }

  /** Issue one delete call; on failure the call's own error is raised again, with no retry. */
  function Actuate(cmd: DeleteCommand, api: DeleteCommand -> CallResult): (h: Handled)
    ensures h.calls == [cmd]
    ensures h.outcome.Completed? <==> api(cmd).Ok?
    ensures api(cmd).Err? ==> h.outcome == Raised(api(cmd).error)
  {
    match api(cmd)
    case Ok => Handled([cmd], Completed)
    case Err(err) => Handled([cmd], Raised(err))
  }

  /** The whole handler for one decoded event. */
  function HandleMessage(e: Event, cfg: Config, render: Event -> string, api: DeleteCommand -> CallResult): (h: Handled)
    ensures |h.calls| <= 1
    ensures |h.calls| == 1 <==> Violates(e, cfg)
    ensures |h.calls| == 1 ==> h.calls[0] == DeleteCommand(cfg.channel, e.ts)
    ensures e.kind == Some("error") ==> h.calls == [] && h.outcome.Raised? && ReportsFrame(e, render, h.outcome.error.msg)
    ensures e.kind != Some("error") && !Violates(e, cfg) ==> h == Handled([], Completed)
    ensures Violates(e, cfg) ==> (h.outcome == Completed <==> api(h.calls[0]).Ok?)
    ensures Violates(e, cfg) && api(h.calls[0]).Err? ==> h.outcome == Raised(api(h.calls[0]).error)
  {
    match Decide(e, cfg, render)
    case ProtocolError(msg) => Handled([], Raised(SlackApiError(msg)))
    case Delete(cmd) => Actuate(cmd, api)
    case NoOp => Handled([], Completed)
  }
}
