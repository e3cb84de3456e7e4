/**
 Properties of the block bot's handler that relate several events or name
 concrete inputs: which fields matter, how loosely the restricted-user test
 matches, and the end-to-end delete scenarios.
 */
module BlockBotProperties {
  import opened Events
  import opened Substrings
  import opened BlockBot

  /**
   An error frame is never acted on, whatever its channel, user and `ts`, and
   it is reported the same way wherever it came from and whoever sent it —
   provided its message does not come from rendering the frame, since the
   rendering includes those fields.
   */
  lemma ErrorFrameIgnoresRouting(e: Event, e': Event, cfg: Config, render: Event -> string, api: DeleteCommand -> CallResult)
    requires e.kind == Some("error")
    requires e' == e.(channel := e'.channel, user := e'.user, ts := e'.ts)
    requires (e.error.Some? && e.error.value.msg.Some?) || render(e) == render(e')
    ensures HandleMessage(e, cfg, render, api) == HandleMessage(e', cfg, render, api)
    ensures HandleMessage(e', cfg, render, api).calls == []
  {
  }

  /**
   Outside error frames only `type`, `channel`, `user` and `ts` decide what
   happens: the `error` field and the rendering of the event play no part.
   */
  lemma OnlyRoutingFieldsMatter(e: Event, e': Event, cfg: Config, render: Event -> string, render': Event -> string, api: DeleteCommand -> CallResult)
    requires e.kind != Some("error")
    requires e' == e.(error := e'.error)
    ensures HandleMessage(e, cfg, render, api) == HandleMessage(e', cfg, render', api)
  {
  }

  /**
   Matching is substring containment: once a user id is restricted, every
   non-empty piece of it is restricted too.
   */
  lemma {:induction false} PartialIdMatches(e: Event, cfg: Config, piece: string, render: Event -> string)
    requires Decide(e, cfg, render).Delete?
    requires piece != [] && Occurs(piece, e.user.value)
    ensures Decide(e.(user := Some(piece)), cfg, render) == Delete(DeleteCommand(cfg.channel, e.ts))
  {
    OccursTransitive(piece, e.user.value, cfg.restricted);
  }

  /** Any non-empty slice of the restricted-users setting is itself a restricted user id. */
  lemma {:induction false} EverySliceIsRestricted(cfg: Config, i: nat, j: nat)
    requires i < j <= |cfg.restricted|
    ensures IsRestricted(Some(cfg.restricted[i..j]), cfg.restricted)
  {
  }

  /** With `RESTRICTED_USERS` set to "U123,U456", the unlisted "U12" and "3,U4" are both deleted. */
  lemma SeparatorDoesNotDelimit()
    ensures IsRestricted(Some("U12"), "U123,U456")
    ensures IsRestricted(Some("3,U4"), "U123,U456")
    ensures !IsRestricted(Some("U7"), "U123,U456")
  {
    MissingCharacterBlocks('7', "U7", "U123,U456");
  }

  /** A restricted message in the moderated channel whose delete fails: one call, same error raised. */
  lemma DeleteThenFailScenario(err: SlackApiError, render: Event -> string)
    ensures var e := Event(Some("message"), Some("C1"), Some("U9"), Some("169000.001"), None);
            var h := HandleMessage(e, Config("C1", "U9"), render, _ => Err(err));
            h == Handled([DeleteCommand("C1", Some("169000.001"))], Raised(err))
  {
  }

  /** The same message posted in another channel causes no call at all. */
  lemma WrongChannelScenario(render: Event -> string, api: DeleteCommand -> CallResult)
    ensures var e := Event(Some("message"), Some("C2"), Some("U9"), Some("1"), None);
            HandleMessage(e, Config("C1", "U9"), render, api) == Handled([], Completed)
  {
  }
}
