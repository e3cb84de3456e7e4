# Block bot moderation decision

A model of the per-event handler of a Slack "block bot": a real-time bot
that deletes every message a restricted user posts in one moderated channel.
For each decoded real-time event the handler does exactly one of three
things:

- an event of type `"error"` is raised as a `SlackApiError` carrying the
  frame's nested `error.msg`, or, when that is missing, a rendering of the
  event (here a function of its decoded fields);
- a `"message"` event in the moderated channel whose `user` is non-empty and
  occurs inside the `RESTRICTED_USERS` setting causes exactly one
  `chat.delete` call with the configured channel and the event's `ts`,
  passed through untouched; if that call fails, its error is raised again
  unchanged, with no second attempt;
- every other event is ignored.

The restricted-user test is Python's `in` on two strings, so it is substring
containment, not membership in a list: with `RESTRICTED_USERS` set to
`"U123,U456"` the ids `"U12"` and even `"3,U4"` are deleted. The model keeps
this behaviour as written.

Files:

- `events.dfy` (`Events`): the decoded event with optional fields, the
  configuration, the delete command, the API error and the call result.
  The event's `type` key is the field `kind`, since `type` is reserved in Dafny.
- `substrings.dfy` (`Substrings`): the reference relation `Occurs` (some
  slice of the string equals the needle) and the executable scan `Contains`,
  proved equal to it.
- `block_bot.dfy` (`BlockBot`): `Decide` classifies an event, `Actuate`
  performs the delete and re-raises its failure, `HandleMessage` composes
  the two and records the calls made.
- `block_bot_properties.dfy` (`BlockBotProperties`): properties relating
  several events, the partial-id behaviour and the end-to-end scenarios.

Inputs the handler reads from its surroundings are parameters: the
configuration (`CHANNEL`, `RESTRICTED_USERS`), a function `render` standing
for Python's `str(data)`, and a function `api` standing for the result the
remote `chat.delete` call returns for a given command.

## Model

| member | source | states |
|---|---|---|
| Substrings.Contains | block_bot.py:43 | Python's `user in RESTRICTED_USERS` on strings holds exactly when the user id equals some contiguous slice of the setting |
| BlockBot.IsRestricted | block_bot.py:42-43 | a user is restricted iff the `user` field is present, non-empty, and occurs as a substring of the setting; an absent or empty user never matches |
| BlockBot.Decide | block_bot.py:37-47 | an event is a protocol error iff its type is `"error"`, with the nested `msg` or else the rendered event as message; a delete is chosen iff the event is a message in the moderated channel from a restricted user, with the configured channel (equal to the event's) and the event's `ts` verbatim; everything else is a no-op |
| BlockBot.Actuate | block_bot.py:46-51 | the delete makes exactly one call with the given command; it completes iff the call succeeds, and a failure is raised again with the same error |
| BlockBot.HandleMessage | block_bot.py:29-51 | at most one remote call per event, made iff the policy is violated and with `{channel, ts}`; an error frame makes no call and raises the frame's message; an ignored event makes no call and raises nothing; a failed delete raises the call's own error |
| BlockBotProperties.ErrorFrameIgnoresRouting | block_bot.py:37-41 | the error check takes precedence: an error frame never reaches the delete, whatever its channel, user and `ts`; two frames differing only in those fields raise the same message when the frame carries `error.msg`, or, without `msg`, when their renderings agree (the rendering includes those fields) |
| BlockBotProperties.OnlyRoutingFieldsMatter | block_bot.py:41-47 | for a non-error event the `error` field and the event's rendering have no influence on the calls made or the outcome |
| BlockBotProperties.PartialIdMatches | block_bot.py:43 | if a message is deleted, the same message from any non-empty piece of that user id is deleted too, with the same command |
| BlockBotProperties.EverySliceIsRestricted | block_bot.py:43 | every non-empty contiguous slice of the restricted-users setting counts as a restricted user |
| BlockBotProperties.SeparatorDoesNotDelimit | block_bot.py:43 | with the setting `"U123,U456"`, the unlisted `"U12"` and `"3,U4"` match while `"U7"` does not |
| BlockBotProperties.DeleteThenFailScenario | block_bot.py:41-51 | a restricted message in the moderated channel whose delete fails yields one call `{C1, 169000.001}` and raises that call's error |
| BlockBotProperties.WrongChannelScenario | block_bot.py:41 | the same restricted message in another channel yields no call and no error |

## Left out

- Loading `.env` and reading `CHANNEL` and `RESTRICTED_USERS` from the environment (block_bot.py:10, 27, 43): environment I/O; both values are the `Config` parameter, always present.
- The `KeyError` raised when `RESTRICTED_USERS` is unset (block_bot.py:43): the setting is read on every event, only after `user` is found non-empty, so in the source a `"message"` in the moderated channel with a non-empty user raises `KeyError` in that case; the model always has the setting and returns `Delete` or `NoOp` there.
- `_unpack_message` (block_bot.py:35): inherited from the `aslack` library, which is not part of this model; the decoded event is the input.
- The `chat.delete` request itself (block_bot.py:47): a network call; only its result, `Ok` or `Err`, is modelled, through the `api` parameter.
- `str(data)` (block_bot.py:39): Python's rendering of the whole unpacked dict; the `render` parameter stands for it but receives only the decoded `Event`, so keys the model does not decode (for example the error mapping's `code`) cannot influence the message. Two `msg`-less error frames differing only in such keys raise the same message in the model and different ones in the source.
- Logging (block_bot.py:36, 45, 50): side effects with no influence on the outcome.
- The `__main__` block (block_bot.py:54-71): token check and exit status 1, logging setup, the asyncio event loop, `from_api_token` and `join_rtm`; process bootstrap and connection handling in the `aslack` library.
- An error frame whose `error` value is not a mapping, which makes the Python code crash with an attribute error: the `error` field is always a record with an optional `msg`.
- A `msg` key holding a non-string value (for example `None`): `msg` is an optional string, absent meaning the key is missing.
- Exceptions other than `SlackApiError` raised by the delete call: they propagate unchanged without the log line, which has the same observable result as the modelled failure.
