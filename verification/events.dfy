/**
 The data a moderation bot handles: one decoded real-time event, the bot's
 configuration, the delete command it issues and the result of that call.
 */
module Events {

  /** A field that may be missing from the decoded event (Python's `dict.get` returning `None`). */
  datatype Option<+T> = None | Some(value: T)

  /** The nested `error` mapping of an error frame; `msg` may be missing. */
  datatype ErrorFrame = ErrorFrame(msg: Option<string>)

  /**
   One decoded event. `kind` is the event's `type` key (a reserved word in
   Dafny); every field is `None` when the key is absent, never a sentinel.
   `ts` is an opaque platform token and is never interpreted.
   */
  datatype Event = Event(
    kind: Option<string>,
    channel: Option<string>,
    user: Option<string>,
    ts: Option<string>,
    error: Option<ErrorFrame>
  )

  /**
   The bot's fixed configuration: the one moderated channel (the `CHANNEL`
   setting) and the `RESTRICTED_USERS` setting, a single string.
   */
  datatype Config = Config(channel: string, restricted: string)

  /** Arguments of the `chat.delete` call. */
  datatype DeleteCommand = DeleteCommand(channel: string, ts: Option<string>)

  /** The exception the bot raises, and the one the API wrapper raises on failure. */
  datatype SlackApiError = SlackApiError(msg: string)

  /** What the `chat.delete` call came back with. */
  datatype CallResult = Ok | Err(error: SlackApiError)
}
