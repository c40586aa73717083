/**
 * What the bot's handlers see of a Discord message, what they do in answer,
 * and the typed view of `config.json` they read.
 */
module Messages {
  import opened Wrappers
  import opened JsValues

  /**
   * A Discord message as the handlers read it: the author's tag and bot
   * flag, the id of the channel it was posted in, its text, and the ids of
   * the roles its author already holds.
   */
  datatype Message = Message(
    authorTag: string,
    authorIsBot: bool,
    channel: string,
    content: string,
    roles: set<string>)

  /**
   * The text of a reply: an entry of the replying component's language
   * object, named by its path (`["error", "misplaced"]` is
   * `this.lang.error.misplaced`), or a text the handler assembled.
   */
  datatype Text = Lang(path: seq<string>) | Literal(s: string)

  /**
   * One thing a handler does, in the order it does it.
   * `Reply` is one call of the bound `addReply` (what such a call does to
   * the channel is `Extensions.ReplyEffects`); `AddRole` adds a role to the
   * message's author; `Send` posts a line to a channel; `LogError` is a
   * caught error written to the console; `Threw` is an exception that
   * escapes the handler (a `TypeError`, or a rejected lookup that is
   * awaited without a catch), after which nothing more happens.
   */
  datatype Action =
    | Reply(text: Text, deleteMessages: bool)
    | AddRole(role: string)
    | Send(channel: string, line: string)
    | LogError
    | Threw

  /** The reply the handlers make by default: `logReply(message, text)`, which expires. */
  function ExpiringReply(path: seq<string>): Action {
    Reply(Lang(path), true)
  }

  /**
   * The entries of `config.json` the handlers read, as typed values.
   * `names` lists `config.commands.names` in `Object.keys` order as
   * (command, invocation word) pairs; `groups` maps a wiki user group to
   * its display label (`config.groups`).
   */
  datatype Settings = Settings(
    prefix: string,
    names: seq<(string, string)>,
    verifyChannel: string,
    logsChannel: string,
    moderatorChannel: string,
    directoryChannel: string,
    userRole: string,
    moderatorRole: string,
    groups: map<string, string>)

  /** No command is listed twice in `names`, as in a JSON object. */
  predicate DistinctKeys(names: seq<(string, string)>) {
    forall i, j :: 0 <= i < j < |names| ==> names[i].0 != names[j].0
  }

  /** The object `names` describes: each command mapped to its invocation word. */
  function NamesObject(names: seq<(string, string)>): map<string, JsValue> {
    if names == [] then map[]
    else NamesObject(names[..|names| - 1])[names[|names| - 1].0 := Str(names[|names| - 1].1)]
  }

  /** The object `groups` describes. */
  function GroupsObject(groups: map<string, string>): map<string, JsValue> {
    map g | g in groups :: Str(groups[g])
  }

  /**
   * The entries of `config.json` the handlers read, each as its path and
   * the value `s` gives it.
   */
  function Entries(s: Settings): seq<(seq<string>, JsValue)> {
    [ (["commands", "prefix"], Str(s.prefix)),
      (["commands", "names"], Obj(NamesObject(s.names))),
      (["channels", "verify"], Str(s.verifyChannel)),
      (["channels", "logs"], Str(s.logsChannel)),
      (["channels", "moderator"], Str(s.moderatorChannel)),
      (["channels", "directory"], Str(s.directoryChannel)),
      (["roles", "user"], Str(s.userRole)),
      (["roles", "moderator"], Str(s.moderatorRole)),
      (["groups"], Obj(GroupsObject(s.groups))) ]
  }

  /** Every entry of `entries` is present in `config` with its value. */
  predicate Holds(config: JsValue, entries: seq<(seq<string>, JsValue)>)
    decreases |entries|
  {
    entries == [] || (Read(config, entries[0].0) == Some(entries[0].1) && Holds(config, entries[1..]))
  }

  /**
   * `s` is the typed view of the stored configuration `config`: each entry
   * the handlers read is present and holds the value `s` gives it, and
   * `config.utility.debug` can be read.
   */
  predicate Describes(config: JsValue, s: Settings) {
    && DistinctKeys(s.names)
    && Holds(config, Entries(s))
    && Read(config, ["utility", "debug"]).Some?
  }

  /** The number of `addReply` calls among `actions`. */
  function Replies(actions: seq<Action>): nat {
    if actions == [] then 0
    else Replies(actions[..|actions| - 1]) + (if actions[|actions| - 1].Reply? then 1 else 0)
  }
}
