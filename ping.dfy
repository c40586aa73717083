/**
 * The two `ping` commands (the commander's own and the shared one): a
 * reply whose language key depends only on the channel.
 */
module Ping {
  import opened Messages

  /** The key under `lang.success` the reply uses. */
  function ReplyKey(s: Settings, m: Message): (r: string)
    ensures r == "custom" || r == "default"
    ensures r == "custom" <==> m.channel == s.moderatorChannel
  {
    if m.channel == s.moderatorChannel then "custom" else "default"
  }

  /** `Ping#execute`: exactly one expiring reply; the arguments are never read. */
  function Actions(s: Settings, m: Message, args: seq<string>): (r: seq<Action>)
    ensures |r| == 1 && r[0].Reply? && r[0].deleteMessages
    ensures r[0].text == Lang(["success", ReplyKey(s, m)])
  {
    [ExpiringReply(["success", ReplyKey(s, m)])]
  }

  /** Whatever follows the command word, the reply is the same. */
  lemma ArgsNotConsulted(s: Settings, m: Message, args1: seq<string>, args2: seq<string>)
    ensures Actions(s, m, args1) == Actions(s, m, args2)
  {
  }
}
