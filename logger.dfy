/**
 * The passive verify-channel logger (`Logger#onMessage`): every message a
 * person posts in the verify channel is mirrored to the moderators' log
 * channel, and one that is not a verify command gets an "unrelated" reply.
 */
module Logger {
  import opened Strings
  import opened Messages

  /**
   * `commands.names.verify` inside a template: the invocation word listed
   * for the `verify` command, or `"undefined"` when there is none, which
   * is what string concatenation makes of a missing property.
   */
  function VerifyWord(names: seq<(string, string)>): (r: string)
    ensures (forall i :: 0 <= i < |names| ==> names[i].0 != "verify") ==> r == "undefined"
    ensures (exists i :: 0 <= i < |names| && names[i].0 == "verify") ==>
      exists i :: 0 <= i < |names| && names[i].0 == "verify" && r == names[i].1
  {
    if names == [] then "undefined"
    else if names[|names| - 1].0 == "verify" then names[|names| - 1].1
    else VerifyWord(names[..|names| - 1])
  }

  /** The line mirrored to the logs channel: `"<tag>:\n> <content>"`. */
  function LogLine(m: Message): string {
    m.authorTag + ":\n> " + m.content
  }

  /** What the logger does with one message. */
  function Actions(s: Settings, m: Message): (r: seq<Action>)
    ensures r == [] <==> m.authorIsBot || m.channel != s.verifyChannel
    ensures r != [] ==> r[0] == Send(s.logsChannel, LogLine(m)) && |r| <= 2
    ensures |r| == 2 <==> r != [] && !StartsWith(m.content, s.prefix + VerifyWord(s.names))
    ensures |r| == 2 ==> r[1] == ExpiringReply(["logger", "error", "unrelated"])
  {
    if !m.authorIsBot && m.channel == s.verifyChannel then
      [Send(s.logsChannel, LogLine(m))]
      + (if !StartsWith(m.content, s.prefix + VerifyWord(s.names))
         then [ExpiringReply(["logger", "error", "unrelated"])]
         else [])
    else []
  }

  /**
   * The prefix test is literal: content that merely begins with the
   * verify command, such as `!verifyx`, is logged and gets no reply.
   */
  lemma LongerTokenNotUnrelated()
    ensures
      var s := Settings("!", [("verify", "verify")], "v", "logs", "mod", "dir", "user", "chatmod", map[]);
      Actions(s, Message("Ann#0001", false, "v", "!verifyx", {})) == [Send("logs", "Ann#0001:\n> !verifyx")]
  {
    var s := Settings("!", [("verify", "verify")], "v", "logs", "mod", "dir", "user", "chatmod", map[]);
    var m := Message("Ann#0001", false, "v", "!verifyx", {});
    assert LogLine(m) == "Ann#0001:\n> !verifyx";
    assert VerifyWord(s.names) == "verify";
    assert StartsWith("!verifyx", s.prefix + VerifyWord(s.names)) by {
      assert "!verifyx"[..7] == "!verify";
    }
  }
}
