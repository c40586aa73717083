/**
 * The `verify` command: a member proves they own a wiki account by
 * showing their Discord tag in the account's profile masthead, and is then
 * given the server's roles. The two HTTP lookups are inputs.
 */
module Verify {
  import opened Wrappers
  import opened Strings
  import opened Messages

  /**
   * `query.users[0]` of the wiki's user query: `userid` and `editcount`
   * when present, and `groups` (`None` when the field is missing).
   */
  datatype WikiUser = WikiUser(userid: Option<int>, editcount: Option<int>, groups: Option<seq<string>>)

  /**
   * The answer to the user query: it threw, or it came back with a truthy
   * `error` field or not, and with `query.users` (`None` when `query` is
   * missing).
   */
  datatype UserInfo = UserInfoThrew | UserInfo(error: bool, users: Option<seq<WikiUser>>)

  /** The answer to the masthead query: it threw, or it came back with or without `value`. */
  datatype Masthead = MastheadThrew | Masthead(value: Option<string>)

  /** The wiki groups whose members get the Chat Moderator role. */
  const ModeratorGroups: seq<string> := ["sysop", "chatmoderator", "threadmoderator"]

  /** Some alternative of `alts` occurs in `s` at index `i`. */
  function MatchAt(s: string, alts: seq<string>, i: int): (r: bool)
    ensures r <==> exists k :: 0 <= k < |alts| && OccursAt(s, alts[k], i)
  {
    if alts == [] then false
    else OccursAt(s, alts[0], i) || MatchAt(s, alts[1..], i)
  }

  /**
   * The search `RegExp.prototype.test` makes for a pattern of literal
   * alternatives, from index `i` on: the alternatives are tried at each
   * index in turn.
   */
  function SearchFrom(s: string, alts: seq<string>, i: nat): (r: bool)
    requires i <= |s|
    ensures r <==> exists j, k :: i <= j <= |s| && 0 <= k < |alts| && OccursAt(s, alts[k], j)
    decreases |s| - i
  {
    MatchAt(s, alts, i) || (i < |s| && SearchFrom(s, alts, i + 1))
  }

  /** A search from the start finds an alternative exactly when `s` contains one. */
  lemma SearchFindsContained(s: string, alts: seq<string>)
    ensures SearchFrom(s, alts, 0) <==> exists k :: 0 <= k < |alts| && Contains(s, alts[k])
  {
    if SearchFrom(s, alts, 0) {
      var j, k :| 0 <= j <= |s| && 0 <= k < |alts| && OccursAt(s, alts[k], j);
      assert Contains(s, alts[k]);
    }
  }

  /**
   * `shouldBeChatModerator`: the space-joined group list contains one of
   * the moderator groups' names as a substring.
   */
  function ShouldBeChatModerator(groups: seq<string>): (r: bool)
    ensures r <==> (Contains(Join(groups, " "), "sysop")
                    || Contains(Join(groups, " "), "chatmoderator")
                    || Contains(Join(groups, " "), "threadmoderator"))
  {
    var joined := Join(groups, " ");
    SearchFindsContained(joined, ModeratorGroups);
    assert ModeratorGroups[0] == "sysop" && ModeratorGroups[1] == "chatmoderator"
        && ModeratorGroups[2] == "threadmoderator";
    SearchFrom(joined, ModeratorGroups, 0)
  }

  /** The line logged to the directory channel: `"<tag> -> User:<wiki name>"`. */
  function DirectoryLine(tag: string, wikiUsername: string): string {
    tag + " -> User:" + wikiUsername
  }

  /** The wiki username queried: the arguments joined with single spaces, then trimmed. */
  function WikiUsername(args: seq<string>): (r: string)
    ensures r == [] || (!IsJsWhitespace(r[0]) && !IsJsWhitespace(r[|r| - 1]))
    ensures |args| == 1 && (forall j :: 0 <= j < |args[0]| ==> !IsJsWhitespace(args[0][j])) ==> r == args[0]
  {
    if |args| == 1 && (forall j :: 0 <= j < |args[0]| ==> !IsJsWhitespace(args[0][j])) then
      TrimUnchanged(args[0]);
      Trim(Join(args, " "))
    else
      Trim(Join(args, " "))
  }

  /**
   * The username is the arguments joined with single spaces, with the
   * whitespace at both ends cut off and nothing else changed.
   */
  lemma WikiUsernameTrims(args: seq<string>)
    ensures exists i :: IsTrimmedSlice(Join(args, " "), WikiUsername(args), i)
  {
    assert WikiUsername(args) == Trim(Join(args, " "));
  }

  /** The reply that ends a successful verification. */
  const Granted: Action := ExpiringReply(["success", "granted"])

  /** The message passes the three guards that need no lookup: right channel, a username, no user role yet. */
  predicate Admissible(s: Settings, m: Message, args: seq<string>) {
    m.channel == s.verifyChannel && args != [] && s.userRole !in m.roles
  }

  /** `users[0]` is there and has a truthy `userid`. */
  predicate Found(users: seq<WikiUser>) {
    users != [] && users[0].userid.Some? && users[0].userid.value != 0
  }

  /** `Verify#execute`, guard by guard. */
  function Actions(s: Settings, m: Message, args: seq<string>, info: UserInfo, masthead: Masthead): (r: seq<Action>)
    ensures |r| >= 1 && (r[|r| - 1].Reply? || r == [Threw])
    ensures forall j :: 0 <= j < |r| - 1 ==> !r[j].Reply?
    ensures m.channel != s.verifyChannel ==> r == [ExpiringReply(["error", "misplaced"])]
    ensures m.channel == s.verifyChannel && args == [] ==> r == [ExpiringReply(["error", "username"])]
    ensures m.channel == s.verifyChannel && args != [] && s.userRole in m.roles ==>
      r == [ExpiringReply(["error", "redundant"])]
    ensures Admissible(s, m, args) && (info.UserInfoThrew? || info.error) ==> r == [ExpiringReply(["error", "server"])]
    ensures Admissible(s, m, args) && info == UserInfo(false, None) ==> r == [Threw]
    ensures Admissible(s, m, args) && info.UserInfo? && !info.error && info.users.Some? && !Found(info.users.value) ==>
      r == [ExpiringReply(["error", "nonexistent"])]
    ensures Admissible(s, m, args) && info.UserInfo? && !info.error && info.users.Some? && Found(info.users.value) ==>
      if info.users.value[0].editcount == Some(0) then r == [ExpiringReply(["error", "edits"])]
      else r == Grant(s, m, args, info.users.value[0], masthead)
    ensures r[|r| - 1] == Granted ==>
      && Admissible(s, m, args)
      && info.UserInfo? && !info.error && info.users.Some? && Found(info.users.value)
      && info.users.value[0].editcount != Some(0)
      && masthead == Masthead(Some(m.authorTag)) && m.authorTag != ""
    ensures (exists j :: 0 <= j < |r| && r[j].AddRole?) ==> r[|r| - 1] == Granted
    ensures r[|r| - 1] == Granted ==>
      && AddRole(s.userRole) in r
      && Send(s.directoryChannel, DirectoryLine(m.authorTag, WikiUsername(args))) in r
  {
    if m.channel != s.verifyChannel then [ExpiringReply(["error", "misplaced"])]
    else if args == [] then [ExpiringReply(["error", "username"])]
    else if s.userRole in m.roles then [ExpiringReply(["error", "redundant"])]
    else
      match info
      case UserInfoThrew => [ExpiringReply(["error", "server"])]
      case UserInfo(error, users) =>
        if error then [ExpiringReply(["error", "server"])]
        else if users.None? then [Threw]
        else if !Found(users.value) then [ExpiringReply(["error", "nonexistent"])]
        else if users.value[0].editcount == Some(0) then [ExpiringReply(["error", "edits"])]
        else Grant(s, m, args, users.value[0], masthead)
  }

  /**
   * From the masthead check on, for a user who exists and has edits: a
   * masthead that could not be read, or has no or an empty `value`, gives
   * `missing`; another tag gives `mismatched`; a user without `groups`
   * makes `shouldBeChatModerator` throw.
   */
  function Grant(s: Settings, m: Message, args: seq<string>, user: WikiUser, masthead: Masthead): (r: seq<Action>)
    ensures |r| >= 1 && (r[|r| - 1].Reply? || r == [Threw])
    ensures forall j :: 0 <= j < |r| - 1 ==> !r[j].Reply?
    ensures masthead.MastheadThrew? || masthead.value.None? || masthead.value == Some("") ==>
      r == [ExpiringReply(["error", "missing"])]
    ensures masthead.Masthead? && masthead.value.Some? && masthead.value.value != "" && masthead.value.value != m.authorTag ==>
      r == [ExpiringReply(["error", "mismatched"])]
    ensures masthead == Masthead(Some(m.authorTag)) && m.authorTag != "" && user.groups.None? ==> r == [Threw]
    ensures r[|r| - 1] == Granted ==> masthead == Masthead(Some(m.authorTag)) && m.authorTag != "" && user.groups.Some?
    ensures (exists j :: 0 <= j < |r| && r[j].AddRole?) ==> r[|r| - 1] == Granted
    ensures r[|r| - 1] == Granted ==>
      && AddRole(s.userRole) in r
      && Send(s.directoryChannel, DirectoryLine(m.authorTag, WikiUsername(args))) in r
  {
    var value := if masthead.MastheadThrew? then None else masthead.value;
    if value.None? || value.value == "" then [ExpiringReply(["error", "missing"])]
    else if value.value != m.authorTag then [ExpiringReply(["error", "mismatched"])]
    else if user.groups.None? then [Threw]
    else Admit(s, m, args, user.groups.value)
  }

  /** The roles, the directory line and the `granted` reply, in that order. */
  function Admit(s: Settings, m: Message, args: seq<string>, groups: seq<string>): (r: seq<Action>)
    ensures |r| >= 3 && r[|r| - 1] == Granted
    ensures forall j :: 0 <= j < |r| - 1 ==> !r[j].Reply?
    ensures AddRole(s.userRole) in r && Send(s.directoryChannel, DirectoryLine(m.authorTag, WikiUsername(args))) in r
    ensures AddRole(s.moderatorRole) in r[..|r| - 3] <==> ShouldBeChatModerator(groups)
  {
    var roles := if ShouldBeChatModerator(groups) then [AddRole(s.moderatorRole)] else [];
    var r := roles + [AddRole(s.userRole), Send(s.directoryChannel, DirectoryLine(m.authorTag, WikiUsername(args))), Granted];
    assert r[..|r| - 3] == roles;
    r
  }

  /**
   * The guards before the lookups: a message in another channel, one
   * without a username, or one from a member who already holds the user
   * role is answered the same whatever the lookups would return.
   */
  lemma EarlyGuardsSkipLookups(s: Settings, m: Message, args: seq<string>,
                               info1: UserInfo, masthead1: Masthead, info2: UserInfo, masthead2: Masthead)
    requires m.channel != s.verifyChannel || args == [] || s.userRole in m.roles
    ensures Actions(s, m, args, info1, masthead1) == Actions(s, m, args, info2, masthead2)
  {
  }

  /**
   * When every guard passes, whatever other users the query returned
   * after the first: the moderator role exactly when the groups call for
   * it, then the user role, the directory line and the `granted` reply.
   */
  lemma GrantedActions(s: Settings, m: Message, args: seq<string>, user: WikiUser, rest: seq<WikiUser>,
                       groups: seq<string>)
    requires Admissible(s, m, args) && m.authorTag != ""
    requires user.userid.Some? && user.userid.value != 0 && user.editcount != Some(0)
    requires user.groups == Some(groups)
    ensures Actions(s, m, args, UserInfo(false, Some([user] + rest)), Masthead(Some(m.authorTag))) ==
      (if ShouldBeChatModerator(groups) then [AddRole(s.moderatorRole)] else [])
      + [AddRole(s.userRole), Send(s.directoryChannel, DirectoryLine(m.authorTag, WikiUsername(args))), Granted]
  {
    assert ([user] + rest)[0] == user;
  }
}
