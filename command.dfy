/**
 * The base class of the bot's commands (`Command`) and the commands the
 * bot ships: the two `ping`s, `verify` and `about`. A command is told
 * apart by `kind`; `execute` hands over to that command's decision
 * procedure.
 */
module Commands {
  import opened Wrappers
  import opened JsValues
  import opened Messages
  import Ping
  import Verify
  import About

  /** The command classes: the base class, whose `execute` is empty, and its subclasses. */
  datatype CommandKind = Base | PingCommand | VerifyCommand | AboutCommand

  /**
   * What a command learns from outside the bot while it runs: the two
   * wiki lookups of `verify`, the user query of `about`, and the texts of
   * `about`'s language object.
   */
  datatype Inputs = Inputs(
    userInfo: Verify.UserInfo,
    masthead: Verify.Masthead,
    aboutData: About.AboutData,
    aboutLang: About.AboutLang)

  /**
   * What `execute(message, args, logReply)` does, for each kind of command:
   * nothing for the base class; every other command calls `logReply`
   * exactly once, as its last action, unless an exception escapes first.
   */
  function Run(kind: CommandKind, s: Settings, m: Message, args: seq<string>, inputs: Inputs): (r: seq<Action>)
    ensures r == [] <==> kind == Base
    ensures kind != Base ==> r == [Threw] || (Replies(r) == 1 && r[|r| - 1].Reply?)
  {
    var r := match kind
      case Base => []
      case PingCommand => Ping.Actions(s, m, args)
      case VerifyCommand => Verify.Actions(s, m, args, inputs.userInfo, inputs.masthead)
      case AboutCommand => About.Actions(args, inputs.aboutData, s.groups, inputs.aboutLang);
    if r == [] || r == [Threw] then r
    else NoReplies(r[..|r| - 1]); r
  }

  /** A list of actions with no `addReply` call in it counts no replies. */
  lemma {:induction false} NoReplies(actions: seq<Action>)
    requires forall j :: 0 <= j < |actions| ==> !actions[j].Reply?
    ensures Replies(actions) == 0
  {
    if actions != [] {
      NoReplies(actions[..|actions| - 1]);
    }
  }

  /**
   * Every command other than the base class answers with exactly one call
   * of `logReply`, made last, unless an exception escapes first.
   */
  lemma OneReply(kind: CommandKind, s: Settings, m: Message, args: seq<string>, inputs: Inputs)
    requires kind != Base
    ensures var r := Run(kind, s, m, args, inputs);
      r == [Threw] || (Replies(r) == 1 && r[|r| - 1].Reply?)
  {
  }

  /**
   * A command. The fields are the private fields behind the getters,
   * which return them unchanged; every write goes through a setter.
   */
  class Command {
    const kind: CommandKind
    var name: JsValue
    var loaded: bool
    var config: JsValue
    var lang: JsValue

    /** What the setters guarantee of the stored values. */
    predicate Valid()
      reads this
    {
      (name.Str? || name.StringObject?) && IsObject(config) && IsObject(lang)
    }

    /** `new Command(name, loaded, config, lang)`: every argument goes through its setter. */
    constructor (kind: CommandKind, name: JsValue, loaded: JsValue, config: JsValue, lang: JsValue)
      ensures this.kind == kind
      ensures this.name == CoerceName(name) && this.loaded == CoerceLoaded(loaded)
      ensures this.config == CoerceObject(config) && this.lang == CoerceObject(lang)
      ensures Valid()
    {
      this.kind := kind;
      new;
      SetName(name);
      SetLoaded(loaded);
      SetConfig(config);
      SetLang(lang);
    }

    /** `set name`: a string is kept, anything else becomes `""`. */
    method SetName(name: JsValue)
      modifies this`name
      ensures this.name == CoerceName(name)
    {
      this.name := CoerceName(name);
    }

    /** `set loaded`: a boolean is kept, anything else becomes `false`. */
    method SetLoaded(loaded: JsValue)
      modifies this`loaded
      ensures this.loaded == CoerceLoaded(loaded)
    {
      this.loaded := CoerceLoaded(loaded);
    }

    /** `set config`: a plain object is kept, anything else becomes `{}`. */
    method SetConfig(config: JsValue)
      modifies this`config
      ensures this.config == CoerceObject(config)
    {
      this.config := CoerceObject(config);
    }

    /** `set lang`: a plain object is kept, anything else becomes `{}`. */
    method SetLang(lang: JsValue)
      modifies this`lang
      ensures this.lang == CoerceObject(lang)
    {
      this.lang := CoerceObject(lang);
    }

    /**
     * `execute(message, args, logReply)`: the command's actions, reading
     * its configuration through `s`. Replies name entries of this
     * command's `lang`.
     */
    method Execute(message: Message, args: seq<string>, s: Settings, inputs: Inputs) returns (actions: seq<Action>)
      requires Describes(config, s)
      ensures actions == Run(kind, s, message, args, inputs)
      ensures kind != Base ==> actions == [Threw] || Replies(actions) == 1
    {
      actions := Run(kind, s, message, args, inputs);
      if kind != Base {
        OneReply(kind, s, message, args, inputs);
      }
    }
  }
}
