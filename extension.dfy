/**
 * The base class of the bot's extensions (`Extension`): four coerced
 * fields, the `addReply` capability handed to commands, and the message
 * handler that subclasses override. The logger is the one extension whose
 * handler does something; it is told apart by `kind`.
 */
module Extensions {
  import opened Wrappers
  import opened JsValues
  import opened Messages
  import Logger

  /**
   * What one `addReply` call does to the channel, in order: delete the
   * original message, post the reply, later delete the reply after the
   * configured interval, or write a caught error to the console.
   */
  datatype Effect = DeleteOriginal | PostReply(text: Text) | DeleteReplyAfter(interval: JsValue) | ErrorLogged

  /** `this.config.utility.interval`, or `None` when reading it throws. */
  function Interval(config: JsValue): Option<JsValue> {
    Read(config, ["utility", "interval"])
  }

  /**
   * The effects of `addReply(message, text, deleteMessages)` for an
   * extension whose configuration is `config`, when posting the reply
   * succeeds (`posted`) or fails. An error inside the promise chain, a
   * failed post or an interval read that throws, is caught and logged.
   */
  function ReplyEffects(config: JsValue, text: Text, deleteMessages: bool, posted: bool): (r: seq<Effect>)
    ensures PostReply(text) in r
    ensures forall i, j :: 0 <= i < |r| && 0 <= j < |r| && r[i].PostReply? && r[j].PostReply? ==> i == j
    ensures DeleteOriginal in r <==> deleteMessages
    ensures deleteMessages ==> r[0] == DeleteOriginal
    ensures !deleteMessages ==> r[0] == PostReply(text) && |r| <= 2
    ensures forall j :: 0 <= j < |r| && r[j].DeleteReplyAfter? ==>
      j > 0 && r[j - 1] == PostReply(text) && Some(r[j].interval) == Interval(config)
    ensures deleteMessages && posted && Interval(config).Some? ==>
      DeleteReplyAfter(Interval(config).value) in r
    ensures !(deleteMessages && posted && Interval(config).Some?) ==>
      forall j :: 0 <= j < |r| ==> !r[j].DeleteReplyAfter?
    ensures ErrorLogged in r <==> !posted || (deleteMessages && Interval(config).None?)
  {
    var interval := Interval(config);
    if !deleteMessages then
      if posted then [PostReply(text)] else [PostReply(text), ErrorLogged]
    else if !posted || interval.None? then
      [DeleteOriginal, PostReply(text), ErrorLogged]
    else
      [DeleteOriginal, PostReply(text), DeleteReplyAfter(interval.value)]
  }

  /** The kinds of extension: one whose handler does nothing, and the verify-channel logger. */
  datatype ExtensionKind = Plain | VerifyLogger

  /**
   * An extension. The fields are the private fields behind the getters,
   * which return them unchanged; every write goes through a setter.
   */
  class Extension {
    const kind: ExtensionKind
    var name: JsValue
    var loaded: bool
    var config: JsValue
    var lang: JsValue

    /** What the setters guarantee of the stored values. */
    predicate Valid()
      reads this
    {
      (name.Str? || name.StringObject?) && IsObject(config) && IsObject(lang)
    }

    /** `new Extension(name, loaded, config, lang)`: every argument goes through its setter. */
    constructor (kind: ExtensionKind, name: JsValue, loaded: JsValue, config: JsValue, lang: JsValue)
      ensures this.kind == kind
      ensures this.name == CoerceName(name) && this.loaded == CoerceLoaded(loaded)
      ensures this.config == CoerceObject(config) && this.lang == CoerceObject(lang)
      ensures Valid()
    {
      this.kind := kind;
      new;
      SetName(name);
      SetLoaded(loaded);
      SetConfig(config);
      SetLang(lang);
    }

    /** `set name`: a string is kept, anything else becomes `""`. */
    method SetName(name: JsValue)
      modifies this`name
      ensures this.name == CoerceName(name)
    {
      this.name := CoerceName(name);
    }

    /** `set loaded`: a boolean is kept, anything else becomes `false`. */
    method SetLoaded(loaded: JsValue)
      modifies this`loaded
      ensures this.loaded == CoerceLoaded(loaded)
    {
      this.loaded := CoerceLoaded(loaded);
    }

    /** `set config`: a plain object is kept, anything else becomes `{}`. */
    method SetConfig(config: JsValue)
      modifies this`config
      ensures this.config == CoerceObject(config)
    {
      this.config := CoerceObject(config);
    }

    /** `set lang`: a plain object is kept, anything else becomes `{}`. */
    method SetLang(lang: JsValue)
      modifies this`lang
      ensures this.lang == CoerceObject(lang)
    {
      this.lang := CoerceObject(lang);
    }

    /**
     * `addReply(message, text, deleteMessages)`: the effects, step by
     * step, given whether posting the reply succeeds.
     */
    method AddReply(text: Text, deleteMessages: bool, posted: bool) returns (effects: seq<Effect>)
      ensures effects == ReplyEffects(config, text, deleteMessages, posted)
    {
      effects := [];
      if deleteMessages {
        effects := effects + [DeleteOriginal];
      }
      effects := effects + [PostReply(text)];
      if !posted {
        effects := effects + [ErrorLogged];
      } else if deleteMessages {
        var interval := Interval(config);
        if interval.Some? {
          effects := effects + [DeleteReplyAfter(interval.value)];
        } else {
          effects := effects + [ErrorLogged];
        }
      }
    }

    /** `onMessage`: nothing for a plain extension; the logger's decision for the logger. */
    method OnMessage(message: Message, settings: Settings) returns (actions: seq<Action>)
      requires kind == VerifyLogger ==> Describes(config, settings)
      ensures kind == Plain ==> actions == []
      ensures kind == VerifyLogger ==> actions == Logger.Actions(settings, message)
    {
      if kind == VerifyLogger {
        actions := Logger.Actions(settings, message);
      } else {
        actions := [];
      }
    }
  }
}
