/**
 * The commander extension (`Commander`): a registry from command names to
 * command instances, filled from a directory of command modules, and the
 * message handler that parses a command line, looks the command up,
 * loads it on first use and runs it.
 */
module Commanders {
  import opened Wrappers
  import opened JsValues
  import opened Strings
  import opened Messages
  import opened Extensions
  import opened Commands

  /** `file.split(".")[0]`: the name a command module registers under. */
  function CommandName(file: string): string {
    UpToFirst(file, '.')
  }

  /** A command key without a dot is the name of the file `key + ".js"`. */
  lemma {:induction false} CommandNameOfFile(key: string)
    requires '.' !in key
    ensures CommandName(key + ".js") == key
  {
    if key != [] {
      assert (key + ".js")[1..] == key[1..] + ".js";
      assert key[0] in key;
      CommandNameOfFile(key[1..]);
      assert [key[0]] + key[1..] == key;
    } else {
      assert key + ".js" == ".js";
    }
  }

  /**
   * `this.lang.commands[name]` and `this.config.utility.debug` can be
   * evaluated: neither `this.lang.commands` nor `this.config.utility` is
   * `undefined` or `null`. Neither depends on the file loaded; the
   * entry `this.lang.commands[name]` itself is read without a check, and
   * the command constructor stores it through the `null`-safe coercion.
   */
  predicate Readable(config: JsValue, lang: JsValue) {
    && Read(config, ["utility", "debug"]).Some?
    && match Member(lang, "commands") { case None => false case Some(table) => !Nullish(table) }
  }

  /**
   * `loadCommand(file)` runs to its end: the module can be required
   * (`modules` is the command directory, module file to class) and the
   * configuration and language object can be read (`readable`).
   */
  predicate Loads(file: string, modules: map<string, CommandKind>, readable: bool) {
    readable && file in modules
  }

  /**
   * A completed `loadCommand(file)`, seen on the registry as a map from
   * command name to command class: the new command is added only when
   * its name is not taken.
   */
  function Register(kinds: map<string, CommandKind>, file: string, modules: map<string, CommandKind>): (r: map<string, CommandKind>)
    requires file in modules
  {
    var name := CommandName(file);
    if name in kinds then kinds else kinds[name := modules[file]]
  }

  /**
   * A registration adds the file's name, keeps every earlier entry as it
   * was, and registers the file's class only under a name that was free.
   */
  lemma RegisterKeeps(kinds: map<string, CommandKind>, file: string, modules: map<string, CommandKind>)
    requires file in modules
    ensures Register(kinds, file, modules).Keys == kinds.Keys + {CommandName(file)}
    ensures forall k :: k in kinds ==> Register(kinds, file, modules)[k] == kinds[k]
    ensures CommandName(file) !in kinds ==> Register(kinds, file, modules)[CommandName(file)] == modules[file]
  {
  }

  /** Loading the same file twice leaves the registry as the first load left it. */
  lemma RegisterIdempotent(kinds: map<string, CommandKind>, file: string, modules: map<string, CommandKind>)
    requires file in modules
    ensures Register(Register(kinds, file, modules), file, modules) == Register(kinds, file, modules)
  {
  }

  /**
   * The `forEach` of `loadCommandDir` over `files`: each file is loaded
   * in turn, and the first `loadCommand` that throws ends the loop. The
   * result is the registry and whether every call completed.
   */
  function RegisterAll(kinds: map<string, CommandKind>, files: seq<string>, modules: map<string, CommandKind>,
                       readable: bool): (r: (map<string, CommandKind>, bool))
    ensures !readable ==> r == (kinds, files == [])
  {
    if files == [] then (kinds, true)
    else
      var (before, ok) := RegisterAll(kinds, files[..|files| - 1], modules, readable);
      var last := files[|files| - 1];
      if !ok || !Loads(last, modules, readable) then (before, false)
      else (Register(before, last, modules), true)
  }

  /** One more file: the loop so far, then that file's `loadCommand` if nothing has thrown yet. */
  lemma RegisterAllNext(kinds: map<string, CommandKind>, files: seq<string>, i: nat,
                        modules: map<string, CommandKind>, readable: bool)
    requires i < |files|
    ensures var (before, ok) := RegisterAll(kinds, files[..i], modules, readable);
      RegisterAll(kinds, files[..i + 1], modules, readable) ==
        if ok && Loads(files[i], modules, readable) then (Register(before, files[i], modules), true)
        else (before, false)
  {
    assert files[..i + 1][..i] == files[..i];
  }

  /** The loop completes exactly when every file loads. */
  lemma {:induction false} RegisterAllCompletes(kinds: map<string, CommandKind>, files: seq<string>,
                                               modules: map<string, CommandKind>, readable: bool)
    ensures RegisterAll(kinds, files, modules, readable).1 <==>
      forall i :: 0 <= i < |files| ==> Loads(files[i], modules, readable)
  {
    if files != [] {
      var init := files[..|files| - 1];
      RegisterAllCompletes(kinds, init, modules, readable);
      assert forall i :: 0 <= i < |init| ==> init[i] == files[i];
    }
  }

  /** After the loop the registry holds every earlier entry unchanged. */
  lemma {:induction false} RegisterAllKeeps(kinds: map<string, CommandKind>, files: seq<string>,
                                           modules: map<string, CommandKind>, readable: bool)
    ensures var after := RegisterAll(kinds, files, modules, readable).0;
      forall k :: k in kinds ==> k in after && after[k] == kinds[k]
  {
    if files != [] {
      var init := files[..|files| - 1];
      RegisterAllKeeps(kinds, init, modules, readable);
      var (before, ok) := RegisterAll(kinds, init, modules, readable);
      var last := files[|files| - 1];
      if ok && Loads(last, modules, readable) {
        RegisterKeeps(before, last, modules);
      }
    }
  }

  /** Every name the loop adds is the name of a file in the listing. */
  lemma {:induction false} RegisterAllNames(kinds: map<string, CommandKind>, files: seq<string>,
                                           modules: map<string, CommandKind>, readable: bool)
    ensures var after := RegisterAll(kinds, files, modules, readable).0;
      forall k :: k in after && k !in kinds ==> exists i :: 0 <= i < |files| && CommandName(files[i]) == k
  {
    if files != [] {
      var init := files[..|files| - 1];
      RegisterAllNames(kinds, init, modules, readable);
      var (before, ok) := RegisterAll(kinds, init, modules, readable);
      var last := files[|files| - 1];
      if ok && Loads(last, modules, readable) {
        RegisterKeeps(before, last, modules);
      }
      forall k | k in RegisterAll(kinds, files, modules, readable).0 && k !in kinds
        ensures exists i :: 0 <= i < |files| && CommandName(files[i]) == k
      {
        if k in before {
          var i :| 0 <= i < |init| && CommandName(init[i]) == k;
          assert files[i] == init[i];
        } else {
          assert CommandName(files[|files| - 1]) == k;
        }
      }
    }
  }

  /** When the loop completes, every file's name is registered. */
  lemma {:induction false} RegisterAllCovers(kinds: map<string, CommandKind>, files: seq<string>,
                                            modules: map<string, CommandKind>, readable: bool)
    requires RegisterAll(kinds, files, modules, readable).1
    ensures forall i :: 0 <= i < |files| ==> CommandName(files[i]) in RegisterAll(kinds, files, modules, readable).0
  {
    if files != [] {
      var init := files[..|files| - 1];
      RegisterAllCovers(kinds, init, modules, readable);
      var before := RegisterAll(kinds, init, modules, readable).0;
      var last := files[|files| - 1];
      RegisterKeeps(before, last, modules);
      forall i | 0 <= i < |files|
        ensures CommandName(files[i]) in RegisterAll(kinds, files, modules, readable).0
      {
        if i < |init| {
          assert files[i] == init[i];
        }
      }
    }
  }

  /** Once a call has thrown, the rest of the listing is never loaded. */
  lemma {:induction false} FailureStops(kinds: map<string, CommandKind>, files: seq<string>, j: nat,
                                       modules: map<string, CommandKind>, readable: bool)
    requires j <= |files|
    requires !RegisterAll(kinds, files[..j], modules, readable).1
    ensures RegisterAll(kinds, files, modules, readable) == RegisterAll(kinds, files[..j], modules, readable)
    decreases |files|
  {
    if j == |files| {
      assert files[..j] == files;
    } else {
      var init := files[..|files| - 1];
      assert init[..j] == files[..j];
      FailureStops(kinds, init, j, modules, readable);
    }
  }

  /** Running the loop again over the same listing, after it completed, changes nothing. */
  lemma {:induction false} RegisterAllIdempotent(kinds: map<string, CommandKind>, files: seq<string>,
                                                modules: map<string, CommandKind>, readable: bool)
    requires RegisterAll(kinds, files, modules, readable).1
    ensures var after := RegisterAll(kinds, files, modules, readable).0;
      RegisterAll(after, files, modules, readable) == (after, true)
  {
    var after := RegisterAll(kinds, files, modules, readable).0;
    RegisterAllCovers(kinds, files, modules, readable);
    RegisterAllCompletes(kinds, files, modules, readable);
    RegisterAllUnchanged(after, files, modules, readable);
  }

  /** Loading files whose names are all taken leaves the registry as it is. */
  lemma {:induction false} RegisterAllUnchanged(kinds: map<string, CommandKind>, files: seq<string>,
                                               modules: map<string, CommandKind>, readable: bool)
    requires forall i :: 0 <= i < |files| ==> Loads(files[i], modules, readable) && CommandName(files[i]) in kinds
    ensures RegisterAll(kinds, files, modules, readable) == (kinds, true)
  {
    if files != [] {
      RegisterAllUnchanged(kinds, files[..|files| - 1], modules, readable);
    }
  }

  /** The module files `loadCommandDir` loads: the entries ending in ".js", in listing order. */
  function JsFiles(entries: seq<string>): seq<string> {
    KeepEndingWith(entries, ".js")
  }

  /**
   * The command line of a message that starts with `prefix`: the text
   * after the prefix split at runs of spaces; the first token lowercased,
   * and the rest as they are.
   */
  function Parse(content: string, prefix: string): (r: (string, seq<string>))
    requires StartsWith(content, prefix)
    ensures ToLower(r.0) == r.0
    ensures |r.1| == SpaceRuns(content[|prefix|..])
    ensures forall i :: 0 <= i < |r.1| ==> ' ' !in r.1[i]
  {
    var tokens := SplitSpaces(content[|prefix|..]);
    ToLowerIdempotent(tokens[0]);
    SplitSpacesSqueezes(content[|prefix|..]);
    (ToLower(tokens[0]), tokens[1..])
  }

  /**
   * The command word is the first space-delimited token of the text after
   * the prefix, lowercased, and that token followed by the arguments,
   * joined with single spaces, is that text with every run of spaces
   * squeezed to one: the tokens are the text's words, in order, with the
   * empty ones that leading or trailing spaces leave.
   */
  lemma ParseJoin(content: string, prefix: string)
    requires StartsWith(content, prefix)
    ensures var rest := content[|prefix|..]; var t := SplitSpaces(rest);
      && Parse(content, prefix).0 == ToLower(t[0])
      && Join([t[0]] + Parse(content, prefix).1, " ") == Squeeze(rest)
  {
    var rest := content[|prefix|..];
    SplitSpacesSqueezes(rest);
    var t := SplitSpaces(rest);
    assert [t[0]] + t[1..] == t;
  }

  /**
   * A command line written as the prefix, a command word and arguments,
   * all separated by single spaces, parses back into the lowercased word
   * and the arguments.
   */
  lemma ParseCommandLine(prefix: string, word: string, args: seq<string>)
    requires IsWord(word) && forall i :: 0 <= i < |args| ==> IsWord(args[i])
    ensures StartsWith(prefix + Join([word] + args, " "), prefix)
    ensures Parse(prefix + Join([word] + args, " "), prefix) == (ToLower(word), args)
  {
    var line := Join([word] + args, " ");
    var content := prefix + line;
    assert content[..|prefix|] == prefix;
    assert content[|prefix|..] == line;
    var words := [word] + args;
    assert forall i :: 0 <= i < |words| ==> IsWord(words[i]) by {
      forall i | 0 <= i < |words| ensures IsWord(words[i]) {
        if i > 0 {
          assert words[i] == args[i - 1];
        }
      }
    }
    SplitJoinRoundTrip(words);
    assert words[1..] == args;
  }

  /** `Object.keys(names).find(key => names[key] === word)`: the first command invoked by `word`. */
  function FindKey(names: seq<(string, string)>, word: string): (r: Option<string>)
    ensures r.None? <==> forall i :: 0 <= i < |names| ==> names[i].1 != word
    ensures r.Some? ==> exists i :: 0 <= i < |names| && names[i] == (r.value, word)
                                   && forall j :: 0 <= j < i ==> names[j].1 != word
  {
    if names == [] then None
    else if names[0].1 == word then Some(names[0].0)
    else
      var r := FindKey(names[1..], word);
      if r.Some? then
        var i :| 0 <= i < |names| - 1 && names[1..][i] == (r.value, word)
                 && forall j :: 0 <= j < i ==> names[1..][j].1 != word;
        assert names[i + 1] == (r.value, word);
        r
      else r
  }

  /** What `onMessage` decides to do with a message. */
  datatype Step =
    | Ignore
    | Nonexistent
    | LoadFailed
    | Missing
    | Execute(kind: CommandKind, args: seq<string>)

  /** The decision, and the registry afterwards. */
  datatype Outcome = Outcome(step: Step, kinds: map<string, CommandKind>)

  /**
   * `Commander#onMessage` against a registry `kinds`: ignore bots and
   * text without the prefix; reply `nonexistent` to a word no command is
   * invoked by; load the command on first use, logging a load that
   * throws; a command loaded under another name than the key is not
   * found (`Missing`); otherwise run it with the arguments after the
   * command word.
   */
  function Dispatch(kinds: map<string, CommandKind>, s: Settings, m: Message, modules: map<string, CommandKind>,
                    readable: bool): (r: Outcome)
    ensures r.step.Ignore? <==> !StartsWith(m.content, s.prefix) || m.authorIsBot
    ensures r.step.Ignore? || r.step.Nonexistent? ==> r.kinds == kinds
    ensures r.step.Execute? ==>
      StartsWith(m.content, s.prefix) && r.step.args == Parse(m.content, s.prefix).1 && r.step.kind in r.kinds.Values
  {
    if !StartsWith(m.content, s.prefix) || m.authorIsBot then Outcome(Ignore, kinds)
    else
      var (word, args) := Parse(m.content, s.prefix);
      var key := FindKey(s.names, word);
      if key.None? || key.value == "" then Outcome(Nonexistent, kinds)
      else Resolve(kinds, key.value, args, modules, readable)
  }

  /**
   * From the command key on: a registered command runs; otherwise
   * `loadCommand(key + ".js")` is tried first.
   */
  function Resolve(kinds: map<string, CommandKind>, key: string, args: seq<string>, modules: map<string, CommandKind>,
                   readable: bool): (r: Outcome)
    ensures !r.step.Ignore? && !r.step.Nonexistent?
    ensures r.step.LoadFailed? <==> key !in kinds && !Loads(key + ".js", modules, readable)
    ensures r.step.LoadFailed? ==> r.kinds == kinds
    ensures r.step.Execute? ==> key in r.kinds && r.step == Execute(r.kinds[key], args)
    ensures r.step.Missing? ==> key !in r.kinds
  {
    if key in kinds then Outcome(Execute(kinds[key], args), kinds)
    else if !Loads(key + ".js", modules, readable) then Outcome(LoadFailed, kinds)
    else
      var after := Register(kinds, key + ".js", modules);
      if key in after then Outcome(Execute(after[key], args), after)
      else Outcome(Missing, after)
  }

  /**
   * What each decision does: nothing; one expiring `nonexistent` reply
   * from the commander's `lang.client`; the load error on the console;
   * a `TypeError` from calling `execute` on `undefined`; or the command.
   */
  function StepActions(step: Step, s: Settings, m: Message, inputs: Inputs): (r: seq<Action>)
    ensures step.Ignore? ==> r == []
    ensures !step.Ignore? && !step.Execute? ==> |r| == 1 && (r[0].Reply? <==> step.Nonexistent?)
    ensures step.Execute? && step.kind != Base ==> r == [Threw] || (Replies(r) == 1 && r[|r| - 1].Reply?)
  {
    match step
    case Ignore => []
    case Nonexistent => [ExpiringReply(["client", "error", "nonexistent"])]
    case LoadFailed => [LogError]
    case Missing => [Threw]
    case Execute(kind, args) =>
      if kind == Base then Run(kind, s, m, args, inputs)
      else OneReply(kind, s, m, args, inputs); Run(kind, s, m, args, inputs)
  }

  /**
   * A person's command line whose word no command is invoked by (or only
   * a command keyed by the empty string) gets the one expiring
   * `nonexistent` reply and leaves the registry alone.
   */
  lemma DispatchNonexistent(kinds: map<string, CommandKind>, s: Settings, m: Message, modules: map<string, CommandKind>,
                            readable: bool, inputs: Inputs)
    requires StartsWith(m.content, s.prefix) && !m.authorIsBot
    requires var key := FindKey(s.names, Parse(m.content, s.prefix).0); key.None? || key.value == ""
    ensures var r := Dispatch(kinds, s, m, modules, readable);
      r == Outcome(Nonexistent, kinds) && StepActions(r.step, s, m, inputs) == [ExpiringReply(["client", "error", "nonexistent"])]
  {
  }

  /**
   * A command not yet registered whose `loadCommand` throws is reported on
   * the console, nothing else, and the registry stays as it was.
   */
  lemma DispatchLoadFailed(kinds: map<string, CommandKind>, s: Settings, m: Message, modules: map<string, CommandKind>,
                           readable: bool, inputs: Inputs, key: string)
    requires StartsWith(m.content, s.prefix) && !m.authorIsBot
    requires FindKey(s.names, Parse(m.content, s.prefix).0) == Some(key) && key != ""
    requires key !in kinds && !Loads(key + ".js", modules, readable)
    ensures var r := Dispatch(kinds, s, m, modules, readable);
      r == Outcome(LoadFailed, kinds) && StepActions(r.step, s, m, inputs) == [LogError]
  {
  }

  /**
   * A command not yet registered, keyed without a dot, whose file loads:
   * the file's class is registered under the key and runs with the
   * arguments after the command word.
   */
  lemma DispatchLoads(kinds: map<string, CommandKind>, s: Settings, m: Message, modules: map<string, CommandKind>,
                      readable: bool, key: string)
    requires StartsWith(m.content, s.prefix) && !m.authorIsBot
    requires FindKey(s.names, Parse(m.content, s.prefix).0) == Some(key) && key != ""
    requires key !in kinds && '.' !in key && Loads(key + ".js", modules, readable)
    ensures Dispatch(kinds, s, m, modules, readable)
         == Outcome(Execute(modules[key + ".js"], Parse(m.content, s.prefix).1), Register(kinds, key + ".js", modules))
  {
    CommandNameOfFile(key);
    RegisterKeeps(kinds, key + ".js", modules);
  }

  /**
   * A key with a dot in it loads the file under the shorter name before
   * the dot, so the lookup by the key still finds nothing: `execute` is
   * called on `undefined`.
   */
  lemma DispatchDottedKey(kinds: map<string, CommandKind>, s: Settings, m: Message, modules: map<string, CommandKind>,
                          readable: bool, key: string)
    requires StartsWith(m.content, s.prefix) && !m.authorIsBot
    requires FindKey(s.names, Parse(m.content, s.prefix).0) == Some(key)
    requires key !in kinds && '.' in key && Loads(key + ".js", modules, readable)
    ensures Dispatch(kinds, s, m, modules, readable) == Outcome(Missing, Register(kinds, key + ".js", modules))
  {
    assert CommandName(key + ".js") != key;
    RegisterKeeps(kinds, key + ".js", modules);
  }

  /** A bot's message, or one without the prefix, does nothing at all. */
  lemma Ignored(kinds: map<string, CommandKind>, s: Settings, m: Message, modules: map<string, CommandKind>,
                readable: bool)
    requires !StartsWith(m.content, s.prefix) || m.authorIsBot
    ensures Dispatch(kinds, s, m, modules, readable) == Outcome(Ignore, kinds)
  {
  }

  /**
   * A command line `prefix + word + " " + args` from a person, whose
   * lowercased word invokes a registered command, runs that command with
   * exactly `args`.
   */
  lemma DispatchCommandLine(kinds: map<string, CommandKind>, s: Settings, m: Message, modules: map<string, CommandKind>,
                            readable: bool, word: string, args: seq<string>, key: string)
    requires IsWord(word) && forall i :: 0 <= i < |args| ==> IsWord(args[i])
    requires m.content == s.prefix + Join([word] + args, " ") && !m.authorIsBot
    requires FindKey(s.names, ToLower(word)) == Some(key) && key != "" && key in kinds
    ensures Dispatch(kinds, s, m, modules, readable) == Outcome(Execute(kinds[key], args), kinds)
  {
    ParseCommandLine(s.prefix, word, args);
  }

  /**
   * A message handled by the commander never removes or replaces a
   * registered command, and adds at most one name.
   */
  lemma DispatchKeeps(kinds: map<string, CommandKind>, s: Settings, m: Message, modules: map<string, CommandKind>,
                      readable: bool)
    ensures var after := Dispatch(kinds, s, m, modules, readable).kinds;
      && (forall k :: k in kinds ==> k in after && after[k] == kinds[k])
      && (forall k1, k2 :: k1 in after && k1 !in kinds && k2 in after && k2 !in kinds ==> k1 == k2)
  {
    if StartsWith(m.content, s.prefix) && !m.authorIsBot {
      var key := FindKey(s.names, Parse(m.content, s.prefix).0);
      if key.Some? && key.value != "" && key.value !in kinds && Loads(key.value + ".js", modules, readable) {
        RegisterKeeps(kinds, key.value + ".js", modules);
      }
    }
  }

  /**
   * Handling the same message again decides the same thing again, and
   * loads nothing the first time did not: the lazy load happens once.
   */
  lemma DispatchTwice(kinds: map<string, CommandKind>, s: Settings, m: Message, modules: map<string, CommandKind>,
                      readable: bool)
    ensures var first := Dispatch(kinds, s, m, modules, readable);
      Dispatch(first.kinds, s, m, modules, readable) == first
  {
    if StartsWith(m.content, s.prefix) && !m.authorIsBot {
      var key := FindKey(s.names, Parse(m.content, s.prefix).0);
      if key.Some? && key.value != "" && key.value !in kinds && Loads(key.value + ".js", modules, readable) {
        RegisterIdempotent(kinds, key.value + ".js", modules);
      }
    }
  }

  /**
   * The commander extension. `ext` is the `Extension` part it inherits
   * (the name, loaded flag, configuration and language object, and
   * `addReply`); `commands` is its registry, `this.commands`.
   */
  class Commander {
    const ext: Extension
    var commands: map<string, Command>
    /** The registry as a map from command name to command class. */
    ghost var kinds: map<string, CommandKind>

    /**
     * Every registered command is stored under its own name, is marked
     * loaded and shares the commander's configuration; `kinds` gives
     * each one's class.
     */
    ghost predicate Valid()
      reads this, ext, commands.Values
    {
      && ext.Valid()
      && commands.Keys == kinds.Keys
      && forall k :: k in commands ==>
           && commands[k].kind == kinds[k]
           && commands[k].Valid()
           && commands[k].name == Str(k)
           && commands[k].loaded
           && commands[k].config == ext.config
    }

    /** The constructor up to its `loadCommandDir` call: the inherited fields and an empty registry. */
    constructor (name: JsValue, loaded: JsValue, config: JsValue, lang: JsValue)
      ensures fresh(ext)
      ensures ext.kind == Plain
      ensures ext.name == CoerceName(name) && ext.loaded == CoerceLoaded(loaded)
      ensures ext.config == CoerceObject(config) && ext.lang == CoerceObject(lang)
      ensures commands == map[]
      ensures Valid()
    {
      ext := new Extension(Plain, name, loaded, config, lang);
      commands := map[];
      kinds := map[];
    }

    /**
     * `new Commander(name, loaded, config, lang)`, whose constructor
     * loads the command directory `entries`; `None` when that throws.
     */
    static method Create(name: JsValue, loaded: JsValue, config: JsValue, lang: JsValue,
                         entries: seq<string>, modules: map<string, CommandKind>) returns (r: Option<Commander>)
      ensures r.Some? <==>
        RegisterAll(map[], JsFiles(entries), modules, Readable(CoerceObject(config), CoerceObject(lang))).1
      ensures r.Some? ==>
        && fresh(r.value) && fresh(r.value.ext) && r.value.Valid()
        && r.value.ext.config == CoerceObject(config) && r.value.ext.lang == CoerceObject(lang)
        && r.value.kinds == RegisterAll(map[], JsFiles(entries), modules, Readable(CoerceObject(config), CoerceObject(lang))).0
    {
      var c := new Commander(name, loaded, config, lang);
      var ok := c.LoadCommandDir(entries, modules);
      r := if ok then Some(c) else None;
    }

    /**
     * `loadCommand(file)`. It completes exactly when `Loads` holds; then
     * the registry is `Register`'s, and a new command has the commander's
     * configuration and its own slice of the language object. A call that
     * throws leaves the registry as it was.
     */
    method LoadCommand(file: string, modules: map<string, CommandKind>) returns (ok: bool)
      requires Valid()
      modifies this`commands, this`kinds
      ensures Valid()
      ensures ok <==> Loads(file, modules, Readable(ext.config, ext.lang))
      ensures ok ==> kinds == Register(old(kinds), file, modules)
      ensures !ok ==> commands == old(commands) && kinds == old(kinds)
      ensures forall k :: k in old(commands) ==> k in commands && commands[k] == old(commands[k])
      ensures ok && CommandName(file) !in old(commands) ==>
        && CommandName(file) in commands
        && Read(ext.lang, ["commands", CommandName(file)]).Some?
        && commands[CommandName(file)].lang == CoerceObject(Read(ext.lang, ["commands", CommandName(file)]).value)
    {
      if file !in modules {
        return false;
      }
      var name := CommandName(file);
      var table := Member(ext.lang, "commands");
      var slice := if table.None? then None else Member(table.value, name);
      if slice.None? {
        return false;
      }
      ReadPair(ext.lang, "commands", name);
      var command := new Command(modules[file], Str(name), Bool(false), ext.config, slice.value);
      if Read(ext.config, ["utility", "debug"]).None? {
        return false;
      }
      if name !in commands && !command.loaded {
        Insert(name, command);
      }
      ok := true;
    }

    /** `this.commands.set(name, command); command.loaded = true;` */
    method Insert(name: string, command: Command)
      requires Valid()
      requires name !in commands && command !in commands.Values
      requires command.Valid() && command.name == Str(name) && command.config == ext.config
      modifies this`commands, this`kinds, command`loaded
      ensures Valid()
      ensures commands == old(commands)[name := command]
      ensures kinds == old(kinds)[name := command.kind]
      ensures command.loaded
    {
      commands := commands[name := command];
      kinds := kinds[name := command.kind];
      command.SetLoaded(Bool(true));
    }

    /**
     * `loadCommandDir`: `loadCommand` on each entry ending in ".js", in
     * listing order, until one throws.
     */
    method LoadCommandDir(entries: seq<string>, modules: map<string, CommandKind>) returns (ok: bool)
      requires Valid()
      modifies this`commands, this`kinds
      ensures Valid()
      ensures (kinds, ok) == RegisterAll(old(kinds), JsFiles(entries), modules, Readable(ext.config, ext.lang))
      ensures forall k :: k in old(commands) ==> k in commands && commands[k] == old(commands[k])
    {
      var files := JsFiles(entries);
      var i := 0;
      while i < |files|
        invariant 0 <= i <= |files|
        invariant Valid()
        invariant (kinds, true) == RegisterAll(old(kinds), files[..i], modules, Readable(ext.config, ext.lang))
        invariant forall k :: k in old(commands) ==> k in commands && commands[k] == old(commands[k])
      {
        RegisterAllNext(old(kinds), files, i, modules, Readable(ext.config, ext.lang));
        ok := LoadCommand(files[i], modules);
        if !ok {
          FailureStops(old(kinds), files, i + 1, modules, Readable(ext.config, ext.lang));
          return;
        }
        i := i + 1;
      }
      assert files[..i] == files;
      ok := true;
    }

    /**
     * The lazy load and lookup of `onMessage` for the command key `name`:
     * what `Resolve` decides, and the command to run when it runs one.
     */
    method Lookup(name: string, args: seq<string>, modules: map<string, CommandKind>) returns (step: Step)
      requires Valid()
      modifies this`commands, this`kinds
      ensures Valid()
      ensures Outcome(step, kinds) == Resolve(old(kinds), name, args, modules, Readable(ext.config, ext.lang))
      ensures step.Execute? ==> name in commands && step.kind == commands[name].kind && step.args == args
      ensures forall k :: k in old(commands) ==> k in commands && commands[k] == old(commands[k])
    {
      if name !in commands {
        var ok := LoadCommand(name + ".js", modules);
        if !ok {
          return LoadFailed;
        }
      }
      if name !in commands {
        return Missing;
      }
      step := Execute(commands[name].kind, args);
    }

    /**
     * `onMessage`: what `Dispatch` decides, on the registry as it stands;
     * the command runs with the commander's configuration, read through
     * `s`.
     */
    method OnMessage(message: Message, s: Settings, modules: map<string, CommandKind>, inputs: Inputs)
      returns (actions: seq<Action>)
      requires Valid() && Describes(ext.config, s)
      modifies this`commands, this`kinds
      ensures Valid()
      ensures kinds == Dispatch(old(kinds), s, message, modules, Readable(ext.config, ext.lang)).kinds
      ensures actions == StepActions(Dispatch(old(kinds), s, message, modules, Readable(ext.config, ext.lang)).step,
                                     s, message, inputs)
      ensures forall k :: k in old(commands) ==> k in commands && commands[k] == old(commands[k])
    {
      if !StartsWith(message.content, s.prefix) || message.authorIsBot {
        return [];
      }
      var (word, args) := Parse(message.content, s.prefix);
      var key := FindKey(s.names, word);
      if key.None? || key.value == "" {
        return [ExpiringReply(["client", "error", "nonexistent"])];
      }
      var step := Lookup(key.value, args, modules);
      actions := Perform(step, key.value, message, s, inputs);
    }

    /** The end of `onMessage`: what the decision `step` for the command key `name` does. */
    method Perform(step: Step, name: string, message: Message, s: Settings, inputs: Inputs) returns (actions: seq<Action>)
      requires Valid() && Describes(ext.config, s)
      requires step.Execute? ==> name in commands && step.kind == commands[name].kind
      ensures actions == StepActions(step, s, message, inputs)
    {
      match step {
        case Ignore =>
          actions := [];
        case Nonexistent =>
          actions := [ExpiringReply(["client", "error", "nonexistent"])];
        case Execute(kind, args) =>
          actions := commands[name].Execute(message, args, s, inputs);
        case LoadFailed =>
          actions := [LogError];
        case Missing =>
          actions := [Threw];
      }
    }
  }
}
