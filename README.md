# Droid, modelled in Dafny

Droid is a Discord bot for a Fandom wiki community. A `Client` holds a
token, a configuration object and a language object, and it logs in at
most once. Its extensions each receive every message. The base
`Extension` class provides:

- four coerced fields (name, loaded, configuration, language);
- `addReply`, which answers a message and, by default, deletes the
  question and then the answer after a configured interval.

Two extensions are modelled:

- the **logger** mirrors every human message in the verify channel to a
  logs channel. It asks the author to use the verify command when the
  message does not start with it.
- the **commander** keeps a registry of command instances, filled from a
  directory of command modules. It parses `<prefix><word> <args…>`,
  finds the command the word invokes, loads that command on first use
  and runs it.

The commands are:

- `ping`: a fixed answer, which differs in the moderator channel;
- `verify`: a chain of guards, then wiki lookups. On success it grants
  the user role, and the moderator role to wiki staff. It also logs the
  pairing to a directory channel;
- `about`: a one-sentence profile of a wiki account, with fuzzy ages
  ("3 hours 12 minutes").

The `Resource` loader deep-merges a user's JSON file over the default
one. It is a hand-written `$.extend`.

How the model is laid out:

- JS values are the datatype `JsValues.JsValue`.
- Messages, and what handlers do in answer, are `Messages.Message` and
  `Messages.Action`. Handlers are functions from a message and their
  inputs to a list of actions.
- The classes whose fields the source updates in place are Dafny
  classes:
  - `Extensions.Extension`;
  - `Commands.Command`;
  - `Commanders.Commander`, whose registry is `commands`;
  - `Clients.Client`.
- Each method on these classes is proved against a specification
  function:
  - `RegisterAll`, for the directory load;
  - `Dispatch` and `StepActions`, for message handling;
  - `ReplyEffects`, for `addReply`;
  - `Transported`, for `login`.
- The properties are proved as lemmas about those functions.

What the handlers cannot see becomes a parameter:

| In the source | In the model |
|---|---|
| the wiki's API answers | `Verify.UserInfo`, `Verify.Masthead`, `About.AboutData` |
| time elapsed | milliseconds (`int`) |
| directory listings | `seq<string>` |
| what `require` finds | a map from file name to command class, or to a JSON value |
| whether a post succeeds | `posted` |

## Model

| member | source | states |
|---|---|---|
| JsValues.Member | src/util/extension.js:80 | property access: `None` (a TypeError) exactly on `undefined`/`null`; an own property's value, otherwise `undefined` |
| JsValues.ReadPair | src/extensions/commander/index.js:56 | a two-step property path reads the first property, then the second of what it found, and throws when either base is nullish |
| JsValues.CoerceName | src/util/extension.js:11-13 | the name setter keeps a string primitive or String object and maps everything else to `""` |
| JsValues.CoerceLoaded | src/util/extension.js:15-17 | the loaded setter keeps a boolean, otherwise `false`: the result is true exactly for `true` |
| JsValues.ConstructorIsObject | src/util/extension.js:20 | `v.constructor === Object` throws exactly on nullish values and holds exactly for plain objects: an object literal without an own `constructor` property |
| JsValues.NullSetterThrows | src/util/extension.js:19-23 | as written, the config/lang setter throws on `null` (since `typeof null === "object"`) while `undefined` becomes `{}` |
| JsValues.CoerceObjectAsWritten | src/util/extension.js:19-23 | the setter as written: it throws exactly on `null`; otherwise it stores a plain object, the argument itself exactly when that is one, so an object with an own `constructor` property becomes `{}` |
| JsValues.CoerceObject | src/util/extension.js:25-29 | corrected setter: always a plain object, and the argument itself exactly when it is one (no own `constructor` property) |
| JsValues.CoerceObjectAgrees | src/util/command.js:153-157 | the setter as written and the corrected one agree on every value except `null` |
| JsValues.CoercionsIdempotent | src/util/command.js:175-179 | assigning a getter's value back through its setter changes nothing |
| JsValues.IndexEntriesAt | src/util/resource.js:97 | `Object.keys` of an array lists each index as its decimal string, holding that element |
| JsValues.IndexEntriesKey | src/util/resource.js:99 | every own key of an array is the decimal string of an index below its length, holding that element |
| JsValues.CharsAt | src/util/resource.js:99 | a string primitive's own entries are its one-character strings, by index |
| JsValues.IsObjectAsWritten | src/util/resource.js:121-124 | `isObject`: the truthiness, `typeof`, constructor and tag tests hold together exactly for plain objects; a nested object with an own `constructor` property fails them and is assigned, not merged |
| Strings.SplitSpaces | src/extensions/commander/index.js:145 | `split(/ +/)`: at least one token, no token holds a space, and only the first and last can be empty |
| Strings.SplitSpacesSqueezes | src/extensions/commander/index.js:145 | joined with single spaces the tokens give back the input with every run of spaces shortened to one space, and there is one token more than there are runs |
| Strings.SplitJoinRoundTrip | src/extensions/commander/index.js:145 | splitting words joined by single spaces gives the words back |
| Strings.ToLower | src/extensions/commander/index.js:148 | lowercasing keeps the length and lowercases character by character |
| Strings.ToLowerIdempotent | src/extensions/commander/index.js:148 | lowercasing twice is lowercasing once |
| Strings.UpToFirst | src/extensions/commander/index.js:53 | `split(".")[0]`: a prefix of the file name, free of dots, stopped by the first dot when there is one |
| Strings.KeepEndingWith | src/extensions/commander/index.js:86-88 | the suffix filter keeps exactly the entries with the suffix and is never longer than the listing |
| Strings.KeepEndingWithAppend | src/client.js:279-283 | the suffix filter keeps the listing's order: filtering a concatenation is the concatenation of the filtered parts |
| Strings.Trim | src/commands/lib/verify.js:202 | `trim()`: a slice of the input with no whitespace at either end, and only whitespace removed |
| Strings.TrimUnchanged | src/commands/lib/verify.js:202 | trimming a string that holds no whitespace changes nothing |
| Strings.IndexOf | src/commands/lib/about.js:324 | `indexOf`: -1 exactly when the text is absent, otherwise the first position where it occurs |
| Strings.JsReplace | src/commands/lib/about.js:317 | `replace` with a string pattern: the first occurrence only, a `$`-free replacement inserted verbatim, and no change without a match |
| Strings.DollarPatternsExpand | src/commands/lib/about.js:118 | in a replacement `$&` inserts the matched text and `$$` a dollar sign |
| Strings.ExpandMatchThen | src/commands/lib/about.js:118 | a replacement `$&` followed by a dollar-free rest inserts the matched text, then the rest verbatim |
| Strings.NatToString | src/commands/lib/about.js:118 | `String(n)` for a natural number denotes `n` in decimal |
| Strings.NatToStringDigits | src/commands/lib/about.js:352 | `String(n)` consists of digits only, without a leading zero |
| Strings.JoinSnoc | src/commands/lib/about.js:333-337 | joining a list with one more part adds the separator and that part at the end |
| Resources.Copy | src/util/resource.js:101 | `extend({}, v)`: the copy has exactly the keys of `v` |
| Resources.Seed | src/util/resource.js:101 | `clone[key] \|\| {}`: a truthy seed, which is the existing value when that value is truthy |
| Resources.Step | src/util/resource.js:100-102 | a non-object value is assigned as is; a plain object is merged over the seed, keeping the keys of both |
| Resources.MergeInto | src/util/resource.js:98-103 | one round of the outer loop: the clone gains exactly the argument's keys |
| Resources.MergeIntoAt | src/util/resource.js:98-103 | after one round each key of the argument holds its merged value, and every other key keeps its old value |
| Resources.MergedKeys | src/util/resource.js:96-104 | `extend(a1, …, an)` has exactly the union of the arguments' keys, and no arguments give `{}` |
| Resources.LastWriterWins | src/util/resource.js:96-104 | a key whose last writer holds a non-object value ends with that value |
| Resources.NestedKeysKept | src/util/resource.js:100-102 | a key whose last writer holds a plain object ends as an object with the keys of what the earlier arguments left there (when truthy) together with that object's keys |
| Resources.CopyOfObject | src/util/resource.js:121-124 | a deep copy of a plain object is equal to it |
| Resources.CopyIsMerge | src/util/resource.js:101 | copying is merging into `{}` |
| Resources.MergedPair | src/util/resource.js:101 | `extend(seed, value)` is merging `value` into a copy of `seed` |
| Resources.Merged | src/util/resource.js:92-107 | each argument only adds keys: the result keeps every key of the merge of the arguments before it and every own key of the last one |
| Resources.Extend | src/util/resource.js:92-107 | the loop over the arguments and their keys throws exactly when an argument is nullish, and otherwise yields the merge of all arguments |
| Resources.MergeArgument | src/util/resource.js:97-103 | the inner loop over one argument's keys computes one merge round |
| Resources.WriteKey | src/util/resource.js:99-102 | one key's assignment writes that key's merged value and nothing else |
| Resources.CopyValue | src/util/resource.js:101 | the nested `extend({}, seed)` computes the copy |
| Resources.JsonFileName | src/util/resource.js:57-59 | the file name ends in `.json`, and the suffix is added only when missing |
| Resources.JsonFileNameIdempotent | src/util/resource.js:57-59 | normalising a normalised name changes nothing |
| Resources.Load | src/util/resource.js:56-72 | a missing default throws; a missing custom file gives the default; otherwise the default merged with the custom file, which throws on a nullish file |
| Logger.VerifyWord | src/extensions/logger/index.js:20 | `commands.names.verify` in a template: the word listed for `verify`, or `"undefined"` when there is none |
| Logger.Actions | src/extensions/logger/index.js:7-25 | nothing for bots or other channels; otherwise the log line first, and the `unrelated` reply exactly when the content does not start with prefix plus verify word |
| Logger.LongerTokenNotUnrelated | src/extensions/logger/index.js:20 | the test is a plain prefix: `!verifyx` is logged without a reply |
| Ping.ReplyKey | src/commands/lib/ping.js:49-53 | `custom` exactly in the moderator channel, else `default` |
| Ping.Actions | src/extensions/commander/lib/ping.js:54-60 | exactly one expiring reply, `success.custom` or `success.default` |
| Ping.ArgsNotConsulted | src/commands/lib/ping.js:48 | the arguments do not change the answer |
| Verify.MatchAt | src/commands/lib/verify.js:114-118 | the alternation matches at a position exactly when one of the alternatives occurs there |
| Verify.SearchFrom | src/commands/lib/verify.js:114-118 | `RegExp.test` succeeds exactly when some alternative occurs at or after the start |
| Verify.SearchFindsContained | src/commands/lib/verify.js:114-118 | the search from the start succeeds exactly when the text contains an alternative |
| Verify.ShouldBeChatModerator | src/commands/lib/verify.js:113-119 | true exactly when the space-joined groups contain `sysop`, `chatmoderator` or `threadmoderator` as a substring |
| Verify.Actions | src/commands/lib/verify.js:183-260 | at most one reply, as the last action; one case per guard: `misplaced` in another channel, `username` without arguments, `redundant` for a verified member, `server` on a failed or erroneous lookup, a TypeError on an answer without users, `nonexistent` for a missing or zero user id, `edits` for no edits; past them, what `Grant` decides; `granted` exactly after every guard passed, and never a role without `granted` |
| Verify.Grant | src/commands/lib/verify.js:235-259 | from the masthead check on: `missing` for a failed, absent or empty masthead, `mismatched` for another non-empty value, a TypeError for a matching masthead on a user without groups, and otherwise `granted` with the user role and the directory line; roles only together with `granted` |
| Verify.Admit | src/commands/lib/verify.js:245-259 | the granting steps: the moderator role exactly when the groups call for it, the user role, the directory line, and `granted` as the only reply, last |
| Verify.EarlyGuardsSkipLookups | src/commands/lib/verify.js:186-199 | the channel, username and redundant-role guards answer before any lookup matters |
| Verify.GrantedActions | src/commands/lib/verify.js:183-259 | for any user list that starts with a user who passes every guard: the moderator role iff the groups call for it, then the user role, the directory line and `granted` |
| Verify.WikiUsername | src/commands/lib/verify.js:202 | `args.join(" ").trim()`: no whitespace at either end, and a single whitespace-free argument is the username itself |
| Verify.WikiUsernameTrims | src/commands/lib/verify.js:202 | the username is a slice of the arguments joined with single spaces, with only whitespace cut off before and after it |
| About.GroupAsWritten | src/commands/lib/about.js:109-118 | the thousands replacement as written, scanning for runs of the letter `d`: with an empty separator the text is unchanged |
| About.RunLength | src/commands/lib/about.js:109 | the length of a run of one character from a position, maximal |
| About.GroupAsWrittenNoD | src/commands/lib/about.js:109 | the thousands pattern as written matches runs of the letter `d`, so a text without `d` is unchanged |
| About.IntToStringHasNoD | src/commands/lib/about.js:118 | `String(time)` never contains the letter `d` |
| About.FormatDate | src/commands/lib/about.js:106-119 | the number without separators, a no-break space, and the singular only for exactly 1 |
| About.UnitFor | src/commands/lib/about.js:174-205 | the unit chosen is the bucket whose thresholds enclose the elapsed time |
| About.Bucket | src/commands/lib/about.js:169-205 | the bucket holds the elapsed time; only hours and years carry a remainder |
| About.BucketFloor | src/commands/lib/about.js:175-200 | the number is the whole units elapsed, rounded down, and the remainder the whole minor units left |
| About.BucketRanges | src/commands/lib/about.js:174-205 | the numbers shown per unit: seconds 0-59, minutes 1-59, hours 1-23 with 0-59 minutes, days 1-6, weeks 1-4, months 1-12, years with 0-12 months |
| About.TimeAgo | src/commands/lib/about.js:149-207 | the fuzzy date starts with the number and unit of the bucket the elapsed time falls in, and is exactly that when the bucket has no remainder |
| About.TimeAgoHours | src/commands/lib/about.js:180-187 | 1-23 hours and 0-59 minutes read as the hours, then the minutes only when there are some |
| About.TimeAgoRest | src/commands/lib/about.js:180-205 | with a remainder (hours and minutes, years and months), the fuzzy date is the number and unit, a no-break space, then the remainder and the next smaller unit |
| About.TimeAgoYears | src/commands/lib/about.js:195-205 | from a year on, the whole 365-day years, then the whole 30-day months beyond them only when there are some |
| About.TwelveMonthsRemain | src/commands/lib/about.js:200 | a year and 360 days reads as 1 year and 12 months |
| About.Displayed | src/commands/lib/about.js:306-314 | the shown labels are exactly those of listed groups other than `*`, `user` and `autoconfirmed` that the configuration labels |
| About.DisplayedAppend | src/commands/lib/about.js:306-314 | the filter keeps the wiki's order |
| About.ListText | src/commands/lib/about.js:322-338 | none gives the fallback, one itself, two joined by the conjunction, more as a comma list ending in the conjunction |
| About.Groups | src/commands/lib/about.js:316-320 | the blocked, or else the autoconfirmed, fragment comes first, then exactly the shown labels |
| About.Optional | src/commands/lib/about.js:344-358 | an optional segment is present exactly when its value is known |
| About.Segments | src/commands/lib/about.js:322-358 | the group list (or the fallback naming the user), then the gender, then exactly the optional segments |
| About.OptionalSegments | src/commands/lib/about.js:343-358 | one segment per known registration, non-zero edit count and last edit, in that order: the registration's fuzzy date first when known, the edit count after it, the last edit last |
| About.EditCountZeroOmitted | src/commands/lib/about.js:351-353 | an edit count of 0 gives no segment, as an unknown one does |
| About.Output | src/commands/lib/about.js:364-368 | with a last edit: the other segments joined by the separator and a space, the terminator, a space, the last edit and the terminator; without one: all segments joined that way, then the terminator |
| About.Actions | src/commands/lib/about.js:252-371 | one action: `username` without arguments, the lookup's rejection escaping when the lookup throws, `server` on an error or missing query, `nonexistent` when the first user is absent or missing, and otherwise the non-expiring profile of that user |
| About.AsWrittenThrows | src/commands/lib/about.js:269-276 | the code as written throws on a missing query without error and on an empty user list, where a reply was intended |
| About.ActionsAsWritten | src/commands/lib/about.js:252-371 | the handler as written: one action, a reply or an escaping exception, and it departs from the intended handler only by throwing |
| About.ExistsAsWritten | src/commands/lib/about.js:301 | a user exists exactly when its `userid` is truthy and it is neither invalid nor missing |
| About.Profile | src/commands/lib/about.js:305-368 | the profile is a literal reply that does not expire; it ends with the last-edit text and the terminator when the last edit is known, and with the gender and the terminator when nothing optional is known |
| About.AsWrittenAgrees | src/commands/lib/about.js:269-303 | on every other input the code as written behaves as intended |
| Extensions.ReplyEffects | src/util/extension.js:71-84 | one post; the question is deleted first exactly when asked; the answer is deleted after the interval only after a successful post; failures are logged |
| Extensions.Extension.constructor | src/util/extension.js:4-9 | every field goes through its setter |
| Extensions.Extension.SetName | src/util/extension.js:11-13 | the name is coerced |
| Extensions.Extension.SetLoaded | src/util/extension.js:15-17 | the loaded flag is coerced |
| Extensions.Extension.SetConfig | src/util/extension.js:19-23 | the configuration is coerced to a plain object |
| Extensions.Extension.SetLang | src/util/extension.js:25-29 | the language object is coerced to a plain object |
| Extensions.Extension.AddReply | src/util/extension.js:71-84 | the effects, step by step, are `ReplyEffects` |
| Extensions.Extension.OnMessage | src/util/extension.js:86 | a plain extension does nothing, and the logger does what the logger decides |
| Commands.NoReplies | src/util/command.js:257 | a list of actions without a reply counts no replies |
| Commands.OneReply | src/util/command.js:229-257 | every concrete command calls `logReply` exactly once and last, unless an exception escapes |
| Commands.Command.constructor | src/util/command.js:54-99 | every field goes through its setter |
| Commands.Command.SetName | src/util/command.js:114-117 | the name is coerced |
| Commands.Command.SetLoaded | src/util/command.js:134-136 | the loaded flag is coerced |
| Commands.Command.SetConfig | src/util/command.js:153-157 | the configuration is coerced to a plain object |
| Commands.Command.SetLang | src/util/command.js:175-179 | the language object is coerced to a plain object |
| Commands.Run | src/util/command.js:257 | the base class does nothing; every other command either throws or logs exactly one reply, as its last action |
| Commands.Command.Execute | src/util/command.js:257 | `execute` runs its class's handler (`Run`), with exactly one reply for every command but the base class |
| Commanders.CommandNameOfFile | src/extensions/commander/index.js:173 | a key without a dot loads as `key.js` under the name `key` |
| Commanders.Register | src/extensions/commander/index.js:66-69 | a completed `loadCommand` adds the command only when its name is free |
| Commanders.RegisterKeeps | src/extensions/commander/index.js:66-69 | loading keeps every registered command and adds at most the file's name, with its class |
| Commanders.RegisterIdempotent | src/extensions/commander/index.js:66 | loading the same file twice is loading it once |
| Commanders.RegisterAllNext | src/extensions/commander/index.js:88 | one more file is loaded only while no earlier load has thrown |
| Commanders.RegisterAllCompletes | src/extensions/commander/index.js:85-89 | the directory load completes exactly when every file loads |
| Commanders.RegisterAllKeeps | src/extensions/commander/index.js:85-89 | the directory load never removes or replaces a registered command |
| Commanders.RegisterAllNames | src/extensions/commander/index.js:85-89 | every name it adds is the name of a listed file |
| Commanders.RegisterAllCovers | src/extensions/commander/index.js:85-89 | after a completed load every listed file's name is registered |
| Commanders.FailureStops | src/extensions/commander/index.js:88 | after the first load that throws, the rest of the listing has no effect |
| Commanders.RegisterAllIdempotent | src/extensions/commander/index.js:85-89 | loading the directory a second time changes nothing |
| Commanders.RegisterAllUnchanged | src/extensions/commander/index.js:66 | loading files whose names are all taken leaves the registry as it is |
| Commanders.RegisterAll | src/extensions/commander/index.js:85-89 | when the configuration or the language cannot be read, nothing is registered and the load fails at the first file, if there is one |
| Commanders.ParseCommandLine | src/extensions/commander/index.js:145-148 | `prefix + word + " " + args` parses to the lowercased word and exactly `args` |
| Commanders.Parse | src/extensions/commander/index.js:145-148 | the command name is lowercase, and the arguments are space-free strings, one per run of spaces |
| Commanders.ParseJoin | src/extensions/commander/index.js:145-148 | the command name is the lowercased first token after the prefix, and that token and the arguments joined with single spaces are the text after the prefix with each run of spaces squeezed to one, so leading and trailing spaces leave empty tokens |
| Commanders.FindKey | src/extensions/commander/index.js:155-157 | `find` over the names: none exactly when no entry has the word, otherwise the key of an entry with that word |
| Commanders.Dispatch | src/extensions/commander/index.js:131-180 | a message is ignored exactly when it lacks the prefix or comes from a bot; ignoring and `nonexistent` keep the registry; a command runs with the arguments after the command word |
| Commanders.Resolve | src/extensions/commander/index.js:171-180 | a load is tried, and fails, only for an unregistered key; a failed load keeps the registry; the command run is the one registered under the key afterwards; `Missing` only when the key is still unregistered |
| Commanders.StepActions | src/extensions/commander/index.js:160-180 | ignoring does nothing; the other non-running decisions are one action, a reply only for `nonexistent`; a concrete command replies once and last unless an exception escapes |
| Commanders.DispatchNonexistent | src/extensions/commander/index.js:155-162 | a word no command is invoked by gets the one expiring `nonexistent` reply and keeps the registry |
| Commanders.DispatchLoadFailed | src/extensions/commander/index.js:171-176 | an unregistered command whose load throws is logged, nothing else, and the registry is unchanged |
| Commanders.DispatchLoads | src/extensions/commander/index.js:171-180 | an unregistered dot-free key whose file loads registers that file's class and runs it with the arguments |
| Commanders.DispatchDottedKey | src/extensions/commander/index.js:53 | a key with a dot registers under the name before the dot, so `execute` is called on `undefined` |
| Commanders.Ignored | src/extensions/commander/index.js:140-142 | a bot's message, or one without the prefix, does nothing |
| Commanders.DispatchCommandLine | src/extensions/commander/index.js:144-180 | a person's command line whose word invokes a registered command runs it with exactly the arguments after the word |
| Commanders.DispatchKeeps | src/extensions/commander/index.js:171-177 | a message never removes or replaces a registered command, and adds at most one |
| Commanders.DispatchTwice | src/extensions/commander/index.js:171-177 | handling the same message again decides the same again: the lazy load happens once |
| Commanders.Commander.constructor | src/extensions/commander/index.js:11-28 | the inherited fields are coerced and the registry starts empty |
| Commanders.Commander.Create | src/extensions/commander/index.js:11-31 | `new Commander` succeeds exactly when the directory load completes, and holds exactly the commands that load registered |
| Commanders.Commander.LoadCommand | src/extensions/commander/index.js:47-70 | completes exactly when the module and both lookups succeed; then the registry is `Register`, and a new command's language is `lang.commands[name]` |
| Commanders.Commander.Insert | src/extensions/commander/index.js:66-69 | the command is stored under its name and marked loaded |
| Commanders.Commander.LoadCommandDir | src/extensions/commander/index.js:85-89 | the registry and the completion flag are those of `RegisterAll` over the `.js` entries |
| Commanders.Commander.Lookup | src/extensions/commander/index.js:171-180 | a registered command runs; otherwise it is loaded first, and a load that throws is logged |
| Commanders.Commander.OnMessage | src/extensions/commander/index.js:131-181 | the registry afterwards and the actions are those of `Dispatch` and `StepActions`, and no registered command is replaced |
| Commanders.Commander.Perform | src/extensions/commander/index.js:160-180 | each decision's actions: a `nonexistent` reply, a logged load error, an escaping exception, or the command's `execute` |
| Clients.LoginToken | src/client.js:302 | the default parameter applies exactly when the argument is `undefined` |
| Clients.TransportedOnce | src/client.js:302-309 | the transport's login is reached at most once, and exactly once from a fresh client that calls `login` |
| Clients.Transported | src/client.js:302-309 | at most one token reaches the transport, exactly when the client is not logged in and `login` is called, and it is the first call's token or the stored default |
| Clients.Client.constructor | src/client.js:65-159 | fields coerced, not logged in, no extensions loaded, and one listener per extension |
| Clients.Client.Listen | src/client.js:156-158 | the listeners are exactly the extensions, one each |
| Clients.Client.SetToken | src/client.js:174-179 | the token is coerced like a name |
| Clients.Client.SetConfig | src/client.js:193-197 | the configuration is coerced to a plain object |
| Clients.Client.SetLang | src/client.js:211-215 | the language object is coerced to a plain object |
| Clients.Client.LoadExtensionDir | src/client.js:279-283 | `loadExtension` is called on exactly the `index.js` entries, in listing order |
| Clients.Client.Login | src/client.js:302-309 | throws exactly when already logged in, and changes nothing then; otherwise logs in once with the argument or the stored token |

## Left out

- Discord itself (gateway, channels, role caches, message deletion timers) is outside the model; handlers return the actions they would perform (`Messages.Action`, `Extensions.Effect`).
- The MediaWiki HTTP calls (`getUserInfo`, `getMastheadValue`) and the clock are outside the model; their answers and the elapsed milliseconds are parameters.
- `console.log` debugging output (`config.utility.debug`) and the `onReady`/`onError` console callbacks are not modelled; only whether reading `config.utility.debug` throws is.
- `Object.freeze` in the client's setters is not modelled: no code path writes to the frozen objects.
- Object key order: objects are maps, so `Object.keys` order is modelled only for `config.commands.names`, which is kept as a list in key order. JavaScript's rule that integer-like keys come first is not modelled.
- `Clients.Client.LoadExtension`: its body is empty in the source, so the client never registers an extension. The constructor's listener loop therefore has nothing to register, which the model reproduces.
- The commander file uses `Discord.Collection` and `fs` without importing them. The model reads them as a map and a directory listing and leaves the resulting `ReferenceError` out.
- `loadCommand`'s `dir` parameter: commands always load from the commander's own directory (`modules`), which is what every call in the source does.
- Commanders.Commander.LoadCommand: a command module is one of the three command classes; a module that throws while being instantiated is not modelled.
- Commanders.Readable: `lang.commands` and `config.utility` are the only reads that can throw while loading; the other language entries (`lang.client.error`) are assumed present.
- Extensions.Extension.constructor: stores the corrected `CoerceObject`, so a `null` configuration or language object becomes `{}` where the setter at src/util/extension.js:19-29 throws a TypeError (`JsValues.CoerceObjectAsWritten` models the throw).
- Extensions.Extension.SetConfig: stores the corrected `CoerceObject`, so a `null` configuration or language object becomes `{}` where the setter at src/util/extension.js:19-29 throws a TypeError (`JsValues.CoerceObjectAsWritten` models the throw).
- Extensions.Extension.SetLang: stores the corrected `CoerceObject`, so a `null` configuration or language object becomes `{}` where the setter at src/util/extension.js:19-29 throws a TypeError (`JsValues.CoerceObjectAsWritten` models the throw).
- Commands.Command.constructor: stores the corrected `CoerceObject`, so a `null` configuration or language object becomes `{}` where the setter at src/util/command.js:153-179 throws a TypeError (`JsValues.CoerceObjectAsWritten` models the throw).
- Commands.Command.SetConfig: stores the corrected `CoerceObject`, so a `null` configuration or language object becomes `{}` where the setter at src/util/command.js:153-179 throws a TypeError (`JsValues.CoerceObjectAsWritten` models the throw).
- Commands.Command.SetLang: stores the corrected `CoerceObject`, so a `null` configuration or language object becomes `{}` where the setter at src/util/command.js:153-179 throws a TypeError (`JsValues.CoerceObjectAsWritten` models the throw).
- Clients.Client.constructor: stores the corrected `CoerceObject`, so a `null` configuration or language object becomes `{}` where the setter at src/client.js:193-215 throws a TypeError (`JsValues.CoerceObjectAsWritten` models the throw).
- Clients.Client.SetConfig: stores the corrected `CoerceObject`, so a `null` configuration or language object becomes `{}` where the setter at src/client.js:193-215 throws a TypeError (`JsValues.CoerceObjectAsWritten` models the throw).
- Clients.Client.SetLang: stores the corrected `CoerceObject`, so a `null` configuration or language object becomes `{}` where the setter at src/client.js:193-215 throws a TypeError (`JsValues.CoerceObjectAsWritten` models the throw).
- Commanders.Commander.LoadCommand: when `lang.commands[name]` is `null`, the source's `new Command(…)` throws in the `lang` setter and `onMessage` logs a load error; the model's command constructor stores `{}` and the load completes.
- Clients.Client.Listen: the listeners are the loaded extensions, each once, but their order is not modelled.
- Strings.ToLower: only ASCII letters are lowercased; the rest of Unicode case mapping is not modelled.
- Verify.Actions: the server error's console line (`error.code`, `error.info`) is not modelled; only the reply is.
- About.Actions: the language object a command receives is the `AboutLang` parameter; it is not derived from `lang.commands.about`.
- About.Actions: an answer's `query` always carries both `users` and `usercontribs` (`AboutQuery`), so the TypeError the source raises when either list is absent is not modelled.
- Commands.Command.Execute: requires that the configuration describes the typed `Settings`; configurations missing the entries the commands read are not modelled.
- Commands.Run: for `about` it runs the corrected handler `About.Actions`, so an answer with no `query` and no `error`, or with an empty `users` list, gets the `server` or `nonexistent` reply where about.js:269-272 and 275-303 throw a TypeError; `About.ActionsAsWritten` models the throw.
- Commands.Command.Execute: runs `Commands.Run`, so the two `about` inputs above reply instead of throwing as the source does.
- Commands.Run: the language entries a reply names (`lang.error.*`, `lang.success.*` in verify.js, ping.js and about.js) are taken to be present; a command whose `lang` lacks `error` or `success`, such as one loaded with `{}` because `lang.commands[name]` is missing, throws a TypeError in the source where the model replies with the path.
- Commanders.Commander.OnMessage: requires that the configuration describes the typed `Settings` (`commands.prefix`, `utility.debug`); a configuration missing the entries index.js:140 and :150 read throws there, which is not modelled.
- Extensions.Extension.OnMessage: requires that the configuration describes the typed `Settings`, and takes `lang.logger.error.unrelated` to be present; a configuration or language object missing what logger/index.js:12-22 reads throws there, which is not modelled.
- Resources.Load: resource files are taken to hold JSON objects; a default file whose JSON is a primitive or `null`, with no custom file, makes `new Resource` yield the instance itself (resource.js:68), which is not modelled.
- `loadCommandDir` has no try/catch, so the first file whose load throws aborts the rest of the directory (`Commanders.FailureStops`).
- The `granted` reply is made with the default `deleteMessages = true`, so it expires like the other replies.

## Findings

| source | as written | input that shows it | evidently intended | confidence | as-written member | corrected member |
|---|---|---|---|---|---|---|
| src/util/extension.js:19-29 | `typeof config === "object" && config.constructor === Object` | `config = null`: `typeof null` is `"object"`, and `null.constructor` throws a TypeError | a null configuration or language object falls back to `{}` | not executed | JsValues.NullSetterThrows | JsValues.CoerceObject |
| src/commands/lib/about.js:269-272 | the server-error branch logs `data.error.code` | an answer with no `query` and no `error`: reading `.code` of `undefined` throws | reply with `error.server` | not executed | About.AsWrittenThrows | About.Actions |
| src/commands/lib/about.js:275-303 | `user.groups` is read before the `!user` guard | an answer whose `query.users` is empty: `user` is `undefined` | reply with `error.nonexistent` | not executed | About.AsWrittenThrows | About.Actions |
