/**
 * The bot's top-level `Client`: the token, configuration and language
 * object behind coercing setters, the extension registry filled from the
 * extensions directory, and the once-only login.
 */
module Clients {
  import opened JsValues
  import opened Strings
  import opened Extensions

  /** The files `loadExtensionDir` hands to `loadExtension`: the entries ending in "index.js", in listing order. */
  function IndexFiles(entries: seq<string>): seq<string> {
    KeepEndingWith(entries, "index.js")
  }

  /** `login(token = this.token)`: an omitted or `undefined` argument falls back to the stored token. */
  function LoginToken(arg: JsValue, stored: JsValue): (r: JsValue)
    ensures arg != Undefined ==> r == arg
    ensures arg == Undefined ==> r == stored
  {
    if arg == Undefined then stored else arg
  }

  /**
   * The tokens a series of `login` calls hands to the transport, when
   * the client starts logged in or not: only the first call of a client
   * not yet logged in gets through; every other call throws first.
   */
  function Transported(loggedIn: bool, args: seq<JsValue>, stored: JsValue): (r: seq<JsValue>)
    ensures |r| <= 1
    ensures |r| == 1 <==> !loggedIn && args != []
    ensures r != [] ==> r[0] == LoginToken(args[0], stored)
    decreases |args|
  {
    if args == [] || loggedIn then []
    else [LoginToken(args[0], stored)] + Transported(true, args[1..], stored)
  }

  /** The transport's login is reached at most once, and exactly once from a fresh client that calls `login`. */
  lemma {:induction false} TransportedOnce(args: seq<JsValue>, stored: JsValue)
    ensures Transported(true, args, stored) == []
    ensures args == [] ==> Transported(false, args, stored) == []
    ensures args != [] ==> Transported(false, args, stored) == [LoginToken(args[0], stored)]
  {
    if args != [] {
      assert Transported(true, args[1..], stored) == [];
    }
  }

  class Client {
    var token: JsValue
    var config: JsValue
    var lang: JsValue
    var loggedIn: bool
    /** `this.extensions`: the loaded extensions by name. */
    var extensions: map<string, Extension>
    /** The extensions whose `onMessage` listens for messages, each once; the order among them is not modelled. */
    var listeners: seq<Extension>
    /** The tokens handed to the transport's login, in order. */
    var logins: seq<JsValue>

    /**
     * What the setters guarantee of the stored values, and the login
     * flag: set exactly when the transport's login has been called, once.
     */
    predicate Valid()
      reads this
    {
      && (token.Str? || token.StringObject?) && IsObject(config) && IsObject(lang)
      && |logins| <= 1
      && (loggedIn <==> |logins| == 1)
    }

    /**
     * `new Client(token, config, lang)` with the extensions directory
     * listing `entries`: the setters, an empty registry, a client not yet
     * logged in, and a message listener for each loaded extension.
     */
    constructor (token: JsValue, config: JsValue, lang: JsValue, entries: seq<string>)
      ensures this.token == CoerceName(token)
      ensures this.config == CoerceObject(config) && this.lang == CoerceObject(lang)
      ensures !loggedIn && logins == []
      ensures extensions == map[] && listeners == []
      ensures Valid()
    {
      new;
      SetToken(token);
      SetConfig(config);
      SetLang(lang);
      extensions := map[];
      loggedIn := false;
      logins := [];
      var visited := LoadExtensionDir(entries);
      Listen();
    }

    /**
     * `this.extensions.forEach(extension => this.client.on("message", …))`:
     * each loaded extension's `onMessage` becomes a message listener.
     */
    method Listen()
      modifies this`listeners
      ensures |listeners| == |extensions.Values|
      ensures forall e :: e in listeners <==> e in extensions.Values
    {
      listeners := [];
      var pending := extensions.Values;
      while pending != {}
        invariant pending <= extensions.Values
        invariant forall e :: e in listeners <==> e in extensions.Values && e !in pending
        invariant |listeners| + |pending| == |extensions.Values|
        decreases pending
      {
        var e :| e in pending;
        listeners := listeners + [e];
        pending := pending - {e};
      }
    }

    /** `set token`: a string is kept, anything else becomes `""`. */
    method SetToken(token: JsValue)
      modifies this`token
      ensures this.token == CoerceName(token)
    {
      this.token := CoerceName(token);
    }

    /** `set config`: a plain object is kept (frozen), anything else becomes `{}`. */
    method SetConfig(config: JsValue)
      modifies this`config
      ensures this.config == CoerceObject(config)
    {
      this.config := CoerceObject(config);
    }

    /** `set lang`: a plain object is kept (frozen), anything else becomes `{}`. */
    method SetLang(lang: JsValue)
      modifies this`lang
      ensures this.lang == CoerceObject(lang)
    {
      this.lang := CoerceObject(lang);
    }

    /** `loadExtension(file, dir)`: its body is empty. */
    method LoadExtension(file: string)
    {
    }

    /**
     * `loadExtensionDir`: `loadExtension` on each entry ending in
     * "index.js", in listing order; the files visited are returned.
     */
    method LoadExtensionDir(entries: seq<string>) returns (visited: seq<string>)
      ensures visited == IndexFiles(entries)
      ensures forall f :: f in visited <==> f in entries && EndsWith(f, "index.js")
    {
      var files := IndexFiles(entries);
      visited := [];
      var i := 0;
      while i < |files|
        invariant 0 <= i <= |files|
        invariant visited == files[..i]
      {
        LoadExtension(files[i]);
        visited := visited + [files[i]];
        i := i + 1;
      }
      assert files[..i] == files;
    }

    /**
     * `login(token = this.token)`: a second call throws before reaching
     * the transport and changes nothing; the first sets the flag and
     * hands the token to the transport.
     */
    method Login(arg: JsValue) returns (threw: bool)
      requires Valid()
      modifies this`loggedIn, this`logins
      ensures Valid()
      ensures threw <==> old(loggedIn)
      ensures threw ==> loggedIn && logins == old(logins)
      ensures !threw ==> loggedIn && logins == old(logins) + [LoginToken(arg, token)]
      ensures logins == old(logins) + Transported(old(loggedIn), [arg], token)
    {
      if loggedIn {
        return true;
      }
      loggedIn := true;
      logins := logins + [LoginToken(arg, token)];
      threw := false;
    }
  }
}
