/**
 * Reading the build-time environment (src/utils/env.ts): the name a variable
 * is looked up under, and the backend endpoint the front end talks to.
 *
 * `import.meta.env` is a map from names to string values; a name the build did
 * not define is absent. The global `window` is `None` outside a
 * browser.
 */
module Env {
  import opened Wrappers
  import opened Strings

  type Environment = map<string, string>

  const VitePrefix: string := "VITE_"

  function Lookup(env: Environment, name: string): Option<string> {
    if name in env then Some(env[name]) else None
  }

  /** JavaScript's `a ?? b`: `a` unless it is undefined. */
  function Nullish(a: Option<string>, b: Option<string>): (r: Option<string>)
    ensures a.Some? ==> r == a
    ensures a.None? ==> r == b
  {
    if a.Some? then a else b
  }

  /** The name Vite exposes a variable under. */
  function ViteName(name: string): (r: string)
    ensures StartsWith(r, VitePrefix)
    ensures StartsWith(name, VitePrefix) <==> r == name
    ensures !StartsWith(name, VitePrefix) ==> r == VitePrefix + name
  {
    if StartsWith(name, VitePrefix) then name
    else
      var r := VitePrefix + name;
      assert r[..|VitePrefix|] == VitePrefix;
      r
  }

  /** Prefixing is idempotent: a prefixed name is looked up as it is. */
  lemma ViteNameIdempotent(name: string)
    ensures ViteName(ViteName(name)) == ViteName(name)
  {
  }

  function MissingMessage(name: string): string {
    "Environment variable " + name + " is not defined and no fallback provided"
  }

  /** `getEnvVar`: a thrown error is `Failure`. */
  function GetEnvVar(env: Environment, name: string, fallback: Option<string>): Result<string, string> {
    var value := Nullish(Nullish(Lookup(env, ViteName(name)), Lookup(env, name)), fallback);
    if value.None? then Failure(MissingMessage(name)) else Success(value.value)
  }

  /** The prefixed name is read first, then the name as given, then the fallback; only an
      absent value falls through, so an empty string is returned as it is. It fails exactly
      when all three are absent. */
  lemma GetEnvVarOrder(env: Environment, name: string, fallback: Option<string>)
    ensures ViteName(name) in env ==> GetEnvVar(env, name, fallback) == Success(env[ViteName(name)])
    ensures ViteName(name) !in env && name in env ==> GetEnvVar(env, name, fallback) == Success(env[name])
    ensures ViteName(name) !in env && name !in env && fallback.Some? ==>
              GetEnvVar(env, name, fallback) == Success(fallback.value)
    ensures GetEnvVar(env, name, fallback).Failure? <==>
              ViteName(name) !in env && name !in env && fallback.None?
    ensures GetEnvVar(env, name, fallback).Failure? ==> GetEnvVar(env, name, fallback).error == MissingMessage(name)
  {
  }

  /** `getEnvVar` with a fallback, which never throws. */
  function GetEnvVarOr(env: Environment, name: string, fallback: string): string {
    GetEnvVarOrder(env, name, Some(fallback));
    GetEnvVar(env, name, Some(fallback)).value
  }

  /** `getLiteLLMModel`. */
  function LiteLLMModel(env: Environment): string {
    GetEnvVarOr(env, "VITE_LITELLM_MODEL", "gpt-3.5-turbo")
  }

  /** `getApiKey`. */
  function ApiKey(env: Environment): string {
    GetEnvVarOr(env, "VITE_API_KEY", "")
  }

  /** The two named getters read their (already prefixed) variable, the model defaulting to
      `gpt-3.5-turbo` and the key to the empty string; an empty value is kept. */
  lemma NamedGetters(env: Environment)
    ensures "VITE_LITELLM_MODEL" in env ==> LiteLLMModel(env) == env["VITE_LITELLM_MODEL"]
    ensures "VITE_LITELLM_MODEL" !in env ==> LiteLLMModel(env) == "gpt-3.5-turbo"
    ensures "VITE_API_KEY" in env ==> ApiKey(env) == env["VITE_API_KEY"]
    ensures "VITE_API_KEY" !in env ==> ApiKey(env) == ""
  {
  }

  /** `window.location` as far as the endpoint inference reads it. */
  datatype Location = Location(protocol: string, hostname: string, port: string)

  /** The global `window`: `None` outside a browser; a window may lack a `location`. */
  datatype Window = Window(location: Option<Location>)

  const LocalBackend: string := "http://localhost:3001"

  /** The backend guessed from the page: port 3001 of localhost for a local page, port
      3001 of the same host for a page on port 3000, else the page's own origin without a
      port. */
  function Inferred(loc: Location): (r: string)
    ensures r != []
  {
    if loc.hostname == "localhost" || loc.hostname == "127.0.0.1" then LocalBackend
    else if loc.port == "3000" then loc.protocol + "//" + loc.hostname + ":3001"
    else loc.protocol + "//" + loc.hostname
  }

  /** `s.replace(/\/$/, '')`: one trailing slash removed. */
  function StripSlash(s: string): string {
    if |s| > 0 && s[|s| - 1] == '/' then s[..|s| - 1] else s
  }

  /** Exactly one trailing slash comes off, if there is one; nothing else changes. */
  lemma StripSlashSpec(s: string)
    ensures s == StripSlash(s) + (if EndsWith(s, "/") then "/" else "")
    ensures |StripSlash(s)| + 1 >= |s|
  {
    if |s| > 0 && s[|s| - 1] == '/' {
      assert s[|s| - 1..] == "/";
    } else if |s| > 0 {
      assert s[|s| - 1..][0] == s[|s| - 1];
    }
  }

  /** The value an override supplies: `VITE_BACKEND_ENDPOINT`, else `REACT_APP_BACKEND_URL`,
      each only when non-empty. */
  function Configured(env: Environment): Option<string> {
    JsOr(Lookup(env, "VITE_BACKEND_ENDPOINT"), Lookup(env, "REACT_APP_BACKEND_URL"))
  }

  /** The endpoint before the trailing slash comes off; the page is consulted only when it
      has a location. */
  function Candidate(env: Environment, window: Option<Window>): (r: string)
    ensures r != []
  {
    var configured := Configured(env);
    if Truthy(configured) then configured.value
    else if window.Some? && window.value.location.Some? then Inferred(window.value.location.value)
    else LocalBackend
  }

  /** `getBackendEndpoint`. The mixed-content warning reads `window.location.protocol`
      without checking that the location exists, so a window without one makes the call
      throw a `TypeError`, written `None`; the warning itself only writes to the console. */
  function BackendEndpoint(env: Environment, window: Option<Window>): Option<string> {
    var candidate := StripSlash(Candidate(env, window));
    if window.Some? && window.value.location.None? then None else Some(candidate)
  }

  /** A non-empty `VITE_BACKEND_ENDPOINT` wins, then a non-empty `REACT_APP_BACKEND_URL`,
      then the guess from the page, then port 3001 of localhost; the winner loses at most
      one trailing slash. The call throws exactly when there is a window without a
      location, whatever the configuration. */
  lemma BackendEndpointPriority(env: Environment, window: Option<Window>)
    ensures BackendEndpoint(env, window).None? <==> window.Some? && window.value.location.None?
    ensures BackendEndpoint(env, window).Some? && Truthy(Lookup(env, "VITE_BACKEND_ENDPOINT")) ==>
              BackendEndpoint(env, window).value == StripSlash(env["VITE_BACKEND_ENDPOINT"])
    ensures BackendEndpoint(env, window).Some? && !Truthy(Lookup(env, "VITE_BACKEND_ENDPOINT"))
              && Truthy(Lookup(env, "REACT_APP_BACKEND_URL")) ==>
              BackendEndpoint(env, window).value == StripSlash(env["REACT_APP_BACKEND_URL"])
    ensures !Truthy(Configured(env)) && window.Some? && window.value.location.Some? ==>
              BackendEndpoint(env, window) == Some(StripSlash(Inferred(window.value.location.value)))
    ensures !Truthy(Configured(env)) && window.None? ==> BackendEndpoint(env, window) == Some(LocalBackend)
  {
  }

  /** The page-based guess: a local page always talks to localhost:3001, a page on port
      3000 to port 3001 of its host, and any other page to its own host with no port. */
  lemma InferredCases(loc: Location)
    ensures loc.hostname == "localhost" || loc.hostname == "127.0.0.1" ==> Inferred(loc) == LocalBackend
    ensures loc.hostname != "localhost" && loc.hostname != "127.0.0.1" ==>
              StartsWith(Inferred(loc), loc.protocol + "//" + loc.hostname)
    ensures loc.hostname != "localhost" && loc.hostname != "127.0.0.1" && loc.port == "3000" ==>
              Inferred(loc) == loc.protocol + "//" + loc.hostname + ":3001"
    ensures loc.hostname != "localhost" && loc.hostname != "127.0.0.1" && loc.port != "3000" ==>
              Inferred(loc) == loc.protocol + "//" + loc.hostname
  {
    var base := loc.protocol + "//" + loc.hostname;
    assert (base + ":3001")[..|base|] == base;
  }
}
