/**
 * Normalisation of the model list the server reports (`getModels` and
 * `getFallbackModels` in src/utils/chatAPIProxy.ts and src/utils/chatAPI.ts).
 *
 * The decoded JSON body is given by its shape: an object whose `data` field is
 * an array, a bare array, any other object, or something else. A model record
 * is given by the string fields the code reads; a field the JSON lacks is `None`.
 * An element of a list may be `null` (or `undefined`), written `None`: reading a
 * field of it throws a `TypeError` inside the `try` of `getModels`.
 */
module ModelCatalog {
  import opened Wrappers
  import opened Strings

  /** The fields of one model record that the clients read. */
  datatype RawModel = RawModel(
    modelName: Option<string>,          // model_name
    id: Option<string>,                 // id
    name: Option<string>,               // name
    paramsCustomProvider: Option<string>, // litellm_params.custom_llm_provider
    infoProvider: Option<string>,       // model_info.litellm_provider
    paramsProvider: Option<string>,     // litellm_params.litellm_provider
    provider: Option<string>)           // litellm_provider

  /** The shapes of response the clients tell apart, in the order they test them. */
  datatype Payload =
    | Wrapped(items: seq<Option<RawModel>>)   // `data.data` is an array (possibly empty)
    | Bare(items: seq<Option<RawModel>>)      // the body is itself an array
    | Single(model: RawModel)         // any other object
    | Other                           // null, a string, a number

  /** A `ModelInfo` as the clients build it; `object` is always `model`. */
  datatype ModelInfo = ModelInfo(id: Option<string>, object: string, provider: string)

  /** What the HTTP call gave back: a decoded body, or a thrown error. */
  datatype Fetch =
    | Fetched(payload: Payload)
    | FetchError(isAxiosError: bool, code: Option<string>, message: string)

  function Info(id: Option<string>, provider: string): ModelInfo {
    ModelInfo(id, "model", provider)
  }

  /** The five models offered when the server cannot be asked. */
  const Fallback: seq<ModelInfo> := [
    Info(Some("gpt-3.5-turbo"), "openai"),
    Info(Some("gpt-4"), "openai"),
    Info(Some("claude-3-haiku-20240307"), "anthropic"),
    Info(Some("claude-3-sonnet-20240229"), "anthropic"),
    Info(Some("gemini-pro"), "vertex_ai")
  ]

  // ----- reference definitions of JavaScript's priority rules -----

  /** The first truthy candidate, else `fallback`: a chain of `if (a) … else if (b) …`. */
  function FirstTruthy(cands: seq<Option<string>>, fallback: string): string {
    if |cands| == 0 then fallback
    else if Truthy(cands[0]) then cands[0].value
    else FirstTruthy(cands[1..], fallback)
  }

  lemma FirstTruthyCons(c: Option<string>, rest: seq<Option<string>>, fallback: string)
    ensures FirstTruthy([c] + rest, fallback) == if Truthy(c) then c.value else FirstTruthy(rest, fallback)
  {
    assert ([c] + rest)[1..] == rest;
  }

  /** `FirstTruthy` picks the earliest truthy candidate. */
  lemma {:induction false} FirstTruthyPicksEarliest(cands: seq<Option<string>>, fallback: string, i: nat)
    requires i < |cands| && Truthy(cands[i])
    requires forall j :: 0 <= j < i ==> !Truthy(cands[j])
    ensures FirstTruthy(cands, fallback) == cands[i].value
  {
    if i > 0 {
      assert !Truthy(cands[0]);
      FirstTruthyPicksEarliest(cands[1..], fallback, i - 1);
    }
  }

  /** With no truthy candidate, `FirstTruthy` gives the fallback. */
  lemma {:induction false} FirstTruthyDefault(cands: seq<Option<string>>, fallback: string)
    requires forall j :: 0 <= j < |cands| ==> !Truthy(cands[j])
    ensures FirstTruthy(cands, fallback) == fallback
  {
    if |cands| > 0 {
      assert !Truthy(cands[0]);
      FirstTruthyDefault(cands[1..], fallback);
    }
  }

  // ----- the proxy client (src/utils/chatAPIProxy.ts) -----

  /** The `if … else if …` chain that picks a provider, defaulting to `openai`. */
  function ProxyProvider(m: RawModel): string {
    if Truthy(m.paramsCustomProvider) then m.paramsCustomProvider.value
    else if Truthy(m.infoProvider) then m.infoProvider.value
    else if Truthy(m.paramsProvider) then m.paramsProvider.value
    else if Truthy(m.provider) then m.provider.value
    else "openai"
  }

  function ProviderCandidates(m: RawModel): seq<Option<string>> {
    [m.paramsCustomProvider, m.infoProvider, m.paramsProvider, m.provider]
  }

  /** The provider is the first truthy of `litellm_params.custom_llm_provider`,
      `model_info.litellm_provider`, `litellm_params.litellm_provider` and
      `litellm_provider`, else `openai`. */
  lemma ProxyProviderPriority(m: RawModel)
    ensures ProxyProvider(m) == FirstTruthy(ProviderCandidates(m), "openai")
  {
    FirstTruthyCons(m.provider, [], "openai");
    FirstTruthyCons(m.paramsProvider, [m.provider], "openai");
    FirstTruthyCons(m.infoProvider, [m.paramsProvider, m.provider], "openai");
    FirstTruthyCons(m.paramsCustomProvider, [m.infoProvider, m.paramsProvider, m.provider], "openai");
  }

  function ProxyWrapped(m: RawModel): ModelInfo {
    Info(JsOr(m.modelName, m.id), ProxyProvider(m))
  }

  function ProxyBare(m: RawModel): ModelInfo {
    Info(JsOr(m.id, JsOr(m.modelName, m.name)), ProxyProvider(m))
  }

  function ProxySingle(m: RawModel): ModelInfo {
    Info(JsOr(m.id, m.modelName), ProxyProvider(m))
  }

  function MapModels(items: seq<RawModel>, f: RawModel -> ModelInfo): (r: seq<ModelInfo>)
    ensures |r| == |items| && forall i :: 0 <= i < |r| ==> r[i] == f(items[i])
  {
    if |items| == 0 then [] else [f(items[0])] + MapModels(items[1..], f)
  }

  /** The records of a list, or `None` when one of its elements is `null`, whose first
      field access makes the `map` callback throw. */
  function Records(items: seq<Option<RawModel>>): (r: Option<seq<RawModel>>)
    ensures r.Some? <==> forall i :: 0 <= i < |items| ==> items[i].Some?
    ensures r.Some? ==> |r.value| == |items| && forall i :: 0 <= i < |items| ==> r.value[i] == items[i].value
  {
    if |items| == 0 then Some([])
    else if items[0].None? then None
    else match Records(items[1..])
      case None => None
      case Some(rest) => Some([items[0].value] + rest)
  }

  /** The body is a list with a `null` element. */
  predicate HoldsNull(p: Payload) {
    (p.Wrapped? || p.Bare?) && Records(p.items).None?
  }

  /** `getModels` of the proxy client: it never throws, its `catch` answering every error
      with the fallback list. */
  function ProxyGetModels(f: Fetch): seq<ModelInfo> {
    match f
    case FetchError(_, _, _) => Fallback
    case Fetched(p) =>
      match p
      case Wrapped(items) =>
        (match Records(items) case None => Fallback case Some(ms) => MapModels(ms, ProxyWrapped))
      case Bare(items) =>
        (match Records(items) case None => Fallback case Some(ms) => MapModels(ms, ProxyBare))
      case Single(m) => if Truthy(m.id) || Truthy(m.modelName) then [ProxySingle(m)] else Fallback
      case Other => Fallback
  }

  /** The id the proxy client keeps: `model_name` first for the `{data: [...]}` shape,
      but `id` first for a bare array; a record that names itself is never left without
      an id. */
  lemma ProxyIdChoice(m: RawModel)
    ensures Truthy(m.modelName) ==> ProxyWrapped(m).id == m.modelName
    ensures !Truthy(m.modelName) ==> ProxyWrapped(m).id == m.id
    ensures Truthy(m.id) ==> ProxyBare(m).id == m.id
    ensures !Truthy(m.id) && Truthy(m.modelName) ==> ProxyBare(m).id == m.modelName
    ensures !Truthy(m.id) && !Truthy(m.modelName) ==> ProxyBare(m).id == m.name
    ensures (Truthy(m.id) || Truthy(m.modelName)) ==> Truthy(ProxyWrapped(m).id) && Truthy(ProxyBare(m).id)
  {
  }

  /** The proxy client answers with the five fallback models on any error, on a body it
      does not recognise and on a list holding `null`; any other list keeps its length and
      order, each entry taking its provider by priority. */
  lemma ProxyGetModelsShape(f: Fetch)
    ensures f.FetchError? ==> ProxyGetModels(f) == Fallback
    ensures f.Fetched? && f.payload.Other? ==> ProxyGetModels(f) == Fallback
    ensures f.Fetched? && f.payload.Single? ==>
              (ProxyGetModels(f) == Fallback <==> !Truthy(f.payload.model.id) && !Truthy(f.payload.model.modelName))
    ensures f.Fetched? && HoldsNull(f.payload) ==> ProxyGetModels(f) == Fallback
    ensures f.Fetched? && (f.payload.Wrapped? || f.payload.Bare?) && !HoldsNull(f.payload) ==>
              |ProxyGetModels(f)| == |f.payload.items|
              && forall i :: 0 <= i < |f.payload.items| ==>
                   ProxyGetModels(f)[i].provider == FirstTruthy(ProviderCandidates(f.payload.items[i].value), "openai")
  {
    if f.Fetched? && (f.payload.Wrapped? || f.payload.Bare?) && !HoldsNull(f.payload) {
      forall i | 0 <= i < |f.payload.items|
        ensures ProxyGetModels(f)[i].provider == FirstTruthy(ProviderCandidates(f.payload.items[i].value), "openai")
      {
        ProxyProviderPriority(f.payload.items[i].value);
      }
    }
    if f.Fetched? && f.payload.Single? && (Truthy(f.payload.model.id) || Truthy(f.payload.model.modelName)) {
      assert |ProxyGetModels(f)| == 1 != |Fallback|;
    }
  }

  /** A single object that names itself is wrapped as a one-model list: its `id`, else its
      `model_name`, with the provider by priority. */
  lemma ProxySingleWraps(m: RawModel)
    requires Truthy(m.id) || Truthy(m.modelName)
    ensures ProxyGetModels(Fetched(Single(m)))
            == [Info(if Truthy(m.id) then m.id else m.modelName, FirstTruthy(ProviderCandidates(m), "openai"))]
    ensures Truthy(ProxyGetModels(Fetched(Single(m)))[0].id)
  {
    ProxyProviderPriority(m);
  }

  // ----- the direct client (src/utils/chatAPI.ts) -----

  /** The error the direct client throws when it gives up. */
  const FetchFailed: string := "Failed to fetch models from LiteLLM"

  function DirectWrapped(m: RawModel): ModelInfo {
    Info(JsOr(m.modelName, m.id), OrElse(JsOr(m.paramsProvider, m.infoProvider), "unknown"))
  }

  function DirectBare(m: RawModel): ModelInfo {
    Info(JsOr(m.id, JsOr(m.modelName, m.name)), OrElse(m.provider, "unknown"))
  }

  function DirectSingle(m: RawModel): ModelInfo {
    Info(JsOr(m.id, m.modelName), OrElse(m.provider, "unknown"))
  }

  /** The direct client falls back only when the server could not be reached. */
  predicate Unreachable(isAxiosError: bool, code: Option<string>, message: string) {
    isAxiosError && (code == Some("ECONNREFUSED") || Contains(message, "timeout"))
  }

  /** `getModels` of the direct client: a thrown error is `Failure`. */
  function DirectGetModels(f: Fetch): Result<seq<ModelInfo>, string> {
    match f
    case FetchError(isAxios, code, message) =>
      if Unreachable(isAxios, code, message) then Success(Fallback) else Failure(FetchFailed)
    case Fetched(p) =>
      match p
      case Wrapped(items) =>
        (match Records(items) case None => Failure(FetchFailed) case Some(ms) => Success(MapModels(ms, DirectWrapped)))
      case Bare(items) =>
        (match Records(items) case None => Failure(FetchFailed) case Some(ms) => Success(MapModels(ms, DirectBare)))
      case Single(m) => Success(if Truthy(m.id) || Truthy(m.modelName) then [DirectSingle(m)] else Fallback)
      case Other => Success(Fallback)
  }

  /** The direct client's providers: `litellm_params.litellm_provider`, then
      `model_info.litellm_provider`, then `unknown` for the `{data: [...]}` shape, and
      `litellm_provider`, then `unknown`, for the other two shapes. */
  lemma DirectProviderPriority(m: RawModel)
    ensures DirectWrapped(m).provider == FirstTruthy([m.paramsProvider, m.infoProvider], "unknown")
    ensures DirectBare(m).provider == FirstTruthy([m.provider], "unknown")
    ensures DirectSingle(m).provider == FirstTruthy([m.provider], "unknown")
  {
    FirstTruthyCons(m.infoProvider, [], "unknown");
    FirstTruthyCons(m.paramsProvider, [m.infoProvider], "unknown");
    FirstTruthyCons(m.provider, [], "unknown");
  }

  /** The direct client throws exactly when the error is not an unreachable server, or the
      body is a list holding `null` (a `TypeError` is no axios error); any other body it
      reads without throwing. */
  lemma DirectGetModelsFails(f: Fetch)
    ensures DirectGetModels(f).Failure? <==>
              (f.FetchError? && !Unreachable(f.isAxiosError, f.code, f.message)) || (f.Fetched? && HoldsNull(f.payload))
    ensures DirectGetModels(f).Failure? ==> DirectGetModels(f).error == FetchFailed
    ensures f.FetchError? && Unreachable(f.isAxiosError, f.code, f.message) ==> DirectGetModels(f) == Success(Fallback)
  {
  }

  /** A single object that names itself is wrapped as a one-model list: its `id`, else its
      `model_name`, with `litellm_provider`, else `unknown`. */
  lemma DirectSingleWraps(m: RawModel)
    requires Truthy(m.id) || Truthy(m.modelName)
    ensures DirectGetModels(Fetched(Single(m)))
            == Success([Info(if Truthy(m.id) then m.id else m.modelName, FirstTruthy([m.provider], "unknown"))])
  {
    DirectProviderPriority(m);
  }

  /** On a list holding `null` the proxy client falls back while the direct client throws.
      On every other body the two clients keep the same models, with the same ids, in the
      same order; they may differ only in the provider names. */
  lemma ClientsAgreeOnIds(f: Fetch)
    requires f.Fetched?
    ensures HoldsNull(f.payload) ==> ProxyGetModels(f) == Fallback && DirectGetModels(f) == Failure(FetchFailed)
    ensures DirectGetModels(f).Success? <==> !HoldsNull(f.payload)
    ensures !HoldsNull(f.payload) ==>
              |DirectGetModels(f).value| == |ProxyGetModels(f)|
              && forall i :: 0 <= i < |ProxyGetModels(f)| ==> DirectGetModels(f).value[i].id == ProxyGetModels(f)[i].id
  {
  }
}
