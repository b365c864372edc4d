/** The lazily created, preference-keyed embeddings client of
    src/modules/components/embeddings.ts. The module keeps one client and the
    base URL and model name it was built with; `getEmbeddingInstance` rebuilds
    it when either preference no longer matches, and `resetEmbeddingInstance`
    forgets it. The client itself (`new OllamaEmbeddings(...)`) is foreign: it
    either yields a new object, identified here by a number, or throws. */
module Embeddings {
  import opened Wrappers
  import opened JsText

  /** Identity of a constructed client object. */
  type InstanceId = nat

  /** What the foreign constructor does on a given call. */
  datatype Construction = Constructs | Throws(reason: string)

  /** Why `getEmbeddingInstance` throws. `missing` is the comma-separated list
      of missing settings the message names; the surrounding message text is
      not modelled. */
  datatype EmbeddingError =
    | ConfigIncomplete(missing: string)
    | ConstructionFailed(reason: string)

  /** The module-level variables (`embeddings`, `_currentApiKey`,
      `_currentBaseURL`, `_currentModelName`; `None` is `null`) and the number
      of clients constructed so far, from which a new client's identity is
      drawn. */
  datatype CacheState = CacheState(
    instance: Option<InstanceId>,
    apiKey: Option<string>,
    baseURL: Option<string>,
    modelName: Option<string>,
    constructed: nat)

  /** The state after one call and what the call returned or threw. */
  datatype Acquisition = Acquisition(next: CacheState, result: Result<InstanceId, EmbeddingError>)

  /** The state when the module is first loaded. */
  const Initial := CacheState(None, None, None, None, 0)

  /** A preference value is truthy: present and not the empty string. */
  predicate IsSet(pref: Option<string>) {
    pref.Some? && pref.value != ""
  }

  /** `cached !== pref`. The cache holds `null` or a string; an unset
      preference reads as `undefined`, and `null !== undefined`. */
  predicate Differs(cached: Option<string>, pref: Option<string>) {
    pref.None? || cached != pref
  }

  /** The cached client may not be reused for these preferences. */
  predicate NeedsRecreate(s: CacheState, baseURL: Option<string>, modelName: Option<string>) {
    s.instance.None? || Differs(s.baseURL, baseURL) || Differs(s.modelName, modelName)
  }

  /** The names of the missing settings, "Base URL" before "Model Name",
      separated by ", ". */
  function MissingSettings(baseURL: Option<string>, modelName: Option<string>): (r: string)
    ensures r == "" <==> IsSet(baseURL) && IsSet(modelName)
    ensures !IsSet(baseURL) && !IsSet(modelName) ==> r == "Base URL, Model Name"
    ensures !IsSet(baseURL) && IsSet(modelName) ==> r == "Base URL"
    ensures IsSet(baseURL) && !IsSet(modelName) ==> r == "Model Name"
  {
    var names := (if IsSet(baseURL) then [] else ["Base URL"]) + (if IsSet(modelName) then [] else ["Model Name"]);
    assert |names| == 2 ==> names[..1] == ["Base URL"] && Join(names, ", ") == "Base URL" + ", " + "Model Name";
    Join(names, ", ")
  }

  /** `resetEmbeddingInstance`. */
  function Cleared(s: CacheState): (t: CacheState)
    ensures t.instance.None? && t.apiKey.None? && t.baseURL.None? && t.modelName.None?
    ensures t.constructed == s.constructed
  {
    CacheState(None, None, None, None, s.constructed)
  }

  /** `getEmbeddingInstance` with the preferences `baseURL` and `modelName`
      as read at the call, and `ctor` the constructor's behaviour. */
  function Acquire(s: CacheState, baseURL: Option<string>, modelName: Option<string>, ctor: Construction): (a: Acquisition)
    ensures !NeedsRecreate(s, baseURL, modelName) ==> a == Acquisition(s, Ok(s.instance.value))
    ensures NeedsRecreate(s, baseURL, modelName) && !(IsSet(baseURL) && IsSet(modelName)) ==>
      a == Acquisition(s, Err(ConfigIncomplete(MissingSettings(baseURL, modelName))))
    ensures a.result.Ok? ==>
      a.next.instance == Some(a.result.value) && a.next.baseURL == baseURL && a.next.modelName == modelName
    ensures a.result.Ok? && a.next != s ==>
      a.result.value == s.constructed && a.next.constructed == s.constructed + 1
    ensures a.result.Err? ==>
      && a.next.baseURL == s.baseURL && a.next.modelName == s.modelName
      && a.next.constructed == s.constructed
      && (a.result.error.ConstructionFailed? ==> a.next.instance.None?)
    ensures NeedsRecreate(s, baseURL, modelName) && IsSet(baseURL) && IsSet(modelName) ==>
      && a.result == (match ctor
                      case Constructs => Ok(s.constructed)
                      case Throws(reason) => Err(ConstructionFailed(reason)))
      && (ctor.Throws? ==> a.next.instance.None?)
    ensures a.next.apiKey == s.apiKey
  {
    if !NeedsRecreate(s, baseURL, modelName) then
      Acquisition(s, Ok(s.instance.value))
    else if !IsSet(baseURL) || !IsSet(modelName) then
      Acquisition(s, Err(ConfigIncomplete(MissingSettings(baseURL, modelName))))
    else
      match ctor
      case Constructs =>
        Acquisition(
          s.(instance := Some(s.constructed), baseURL := baseURL, modelName := modelName,
             constructed := s.constructed + 1),
          Ok(s.constructed))
      case Throws(reason) =>
        Acquisition(s.(instance := None), Err(ConstructionFailed(reason)))
  }

  // ---------------------------------------------------------------------------
  // The module state, updated in place
  // ---------------------------------------------------------------------------

  class EmbeddingsModule {
    var embeddings: Option<InstanceId>
    var currentApiKey: Option<string>
    var currentBaseURL: Option<string>
    var currentModelName: Option<string>
    var constructed: nat

    function State(): CacheState
      reads this
    {
      CacheState(embeddings, currentApiKey, currentBaseURL, currentModelName, constructed)
    }

    /** The module as first loaded: every variable `null`. */
    constructor ()
      ensures State() == Initial
    {
      embeddings, currentApiKey, currentBaseURL, currentModelName := None, None, None, None;
      constructed := 0;
    }

    /** `resetEmbeddingInstance`: all four variables become `null`. */
    method ResetEmbeddingInstance()
      modifies this
      ensures embeddings.None? && currentApiKey.None? && currentBaseURL.None? && currentModelName.None?
      ensures constructed == old(constructed)
      ensures State() == Cleared(old(State()))
    {
      embeddings := None;
      currentApiKey := None;
      currentBaseURL := None;
      currentModelName := None;
    }

    /** `getEmbeddingInstance`: reuse the cached client when both preferences
        still equal the cached ones, else check them and build a new client. */
    method GetEmbeddingInstance(baseURL: Option<string>, modelName: Option<string>, ctor: Construction)
      returns (r: Result<InstanceId, EmbeddingError>)
      modifies this
      ensures Acquisition(State(), r) == Acquire(old(State()), baseURL, modelName, ctor)
      ensures r.Ok? ==> embeddings == Some(r.value)
      ensures !NeedsRecreate(old(State()), baseURL, modelName) ==> r == Ok(old(embeddings).value) && unchanged(this)
    {
      if embeddings.None? || Differs(currentBaseURL, baseURL) || Differs(currentModelName, modelName) {
        if !IsSet(baseURL) || !IsSet(modelName) {
          return Err(ConfigIncomplete(MissingSettings(baseURL, modelName)));
        }
        match ctor {
          case Constructs =>
            embeddings := Some(constructed);
            constructed := constructed + 1;
            currentBaseURL := baseURL;
            currentModelName := modelName;
          case Throws(reason) =>
            embeddings := None;
            return Err(ConstructionFailed(reason));
        }
      }
      // The defensive null check that follows in the source never fires:
      // `embeddings` is provably set here.
      r := Ok(embeddings.value);
    }
  }

  // ---------------------------------------------------------------------------
  // Properties over several calls
  // ---------------------------------------------------------------------------

  /** The state every sequence of calls keeps: a cached client was built with
      the cached, non-empty preferences and is one of those constructed so
      far; the cached API key is only ever `null`. */
  predicate Consistent(s: CacheState) {
    && (s.instance.Some? ==> s.instance.value < s.constructed && IsSet(s.baseURL) && IsSet(s.modelName))
    && (s.baseURL.Some? ==> s.baseURL.value != "")
    && (s.modelName.Some? ==> s.modelName.value != "")
    && s.apiKey.None?
  }

  lemma ConsistentInitially()
    ensures Consistent(Initial)
    ensures forall s :: Consistent(Cleared(s))
  {
  }

  lemma AcquireKeepsConsistent(s: CacheState, baseURL: Option<string>, modelName: Option<string>, ctor: Construction)
    requires Consistent(s)
    ensures Consistent(Acquire(s, baseURL, modelName, ctor).next)
  {
  }

  /** A successful call returns the cached client: calling again with the same
      preferences returns the same client, constructs nothing and changes
      nothing, whatever the constructor would do. */
  lemma SamePreferencesReuse(
    s: CacheState, baseURL: Option<string>, modelName: Option<string>, ctor1: Construction, ctor2: Construction)
    requires Acquire(s, baseURL, modelName, ctor1).result.Ok?
    ensures var a := Acquire(s, baseURL, modelName, ctor1);
      Acquire(a.next, baseURL, modelName, ctor2) == a
  {
  }

  /** When a preference differs from the cached one, a successful call
      returns a client that was not handed out before. */
  lemma ChangedPreferenceGivesNewClient(
    s: CacheState, baseURL: Option<string>, modelName: Option<string>, ctor: Construction)
    requires Consistent(s) && s.instance.Some?
    requires Differs(s.baseURL, baseURL) || Differs(s.modelName, modelName)
    requires Acquire(s, baseURL, modelName, ctor).result.Ok?
    ensures Acquire(s, baseURL, modelName, ctor).result.value !in {s.instance.value}
    ensures Acquire(s, baseURL, modelName, ctor).result.value == s.constructed
  {
  }

  /** After a reset, a call with complete preferences always constructs: it
      returns a new client, or fails with the constructor's error. */
  lemma ResetForcesConstruction(
    s: CacheState, baseURL: Option<string>, modelName: Option<string>, ctor: Construction)
    requires IsSet(baseURL) && IsSet(modelName)
    ensures Acquire(Cleared(s), baseURL, modelName, ctor).result ==
      match ctor
      case Constructs => Ok(s.constructed)
      case Throws(reason) => Err(ConstructionFailed(reason))
  {
  }

  /** The cached API key takes no part in the decision: states that differ
      only in it behave alike. */
  lemma ApiKeyIgnored(
    s: CacheState, key: Option<string>, baseURL: Option<string>, modelName: Option<string>, ctor: Construction)
    ensures var a := Acquire(s, baseURL, modelName, ctor);
      Acquire(s.(apiKey := key), baseURL, modelName, ctor) == Acquisition(a.next.(apiKey := key), a.result)
  {
  }
}
