/** The `apispec` property (src/apifairy/core.py:82-87): the document is
    generated on first access, passed through the application's
    post-processing callback when one is registered, and kept for every later
    access. The generator and the callback are parameters: `generated` is
    what a call to the generator would give, and `hook` is the callback, which
    may raise. */
module SpecCache {
  import opened Wrappers
  import opened Errors

  /** The outcome of one access: what it returns and the cache it leaves. */
  datatype Access<D> = Access(result: Result<Option<D>, Error>, cache: Option<D>)

  /** What a raising callback leaves behind: the exception, and the document
      it was handed as it stands when the exception is raised. The callback
      is handed the cached document itself, so edits made before raising
      stay in the cache. */
  datatype Raised<D> = Raised(error: Error, left: D)

  /** The callback: it returns the document to keep (possibly nothing) or raises. */
  type Hook<!D> = D -> Result<Option<D>, Raised<D>>

  /** One access to the property. An empty cache is filled from the
      generator; a failing generator leaves it empty. The generated document
      is stored before the callback runs, so a raising callback leaves that
      document cached, with whatever edits the callback made to it. The callback may return nothing, which leaves the cache
      empty, so that the next access generates again. */
  function ApiSpec<D>(cache: Option<D>, generated: Result<D, Error>, hook: Option<Hook<D>>): (a: Access<D>)
    ensures cache.Some? ==> a == Access(Success(cache), cache)
    ensures cache.None? ==>
              (a.result.Success? <==> generated.Success? && (hook.None? || hook.value(generated.value).Success?))
    ensures a.result.Success? ==> a.result.value == a.cache
    ensures cache.None? && generated.Failure? ==> a == Access(Failure(generated.error), None)
    ensures cache.None? && generated.Success? && hook.None? ==> a.cache == Some(generated.value)
    ensures cache.None? && generated.Success? && hook.Some? ==>
              var out := hook.value(generated.value);
              && (out.Success? ==> a.cache == out.value)
              && (out.Failure? ==> a == Access(Failure(out.error.error), Some(out.error.left)))
  {
    if cache.Some? then Access(Success(cache), cache)
    else
      match generated
      case Failure(e) => Access(Failure(e), None)
      case Success(doc) =>
        if hook.None? then Access(Success(Some(doc)), Some(doc))
        else
          match hook.value(doc)
          case Failure(raised) => Access(Failure(raised.error), Some(raised.left))
          case Success(kept) => Access(Success(kept), kept)
  }

  /** Once an access has filled the cache, every later access returns the
      same document, whatever the generator and the callback would now give:
      the document is generated and post-processed at most once. */
  lemma ApiSpecIsCached<D>(cache: Option<D>, generated: Result<D, Error>, hook: Option<Hook<D>>,
                          generated2: Result<D, Error>, hook2: Option<Hook<D>>)
    requires ApiSpec(cache, generated, hook).cache.Some?
    ensures var first := ApiSpec(cache, generated, hook);
            ApiSpec(first.cache, generated2, hook2) == Access(Success(first.cache), first.cache)
  {
  }

  /** A failed generation changes nothing: the next access starts afresh. */
  lemma ApiSpecRetriesAfterFailure<D>(generated: Result<D, Error>, hook: Option<Hook<D>>,
                                      generated2: Result<D, Error>, hook2: Option<Hook<D>>)
    requires generated.Failure?
    ensures ApiSpec(ApiSpec(None, generated, hook).cache, generated2, hook2) == ApiSpec(None, generated2, hook2)
  {
  }

  /** A raising callback is not retried: the access that raised cached the
      document as the callback left it, and the next access returns that
      document without generating or calling back again. */
  lemma ApiSpecKeepsLeftAfterHookFailure<D>(doc: D, hook: Hook<D>, generated2: Result<D, Error>,
                                            hook2: Option<Hook<D>>)
    requires hook(doc).Failure?
    ensures ApiSpec(None, Success(doc), Some(hook)).result == Failure(hook(doc).error.error)
    ensures ApiSpec(ApiSpec(None, Success(doc), Some(hook)).cache, generated2, hook2)
            == Access(Success(Some(hook(doc).error.left)), Some(hook(doc).error.left))
  {
  }

  /** A callback that raises without touching its argument leaves the
      document exactly as generated. */
  lemma ApiSpecKeepsGeneratedAfterUntouchedFailure<D>(doc: D, hook: Hook<D>)
    requires hook(doc).Failure? && hook(doc).error.left == doc
    ensures ApiSpec(None, Success(doc), Some(hook)).cache == Some(doc)
  {
  }

}
