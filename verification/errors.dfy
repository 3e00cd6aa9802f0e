/** The exceptions the modelled code raises, as values. */
module Errors {

  datatype Error =
      /** `RuntimeError('Unknown authentication scheme')` for an auth object that is
          neither an `HTTPBasicAuth` nor an `HTTPTokenAuth`. */
    | UnknownAuthenticationScheme
      /** `KeyError` on a descriptor key read with `_spec[key]`. */
    | MissingKey(key: string)
      /** `KeyError` on a status code absent from the HTTP reason-phrase table. */
    | UnknownStatusCode(code: int)
      /** `RuntimeError` raised by `@response` when the handler returned a `Response`. */
    | ResponseObjectReturned
      /** `IndexError` from `rv[0]` on an empty tuple returned by a handler. */
    | EmptyTupleReturned
      /** `ValueError` raised when a webhook endpoint is registered a second time. */
    | DuplicateWebhook(endpoint: string)
}
