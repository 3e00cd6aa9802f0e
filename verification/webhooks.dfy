/** The process-wide webhook registry (src/apifairy/decorators.py:143-168):
    endpoint name to a synthetic rule, where registering an endpoint twice fails. */
module Webhooks {
  import opened Wrappers
  import opened Errors

  /** The `WebhookRule` stored for a webhook: the handler (by name), the final
      endpoint key and the one-element method list. */
  datatype WebhookRule = WebhookRule(handler: string, endpoint: string, methods: seq<string>)

  type Registry = map<string, WebhookRule>

  /** The registry key: the explicit endpoint when truthy, else the function's
      name, prefixed by `blueprint.name + '.'` when a blueprint is given. */
  function WebhookKey(functionName: string, blueprint: Option<string>, endpoint: Option<string>): (key: string)
    ensures blueprint.None? && endpoint.Some? && endpoint.value != [] ==> key == endpoint.value
    ensures blueprint.None? && (endpoint.None? || endpoint.value == []) ==> key == functionName
    ensures blueprint.Some? && endpoint.Some? && endpoint.value != [] ==> key == blueprint.value + "." + endpoint.value
    ensures blueprint.Some? && (endpoint.None? || endpoint.value == []) ==> key == blueprint.value + "." + functionName
  {
    var name := if endpoint.Some? && endpoint.value != [] then endpoint.value else functionName;
    if blueprint.Some? then blueprint.value + "." + name else name
  }

  /** `@webhook(method, blueprint, endpoint)` applied to a function: inserts a new
      key, or fails on a key already present, in which case the caller's registry
      is what remains. */
  function Register(registry: Registry, functionName: string, verb: string := "GET",
                    blueprint: Option<string> := None, endpoint: Option<string> := None): (r: Result<Registry, Error>)
    ensures var key := WebhookKey(functionName, blueprint, endpoint);
            && (r.Failure? <==> key in registry)
            && (r.Failure? ==> r.error == DuplicateWebhook(key))
            && (r.Success? ==> r.value.Keys == registry.Keys + {key}
                               && r.value[key] == WebhookRule(functionName, key, [verb])
                               && forall k :: k in registry ==> r.value[k] == registry[k])
  {
    var key := WebhookKey(functionName, blueprint, endpoint);
    if key !in registry then Success(registry[key := WebhookRule(functionName, key, [verb])])
    else Failure(DuplicateWebhook(key))
  }

  /** Bare `@webhook` use: the function itself is passed as `method`, and the
      decorator registers it for GET with no blueprint or endpoint. */
  function RegisterBare(registry: Registry, functionName: string): (r: Result<Registry, Error>)
    ensures r.Success? ==> functionName in r.value && r.value[functionName].methods == ["GET"]
    ensures r.Failure? <==> functionName in registry
  {
    Register(registry, functionName)
  }

  /** Registering a second function under an endpoint already taken fails and the
      first registration is still the one stored. */
  lemma DuplicateKeepsFirst(registry: Registry, first: string, second: string, endpoint: string)
    requires endpoint != [] && endpoint !in registry
    ensures Register(registry, first, endpoint := Some(endpoint)).Success?
    ensures var after := Register(registry, first, endpoint := Some(endpoint)).value;
            && Register(after, second, endpoint := Some(endpoint)) == Failure(DuplicateWebhook(endpoint))
            && after[endpoint].handler == first
  {
  }
}
