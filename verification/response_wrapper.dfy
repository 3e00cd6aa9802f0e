/** The return-value normaliser installed by `@response`
    (src/apifairy/decorators.py:111-130): whatever the handler returns becomes
    a serialised body with a status and, when the handler gave them, headers. */
module ResponseWrapper {
  import opened Wrappers
  import opened Errors

  /** One Python value a handler may return or put in its result tuple: an
      integer (what `isinstance(x, int)` accepts) or anything else. */
  datatype Item<V> = IntItem(n: int) | OtherItem(v: V)

  /** A handler's return value: a single non-tuple value, a tuple, or a Flask
      `Response` object. */
  datatype ReturnValue<V> = Plain(item: Item<V>) | Tuple(items: seq<Item<V>>) | ResponseInstance

  /** What the wrapper returns to Flask: `(body, status)` when `headers` is
      `None`, `(body, status, headers)` otherwise. */
  datatype Reply<J, V> = Reply(body: J, status: Item<V>, headers: Option<Item<V>>)

  /** The first value of a return value: the value itself, or the tuple's first item. */
  function Payload<V>(rv: ReturnValue<V>): Option<Item<V>> {
    match rv
    case Plain(item) => Some(item)
    case Tuple(items) => if items == [] then None else Some(items[0])
    case ResponseInstance => None
  }

  /** Whether the handler chose its own status: a second tuple item that is an
      integer, or any second item of a tuple of three or more. */
  predicate ChoosesStatus<V>(rv: ReturnValue<V>) {
    rv.Tuple? && (|rv.items| >= 3 || (|rv.items| == 2 && rv.items[1].IntItem?))
  }

  /** Whether the handler supplied headers: a non-integer second item of a pair,
      or the third item of a longer tuple. */
  predicate SuppliesHeaders<V>(rv: ReturnValue<V>) {
    rv.Tuple? && (|rv.items| >= 3 || (|rv.items| == 2 && !rv.items[1].IntItem?))
  }

  /** The `_response` wrapper: rejects a `Response` object and an empty tuple
      (whose `rv[0]` raises); otherwise the body is `jsonify` of the first value,
      the status is the handler's own when it chose one and the declared
      `statusCode` otherwise, and headers are present exactly when supplied. */
  function Wrap<V, J>(rv: ReturnValue<V>, jsonify: Item<V> -> J, statusCode: int): (r: Result<Reply<J, V>, Error>)
    ensures rv.ResponseInstance? ==> r == Failure(ResponseObjectReturned)
    ensures r.Success? <==> Payload(rv).Some?
    ensures r.Success? ==> r.value.body == jsonify(Payload(rv).value)
    ensures r.Success? ==> (r.value.status == IntItem(statusCode) || ChoosesStatus(rv))
    ensures r.Success? && ChoosesStatus(rv) ==> r.value.status == rv.items[1]
    ensures r.Success? ==> (r.value.headers.Some? <==> SuppliesHeaders(rv))
    ensures r.Success? && r.value.headers.Some? ==>
              r.value.headers.value == (if |rv.items| == 2 then rv.items[1] else rv.items[2])
  {
    match rv
    case ResponseInstance => Failure(ResponseObjectReturned)
    case Tuple(items) =>
      if items == [] then Failure(EmptyTupleReturned)
      else
        var json := jsonify(items[0]);
        if |items| == 2 then
          if !items[1].IntItem? then Success(Reply(json, IntItem(statusCode), Some(items[1])))
          else Success(Reply(json, items[1], None))
        else if |items| >= 3 then Success(Reply(json, items[1], Some(items[2])))
        else Success(Reply(json, IntItem(statusCode), None))
    case Plain(item) => Success(Reply(jsonify(item), IntItem(statusCode), None))
  }

  /** A plain value and the same value as a one-element tuple are answered alike,
      with the declared status and no headers. */
  lemma PlainAndSingletonAgree<V, J>(x: Item<V>, jsonify: Item<V> -> J, statusCode: int)
    ensures Wrap(Plain(x), jsonify, statusCode) == Wrap(Tuple([x]), jsonify, statusCode)
    ensures Wrap(Plain(x), jsonify, statusCode) == Success(Reply(jsonify(x), IntItem(statusCode), None))
  {
  }

  /** Items after the third are ignored. */
  lemma ExtraItemsIgnored<V, J>(items: seq<Item<V>>, extra: seq<Item<V>>, jsonify: Item<V> -> J, statusCode: int)
    requires |items| == 3
    ensures Wrap(Tuple(items + extra), jsonify, statusCode) == Wrap(Tuple(items), jsonify, statusCode)
    ensures Wrap(Tuple(items), jsonify, statusCode) == Success(Reply(jsonify(items[0]), items[1], Some(items[2])))
  {
    assert (items + extra)[..3] == items;
  }
}
