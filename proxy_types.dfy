/**
 * The proxy's inbound message type `AppMessage` and its `RpcMessage`
 * implementation: how the dispatch loop tells responses from calls, finds a
 * response's id, and checks that a response carries exactly one of
 * `result` and `error`.
 */
module ProxyTypes {
  import opened Wrappers
  import opened Json
  import opened LapceRpc

  /** `AppNotification`: a serde-tagged enum; here its method name and parameters. */
  datatype AppNotification = AppNotification(methodName: string, params: Value)

  /** `AppMessage`. */
  datatype AppMessage =
    | Notification(notification: AppNotification)
    | Response(response: Value)
    | Request

  /** The message `into_response` reports when `result` and `error` are both present or both absent. */
  const EXACTLY_ONE: string := "RPC response must contain exactly one of'error' or 'result' fields."

  /** `is_response`. */
  predicate IsResponse(m: AppMessage)
  {
    m.Response?
  }

  /**
   * What `get_id` needs so as not to panic: a response must be an object
   * with an `id` field (`as_object().unwrap()["id"]`).
   */
  predicate HasIdField(m: AppMessage)
  {
    m.Response? ==> m.response.Object? && "id" in m.response.fields
  }

  /** `get_id`. */
  function GetId(m: AppMessage): (r: Option<nat>)
    requires HasIdField(m)
    ensures r.Some? ==> m.Response? && m.response.fields["id"] == Number(r.value)
    ensures m.Response? && AsU64(m.response.fields["id"]).Some? ==> r.Some?
  {
    match m
    case Notification(_) => None
    case Response(rsp) => AsU64(rsp.fields["id"])
    case Request => None
  }

  /** `into_response`; on anything but a response the source stops with `todo!()`. */
  function IntoResponse(m: AppMessage): (r: Result<Result<Value, Value>, string>)
    requires m.Response?
    ensures r.Err? <==> (Has(m.response, "result") == Has(m.response, "error"))
    ensures r.Err? ==> r.error == EXACTLY_ONE
    ensures (r.Ok? && r.value.Ok?) <==> Has(m.response, "result") && !Has(m.response, "error")
    ensures r.Ok? && r.value.Ok? ==> Get(m.response, "result") == Some(r.value.value)
    ensures r.Ok? && r.value.Err? ==> !Has(m.response, "result") && Get(m.response, "error") == Some(r.value.error)
  {
    var resp := m.response;
    if Has(resp, "result") == Has(resp, "error") then
      Err(EXACTLY_ONE)
    else
      match Get(resp, "result")
      case Some(result) => Ok(Ok(result))
      case None => Ok(Err(Get(resp, "error").value))
  }

  /** `into_rpc`; on `Request` the source stops with `unimplemented!()`. */
  function IntoRpc<R>(m: AppMessage): (r: Result<Call<AppNotification, R>, string>)
    requires !m.Request?
    ensures m.Notification? <==> r.Ok?
    ensures r.Ok? ==> r.value == Call.Notification(m.notification)
  {
    match m
    case Notification(n) => Ok(Call.Notification(n))
    case Response(_) => Err("")
  }

  /**
   * The messages `mainloop` can take without panicking: no `Request`
   * (`unimplemented!()` in `into_rpc`) and no response without a `u64` id
   * (`get_id().unwrap()`).
   */
  predicate Dispatchable(m: AppMessage)
  {
    && !m.Request?
    && HasIdField(m)
    && (m.Response? ==> GetId(m).Some?)
  }

  /** What `mainloop` reads of one `AppMessage` through `RpcMessage`. */
  function Classify<R>(m: AppMessage): (r: Inbound<AppNotification, R>)
    requires Dispatchable(m)
    ensures r.ResponseMsg? <==> IsResponse(m)
    ensures r.CallMsg? ==> r.call == IntoRpc(m)
    ensures r.ResponseMsg? ==> r.id == GetId(m).value && r.response == IntoResponse(m)
  {
    if IsResponse(m) then ResponseMsg(GetId(m).value, IntoResponse(m))
    else CallMsg(IntoRpc(m))
  }

  /**
   * The reply `respond` sends is read back by `get_id` and `into_response`
   * as exactly the id and outcome it was built from.
   */
  lemma ReplyRoundTrip(id: nat, result: Result<Value, Value>)
    requires id < U64_LIMIT
    ensures Dispatchable(Response(ResponseValue(id, result)))
    ensures GetId(Response(ResponseValue(id, result))) == Some(id)
    ensures IntoResponse(Response(ResponseValue(id, result))) == Ok(result)
  {
    var v := ResponseValue(id, result);
    assert v.fields["id"] == Number(id);
    match result
    case Ok(x) =>
      assert Has(v, "result") && !Has(v, "error");
    case Err(e) =>
      assert !Has(v, "result") && Has(v, "error");
  }

  /** A response that carries an `error` field never resolves to a success. */
  lemma ErrorFieldNeverSuccess(v: Value, x: Value)
    requires Has(v, "error")
    ensures IntoResponse(Response(v)) != Ok(Ok(x))
  {
  }

  /**
   * Through the dispatch loop: a response carrying both `result` and
   * `error` (or neither) resolves its pending request with the error message.
   */
  lemma MalformedResponseResolvesWithError(st: RpcState, v: Value,
                                           onNotification: (nat, AppNotification) -> ControlFlow,
                                           onRequest: (nat, Value) -> Result<Value, Value>)
    requires Valid(st) && Dispatchable(Response(v))
    requires Has(v, "result") == Has(v, "error")
    requires GetId(Response(v)).value in st.pending
    ensures var id := GetId(Response(v)).value;
      var r := RunFrom(st, [Classify<Value>(Response(v))], 0, onNotification, onRequest).0;
      && id !in r.pending
      && r.invoked == st.invoked + [Invocation(id, st.pending[id], Err(String(EXACTLY_ONE)))]
  {
    var id := GetId(Response(v)).value;
    assert Classify<Value>(Response(v)) == ResponseMsg(id, Err(EXACTLY_ONE));
    MalformedResponseFails(st, id, EXACTLY_ONE, onNotification, onRequest);
  }
}
