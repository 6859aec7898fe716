/**
 * The request/response correlator and dispatch loop of lapce-rpc
 * (`RpcHandler`).  The pure functions over `RpcState` are the specification;
 * the class `RpcHandler` is the sequential object whose methods update its
 * fields in place and are proved to follow those functions.
 *
 * Concurrency is not modelled: the id counter is a field, the outgoing
 * channel is a sequence, and invoking a response handler (sending on its
 * one-shot channel or calling its callback) appends to the log `invoked`.
 */
module LapceRpc {
  import opened Wrappers
  import opened Json

  /** What `Handler::handle_notification` tells the dispatch loop. */
  datatype ControlFlow = Continue | Exit

  /** An inbound notification or request, as `RpcMessage::into_rpc` yields it. */
  datatype Call<N, R> = Notification(notification: N) | Request(id: nat, request: R)

  /**
   * One inbound message as the dispatch loop sees it through `RpcMessage`:
   * a response (`is_response`) with its id (`get_id().unwrap()`) and the
   * outcome of `into_response`, or any other message with the outcome of
   * `into_rpc`.
   */
  datatype Inbound<N, R> =
    | ResponseMsg(id: nat, response: Result<Result<Value, Value>, string>)
    | CallMsg(call: Result<Call<N, R>, string>)

  /** The two envelopes `RpcHandler` sends (`RpcRequestObject`). */
  datatype RequestObject =
    | NotificationEnvelope(methodName: string, params: Value)
    | RequestEnvelope(id: nat, methodName: string, params: Value)

  /**
   * The JSON object an envelope is sent as: `method` and `params`, and
   * `id` exactly when it is a request.
   */
  function ToValue(o: RequestObject): (r: Value)
    ensures r.Object? && "method" in r.fields && "params" in r.fields
    ensures r.fields["method"] == String(o.methodName) && r.fields["params"] == o.params
    ensures "id" in r.fields <==> o.RequestEnvelope?
    ensures o.RequestEnvelope? ==> r.fields["id"] == Number(o.id)
  {
    match o
    case NotificationEnvelope(m, p) =>
      Object(map["method" := String(m), "params" := p])
    case RequestEnvelope(id, m, p) =>
      Object(map["id" := Number(id), "method" := String(m), "params" := p])
  }

  /** The object `respond` sends: `{"id": id}` with `result` or `error` added. */
  function ResponseValue(id: nat, result: Result<Value, Value>): (r: Value)
    ensures r.Object? && "id" in r.fields && r.fields["id"] == Number(id)
    ensures ("result" in r.fields <==> result.Ok?) && ("error" in r.fields <==> result.Err?)
    ensures result.Ok? ==> r.fields["result"] == result.value
    ensures result.Err? ==> r.fields["error"] == result.error
  {
    match result
    case Ok(x) => Object(map["id" := Number(id), "result" := x])
    case Err(e) => Object(map["id" := Number(id), "error" := e])
  }

  /** The outcome a request gets when its envelope could not be sent. */
  const IO_ERROR: Value := String("io error")

  /**
   * `ResponseHandler`: the one-shot channel of a blocking request (whose
   * receiving end is identified by the request id), or a numbered callback.
   */
  datatype ResponseHandler = Chan | Callback(callback: nat)

  /** One call of `ResponseHandler::invoke`. */
  datatype Invocation = Invocation(id: nat, handler: ResponseHandler, result: Result<Value, Value>)

  /**
   * The abstract state of an `RpcHandler`: the id counter, the pending
   * table, what has been enqueued on the outgoing channel, whether that
   * channel's receiver is still there (otherwise `send` fails), and the
   * response handlers invoked so far.
   */
  datatype RpcState = RpcState(
    next: nat,
    pending: map<nat, ResponseHandler>,
    outgoing: seq<Value>,
    connected: bool,
    invoked: seq<Invocation>)

  /**
   * The correlator's invariant: every id ever handed out is below the
   * counter, a handler that has been invoked is no longer pending, and no id
   * has been invoked twice.
   */
  ghost predicate Valid(st: RpcState)
  {
    && (forall id :: id in st.pending ==> id < st.next)
    && (forall k :: 0 <= k < |st.invoked| ==> st.invoked[k].id < st.next && st.invoked[k].id !in st.pending)
    && (forall j, k :: 0 <= j < k < |st.invoked| ==> st.invoked[j].id != st.invoked[k].id)
  }

  /** `RpcHandler::new`. */
  function Init(connected: bool): (st: RpcState)
    ensures Valid(st) && st.next == 0 && st.pending == map[] && st.invoked == []
  {
    RpcState(0, map[], [], connected, [])
  }

  /** `Sender::send`: enqueue when the receiver is there, otherwise nothing happens. */
  function Enqueue(st: RpcState, v: Value): (r: RpcState)
    ensures r.next == st.next && r.pending == st.pending && r.invoked == st.invoked && r.connected == st.connected
    ensures r.outgoing == st.outgoing + (if st.connected then [v] else [])
  {
    if st.connected then st.(outgoing := st.outgoing + [v]) else st
  }

  /** `send_rpc_notification`. */
  function SendNotification(st: RpcState, methodName: string, params: Value): (r: RpcState)
    ensures r.next == st.next && r.pending == st.pending && r.invoked == st.invoked
    ensures r.outgoing == st.outgoing + (if st.connected then [ToValue(NotificationEnvelope(methodName, params))] else [])
  {
    Enqueue(st, ToValue(NotificationEnvelope(methodName, params)))
  }

  /** `handle_response`: remove the entry for `id` and invoke it, if there is one. */
  function Resolve(st: RpcState, id: nat, resp: Result<Value, Value>): (r: RpcState)
    requires Valid(st)
    ensures Valid(r)
    ensures id !in r.pending
    ensures id in st.pending ==>
      && r.pending == st.pending - {id}
      && r.invoked == st.invoked + [Invocation(id, st.pending[id], resp)]
    ensures id !in st.pending ==> r == st
    ensures r.next == st.next && r.outgoing == st.outgoing && r.connected == st.connected
  {
    if id in st.pending then
      st.(pending := st.pending - {id}, invoked := st.invoked + [Invocation(id, st.pending[id], resp)])
    else
      st
  }

  /**
   * `send_rpc_request_common`: take the next id, register the handler, and
   * enqueue the request; if the enqueue fails, resolve the handler at once
   * with the I/O error.  Returns the new state and the id.
   */
  function SendRequestCommon(st: RpcState, methodName: string, params: Value, rh: ResponseHandler): (r: (RpcState, nat))
    requires Valid(st)
    ensures Valid(r.0)
    ensures r.1 == st.next && r.0.next == st.next + 1 && r.0.connected == st.connected
    ensures r.1 !in st.pending && forall k :: 0 <= k < |st.invoked| ==> st.invoked[k].id != r.1
    ensures st.connected ==>
      && r.0.pending == st.pending[r.1 := rh]
      && r.0.outgoing == st.outgoing + [ToValue(RequestEnvelope(r.1, methodName, params))]
      && r.0.invoked == st.invoked
    ensures !st.connected ==>
      && r.0.pending == st.pending
      && r.0.outgoing == st.outgoing
      && r.0.invoked == st.invoked + [Invocation(r.1, rh, Err(IO_ERROR))]
  {
    var id := st.next;
    var registered := st.(next := id + 1, pending := st.pending[id := rh]);
    if st.connected then
      (Enqueue(registered, ToValue(RequestEnvelope(id, methodName, params))), id)
    else
      assert registered.pending - {id} == st.pending;
      (Resolve(registered, id, Err(IO_ERROR)), id)
  }

  /** `respond`: enqueue the reply envelope for request `id`. */
  function Responded(st: RpcState, id: nat, result: Result<Value, Value>): (r: RpcState)
    ensures r.next == st.next && r.pending == st.pending && r.invoked == st.invoked
    ensures r.outgoing == st.outgoing + (if st.connected then [ResponseValue(id, result)] else [])
  {
    Enqueue(st, ResponseValue(id, result))
  }

  /**
   * The last clone of the `RpcHandler` is dropped: the pending table goes,
   * and with it every pending handler, none of them invoked.  The model
   * allows this at any time.  In the program it cannot happen while a
   * caller is blocked in `send_rpc_request`, which holds a reference to the
   * handler, so this over-approximates the source.
   */
  function Dropped(st: RpcState): (r: RpcState)
    ensures Valid(st) ==> Valid(r)
    ensures r.pending == map[] && r.invoked == st.invoked && r.next == st.next
  {
    st.(pending := map[])
  }

  /**
   * The receiving end of the outgoing channel goes away (the writer thread
   * has stopped): from then on every `send` fails.  Nothing else changes.
   */
  function Disconnected(st: RpcState): (r: RpcState)
    ensures Valid(st) ==> Valid(r)
    ensures !r.connected && r.(connected := st.connected) == st
  {
    st.(connected := false)
  }

  /** The value a blocking `send_rpc_request` has received on its channel, if any. */
  function Delivered(log: seq<Invocation>, id: nat): Option<Result<Value, Value>>
  {
    if log == [] then None
    else if log[0].id == id && log[0].handler == Chan then Some(log[0].result)
    else Delivered(log[1..], id)
  }

  /**
   * What `rx.recv()` in `send_rpc_request` gives the caller blocked on
   * request `id`: the delivered outcome; nothing yet while the entry is
   * pending; and, once the sender end is gone without a delivery,
   * `unwrap_or_else`'s I/O error.
   */
  function Recv(st: RpcState, id: nat): (r: Option<Result<Value, Value>>)
    ensures r.None? <==> Delivered(st.invoked, id).None? && id in st.pending
    ensures Delivered(st.invoked, id).Some? ==> r == Delivered(st.invoked, id)
    ensures Delivered(st.invoked, id).None? && id !in st.pending ==> r == Some(Err(IO_ERROR))
  {
    match Delivered(st.invoked, id)
    case Some(r) => Some(r)
    case None => if id in st.pending then None else Some(Err(IO_ERROR))
  }

  /**
   * One iteration of `mainloop` for the message at position `k`, with the
   * handler given as two functions of the position and the payload: a
   * handler whose answers depend only on what it has been given so far is
   * covered, one that calls back into this `RpcHandler` is not.
   */
  function Step<N, R>(st: RpcState, k: nat, m: Inbound<N, R>,
                      onNotification: (nat, N) -> ControlFlow,
                      onRequest: (nat, R) -> Result<Value, Value>): (r: (RpcState, ControlFlow))
    requires Valid(st)
    ensures Valid(r.0)
    ensures r.0.next == st.next && r.0.connected == st.connected
  {
    match m
    case ResponseMsg(id, Ok(resp)) => (Resolve(st, id, resp), Continue)
    case ResponseMsg(id, Err(msg)) => (Resolve(st, id, Err(String(msg))), Continue)
    case CallMsg(Ok(Request(id, request))) => (Responded(st, id, onRequest(k, request)), Continue)
    case CallMsg(Ok(Notification(n))) => (st, onNotification(k, n))
    case CallMsg(Err(_)) => (st, Continue)
  }

  /**
   * `mainloop` from position `i` on: the final state and the number of
   * messages consumed (all of them, or up to and including the notification
   * whose handling returned `Exit`).
   */
  function RunFrom<N, R>(st: RpcState, msgs: seq<Inbound<N, R>>, i: nat,
                         onNotification: (nat, N) -> ControlFlow,
                         onRequest: (nat, R) -> Result<Value, Value>): (r: (RpcState, nat))
    requires Valid(st) && i <= |msgs|
    ensures Valid(r.0)
    ensures i <= r.1 <= |msgs|
    ensures r.0.next == st.next && r.0.connected == st.connected
    decreases |msgs| - i
  {
    if i == |msgs| then (st, i)
    else
      var (st', flow) := Step(st, i, msgs[i], onNotification, onRequest);
      if flow == Exit then (st', i + 1)
      else RunFrom(st', msgs, i + 1, onNotification, onRequest)
  }

  /** Is the message at position `k` a notification whose handling returns `Exit`? */
  predicate ExitsAt<N, R>(msgs: seq<Inbound<N, R>>, k: nat, onNotification: (nat, N) -> ControlFlow)
  {
    && k < |msgs|
    && msgs[k].CallMsg? && msgs[k].call.Ok? && msgs[k].call.value.Notification?
    && onNotification(k, msgs[k].call.value.notification) == Exit
  }

  /** The replies `respond` enqueues for the requests at positions `i` to `j - 1`, in order. */
  function Replies<N, R>(msgs: seq<Inbound<N, R>>, i: nat, j: nat,
                         onRequest: (nat, R) -> Result<Value, Value>): seq<Value>
    requires i <= j <= |msgs|
    decreases j - i
  {
    if i == j then []
    else
      var rest := Replies(msgs, i + 1, j, onRequest);
      match msgs[i]
      case CallMsg(Ok(Request(id, request))) => [ResponseValue(id, onRequest(i, request))] + rest
      case _ => rest
  }

  /** One message's share of the replies. */
  lemma StepReplies<N, R>(st: RpcState, msgs: seq<Inbound<N, R>>, i: nat,
                          onNotification: (nat, N) -> ControlFlow,
                          onRequest: (nat, R) -> Result<Value, Value>)
    requires Valid(st) && i < |msgs|
    ensures Step(st, i, msgs[i], onNotification, onRequest).0.outgoing
         == st.outgoing + (if st.connected then Replies(msgs, i, i + 1, onRequest) else [])
  {
  }

  /** The replies for positions `i` to `j - 1`: the first one's, then the others'. */
  lemma RepliesSplit<N, R>(msgs: seq<Inbound<N, R>>, i: nat, j: nat,
                           onRequest: (nat, R) -> Result<Value, Value>)
    requires i < j <= |msgs|
    ensures Replies(msgs, i, j, onRequest) == Replies(msgs, i, i + 1, onRequest) + Replies(msgs, i + 1, j, onRequest)
  {
  }

  /** One turn of `mainloop`. */
  lemma RunFromStep<N, R>(st: RpcState, msgs: seq<Inbound<N, R>>, i: nat,
                          onNotification: (nat, N) -> ControlFlow,
                          onRequest: (nat, R) -> Result<Value, Value>)
    requires Valid(st) && i < |msgs|
    ensures var (st', flow) := Step(st, i, msgs[i], onNotification, onRequest);
      RunFrom(st, msgs, i, onNotification, onRequest)
      == if flow == Exit then (st', i + 1) else RunFrom(st', msgs, i + 1, onNotification, onRequest)
  {
  }

  /** At the end of the stream nothing more is consumed or answered. */
  lemma RunFromEnd<N, R>(st: RpcState, msgs: seq<Inbound<N, R>>,
                         onNotification: (nat, N) -> ControlFlow,
                         onRequest: (nat, R) -> Result<Value, Value>)
    requires Valid(st)
    ensures RunFrom(st, msgs, |msgs|, onNotification, onRequest) == (st, |msgs|)
    ensures Replies(msgs, |msgs|, |msgs|, onRequest) == []
    ensures st.outgoing + [] == st.outgoing
  {
  }

  /** `mainloop` answers every request it consumes, with its own id, in arrival order. */
  lemma {:induction false} RunAnswersInOrder<N, R>(st: RpcState, msgs: seq<Inbound<N, R>>, i: nat,
                                                   onNotification: (nat, N) -> ControlFlow,
                                                   onRequest: (nat, R) -> Result<Value, Value>)
    requires Valid(st) && i <= |msgs|
    ensures var r := RunFrom(st, msgs, i, onNotification, onRequest);
      r.0.outgoing == st.outgoing + (if st.connected then Replies(msgs, i, r.1, onRequest) else [])
    decreases |msgs| - i
  {
    hide *;
    if i == |msgs| {
      RunFromEnd(st, msgs, onNotification, onRequest);
    } else {
      var (st', flow) := Step(st, i, msgs[i], onNotification, onRequest);
      RunFromStep(st, msgs, i, onNotification, onRequest);
      StepReplies(st, msgs, i, onNotification, onRequest);
      if flow != Exit {
        RunAnswersInOrder(st', msgs, i + 1, onNotification, onRequest);
        RepliesSplit(msgs, i, RunFrom(st', msgs, i + 1, onNotification, onRequest).1, onRequest);
      }
    }
  }

  /**
   * An `Exit` stops the loop: nothing after the first exiting notification
   * is consumed, so the outcome is that of the stream cut just after it.
   */
  lemma {:induction false} RunStopsAtExit<N, R>(st: RpcState, msgs: seq<Inbound<N, R>>, i: nat, j: nat,
                                                onNotification: (nat, N) -> ControlFlow,
                                                onRequest: (nat, R) -> Result<Value, Value>)
    requires Valid(st) && i <= j && ExitsAt(msgs, j, onNotification)
    ensures RunFrom(st, msgs, i, onNotification, onRequest).1 <= j + 1
    ensures RunFrom(st, msgs, i, onNotification, onRequest) == RunFrom(st, msgs[..j + 1], i, onNotification, onRequest)
    decreases j - i
  {
    var cut := msgs[..j + 1];
    assert cut[i] == msgs[i];
    hide RunFrom, Resolve, Responded;
    RunFromStep(st, msgs, i, onNotification, onRequest);
    RunFromStep(st, cut, i, onNotification, onRequest);
    var (st', flow) := Step(st, i, msgs[i], onNotification, onRequest);
    if i == j {
      assert flow == Exit;
    } else if flow == Continue {
      assert ExitsAt(cut, j, onNotification);
      RunStopsAtExit(st', msgs, i + 1, j, onNotification, onRequest);
    }
  }

  /** Without an exiting notification the loop consumes the whole stream. */
  lemma {:induction false} RunConsumesAll<N, R>(st: RpcState, msgs: seq<Inbound<N, R>>, i: nat,
                                                onNotification: (nat, N) -> ControlFlow,
                                                onRequest: (nat, R) -> Result<Value, Value>)
    requires Valid(st) && i <= |msgs|
    requires forall k :: i <= k < |msgs| ==> !ExitsAt(msgs, k, onNotification)
    ensures RunFrom(st, msgs, i, onNotification, onRequest).1 == |msgs|
    decreases |msgs| - i
  {
    if i < |msgs| {
      assert !ExitsAt(msgs, i, onNotification);
      var (st', flow) := Step(st, i, msgs[i], onNotification, onRequest);
      RunConsumesAll(st', msgs, i + 1, onNotification, onRequest);
    }
  }

  /**
   * A response that is malformed (`into_response` failed) resolves its
   * pending entry with the error message; it never yields a success.
   */
  lemma MalformedResponseFails<N, R>(st: RpcState, id: nat, msg: string,
                                     onNotification: (nat, N) -> ControlFlow,
                                     onRequest: (nat, R) -> Result<Value, Value>)
    requires Valid(st) && id in st.pending
    ensures var r := RunFrom(st, [ResponseMsg(id, Err(msg))], 0, onNotification, onRequest).0;
      && r.pending == st.pending - {id}
      && r.invoked == st.invoked + [Invocation(id, st.pending[id], Err(String(msg)))]
  {
    var msgs: seq<Inbound<N, R>> := [ResponseMsg(id, Err(msg))];
    var (st', flow) := Step(st, 0, msgs[0], onNotification, onRequest);
    assert RunFrom(st', msgs, 1, onNotification, onRequest).0 == st';
  }

  /** A message `into_rpc` rejects is skipped: it changes nothing. */
  lemma RejectedCallSkipped<N, R>(st: RpcState, msgs: seq<Inbound<N, R>>, i: nat, e: string,
                                  onNotification: (nat, N) -> ControlFlow,
                                  onRequest: (nat, R) -> Result<Value, Value>)
    requires Valid(st) && i < |msgs| && msgs[i] == CallMsg(Err(e))
    ensures RunFrom(st, msgs, i, onNotification, onRequest) == RunFrom(st, msgs, i + 1, onNotification, onRequest)
  {
  }

  /** An unknown or already answered response id is dropped: nothing changes. */
  lemma {:induction false} UnknownResponseDropped(st: RpcState, id: nat, a: Result<Value, Value>, b: Result<Value, Value>)
    requires Valid(st)
    ensures id !in st.pending ==> Resolve(st, id, a) == st
    ensures Resolve(Resolve(st, id, a), id, b) == Resolve(st, id, a)
  {
  }

  /**
   * `n` successive requests from one correlator get the ids `next`,
   * `next + 1`, ..., which are strictly increasing and so pairwise distinct.
   */
  function SendMany(st: RpcState, methodNames: seq<string>, params: Value, rh: ResponseHandler): (r: (RpcState, seq<nat>))
    requires Valid(st)
    ensures Valid(r.0)
    decreases |methodNames|
  {
    if methodNames == [] then (st, [])
    else
      var (st', id) := SendRequestCommon(st, methodNames[0], params, rh);
      var (st'', ids) := SendMany(st', methodNames[1..], params, rh);
      (st'', [id] + ids)
  }

  lemma {:induction false} SendManyFreshIds(st: RpcState, methodNames: seq<string>, params: Value, rh: ResponseHandler)
    requires Valid(st)
    ensures var r := SendMany(st, methodNames, params, rh);
      && |r.1| == |methodNames|
      && r.0.next == st.next + |methodNames|
      && (forall k :: 0 <= k < |r.1| ==> r.1[k] == st.next + k)
      && (forall j, k :: 0 <= j < k < |r.1| ==> r.1[j] < r.1[k])
      && (forall k :: 0 <= k < |r.1| ==> r.1[k] !in st.pending)
    decreases |methodNames|
  {
    if methodNames != [] {
      var (st', id) := SendRequestCommon(st, methodNames[0], params, rh);
      SendManyFreshIds(st', methodNames[1..], params, rh);
    }
  }

  /** A channel that got an invocation for `id` delivers it, and only one for `id`. */
  lemma {:induction false} DeliveredAppend(log: seq<Invocation>, inv: Invocation)
    requires forall k :: 0 <= k < |log| ==> log[k].id != inv.id
    ensures Delivered(log + [inv], inv.id) == if inv.handler == Chan then Some(inv.result) else None
  {
    if log != [] {
      assert (log + [inv])[1..] == log[1..] + [inv];
      DeliveredAppend(log[1..], inv);
    }
  }

  /** Appending an invocation for another id does not change what `id` has received. */
  lemma {:induction false} DeliveredAppendOther(log: seq<Invocation>, inv: Invocation, id: nat)
    requires inv.id != id
    ensures Delivered(log + [inv], id) == Delivered(log, id)
  {
    if log != [] {
      assert (log + [inv])[1..] == log[1..] + [inv];
      DeliveredAppendOther(log[1..], inv, id);
    }
  }

  /** A blocking caller receives a success only if its own channel was sent that success. */
  lemma {:induction false} DeliveredOnlyInvoked(log: seq<Invocation>, id: nat)
    ensures Delivered(log, id).Some? ==>
      exists k :: 0 <= k < |log| && log[k] == Invocation(id, Chan, Delivered(log, id).value)
  {
    if log != [] && !(log[0].id == id && log[0].handler == Chan) {
      DeliveredOnlyInvoked(log[1..], id);
      if Delivered(log, id).Some? {
        var k :| 0 <= k < |log[1..]| && log[1..][k] == Invocation(id, Chan, Delivered(log, id).value);
        assert log[k + 1] == log[1..][k];
      }
    }
  }

  /** Recv gives a success only when a response carrying it reached the caller's channel. */
  lemma RecvSuccessOnlyFromResponse(st: RpcState, id: nat, v: Value)
    requires Recv(st, id) == Some(Ok(v))
    ensures exists k :: 0 <= k < |st.invoked| && st.invoked[k] == Invocation(id, Chan, Ok(v))
  {
    DeliveredOnlyInvoked(st.invoked, id);
  }

  /** The matching response unblocks the caller with exactly its outcome. */
  lemma RecvAfterResponse(st: RpcState, id: nat, resp: Result<Value, Value>)
    requires Valid(st) && id in st.pending && st.pending[id] == Chan
    ensures Recv(Resolve(st, id, resp), id) == Some(resp)
  {
    DeliveredAppend(st.invoked, Invocation(id, Chan, resp));
  }

  /** A response for another id leaves a blocked caller as it was. */
  lemma RecvOtherResponse(st: RpcState, id: nat, other: nat, resp: Result<Value, Value>)
    requires Valid(st) && other != id
    ensures Recv(Resolve(st, other, resp), id) == Recv(st, id)
  {
    if other in st.pending {
      DeliveredAppendOther(st.invoked, Invocation(other, st.pending[other], resp), id);
    }
  }

  /**
   * Once the receiver has gone away, a new blocking request enqueues
   * nothing and returns the I/O error.
   */
  lemma RequestAfterDisconnect(st: RpcState, methodName: string, params: Value)
    requires Valid(st)
    ensures var r := SendRequestCommon(Disconnected(st), methodName, params, Chan);
      && r.0.outgoing == st.outgoing
      && r.1 !in r.0.pending
      && Recv(r.0, r.1) == Some(Err(IO_ERROR))
  {
    RecvAfterFailedSend(Disconnected(st), methodName, params);
  }

  /** A blocking request whose enqueue fails returns the I/O error, never a success. */
  lemma RecvAfterFailedSend(st: RpcState, methodName: string, params: Value)
    requires Valid(st) && !st.connected
    ensures var r := SendRequestCommon(st, methodName, params, Chan);
      Recv(r.0, r.1) == Some(Err(IO_ERROR))
  {
    DeliveredAppend(st.invoked, Invocation(st.next, Chan, Err(IO_ERROR)));
  }

  /**
   * Once the handler is dropped no caller stays blocked: one that was not
   * answered gets the I/O error.  This is the defensive `unwrap_or_else`
   * branch; since `Dropped` over-approximates when the drop may happen,
   * the program may never reach it.
   */
  lemma RecvAfterDrop(st: RpcState, id: nat)
    requires Delivered(st.invoked, id).None?
    ensures Recv(Dropped(st), id) == Some(Err(IO_ERROR))
  {
  }

  /** The concrete stream of responses `id = b` then `id = a`, where `b` was sent after `a`. */
  function SwappedResponses(a: nat, b: nat): seq<Inbound<Value, Value>>
  {
    [ResponseMsg(b, Ok(Ok(String("two")))), ResponseMsg(a, Ok(Ok(String("one"))))]
  }

  /**
   * Two outstanding blocking requests whose responses arrive in the
   * opposite order: each caller still receives its own result.
   */
  lemma OutOfOrderResponses()
    ensures
      var s1 := SendRequestCommon(Init(true), "first", Null, Chan);
      var s2 := SendRequestCommon(s1.0, "second", Null, Chan);
      var s3 := RunFrom(s2.0, SwappedResponses(s1.1, s2.1), 0, (k: nat, n: Value) => Continue, (k: nat, r: Value) => Ok(r)).0;
      && s1.1 == 0 && s2.1 == 1
      && Recv(s3, 0) == Some(Ok(String("one")))
      && Recv(s3, 1) == Some(Ok(String("two")))
  {
    hide Recv, Delivered, ToValue, ResponseValue;
    var onN := (k: nat, n: Value) => Continue;
    var onR := (k: nat, r: Value) => Ok(r);
    var s1 := SendRequestCommon(Init(true), "first", Null, Chan);
    var s2 := SendRequestCommon(s1.0, "second", Null, Chan);
    var msgs := SwappedResponses(0, 1);
    var t1 := Resolve(s2.0, 1, Ok(String("two")));
    var t2 := Resolve(t1, 0, Ok(String("one")));
    assert RunFrom(s2.0, msgs, 0, onN, onR).0 == t2 by {
      assert Step(s2.0, 0, msgs[0], onN, onR) == (t1, Continue);
      assert Step(t1, 1, msgs[1], onN, onR) == (t2, Continue);
      assert RunFrom(t2, msgs, 2, onN, onR) == (t2, 2);
    }
    RecvAfterResponse(s2.0, 1, Ok(String("two")));
    RecvOtherResponse(t1, 1, 0, Ok(String("one")));
    RecvAfterResponse(t1, 0, Ok(String("one")));
  }

  /**
   * `RpcHandler`: the id counter, the pending table and the sending side of
   * the outgoing channel, updated in place.
   */
  class RpcHandler {
    var next: nat
    var pending: map<nat, ResponseHandler>
    var outgoing: seq<Value>
    var connected: bool
    var invoked: seq<Invocation>

    function State(): RpcState
      reads this
    {
      RpcState(next, pending, outgoing, connected, invoked)
    }

    /** `RpcHandler::new`; `connected` says whether the channel's receiver is alive. */
    constructor (connected: bool)
      ensures State() == Init(connected)
    {
      next := 0;
      pending := map[];
      outgoing := [];
      this.connected := connected;
      invoked := [];
    }

    /** The channel's receiver is dropped (the writer thread stops). */
    method ReceiverDropped()
      modifies this
      ensures State() == Disconnected(old(State()))
    {
      connected := false;
    }

    method SendRpcNotification(methodName: string, params: Value)
      modifies this
      ensures State() == SendNotification(old(State()), methodName, params)
    {
      if connected {
        outgoing := outgoing + [ToValue(NotificationEnvelope(methodName, params))];
      }
    }

    /** `ResponseHandler::invoke`: the handler is consumed and gets `result`. */
    method Invoke(id: nat, rh: ResponseHandler, result: Result<Value, Value>)
      modifies this
      ensures State() == old(State()).(invoked := old(invoked) + [Invocation(id, rh, result)])
    {
      invoked := invoked + [Invocation(id, rh, result)];
    }

    method SendRpcRequestCommon(methodName: string, params: Value, rh: ResponseHandler) returns (id: nat)
      requires Valid(State())
      modifies this
      ensures (State(), id) == SendRequestCommon(old(State()), methodName, params, rh)
    {
      id := next;
      next := next + 1;
      pending := pending[id := rh];
      if connected {
        outgoing := outgoing + [ToValue(RequestEnvelope(id, methodName, params))];
      } else {
        if id in pending {
          var handler := pending[id];
          pending := pending - {id};
          Invoke(id, handler, Err(IO_ERROR));
        }
        assert pending == old(pending);
      }
    }

    /**
     * The sending half of the blocking `send_rpc_request`: registers a
     * channel under the returned id.  What the blocked caller receives is
     * `Recv(State(), id)`.
     */
    method SendRpcRequest(methodName: string, params: Value) returns (id: nat)
      requires Valid(State())
      modifies this
      ensures (State(), id) == SendRequestCommon(old(State()), methodName, params, Chan)
    {
      id := SendRpcRequestCommon(methodName, params, Chan);
    }

    method SendRpcRequestAsync(methodName: string, params: Value, f: nat)
      requires Valid(State())
      modifies this
      ensures State() == SendRequestCommon(old(State()), methodName, params, Callback(f)).0
    {
      var _ := SendRpcRequestCommon(methodName, params, Callback(f));
    }

    method HandleResponse(id: nat, resp: Result<Value, Value>)
      requires Valid(State())
      modifies this
      ensures State() == Resolve(old(State()), id, resp)
    {
      if id in pending {
        var handler := pending[id];
        pending := pending - {id};
        Invoke(id, handler, resp);
      }
    }

    method Respond(id: nat, result: Result<Value, Value>)
      modifies this
      ensures State() == Responded(old(State()), id, result)
    {
      if connected {
        outgoing := outgoing + [ResponseValue(id, result)];
      }
    }

    /**
     * `mainloop`: handle the inbound messages one at a time, in order,
     * returning early on `Exit`.  Returns how many messages were consumed.
     */
    method Mainloop<N, R>(msgs: seq<Inbound<N, R>>,
                          onNotification: (nat, N) -> ControlFlow,
                          onRequest: (nat, R) -> Result<Value, Value>) returns (consumed: nat)
      requires Valid(State())
      modifies this
      ensures (State(), consumed) == RunFrom(old(State()), msgs, 0, onNotification, onRequest)
    {
      var i := 0;
      while i < |msgs|
        invariant 0 <= i <= |msgs|
        invariant Valid(State())
        invariant RunFrom(old(State()), msgs, 0, onNotification, onRequest)
               == RunFrom(State(), msgs, i, onNotification, onRequest)
      {
        match msgs[i] {
          case ResponseMsg(id, Ok(resp)) =>
            HandleResponse(id, resp);
          case ResponseMsg(id, Err(msg)) =>
            HandleResponse(id, Err(String(msg)));
          case CallMsg(Ok(Request(id, request))) =>
            Respond(id, onRequest(i, request));
          case CallMsg(Ok(Notification(n))) =>
            if onNotification(i, n) == Exit {
              consumed := i + 1;
              return;
            }
          case CallMsg(Err(_)) =>
        }
        i := i + 1;
      }
      consumed := |msgs|;
    }
  }
}
