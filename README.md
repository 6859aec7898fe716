# A Dafny model of Lapce's RPC core, its code-action popup and its editor test harness

This project models five pieces of the Lapce editor in Dafny and proves properties of the model:

- **`RpcHandler`** (`lapce-rpc/src/lib.rs`). This is the request/response correlator between the editor and its proxy. Pure functions over `RpcState` are the specification: the id counter, the table of pending response handlers, the outgoing queue, whether the queue's receiver is still there, and a log of response handlers invoked. The class `LapceRpc.RpcHandler` holds the same fields. Each of its methods is proved to update them as the matching function says.
- **`AppMessage` as an `RpcMessage`** (`lapce-proxy/src/types.rs`). This covers how the dispatch loop tells responses from calls, reads a response's id, and demands exactly one of `result` and `error`.
- **The stdio framing** (`lapce-rpc/src/stdio.rs`). The writer loop writes one line per message and flushes. The reader loop reads one line per message. `join` reports the reader before the writer. The sink, the line source and the forwarding channel are classes with the state those loops change.
- **The code-action popup** (`core/src/code_action.rs`). This covers the key-context predicates, the `ShowCodeActions`/`CancelCodeActions` updates of the main split, and `workspce_edits`, which flattens a `WorkspaceEdit` into a map from document to edits.
- **The test harness's `TestState`** (`lapce-ui/src/editor/tests/mock.rs`). `parse` reads a text with cursor markers `<$n>` and `</$n>` into contents and a selection. `fmt` writes the markers back in.
  - The module `Mock` states what both do as functions, next to what a marked text means.
  - The module `MockHarness` has the loops themselves, proved against those functions.
  - `parse` runs two regular expressions, one for opening and one for closing markers. The model scans for both at once (`MockMarkers.Scan`) and takes the matches of one kind from that scan. `MockMarkers.ScanSplits` proves this equal to scanning for one pattern alone (`MockMarkers.ScanKind`), which is what each `captures_iter` does.
  - Verifying the natural round trip showed that both `parse` and `fmt` go wrong when a region ends before a later region starts. See "## Findings".

Files:
- `wrappers.dfy`: `Option`, `Result`.
- `json.dfy`: an abstract JSON `Value`.
- `rpc.dfy`: module `LapceRpc`.
- `proxy_types.dfy`: module `ProxyTypes`.
- `stdio.dfy`: module `Stdio`.
- `code_action.dfy`: module `CodeAction`.
- `mock_markers.dfy`: module `MockMarkers`, which recognises markers and gives a marked text's meaning.
- `mock.dfy`: module `Mock`, the specification of `parse` and `fmt` and their properties.
- `mock_samples.dfy`: module `MockSamples`, the texts of the counterexample.
- `mock_harness.dfy`: module `MockHarness`, the imperative `parse` and `fmt`.

Where the code differs from what its own declarations suggest, the model follows the code:
- `lib.rs` sends an `RpcRequestObject` with two variants (`Notification`, `Request`), while `lapce-rpc/src/request.rs` declares a struct. The model uses the two variants.
- The error message of `into_response` is written over two lines with a Rust line continuation. The continuation drops the newline and the indentation, so the message reads `...exactly one of'error' or 'result' fields.` with no space after `of`.
- The round-trip test `can_format_into_string` holds in the model, but the round trip does not hold for every selection: see "## Findings".

## Model

| member | source | states |
|---|---|---|
| LapceRpc.Init | lapce-rpc/src/lib.rs:99-105 | a new handler has counter 0, no pending handlers, nothing invoked, and satisfies the correlator invariant |
| LapceRpc.ToValue | lapce-rpc/src/lib.rs:143-171 | an envelope is sent as a JSON object with its `method` and `params`, and with an `id` exactly when it is a request |
| LapceRpc.Enqueue | lapce-rpc/src/lib.rs:144-150 | `Sender::send` appends the value to the queue when the receiver is there and otherwise changes nothing; counter, pending table, log and connection are never touched |
| LapceRpc.SendNotification | lapce-rpc/src/lib.rs:143-151 | a notification envelope is appended to the queue when the receiver is present; a failed send is ignored; counter, pending table and log are unchanged |
| LapceRpc.SendRequestCommon | lapce-rpc/src/lib.rs:154-178 | the request takes the current counter as its id and the counter goes up by one; the id is fresh (never pending, never invoked); on a successful send the handler is pending and the request envelope is queued; on a failed send the handler is invoked at once with `"io error"` and is not left pending; the invariant is kept |
| LapceRpc.Resolve | lapce-rpc/src/lib.rs:199-207 | a response for a pending id removes exactly that handler and invokes it once with the response; a response for any other id changes nothing; the invariant is kept |
| LapceRpc.Responded | lapce-rpc/src/lib.rs:209-218 | `respond` queues `{"id", "result"}` or `{"id", "error"}` when the receiver is present and changes nothing else |
| LapceRpc.ResponseValue | lapce-rpc/src/lib.rs:210-214 | the reply is an object with the request's `id`, holding `result` exactly when the outcome is a success and `error` exactly when it is an error, with the outcome's value |
| LapceRpc.Step | lapce-rpc/src/lib.rs:112-138 | one message of the dispatch loop keeps the invariant, the counter and the connection |
| LapceRpc.RunFrom | lapce-rpc/src/lib.rs:107-140 | the dispatch loop keeps the invariant and consumes a prefix of the messages |
| LapceRpc.RunAnswersInOrder | lapce-rpc/src/lib.rs:124-128 | the loop queues exactly one reply per request it consumed, in message order, and nothing else |
| LapceRpc.RunStopsAtExit | lapce-rpc/src/lib.rs:129-134 | a notification whose handler answers `Exit` ends the loop: nothing after it is consumed |
| LapceRpc.RunConsumesAll | lapce-rpc/src/lib.rs:112-139 | when no notification asks to exit, every message is consumed |
| LapceRpc.MalformedResponseFails | lapce-rpc/src/lib.rs:119-121 | a response that `into_response` rejects resolves its pending handler with the message as a JSON string |
| LapceRpc.RejectedCallSkipped | lapce-rpc/src/lib.rs:136 | a call that `into_rpc` rejects is skipped with no effect |
| LapceRpc.UnknownResponseDropped | lapce-rpc/src/lib.rs:199-207 | a response for an id not pending changes nothing, and a second response for the same id is dropped |
| LapceRpc.SendManyFreshIds | lapce-rpc/src/lib.rs:160-163 | successive requests get consecutive, strictly increasing ids, none of them already pending |
| LapceRpc.DeliveredAppend | lapce-rpc/src/lib.rs:57-66 | what a one-shot channel delivers is the result of its one invocation |
| LapceRpc.DeliveredAppendOther | lapce-rpc/src/lib.rs:57-66 | invoking another request's handler does not change what this request's channel delivers |
| LapceRpc.DeliveredOnlyInvoked | lapce-rpc/src/lib.rs:185-187 | a channel delivers a value only if its handler was invoked with that value |
| LapceRpc.RecvSuccessOnlyFromResponse | lapce-rpc/src/lib.rs:185-187 | a blocking request returns a success only if its handler was invoked with that success |
| LapceRpc.RecvAfterResponse | lapce-rpc/src/lib.rs:185-207 | once the response for a blocking request arrives, the request returns that response |
| LapceRpc.RecvOtherResponse | lapce-rpc/src/lib.rs:199-207 | a response to another id does not change what a blocking request returns |
| LapceRpc.RecvAfterFailedSend | lapce-rpc/src/lib.rs:172-176 | a blocking request whose send fails returns `Err("io error")` |
| LapceRpc.RecvAfterDrop | lapce-rpc/src/lib.rs:187 | a blocking request whose channel is dropped before any delivery returns `Err("io error")`; the defensive branch, reached in the model through `Dropped`, which over-approximates the source |
| LapceRpc.Recv | lapce-rpc/src/lib.rs:185-187 | a blocking request is still waiting exactly when nothing has been delivered on its channel and its handler is still pending; a delivered value is what it returns; once its handler is gone undelivered, it returns `Err("io error")` |
| LapceRpc.Dropped | lapce-rpc/src/lib.rs:187 | dropping the last handler empties the pending table, invoking nothing, and keeps the correlator invariant; the model allows it at any time, which over-approximates the source, where a blocked caller still holds the handler |
| LapceRpc.Disconnected | lapce-rpc/src/stdio.rs:20-25 | once the writer thread has stopped, the outgoing channel's receiver is gone; nothing else changes and the invariant is kept |
| LapceRpc.RequestAfterDisconnect | lapce-rpc/src/lib.rs:165-176 | after the receiver has gone, a new blocking request queues nothing, is not left pending, and returns `Err("io error")` |
| LapceRpc.OutOfOrderResponses | lapce-rpc/src/lib.rs:107-187 | two requests answered in reverse order each get their own response |
| LapceRpc.RpcHandler.constructor | lapce-rpc/src/lib.rs:99-105 | the handler's state is `Init` |
| LapceRpc.RpcHandler.ReceiverDropped | lapce-rpc/src/stdio.rs:20-25 | the handler's state becomes `Disconnected` of the old one: every later send fails |
| LapceRpc.RpcHandler.SendRpcNotification | lapce-rpc/src/lib.rs:143-151 | the new state is `SendNotification` of the old |
| LapceRpc.RpcHandler.SendRpcRequestCommon | lapce-rpc/src/lib.rs:154-178 | the new state and the id are `SendRequestCommon` of the old state |
| LapceRpc.RpcHandler.SendRpcRequest | lapce-rpc/src/lib.rs:180-188 | registers a one-shot channel and returns the request id, as `SendRequestCommon` says; the value the call waits for is `Recv` of a later state |
| LapceRpc.RpcHandler.SendRpcRequestAsync | lapce-rpc/src/lib.rs:190-197 | registers the callback as `SendRequestCommon` says |
| LapceRpc.RpcHandler.HandleResponse | lapce-rpc/src/lib.rs:199-207 | the new state is `Resolve` of the old |
| LapceRpc.RpcHandler.Respond | lapce-rpc/src/lib.rs:209-218 | the new state is `Responded` of the old |
| LapceRpc.RpcHandler.Mainloop | lapce-rpc/src/lib.rs:107-140 | the `for` loop with its early `return` ends in the state `RunFrom` gives and consumes as many messages |
| ProxyTypes.GetId | lapce-proxy/src/types.rs:86-92 | only a response has an id, and it is its `id` field when that is a `u64` |
| ProxyTypes.IsResponse | lapce-proxy/src/types.rs:82-84 | a message is a response exactly when it is the `Response` variant |
| ProxyTypes.HasIdField | lapce-proxy/src/types.rs:89 | what `get_id` needs not to panic: a response is a JSON object with an `id` field |
| ProxyTypes.Dispatchable | lapce-rpc/src/lib.rs:112-124 | the messages `mainloop` handles without panicking: not a `Request` (`unimplemented!()` in `into_rpc`), and a response only with an `id` field that is a `u64` (`get_id().unwrap()`) |
| ProxyTypes.IntoResponse | lapce-proxy/src/types.rs:94-117 | an error exactly when `result` and `error` are both present or both absent, with the fixed message; otherwise `Ok(result)` or `Err(error)` from the one field present |
| ProxyTypes.IntoRpc | lapce-proxy/src/types.rs:119-125 | a notification becomes `Call::Notification`; a response is an error |
| ProxyTypes.Classify | lapce-proxy/src/types.rs:82-125 | a message is dispatched as a response exactly when `is_response`, carrying the id `get_id` reads and the outcome `into_response` gives; otherwise as the outcome of `into_rpc` |
| ProxyTypes.ReplyRoundTrip | lapce-proxy/src/types.rs:86-117 | the reply `respond` builds reads back through `get_id` and `into_response` as the same id and outcome |
| ProxyTypes.ErrorFieldNeverSuccess | lapce-proxy/src/types.rs:98-113 | a response with an `error` field never resolves to a success |
| ProxyTypes.MalformedResponseResolvesWithError | lapce-proxy/src/types.rs:98-102 | through the loop, a response with both fields or neither resolves its pending request with the error message |
| Stdio.Sink.WriteAll | lapce-rpc/src/stdio.rs:39 | `write_all` succeeds exactly when the data fits, and buffers what it wrote |
| Stdio.Sink.Flush | lapce-rpc/src/stdio.rs:40 | flushing moves the whole buffer to the flushed output, or, when the sink reports an I/O error, moves nothing and reports it |
| Stdio.WriteMsg | lapce-rpc/src/stdio.rs:34-42 | a serialise failure writes nothing; otherwise the call succeeds exactly when the line fits and the flush succeeds, and then the message and a newline are flushed; a write or flush failure leaves the flushed output as it was |
| Stdio.WriterLoop | lapce-rpc/src/stdio.rs:20-25 | the messages are written as lines in queue order; the loop stops at the first message that does not serialise, does not fit in what the sink still accepts, or whose flush fails, and that failure is the result; what was written fits the sink, and when the flush fails nothing is written |
| Stdio.LineLength | lapce-rpc/src/stdio.rs:46 | `read_line` takes a non-empty prefix of non-empty input |
| Stdio.Source.ReadLine | lapce-rpc/src/stdio.rs:44-46 | one line, with its newline, is consumed and returned; a broken source at its end fails |
| Stdio.ReadMsg | lapce-rpc/src/stdio.rs:44-49 | `read_msg` fails with a read error exactly for a broken source at its end; otherwise it consumes one line and returns its parse, or a parse error |
| Stdio.Channel.Send | lapce-rpc/src/stdio.rs:29 | a send succeeds and appends exactly when the channel is open |
| Stdio.ReaderLoop | lapce-rpc/src/stdio.rs:26-31 | the parsed messages are forwarded in input order until the first read, parse or forward error, which is returned |
| Stdio.ReadAll | lapce-rpc/src/stdio.rs:26-31 | the reader thread's run as a function of the input: the messages of the lines read, each parsed and forwarded, up to the first read, parse or send error, which it returns |
| Stdio.ReadAllEnds | lapce-rpc/src/stdio.rs:26-31 | the reader stops only with a read, parse or send error; a read error only from a broken source, a send error only from a closed channel, and into a closed channel nothing is forwarded |
| Stdio.LineLengthOfFrame | lapce-rpc/src/stdio.rs:38-46 | `read_line` on a written frame takes exactly that frame |
| Stdio.FramesCons | lapce-rpc/src/stdio.rs:38 | the frames of a message list are the first frame followed by the rest |
| Stdio.ReadOneFrame | lapce-rpc/src/stdio.rs:44-49 | reading a frame yields its message and continues with the rest of the input |
| Stdio.ReadFramesThen | lapce-rpc/src/stdio.rs:26-49 | reading written frames yields the written messages in order, then continues after them |
| Stdio.WireRoundTrip | lapce-rpc/src/stdio.rs:20-49 | what the writer writes the reader reads back in order, stopping at the end of input |
| Stdio.BadLineStops | lapce-rpc/src/stdio.rs:47 | a line that does not parse ends the reader; it is not skipped |
| Stdio.Join | lapce-rpc/src/stdio.rs:69-82 | the reader's error is returned without looking at the writer; otherwise the writer's result |
| CodeAction.GetMode | core/src/code_action.rs:34-36 | the mode is always Insert |
| CodeAction.CheckCondition | core/src/code_action.rs:38-44 | true exactly for `list_focus` and `code_actions_focus` |
| CodeAction.Submitted | core/src/code_action.rs:53-76 | `CodeActionsCancel` and `ListSelect` submit `CancelCodeActions`; nothing else submits a command |
| CodeAction.MainSplit.ShowCodeActions | core/src/code_action.rs:192-197 | the popup is shown and the index is 0 |
| CodeAction.MainSplit.CancelCodeActions | core/src/code_action.rs:198-202 | the popup is hidden and the index is left as it was |
| CodeAction.MainSplit.Handle | core/src/code_action.rs:189-205 | the two UI commands update the main split as above |
| CodeAction.UnwrapAll | core/src/code_action.rs:334-340 | edits keep their order, and each annotated edit is replaced by its inner text edit |
| CodeAction.EditsOf | core/src/code_action.rs:344-358 | the `Edit` entries of an operation list, keeping only those |
| CodeAction.WorkspaceEdits | core/src/code_action.rs:322-362 | `changes` is returned unchanged when present; the result is absent exactly when both `changes` and `document_changes` are |
| CodeAction.CollectDomain | core/src/code_action.rs:329-343 | the map has an entry exactly for the URIs of the documents |
| CodeAction.CollectLast | core/src/code_action.rs:329-343 | a URI maps to the unwrapped edits of its last document |
| CodeAction.DuplicateUriOverwrites | core/src/code_action.rs:343 | of two documents with one URI, the later one's edits win |
| CodeAction.EditsOfAppend | core/src/code_action.rs:344-358 | filtering the operations distributes over concatenation |
| CodeAction.OperationIgnored | core/src/code_action.rs:347 | a create/rename/delete operation contributes nothing |
| CodeAction.OperationsOfEdits | core/src/code_action.rs:344-359 | an operation list of only `Edit` entries gives the same map as the `Edits` variant |
| CodeAction.SelectEdits | core/src/code_action.rs:109-116 | `select` finds edits exactly for a code action with an edit whose flattening has an entry for the buffer's URI, and they are that entry |
| CodeAction.SelectUsesChanges | core/src/code_action.rs:113-116 | when the action's edit has `changes`, `select` takes the buffer's edits from `changes` |
| MockMarkers.Decimal | lapce-ui/src/editor/tests/mock.rs:26 | the decimal text of an id is a non-empty run of digits |
| MockMarkers.DecimalValue | lapce-ui/src/editor/tests/mock.rs:67 | reading back the decimal text of an id gives the id |
| MockMarkers.DigitRunOf | lapce-ui/src/editor/tests/mock.rs:51-52 | `\d+` takes the whole run of digits before a non-digit |
| MockMarkers.MarkerAt | lapce-ui/src/editor/tests/mock.rs:51-52 | a recognised marker starts with `<` and lies within the text |
| MockMarkers.MarkerAtText | lapce-ui/src/editor/tests/mock.rs:26-52 | a marker as `fmt` writes it is recognised as that marker, with its kind, id and length, whatever follows |
| MockMarkers.PlainPrefix | lapce-ui/src/editor/tests/mock.rs:81-87 | text without `<` holds no marker: it is kept in the contents and shifts what follows |
| MockMarkers.MarkerPrefix | lapce-ui/src/editor/tests/mock.rs:76-87 | a written marker is found once and leaves nothing in the contents |
| MockMarkers.RenderStrip | lapce-ui/src/editor/tests/mock.rs:76 | taking the markers out of a rendered text gives back the contents |
| MockMarkers.RenderMarks | lapce-ui/src/editor/tests/mock.rs:69-78 | the markers of a rendered text sit at the offsets they were rendered at |
| MockMarkers.ScanKinds | lapce-ui/src/editor/tests/mock.rs:81-87 | both patterns find the markers of a text in text order, with their kinds and ids |
| MockMarkers.ScanSplits | lapce-ui/src/editor/tests/mock.rs:81-87 | scanning for one pattern alone, as `START.captures_iter` or `END.captures_iter` does, finds exactly the matches of that kind in the scan for both, in the same order |
| MockMarkers.MarkerAtInside | lapce-ui/src/editor/tests/mock.rs:51-52 | past its first character a marker holds no `<`, so no match of either pattern starts inside another |
| MockMarkers.JoinedScan | lapce-ui/src/editor/tests/mock.rs:81-87 | in a text of markers each followed by plain text, the patterns find exactly those markers at their positions |
| MockMarkers.JoinedStrip | lapce-ui/src/editor/tests/mock.rs:76 | taking the markers out of such a text leaves the plain texts |
| Mock.RecordMarker | lapce-ui/src/editor/tests/mock.rs:62-79 | succeeds exactly when `start - removed` does not underflow, the id is new in its table and the drained range lies inside the contents; then it records `start - removed`, drains the marker and adds its length to `removed` |
| Mock.ParseAsWritten | lapce-ui/src/editor/tests/mock.rs:49-103 | `parse` as written: every opening marker in text order, then every closing marker, through one running `removed` count; `None` when the closure panics |
| Mock.ParseInOrder | lapce-ui/src/editor/tests/mock.rs:49-103 | the corrected `parse`: the same closure over all markers in text order |
| Mock.Regions | lapce-ui/src/editor/tests/mock.rs:89-97 | one region per opening id: up to the closing marker with the same id, or a caret; closing ids with no opening marker are ignored |
| Mock.RecordInOrder | lapce-ui/src/editor/tests/mock.rs:62-87 | recording the markers in text order fails exactly when collecting the text's meaning does, and otherwise yields its contents without markers and its tables |
| Mock.InOrderMeaning | lapce-ui/src/editor/tests/mock.rs:49-103 | reading the markers in text order is the meaning of the text: its contents without markers, and each marker at its offset there |
| Mock.KindsInOrder | lapce-ui/src/editor/tests/mock.rs:81-87 | when every opening marker precedes every closing marker, the two passes visit the markers in text order |
| Mock.AsWrittenWhenStartsFirst | lapce-ui/src/editor/tests/mock.rs:81-87 | `parse` as written gives the text's meaning when every opening marker precedes every closing one |
| Mock.ClashFails | lapce-ui/src/editor/tests/mock.rs:73-74 | a second marker of one kind with an id already recorded fails |
| Mock.RepeatedIdFails | lapce-ui/src/editor/tests/mock.rs:73-74 | two opening markers, or two closing markers, with the same id make `parse` fail |
| Mock.CollectFails | lapce-ui/src/editor/tests/mock.rs:73-74 | collecting the markers fails exactly when an id repeats within one kind |
| Mock.MeaningDefined | lapce-ui/src/editor/tests/mock.rs:73-97 | a text has a meaning exactly when no id repeats within one kind |
| Mock.StartMarks | lapce-ui/src/editor/tests/mock.rs:25-29 | one opening marker per region, `<$i>` at the start of region `i` |
| Mock.EndMarksEnds | lapce-ui/src/editor/tests/mock.rs:30-35 | every closing marker belongs to a region that is not a caret and sits at its end |
| Mock.EndMarksIncrease | lapce-ui/src/editor/tests/mock.rs:30-35 | the closing markers are written in region order |
| Mock.EndMarksCover | lapce-ui/src/editor/tests/mock.rs:30-35 | every region that is not a caret gets a closing marker |
| Mock.InsertAllRender | lapce-ui/src/editor/tests/mock.rs:23-38 | inserting markers in offset order, each shifted by what was inserted before it, writes the contents with the markers at their offsets |
| Mock.InsertAll | lapce-ui/src/editor/tests/mock.rs:27-33 | `insert_str` of each marker at its offset plus what was inserted before it; `None` when an offset lies past the end, where `insert_str` panics |
| Mock.FormatAsWritten | lapce-ui/src/editor/tests/mock.rs:21-40 | `fmt` as written: every opening marker, then every closing marker of a region that is not a caret, through one running `inserted` count |
| Mock.FormatInOrder | lapce-ui/src/editor/tests/mock.rs:21-40 | the corrected `fmt`: the same insertions in offset order |
| Mock.MergeOrdered | lapce-ui/src/editor/tests/mock.rs:23-38 | merging the two runs of markers keeps them in offset order |
| Mock.CollectByKind | lapce-ui/src/editor/tests/mock.rs:81-87 | the two id tables can be filled one kind at a time |
| Mock.Indexed | lapce-ui/src/editor/tests/mock.rs:25-30 | `fmt` numbers the regions `0..n` in selection order |
| Mock.RegionsIndexed | lapce-ui/src/editor/tests/mock.rs:89-97 | the tables read from written markers give back region `i` under id `i` |
| Mock.FormatInOrderParses | lapce-ui/src/editor/tests/mock.rs:23-103 | for a state with no `<` in its contents and regions inside it, sorted by start and by end, formatting in offset order succeeds and the text reads back as the contents with region `i` under id `i` |
| Mock.AsWrittenInOrder | lapce-ui/src/editor/tests/mock.rs:23-38 | when every region starts no later than the end of any region that is not a caret, `fmt` as written inserts in offset order |
| Mock.AsWrittenRoundTrip | lapce-ui/src/editor/tests/mock.rs:21-144 | for a state with no `<` in its contents, regions inside it, sorted by start and by end, and every region starting no later than the end of any region that is not a caret: `fmt` as written succeeds and `parse` as written reads its text back as the contents with region `i` under id `i` |
| Mock.ParseSingleCursor | lapce-ui/src/editor/tests/mock.rs:109-116 | `foo<$0>bar` parses to `foobar` with a caret at 3 |
| Mock.ParseMultipleCursors | lapce-ui/src/editor/tests/mock.rs:118-125 | `foo<$0>b<$1>ar` parses to `foobar` with carets at 3 and 4 |
| Mock.ParseSingleSelection | lapce-ui/src/editor/tests/mock.rs:127-134 | `foo<$0>bar</$0>` parses to `foobar` with the region 3..6 |
| Mock.FormatIntoString | lapce-ui/src/editor/tests/mock.rs:136-144 | the state `foobar` with a caret at 2 and the region 3..6 formats as `fo<$0>o<$1>bar</$1>` |
| Mock.ParseFormatIntoString | lapce-ui/src/editor/tests/mock.rs:136-144 | `fo<$0>o<$1>bar</$1>` parses to that state |
| Mock.ClosedEarlyParseFails | lapce-ui/src/editor/tests/mock.rs:69-87 | `parse` as written fails on `<$0>x</$0>y<$1>z</$1>` |
| Mock.MisplacedParse | lapce-ui/src/editor/tests/mock.rs:69-87 | with six plain characters before the same kind of text, `parse` as written does not fail: it records region 0 as ending at 3, before its start at 6, and drains the wrong characters, while the parse in text order reads back the plain text and both regions |
| Mock.MisplacedExample | lapce-ui/src/editor/tests/mock.rs:69-87 | `parse` as written reads `abcdef<$0>g</$0>h<$1>i` as the contents `abc/$0>hi` with regions (6, 3) and a caret at 13 |
| Mock.ClosedEarlyParseInOrder | lapce-ui/src/editor/tests/mock.rs:49-103 | the same text read in text order gives back the state |
| Mock.ClosedEarlyAsWritten | lapce-ui/src/editor/tests/mock.rs:25-36 | `fmt` as written turns the state into `<$0>xy<$1</$0>>z</$1>` |
| Mock.ClosedEarlyFormatWrong | lapce-ui/src/editor/tests/mock.rs:21-40 | that text does not stand for the state, while the text written in offset order does |
| MockSamples.ClosedEarlyScan | lapce-ui/src/editor/tests/mock.rs:81-87 | the patterns find the four markers of `<$0>x</$0>y<$1>z</$1>` at 0, 5, 11 and 16 |
| MockSamples.MisplacedScan | lapce-ui/src/editor/tests/mock.rs:81-87 | the three markers of `wwwwww<$0>x</$0>y<$1>z` at 6, 11 and 17 |
| MockSamples.TangledStrip | lapce-ui/src/editor/tests/mock.rs:76 | the contents of `<$0>xy<$1</$0>>z</$1>` are `xy<$1>z` |
| MockHarness.AddRegion | lapce-ui/src/editor/tests/mock.rs:96 | adding a region adds exactly that region to the selection |
| MockHarness.AddRegionSorted | lapce-ui/src/editor/tests/mock.rs:96 | adding a region keeps the selection sorted by start |
| MockHarness.BagRemove | lapce-ui/src/editor/tests/mock.rs:90 | whichever order the id table is visited in, each id contributes its own region once |
| MockHarness.BagSize | lapce-ui/src/editor/tests/mock.rs:89-97 | there are as many regions as opening ids |
| MockHarness.BagHolds | lapce-ui/src/editor/tests/mock.rs:89-97 | the regions are exactly those of the opening ids |
| MockHarness.RecordCursorMarker | lapce-ui/src/editor/tests/mock.rs:62-79 | the closure fails exactly on underflow, a repeated id or a drain past the end; otherwise it records `start - removed`, drains the marker and adds its length to `removed` |
| MockHarness.RecordAllAppend | lapce-ui/src/editor/tests/mock.rs:81-87 | two passes are the first pass, then the second from where the first ended |
| MockHarness.RecordPass | lapce-ui/src/editor/tests/mock.rs:81-87 | one `for` loop over one pattern's matches ends where the specification ends, leaving the other table untouched |
| MockHarness.Select | lapce-ui/src/editor/tests/mock.rs:89-97 | the selection loop, visiting ids in any order, builds a sorted selection holding exactly one region per opening id |
| MockHarness.Parse | lapce-ui/src/editor/tests/mock.rs:49-103 | `parse` fails exactly where `ParseAsWritten` does, and otherwise yields its contents and a sorted selection of exactly its regions |
| MockHarness.Format | lapce-ui/src/editor/tests/mock.rs:21-40 | `fmt`'s two loops write exactly what `FormatAsWritten` says, failing where it does |
| MockHarness.InsertOpens | lapce-ui/src/editor/tests/mock.rs:23-29 | the first loop inserts every opening marker at its region's start, shifted by what went in before it: it fails exactly where inserting the opening marks fails, and otherwise leaves the text and running count from which inserting the closing marks gives the same result |
| MockHarness.InsertCloses | lapce-ui/src/editor/tests/mock.rs:30-36 | the second loop, carrying the running count on, inserts a closing marker at the end of every region that is not a caret, and its result equals inserting the closing marks in order |

## Left out

- Threads, channels and locks. `thread::spawn`, `crossbeam_channel`, `parking_lot::Mutex` and `AtomicU64` are left out, and the model is sequential. The counter is a field, the queue is a sequence, and invoking a response handler appends to a log.
- Callbacks are numbered, and calling one is recorded in the log. The code they run is outside the model.
- LapceRpc.Dropped: may happen at any time in the model. In the source the last `RpcHandler` cannot go while a caller is blocked in `send_rpc_request` holding `&self` (lapce-rpc/src/lib.rs:180-187), so LapceRpc.RecvAfterDrop covers a branch the program may never take.
- LapceRpc.RpcHandler.SendRpcRequest: returns the request id instead of blocking; the value the source waits for is the function `Recv` of the state once the response has arrived or the channel has been dropped.
- The handler passed to `mainloop` is two functions of the message's position in the stream and its payload. A handler whose answers depend on what it has been given so far is covered by that. A handler that calls back into the `RpcHandler` itself, sending through a clone of it while it handles a message, is not modelled.
- ProxyTypes.Dispatchable, ProxyTypes.GetId, ProxyTypes.IntoRpc, ProxyTypes.IntoResponse: the panics on these paths are excluded by preconditions rather than modelled. They are `as_object().unwrap()` and the `["id"]` index in `get_id` (lapce-proxy/src/types.rs:89), `get_id().unwrap()` in `mainloop` (lapce-rpc/src/lib.rs:114), `todo!()` in `into_response` (lapce-proxy/src/types.rs:115) and `unimplemented!()` in `into_rpc` (lapce-proxy/src/types.rs:123).
- LapceRpc.ToValue: the wire shape of `RpcRequestObject`, `{"method", "params"}` for a notification and `{"id", "method", "params"}` for a request, is assumed. The serde attributes that decide it are not modelled.
- JSON numbers are integers only. Floating point is not modelled, so neither is an id such as `1.0`, for which serde's `as_u64` gives `None`.
- The receiver of the outgoing channel goes away only when the writer thread ends. That is the one transition of `connected`, LapceRpc.RpcHandler.ReceiverDropped (with LapceRpc.Disconnected). When it happens relative to other calls is a matter of thread scheduling, which is not modelled.
- JSON text and serde. `Value` is an abstract datatype, and serialising and parsing are parameters. Written text is taken to contain no newline, which is a property of serde_json.
- Stdio.Sink: `capacity` counts characters, while `write_all` writes the UTF-8 bytes of the text. The two agree on ASCII text. What makes a real write or flush fail is not modelled: the sink's capacity and its `flushFails` flag are parameters.
- `stdio()` binds the real standard input and output and is not modelled. `lapce-proxy/src/lib.rs` and the `Dispatcher` it calls are not part of this model.
- Ids are unbounded naturals: the `u64` counter's wrap-around after 2^64 requests is not modelled. `get_id` accepts only naturals below 2^64.
- `lapce-rpc/src/request.rs` is not part of this model: parameters are opaque values.
- The GUI of `core/src/code_action.rs` is left out: painting, layout, text metrics, colours and float geometry. So are focus, `set_handled` and command submission through `EventCtx`. `Submitted` lists which command is submitted.
- `next` and `previous` are left out, because they depend on `Movement::update_index`, which is not part of this model.
- `select` is modelled only as far as `SelectEdits`: which edits it finds for the buffer. `prev_code_boundary`, `offset_of_position` and `main_split.edit` are not part of this model. Its precondition is the index bound that direct indexing demands.
- `MockEditor`, `test_command` and `test_event` are `todo!()` in the source and are not modelled.
- `Selection` is a sequence of regions kept sorted by start. `add_region` is modelled as a sorted insert that does not merge overlapping regions. The lapce_data code that merges them is not part of this model.
- Regular expressions are written out as marker recognition over characters. `\d` is taken as ASCII digits, while Rust's regex `\d` also matches other Unicode digits.
- Strings are sequences of characters. Rust's `insert_str` and `drain` work on byte offsets and panic off a character boundary; the model uses character offsets, which agree on ASCII text.
- A panic in `parse` or `fmt` (a repeated id, an underflowing offset, an index past the end) is `None`. `usize` overflow is not modelled. Neither is the parse of an id too large for `usize` (`parse::<usize>().unwrap()`).
- MockHarness.Parse: states the selection as a sorted sequence holding the same regions as the specification's table, counted with multiplicity. It does not fix the order of regions that start at the same offset, because the source visits its `HashMap` in no fixed order.

## Findings

| source | as written | input that shows it | evidently intended | confidence | as-written member | corrected member |
|---|---|---|---|---|---|---|
| lapce-ui/src/editor/tests/mock.rs:81-87 | all opening markers are recorded first, then all closing markers, with one running `removed` count for both passes; a closing marker that precedes a later opening marker has that marker's length subtracted too: `whole_match.start() - removed` underflows, or, with more text before the closing marker, the marker is recorded at a wrong offset and the wrong characters are drained | `<$0>a</$0>b<$1>c</$1>` (a selection of `abc` with regions 0..1 and 2..3): `</$0>` at 5 meets `removed == 8`; on `abcdef<$0>g</$0>h<$1>i`, `</$0>` at 11 is recorded at 3, `defg<` is drained and the contents read `abc/$0>hi` | each marker's offset is its position minus the length of the markers before it in the text | high, proved; not executed | Mock.ClosedEarlyParseFails, with Mock.MisplacedParse | Mock.ParseInOrder, with Mock.InOrderMeaning and Mock.ClosedEarlyParseInOrder |
| lapce-ui/src/editor/tests/mock.rs:25-36 | all opening markers are inserted first, then all closing markers, with one running `inserted` count; a region's end that lies before a later region's start is shifted by that later opening marker as well | the state `abc` with regions 0..1 and 2..3 is written `<$0>ab<$1</$0>>c</$1>`, whose contents are `ab<$1>c` | each marker is shifted by the markers before it in the text, so the text parses back to the state | high, proved; not executed | Mock.ClosedEarlyAsWritten, with Mock.ClosedEarlyFormatWrong | Mock.FormatInOrder, with Mock.FormatInOrderParses |

The two functions as written and the methods in `MockHarness` keep the source's behaviour. `Mock.AsWrittenRoundTrip` proves that written that way they still round-trip when every region starts no later than the end of any region that is not a caret, which covers the source's own tests.
