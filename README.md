# A2UI agent executor, modelled in Dafny

This project models the request handler of the basic ADK A2UI example agent:
`basic_adk_a2ui_example/remote_agent/agent_executor.py`. It covers three pieces.

* **Recovering A2UI messages from the model's reply**
  (`process_llm_output_to_a2ui_parts`). The reply is stripped, and JSON is
  looked for from its first `{` or `[`. One value is decoded there with
  `raw_decode`; failing that, the text up to the last `}` or `]` is decoded
  with `json.loads`. The value is then read as a list of A2UI messages, one
  part per message. Every failure becomes a single text part.
  (`recovery.dfy`; the JSON decoder in `json_scan.dfy`; `str.strip` in
  `text.dfy`.)
* **The `userAction` payload.** `execute` looks for it in the inbound
  message's parts. Its context items are unwrapped into a dict and
  serialised into a directive sentence for the model. (`user_action.dfy`;
  Python dicts in `dict.dfy`; `json.dumps` and `str()` in `json.dfy`.)
* **The handler's state machine** (`execute` and `cancel`). The handler
  either does nothing, or creates the task if needed and marks it `working`.
  It then accumulates the model's streamed text and ends the task exactly
  once: `failed` or `completed`. (`executor.dfy`.)

The recovery routine is a pure function of its text, so it is modelled with
functions and lemmas. `execute` works step by step, and the model keeps that
form:
* the loop over the message parts, which stops at the first action part, is
  a method;
* so is the loop that fills `context_dict` in place;
* so are the nested loops that append to `accumulated_text`;
* the event queue and the task updater are classes whose methods append to
  the list of events and to the list of status transitions.

Each method is proved against a specification function. The lemmas beside
those functions state what the source promises.

The model establishes these facts about the source:
* **The recovery's fallback is dead code.** The decoded text always starts
  with `{` or `[`, and a JSON value's decoding depends only on the text it
  reads. So the strict decode up to the last closing bracket can only
  succeed where `raw_decode` already has, and with the same value.
* **The "neither list nor dict" branch can never be taken**, for the same
  reason (`ProcessLlmOutputIsRecover`).

Python text is a sequence of code points (`PyText.PyStr`). A lone surrogate
is a valid code point here, because the decoder produces one for an unpaired
`\uD800` escape. A Python exception is the `Raises` case of
`UserAction.Outcome`.

## Model

Source paths are relative to the repository root.

| member | source | states |
|---|---|---|
| PyText.Strip | basic_adk_a2ui_example/remote_agent/agent_executor.py:28 | `str.strip()`: the result is no longer than the text, neither starts nor ends with whitespace, and is empty exactly when the text is all whitespace (the full `str.isspace` set) |
| PyText.StripTrims | basic_adk_a2ui_example/remote_agent/agent_executor.py:28 | `str.strip()` removes whitespace at both ends and nothing else: the result is a slice `s[a..a+|r|]` of the text with only whitespace before it and only whitespace after it |
| PyText.LStrip | basic_adk_a2ui_example/remote_agent/agent_executor.py:28 | `str.lstrip()`: the result is a suffix of the text, what was dropped is all whitespace, the result does not start with whitespace, and it is empty exactly when the text is all whitespace |
| PyText.RStrip | basic_adk_a2ui_example/remote_agent/agent_executor.py:28 | `str.rstrip()`: the result is a prefix of the text, what was dropped is all whitespace, and the result does not end with whitespace |
| PyText.StripJoinedLine | basic_adk_a2ui_example/remote_agent/agent_executor.py:133 | `f"{text}\n{d}".strip()`, for a `d` with non-space ends, is `d` alone when `text` is blank, and otherwise `text` with its leading whitespace dropped, a line feed, then `d` |
| PyDict.PutLookup | basic_adk_a2ui_example/remote_agent/agent_executor.py:105-111 | `d[k] = v`: keys stay unique, `k` now maps to `v`, every other key keeps its value, and a new key is appended to the insertion order |
| PyDict.Put | basic_adk_a2ui_example/remote_agent/agent_executor.py:105-111 | `d[k] = v` on a dict without `k` appends the pair; on a dict with `k` the keys and their order are unchanged |
| PyDict.Lookup | basic_adk_a2ui_example/remote_agent/agent_executor.py:96-111 | `d.get(k)`: any value found is paired with `k` in the dict |
| PyDict.FromPairs | basic_adk_a2ui_example/remote_agent/agent_executor.py:100-111 | a dict filled from pairs has no more entries than there were pairs, and each of its keys is the key of some pair |
| PyDict.FromPairsLookup | basic_adk_a2ui_example/remote_agent/agent_executor.py:100-111 | a dict filled from pairs in order has unique keys, and each key maps to the value of the last pair that has it |
| JsonValue.GetOr | basic_adk_a2ui_example/remote_agent/agent_executor.py:96-97 | `d.get(k, default)`: the value stored under `k` when the key is present, and `default` otherwise |
| JsonValue.Encode | basic_adk_a2ui_example/remote_agent/agent_executor.py:113 | `json.dumps` of a list is enclosed in `[` and `]`, of a dict in `{` and `}` |
| JsonValue.Str | basic_adk_a2ui_example/remote_agent/agent_executor.py:113 | `str()` of a string is the string itself, as the f-string at line 113 writes a string action name |
| JsonScan.ParseValue | basic_adk_a2ui_example/remote_agent/agent_executor.py:42 | a decoded value ends strictly after where it starts and within the text; it is a list exactly when the text opens with `[`, and an object exactly when it opens with `{` |
| JsonScan.Loads | basic_adk_a2ui_example/remote_agent/agent_executor.py:49 | `json.loads` succeeds only when one value is decoded after leading whitespace and only whitespace follows it |
| JsonScan.ValueAgree | basic_adk_a2ui_example/remote_agent/agent_executor.py:42 | prefix determinacy: a value decoded from position `i` decodes identically in any text that agrees with the original up to its end (and, for a number, one code point past it, which cannot continue the number) |
| Recovery.FirstOpen | basic_adk_a2ui_example/remote_agent/agent_executor.py:31 | `re.search(r'[\{\[]', s)`: the position of a `{` or `[` with no bracket before it, or none when the text has no bracket |
| Recovery.LastClose | basic_adk_a2ui_example/remote_agent/agent_executor.py:46 | `max(s.rfind('}'), s.rfind(']'))`: the last `}` or `]`, with no closing bracket after it, or none when there is none |
| Recovery.Fallback | basic_adk_a2ui_example/remote_agent/agent_executor.py:45-51 | with no `}` or `]` in the text the fallback finds nothing |
| Recovery.FallbackLoadsPrefix | basic_adk_a2ui_example/remote_agent/agent_executor.py:45-51 | a value the fallback finds is what `json.loads` gives for the text up to and including the last `}` or `]` |
| Recovery.Extract | basic_adk_a2ui_example/remote_agent/agent_executor.py:38-51 | the value obtained is `raw_decode`'s when that succeeds, and otherwise the fallback's |
| Recovery.Normalise | basic_adk_a2ui_example/remote_agent/agent_executor.py:57-68 | a list gives its elements; a dict whose `messages` entry is a list gives that list; any other dict gives itself as the one message; any other value is not a container |
| Recovery.A2uiParts | basic_adk_a2ui_example/remote_agent/agent_executor.py:70-72 | one part per message, in order, the `i`-th part wrapping the `i`-th message |
| Recovery.ProcessLlmOutput | basic_adk_a2ui_example/remote_agent/agent_executor.py:24-34 | empty output gives no parts; output whose stripped text has no `{` or `[` gives exactly one text part holding the stripped text |
| Recovery.FallbackImpliesRawDecode | basic_adk_a2ui_example/remote_agent/agent_executor.py:43-51 | when the strict decode up to the last closing bracket succeeds on text opening with a bracket, `raw_decode` succeeds on it too, with the same value: the fallback never rescues a reply |
| Recovery.ExtractIsRawDecode | basic_adk_a2ui_example/remote_agent/agent_executor.py:36-53 | on text opening with a bracket, the value extracted (raw decode, else fallback) is exactly `raw_decode`'s, and it is a list or a dict |
| Recovery.DecodeAt | basic_adk_a2ui_example/remote_agent/agent_executor.py:42 | what `raw_decode` yields at a bracket is always a list or a dict |
| Recovery.ProcessLlmOutputIsRecover | basic_adk_a2ui_example/remote_agent/agent_executor.py:36-68 | the routine equals the reference `Recover`, which has neither the fallback nor the "neither list nor dict" branch: both are dead code |
| Recovery.ProseValueTrailer | basic_adk_a2ui_example/remote_agent/agent_executor.py:31-42 | prose without brackets, then a complete list or object, then any trailing text, gives one A2UI part per message of that value: the prose and the trailer are ignored |
| Recovery.UndecodableIsText | basic_adk_a2ui_example/remote_agent/agent_executor.py:43-55 | when nothing decodes at the first bracket, the answer is one text part holding the stripped output (no exception escapes) |
| Recovery.BlankOutput | basic_adk_a2ui_example/remote_agent/agent_executor.py:24-34 | a non-empty all-whitespace reply gives one text part whose text is empty |
| UserAction.UnwrapPriority | basic_adk_a2ui_example/remote_agent/agent_executor.py:104-111 | on a dict value, the tag taken is the first of `literalString`, `literalNumber`, `literalBoolean`, `path` present, with that entry's value; the item is untagged exactly when none is present |
| UserAction.Unwrap | basic_adk_a2ui_example/remote_agent/agent_executor.py:104-111 | the `in` tests on an item's value: a dict never raises; a list or string raises `TypeError` exactly when some tag passes the `in` test (indexing it with a string fails); any other value raises `TypeError` |
| UserAction.Stored | basic_adk_a2ui_example/remote_agent/agent_executor.py:105-111 | a literal is stored as it is; a path `p` is stored as the string `{path: <p>}` |
| UserAction.ItemEntry | basic_adk_a2ui_example/remote_agent/agent_executor.py:102-111 | an item that assigns a pair assigns it under a hashable key (an unhashable key raises `TypeError`) |
| UserAction.Entries | basic_adk_a2ui_example/remote_agent/agent_executor.py:100-111 | the pairs the items assign have hashable keys and are no more than the items; the only exceptions are `AttributeError` and `TypeError` |
| UserAction.ContextDict | basic_adk_a2ui_example/remote_agent/agent_executor.py:100-111 | `context_dict` has unique keys and no more entries than there are items, or the loop raises `AttributeError` or `TypeError` |
| UserAction.ContextItems | basic_adk_a2ui_example/remote_agent/agent_executor.py:97-101 | iterating `context` raises exactly when it is neither a list, a dict nor a string |
| UserAction.ContextDictLastWins | basic_adk_a2ui_example/remote_agent/agent_executor.py:100-111 | the context dict has unique, hashable keys, and each key maps to the value of the last item that assigned it |
| UserAction.UntaggedItemOmitted | basic_adk_a2ui_example/remote_agent/agent_executor.py:104-111 | an item with none of the four tags leaves the context dict unchanged |
| UserAction.LaterKeyOverwrites | basic_adk_a2ui_example/remote_agent/agent_executor.py:101-111 | a later item with the same key overwrites the earlier value |
| UserAction.RaiseIsFinal | basic_adk_a2ui_example/remote_agent/agent_executor.py:101-111 | once an item raises, the items after it are never looked at |
| UserAction.BuildContextDict | basic_adk_a2ui_example/remote_agent/agent_executor.py:100-111 | the loop that fills `context_dict` in place yields the context dict, or the first item's exception |
| UserAction.Dumps | basic_adk_a2ui_example/remote_agent/agent_executor.py:113 | `json.dumps` of a dict is enclosed in braces |
| UserAction.DirectiveEnds | basic_adk_a2ui_example/remote_agent/agent_executor.py:113 | the directive opens with `U` and closes with `.`, so it is non-empty and has no whitespace at either end |
| UserAction.ActionDirectiveEnds | basic_adk_a2ui_example/remote_agent/agent_executor.py:95-113 | whenever a payload yields a directive, that directive has non-space ends |
| UserAction.SelectExample | basic_adk_a2ui_example/remote_agent/agent_executor.py:95-113 | the payload `{name: "select", context: [{key: "color", value: {literalString: "red"}}]}` gives the directive naming `select` with context data `{"color": "red"}` |
| UserAction.DumpsExample | basic_adk_a2ui_example/remote_agent/agent_executor.py:113 | `json.dumps({"color": "red"})` is `{"color": "red"}`, with a space after the colon |
| UserAction.ColorItemExample | basic_adk_a2ui_example/remote_agent/agent_executor.py:100-111 | the item `{key: "color", value: {literalString: "red"}}` gives the dict `{"color": "red"}` |
| UserAction.NameText | basic_adk_a2ui_example/remote_agent/agent_executor.py:113 | a missing name is written `None`, a string name as itself |
| UserAction.Directive | basic_adk_a2ui_example/remote_agent/agent_executor.py:113 | the directive starts with `User initiated action: '` and ends with `. Please use the appropriate tool to handle this.` |
| UserAction.ActionDirective | basic_adk_a2ui_example/remote_agent/agent_executor.py:95-113 | a payload that is not a dict raises `AttributeError` at `.get`; any exception is `AttributeError` or `TypeError` |
| UserAction.FirstActionPart | basic_adk_a2ui_example/remote_agent/agent_executor.py:93-94 | the index of a data part with a `userAction` key, with none before it, or none when no part has one |
| UserAction.LaterPartsIgnored | basic_adk_a2ui_example/remote_agent/agent_executor.py:93-115 | once an action part is present, appending any parts (other action parts included) does not change the extracted action |
| UserAction.ExtractUserAction | basic_adk_a2ui_example/remote_agent/agent_executor.py:91-115 | the scan that breaks at the first action part yields that part's directive, its exception, or no action when there is no action part |
| UserAction.UserActionOf | basic_adk_a2ui_example/remote_agent/agent_executor.py:91-115 | no action part gives no action; a directive has non-space ends; any exception is `AttributeError` or `TypeError` |
| UserAction.DirectiveFor | basic_adk_a2ui_example/remote_agent/agent_executor.py:95-113 | the step-by-step construction of one payload's directive equals its specification `ActionDirective` |
| Executor.AccumulateText | basic_adk_a2ui_example/remote_agent/agent_executor.py:138-161 | the nested loops over events and parts yield the accumulated text, or the first error |
| Executor.AccumulatedInOrder | basic_adk_a2ui_example/remote_agent/agent_executor.py:147-152 | a run without errors accumulates every text of every event, front to back, in order |
| Executor.ErrorIsFinal | basic_adk_a2ui_example/remote_agent/agent_executor.py:140-161 | once the run has raised, later events change nothing |
| Executor.AccumulatedFirstError | basic_adk_a2ui_example/remote_agent/agent_executor.py:140-161 | a run fails with the message of its first error, whatever text came before it |
| Executor.AccumulatedErrors | basic_adk_a2ui_example/remote_agent/agent_executor.py:140-161 | the run fails if and only if some event of the stream is an error |
| Executor.Accumulated | basic_adk_a2ui_example/remote_agent/agent_executor.py:147-153 | a failed run carries the message of an error event that is in the stream |
| Executor.Terminal | basic_adk_a2ui_example/remote_agent/agent_executor.py:153-170 | the final update is final, for the task and its context; it is `failed` exactly when the run raised, with the one part `Error: <message>`, and `completed` otherwise, with the parts recovered from the accumulated text |
| Executor.Started | basic_adk_a2ui_example/remote_agent/agent_executor.py:123-128 | before the run, the events are the new task (only when there is no current task), then `working`; none of them is final |
| Executor.NoInputNoEvents | basic_adk_a2ui_example/remote_agent/agent_executor.py:117-118 | with empty text and no action, `execute` enqueues nothing |
| Executor.Lifecycle | basic_adk_a2ui_example/remote_agent/agent_executor.py:117-170 | otherwise: three events for a new task and two for an existing one; the task first when it is new; `working` just before the last event; only the last event is final; and that event is `failed` if and only if the stream holds an error |
| Executor.EventsFor | basic_adk_a2ui_example/remote_agent/agent_executor.py:117-170 | an exception from the parts is raised again; otherwise nothing is enqueued exactly when there is neither text nor action, and a non-empty list of events is the start events followed by one final update |
| Executor.ExecuteEvents | basic_adk_a2ui_example/remote_agent/agent_executor.py:87-170 | `execute` raises exactly when the action payload raises, and then only `AttributeError` or `TypeError` |
| Executor.PromptWithAction | basic_adk_a2ui_example/remote_agent/agent_executor.py:131-133 | with an action, the prompt is the directive alone when the user's text is blank, and otherwise that text without its leading whitespace, a line feed and the directive |
| Executor.Prompt | basic_adk_a2ui_example/remote_agent/agent_executor.py:131-133 | without an action the prompt is the user's text as it is; with a directive with non-space ends, it is the directive alone for blank text, and otherwise the text without its leading whitespace, a line feed and the directive |
| Executor.EventQueue.Enqueue | basic_adk_a2ui_example/remote_agent/agent_executor.py:125 | the event is appended to the queue |
| Executor.TaskUpdater.UpdateStatus | basic_adk_a2ui_example/remote_agent/agent_executor.py:128 | the state is appended to the recorded transitions and the status update to the queue |
| Executor.A2uiAgentExecutor.Execute | basic_adk_a2ui_example/remote_agent/agent_executor.py:87-170 | `execute` raises what the payload provokes and enqueues nothing; otherwise it enqueues exactly the events of `ExecuteEvents`, whose shape `NoInputNoEvents` and `Lifecycle` state |
| Executor.A2uiAgentExecutor.Respond | basic_adk_a2ui_example/remote_agent/agent_executor.py:117-170 | given what the parts yielded: an exception is raised with nothing enqueued; with no text and no action nothing is enqueued; otherwise the events of `EventsFor` are enqueued |
| Executor.A2uiAgentExecutor.Proceed | basic_adk_a2ui_example/remote_agent/agent_executor.py:123-170 | after the early return: the start events, then the one final update for the run on the prompt |
| Executor.A2uiAgentExecutor.RunAndFinish | basic_adk_a2ui_example/remote_agent/agent_executor.py:138-170 | the run is followed by exactly one status update, the final one, recorded in both the queue and the updater's transitions |
| Executor.RaiseServerError | basic_adk_a2ui_example/remote_agent/agent_executor.py:173 | evaluating `raise ServerError(...)` raises the server error when the name is bound, and `NameError` otherwise |
| Executor.A2uiAgentExecutor.CancelAsWritten | basic_adk_a2ui_example/remote_agent/agent_executor.py:172-173 | `cancel` as written raises whatever evaluating `raise ServerError(...)` raises among the module's names; it never returns a task |
| Executor.CancelRaisesNameError | basic_adk_a2ui_example/remote_agent/agent_executor.py:9 | `ServerError` is not among the names the module binds, so `cancel` raises `NameError`, not the unsupported-operation error |
| Executor.A2uiAgentExecutor.Cancel | basic_adk_a2ui_example/remote_agent/agent_executor.py:172-173 | `cancel` with the name imported always raises the unsupported-operation server error |

Where the documented behaviour and the code differ, the model follows the
code:
* The text part of a failed recovery carries the *stripped* reply, not the
  reply verbatim (lines 28, 34 and 55).
* The emptiness test at line 24 comes before the strip. So a reply made only
  of whitespace gives one text part with empty text, not an empty list
  (`Recovery.BlankOutput`).
* Without an action, the prompt is the user's text unstripped. With one, the
  joined text is stripped (lines 131-133).
* `json.dumps` writes the context with `", "` and `": "` separators
  (`UserAction.DumpsExample`).

## Left out

- Logging (lines 25, 29, 33, 37, 44, 51, 54, 67, 75, 77, 114, 134, 154): no effect on the results.
- `create_a2ui_part` comes from `a2ui_extension`, which is not part of this model. `Recovery.A2uiPart` carries the message without modelling the data part's layout or MIME type.
- `try_activate_a2ui_extension` (line 121) is opaque for the same reason. It is not called in the model.
- The async machinery (`async for`, `Aclosing`, awaiting the queue) is modelled sequentially.
- The ADK runner is a function parameter from the session id and the prompt to a finite list of events. An exception ends the stream as its last event.
- The user id `"user"` and the `types.Content` wrapping of the prompt are not modelled.
- `context.get_user_input() or ""`, `context.current_task`, the message parts and `new_task(...)` are parameters of `Execute`. The SDK code behind them is not part of this model. A missing message is modelled as an empty list of parts.
- Executor.A2uiAgentExecutor.Execute: a runner error stands for an `Exception` subclass only. A `BaseException` that is not an `Exception` (`asyncio.CancelledError`, `KeyboardInterrupt`) passes the `except` at line 153 and escapes `execute`: the task stays `working` and no final update is sent. The model has no such event.
- Exceptions raised by `enqueue_event`, `update_status` or `process_llm_output_to_a2ui_parts` itself are not modelled. So are the updater's own checks on terminal states and its timestamps.
- JsonScan: Python's `RecursionError` on deeply nested JSON is not modelled. Neither is the limit on the number of digits when converting an integer. Both would make `raw_decode` raise something other than `JSONDecodeError`, and the exception would escape the routine.
- JsonValue.Json: numbers keep their lexeme. Float conversion, `repr` of floats, and numeric equality of keys are not modelled. In Python `1` and `1.0` are one dict key, and so are `True` and `1`, and `False` and `0`. `UserAction.ContextDict` keeps `JBool(true)` and `JNumber("1")` as two separate entries.
- JsonValue.Str: `str()` of a list or dict is written as JSON text, not as Python's `repr`. It is used for a path value, for an action name that is not a string (`UserAction.NameText`), and for the dead "neither list nor dict" branch. So `name: ["a"]` gives `["a"]` in the directive, where Python writes `['a']`.
- JsonValue.Encode: `json.dumps` of a number is written as its lexeme. Python re-renders floats, and `NaN`/`Infinity` as written.

## Findings

| source | as written | input that shows it | evidently intended | confidence | as-written member | corrected member |
|---|---|---|---|---|---|---|
| basic_adk_a2ui_example/remote_agent/agent_executor.py:173 | `cancel` raises `ServerError(...)`, but line 9 imports only `UnsupportedOperationError` and `Task`, so evaluating the name raises `NameError` | any call of `cancel` | raise the A2A server error carrying `UnsupportedOperationError` | not executed | Executor.A2uiAgentExecutor.CancelAsWritten (with Executor.CancelRaisesNameError) | Executor.A2uiAgentExecutor.Cancel |
