# OMO: verified model of the runtime core

A Dafny model of the parts of OMO where state, concurrency or exact arithmetic carries a promise
over whole runs, and proofs of those promises. Verify everything with `dafny verify dfyconfig.toml`.

## What is modelled

| file | part of OMO |
|---|---|
| `Common.dfy`, `Contracts.dfy`, `Orders.dfy` | options, UTF-8 lengths, the validated request and configuration types, sorting |
| `InferenceWorker.dfy`, `WorkerProtocol.dfy`, `EmbeddedModel.dfy` | the embedded model: the worker loop, the client that many concurrent calls share as a state machine, and as the object whose fields it updates |
| `Decimals.dfy`, `Calculator.dfy` | the exact decimal helper and the `calc` command |
| `Policy.dfy`, `Registries.dfy`, `Classification.dfy`, `Service.dfy` | cost estimates, eligibility, the decision tree, the registry store, the conversation shown to the classifier, and chats that pay |
| `Ledger.dfy`, `SqliteLedger.dfy`, `Fleet.dfy` | the daily budget ledger, in memory and as transactions on one table, and the chats of several processes on that table |
| `EventStream.dfy`, `Provider.dfy`, `Upstreams.dfy`, `StreamPrinter.dfy` | the bounded event-stream parser, the retry loop, what is collected from the streams of any upstream, and the chunk printer read back |
| `Admission.dfy` | admission: sliding window, requests in flight, bounded body |
| `ChangeSets.dfy`, `CiSelection.dfy` | the parser of `git diff --name-status -z`, the path classifier, the suite selection |
| `Corpus.dfy` | corpus validation, the canonical training set, the fine-tuning records |

The main results, cluster by cluster:

- **Worker protocol.** The client is a state machine whose steps are the code between two awaits;
  cancellation, deadlines, broken pipes, worker crashes and an external `close()` may happen at
  every await. In every interleaving a caller gets the worker's reply to its own request or no
  reply; `pending` counts the calls in progress; a cancelled call gives its slot back. How a call
  ends says what happened to it: cancelled only if it was, busy exactly when the queue was full,
  unavailable only after a disturbance; and a waiting call that nothing disturbs is answered.
- **Routing.** Exactly which requests run a helper, go outside (and to which entry, within the limits of
  server, request and caller), are answered locally, asked back or refused, each with its reason.
- **Spending.** In every interleaving of chats, registry reloads and upstream requests, what the
  requests really sent by a caller's chats cost, by the estimate, stays within the caller's budget
  of the day it was reserved on, and each chat stays within the least of the three cost caps. The
  estimate covers the bill of any usage within the token bounds. A reservation is refused exactly when
  the budget has no room for it. The in-memory ledger leads the chats exactly as the table does while
  no day comes back; the SQLite ledger is serializable and loses no update, and with several processes
  on it, any of which may fail or die at any moment, what all of them send stays within the committed
  amount and the budget, while a chat that is not disturbed does what one chat alone does.
- **Streaming.** The incremental parser refines a specification by blank-separated blocks, and names
  the cause of every failure. Whatever chunks an upstream streams, in whatever layout of lines, the
  contents in order, the last usage report and the last finish reason are collected, and one improper
  chunk fails the response. A printed reply is read back exactly if and only if it is not empty and
  fits the byte limits; a truncated stream gives the whole reply or an error. Streamed or in one body,
  a reply within the limits gives the same answer.
- **Admission.** No closed minute of any run holds more admissions than the limit, and a request
  is refused only when one of the two limits is really reached.
- **Decimals.** Sums, differences and products of grammar operands always succeed with the exact
  value; a quotient succeeds exactly when 40 significant digits can hold it.
- **Change sets.** Parsing undoes printing; a suite is skipped exactly when the output decomposes
  into records all of whose paths are classified as not needing it.
- **Corpus.** What `validate` accepts, and that nothing of a protected family or near a protected
  text reaches a training output, which depends only on the set of train records.

## How the code is read

- Money is `real`: float rounding of costs and budgets is not modelled.
- Exceptions are results. Where an exception leaves the modelled function uncaught it has an
  outcome of its own (`RouteRaised`, `Crashed`, `Raised`, `NotTuned`).
- Clocks, Git, HTTP responses, model outputs, JSON text and the database engine are parameters.
  JSON decoding is a function parameter that may give a value, reject the text, or raise an exception
  that no handler expects, such as a RecursionError; printing assumes of `json.dumps` only that each printed
  payload becomes one line of printable ASCII starting with no space, from which it is read back.
- Pipes are first-in first-out; killing a worker discards its pipes; `kill()` only sets a flag, the
  worker may still act until it exits. `BEGIN IMMEDIATE` admits one writer; any statement may fail
  and any process may die between two statements.
- A run of the client starts after `start()` has succeeded. The external `close()` may come at any
  time, not only at shutdown.
- Digits of operands are ASCII digits and the decimal context starts with clear flags.
- Paths and texts hold no lone surrogates. Lines of an upstream response are those of Python's
  `splitlines`.

Where the code and its documentation or names disagree, the model follows the code:

- `ready` can hold without a worker. Nothing clears it when an idle worker dies
  (`WorkerProtocol.ReadyOutlivesIdleWorker`), and a ready line can be read after an external
  `close()` or after the worker has gone (`WorkerProtocol.ReadyCanOutliveProcess`).
  `WorkerProtocol.ReadyTracksWorkerThroughout` says exactly which steps break the promise.
- `route` serializes the conversation outside its exception handler: a valid request whose contents
  fit 16000 bytes can still raise (`Service.FullConversationRaises`, `Service.RouteRaisesExactly`).
- A terminating quotient of more than 40 digits is reported as "non-terminating"
  (`Calculator.LongCommandRefused`).
- The in-memory ledger forgets other days, so it keeps the budgets exactly on the day sequences in
  which no day returns (`Ledger.MemoryKeepsBudgetsExactly`).
- A proposed `local_answer` is decided like a proposed external call
  (`Policy.LocalProposalIsExternal`).
- The docstring of `ci_changes.py` says only documentation can skip both suites; seven release and
  workflow files can too, as `docs/CI.md` says of release-only paths (`CiSelection.OnlyDocumentationSkips`).
- Adding the first path to an empty change set can deselect a suite (`CiSelection.MorePathsSelectMore`),
  and the order of paths decides whether `classify` raises (`CiSelection.RaisesExactly`).
- Not every bad provider response ends as a provider error. A buffered one escapes uncaught if and
  only if its body raises something else in the JSON decoder, as deep nesting does, or its message is
  not an object (`Provider.CompleteCrashesExactly`, `Provider.NestedBodyCrashes`,
  `Provider.TextMessageCrashes`); a streamed one if and only if the decoder raises so on a block
  after valid ones (`Provider.StreamCrashesExactly`, `Provider.NestedStreamCrashes`).
- The worker answers `inference_failed`, not `invalid_request`, when the JSON decoder raises anything
  but a TypeError or ValueError (`InferenceWorker.Serve`) or when a role is a list or an object
  (`InferenceWorker.ParseRequest`).

## Model

| member | source | states |
|---|---|---|
| Common.Utf8Exact | src/omo/policy.py:33 | the byte lengths that all limits count are those of the UTF-8 encoding, and no two texts have the same bytes |
| Contracts.ContentBytesCount | src/omo/contracts.py:63 | the bytes counted message by message are those of the whole conversation |
| InferenceWorker.ParseRequest | src/omo/inference_worker.py:36-63 | a decoded request is accepted, with its messages, if and only if it meets the whole contract: 1 to 24 good messages, at most 60000 bytes of content together, 8 to 256 tokens, typed options; it raises if and only if a role that cannot be hashed comes before every other bad message |
| InferenceWorker.Serve | src/omo/inference_worker.py:83-134 | the i-th output line answers the i-th input line, whatever the engine does and whatever is raised, and there are no other output lines |
| InferenceWorker.RepliesExactly | src/omo/inference_worker.py:89-131 | an acceptable request is answered with the engine's text and finish reason if and only if it is no count, the prompt fits the context and the engine completes it; with the token count if and only if that is asked and fits; else with the failure that happened; the prompt is the request's messages in order, after the default system message when they start with none |
| InferenceWorker.RefusesExactly | src/omo/inference_worker.py:84-134 | a line is an invalid request if and only if it cannot be decoded or is not acceptable and does not raise; what raises is answered as failed |
| EmbeddedModel.LlamaModel.constructor | src/omo/inference.py:25-46 | a started client has one warm worker with empty pipes, a free lock and no pending call, and meets the protocol invariant |
| EmbeddedModel.LlamaModel.Close | src/omo/inference.py:83-88 | afterwards there is no process and `ready` is false, the old worker is killed or has exited, no other worker, call or slot has changed, and the protocol invariant is kept |
| EmbeddedModel.LlamaModel.Fail | src/omo/inference.py:112-119 | the handler leaves no process behind; the call ends at once, with slot and lock free, when there was none, and otherwise waits for it still holding both; no other call moves |
| EmbeddedModel.LlamaModel.Acquire | src/omo/inference.py:49-52 | past the lock, a worker not seen to have exited is kept and its pipes hold exactly this call's request; otherwise `ready` is false and a worker is being created; the invariant is kept |
| EmbeddedModel.LlamaModel.ReadReady | src/omo/inference.py:74-81 | after the ready line `ready` holds and this call's request is alone in the pipes, or the call ends unavailable if the process was closed; after any other line there is no process; the invariant is kept |
| EmbeddedModel.LlamaModel.ReadReply | src/omo/inference.py:105-117 | a whole line ends the call with the worker's reply to its own request, `pending` one lower, lock free and pipes empty; a torn line leaves no process; the invariant is kept |
| EmbeddedModel.LlamaModel.Interrupt | src/omo/inference.py:110-119 | an error or cancellation at any await inside the lock leaves no process, and the call ends or waits for the closed one; the invariant is kept |
| EmbeddedModel.LlamaModel.Closed | src/omo/inference.py:88-119 | the end of that wait, or its cancellation, frees slot and lock and moves no other call |
| EmbeddedModel.LlamaModel.Step | src/omo/inference.py:48-119 | each scheduled segment of any call moves the object's fields exactly as the state machine does |
| EmbeddedModel.Operate | src/omo/inference.py:48-119 | after any schedule the object satisfies the protocol invariant, and every finished call reports its own request's reply or none |
| WorkerProtocol.StepKeeps | src/omo/inference.py:48-119 | every code segment of a call, every worker step and an external close keep the invariant: slots counted, one lock holder, pipes empty when the lock is free, at most the holder's request outstanding, no orphan worker, faithful outcomes |
| WorkerProtocol.CallStepLocal | src/omo/inference.py:91-119 | every segment of a call touches only that call and at most one worker, the one it creates included, and leaves that worker's pipes in the shape the call's new place requires |
| WorkerProtocol.LocalKeeps | src/omo/inference.py:83-119 | a change that is local in this sense keeps the invariant of the whole state |
| WorkerProtocol.RunKeeps | src/omo/inference.py:83-119 | the invariant holds after every sequence of steps from the started client |
| WorkerProtocol.RepliesMatchCallers | src/omo/inference.py:102-109 | in every interleaving, a result or worker error given to a caller is the worker loop's reply to that caller's own payload |
| WorkerProtocol.PipesCarryOnlyTheHolder | src/omo/inference.py:96-113 | lock free: both pipes of the current worker are empty; lock held: at most one request or reply is in them, and it is the holder's |
| WorkerProtocol.PendingCountsCalls | src/omo/inference.py:91-119 | `pending` is the number of calls in progress and within the queue limit, at most one call is past the lock, and a quiescent client has pending 0 and a free lock |
| WorkerProtocol.AtMostOneWorker | src/omo/inference.py:48-62 | of two workers ever created, one has been killed or has exited |
| WorkerProtocol.CancellationFreesTheSlot | src/omo/inference.py:112-119 | cancelling a call at whatever await it is suspended ends it as cancelled, frees exactly its slot and leaves every other call where it was |
| WorkerProtocol.FailureEndsUnavailable | src/omo/inference.py:104-119 | a missed deadline, broken pipe or other failure at any await inside the lock ends the call as unavailable, frees its slot and the lock and moves no other call |
| WorkerProtocol.CancelledOnlyByCancel | src/omo/inference.py:112-119 | over whole runs, a call ends as cancelled only if it was cancelled |
| WorkerProtocol.BusyExactly | src/omo/inference.py:92-94 | over whole runs, a call is turned away as busy if and only if the calls in progress filled the queue when it came |
| WorkerProtocol.UndisturbedStaysAvailable | src/omo/inference.py:91-119 | over whole runs, a call that does not fail itself is never told that inference is unavailable, unless there was a close from outside or a worker died in the middle of a line, whatever other calls and workers do |
| WorkerProtocol.WaitingCallIsAnswered | src/omo/inference.py:48-109 | from every reached state with a free lock, a waiting call that goes through its awaits undisturbed, with a live worker or a new one, ends with the worker's reply to its own request |
| WorkerProtocol.ReadyTracksWorkerExactly | src/omo/inference.py:76-86 | from a state where `ready` implies a worker that is not gone, a step breaks this if and only if it reads a stale ready line or the current worker goes while `ready` is set; for workers as the client knows them and as they are |
| WorkerProtocol.ReadyTracksWorkerThroughout | src/omo/inference.py:76-86 | over whole runs: `ready` promises such a worker at every moment if and only if no step of these two kinds happens |
| WorkerProtocol.ReadyOutlivesIdleWorker | src/omo/inference.py:83-86 | a concrete run: the idle worker exits, its exit is seen, and `ready` still holds with that process |
| WorkerProtocol.ReadyTracksProcessWithoutExternalClose | src/omo/inference.py:76-86 | in runs without an external close, `ready` implies a process and a spawning call holds the current one |
| WorkerProtocol.ReadyCanOutliveProcess | src/omo/inference.py:76-86 | a concrete run after which `ready` holds and there is no process |
| Decimals.LongDivision | src/omo/helpers.py:25 | the digit loop keeps dividend, coefficient and divisor tied by the division identity and stops exact or with all digits of the precision |
| Decimals.DivideDigits | src/omo/helpers.py:25 | an exact result satisfies the division equation with no trailing zero beyond the ideal exponent; an inexact one brackets the quotient with a full coefficient |
| Decimals.RoundedQuotient | src/omo/helpers.py:22-28 | a quotient is exact if and only if some quotient with at most `precision` digits exists, and then it is one; its magnitude stays in the operands' range |
| Decimals.NoShortForm | src/omo/helpers.py:28-32 | a bracketed quotient with a full coefficient equals no decimal with fewer digits, at any exponent |
| Decimals.AddExact | src/omo/helpers.py:16-17 | a sum of bounded operands fits one more digit, is not rounded and is the rational sum |
| Decimals.SubtractExact | src/omo/helpers.py:18-19 | a difference of bounded operands fits one more digit, is not rounded and is the rational difference |
| Decimals.MultiplyExact | src/omo/helpers.py:20-21 | a product of bounded operands fits twice their digits, is not rounded and is the rational product |
| Calculator.Evaluate | src/omo/helpers.py:7-35 | for all operands of the grammar: add, subtract and unitless multiply succeed with exactly the rational result, unitless divide by non-zero succeeds if and only if 40 digits suffice and then result times b is a, and the other cases give their exact refusal |
| Calculator.ReadFormat | src/omo/helpers.py:33 | reading the fixed-point text back gives the same number, positive exponents included |
| Calculator.FastHelperExact | src/omo/helpers.py:38-56 | the fast path gives operation and operands if and only if the request is one message holding exactly the command printed from them |
| Calculator.FastHelperOperands | src/omo/helpers.py:43-56 | what the fast path accepts always meets the operand grammar and has no unit |
| Calculator.CommandUnique | src/omo/helpers.py:43-49 | two written commands with the same text have the same operands and operator |
| Calculator.MultiplyNeedsFortyDigits | src/omo/helpers.py:13 | the precision is tight: with 39 digits the product of the largest operands would be rounded |
| Calculator.CommandComputed | src/omo/helpers.py:38-56 | a single message that is a command is read as a call whose every result by the helper's promise is the exact value of the written expression, or its exact refusal |
| Calculator.Calculate | src/omo/helpers.py:7-56 | fast path and helper together answer every written command so, and nothing that is not a command |
| Calculator.LongQuotientRefused | src/omo/helpers.py:28-32 | a concrete quotient that terminates after 47 digits equals no decimal of at most 40 |
| Calculator.LongCommandRefused | src/omo/helpers.py:28-32 | on the operand texts of that quotient the helper answers "non-terminating" and nothing else |
| Calculator.LongCommandRead | src/omo/helpers.py:38-56 | the fast path reads exactly these operands from the written command |
| Orders.SortCanonical | src/omo/policy.py:88 | a sort by a key that tells the elements apart depends only on which elements there are |
| Orders.FilterSortCommute | src/omo/policy.py:72-88 | filtering before or after such a sort gives the same list |
| Orders.StringLeExactly | src/omo/policy.py:88 | identifiers are ordered by code points: a prefix comes first, else the first difference decides |
| Policy.EligibleModels | src/omo/policy.py:56-88 | the filtering loop computes the specified list, early returns included |
| Policy.EligibleExact | src/omo/policy.py:64-88 | the list holds exactly the registry entries allowed by every restriction, ordered by priority and id |
| Policy.EligibleIgnoresOrder | src/omo/policy.py:72-88 | registries with the same entries in another order give the same list |
| Policy.TighteningFilters | src/omo/policy.py:64-88 | restricting cost, hosts, retention, locality or capabilities gives the looser list with entries removed and order kept |
| Policy.TighteningNeverPromotes | src/omo/policy.py:155-169 | the first choice under restrictions is an unrestricted choice and never ranks ahead of the unrestricted first choice |
| Policy.LocalProposalIsExternal | src/omo/policy.py:136-169 | a proposed local answer is decided exactly like the same proposal of an external call |
| Policy.ExternalComesFromProposal | src/omo/policy.py:134-169 | only a proposed external call or local answer leads outside, and then to the first eligible model for the proposal's capability |
| Policy.ExternalTargetEligible | src/omo/policy.py:155-169 | an external decision names a registry entry that passed every filter and before which no other such entry ranks |
| Policy.HelperExactly | src/omo/policy.py:100-154 | a helper runs if and only if the typed request, the written command or the awaited proposal gives a call, and it is that call; only a sandbox call with the sandbox disabled is refused, as that |
| Policy.OutsideExactly | src/omo/policy.py:56-170 | a request goes outside if and only if that or a local answer is proposed, awaited, and some entry meets every condition on its own fields; it goes to the one of least priority number and then least identifier |
| Policy.RefusedExactly | src/omo/policy.py:100-170 | exactly when a question is asked back, and exactly when a request is refused as rejected by the model, outside the local envelope, in need of retrieval, or without an eligible target |
| Policy.LocalExactly | src/omo/policy.py:115-133 | the local model answers if and only if the request is a single user message that is one of the listed questions, asks for text and may be answered locally; no such question is a command, and no proposal leads there |
| Policy.LocalOnlyStays | src/omo/policy.py:64-65 | a local-only request, or any request with external models disabled, never leaves, whatever is proposed |
| Policy.BoundCoversConversation | src/omo/policy.py:29-33 | the framed bytes, without the constant reserve, are the UTF-8 bytes of the whole conversation plus 32 for each message |
| Policy.EstimateCoversBill | src/omo/policy.py:29-53 | any usage within the token bounds, billed by the two prices for a million tokens, costs at most the estimate, and usage at both bounds exactly that |
| Policy.CostNotNegative | src/omo/policy.py:42-53 | the estimate of a validated entry is never negative |
| Registries.RegistryStore.TryReload | src/omo/registry.py:96-114 | a failed reload changes nothing but the record of the attempt; a successful one replaces the snapshot and every time stamp |
| Registries.RegistryStore.RefreshIfStale | src/omo/registry.py:116-119 | a fresh snapshot is never replaced, and a stale one only by a registry that loaded |
| Ledger.BudgetLedger.Reserve | src/omo/access.py:113-152 | the in-memory reservation, early returns included, moves table and answer as the pruning specification says |
| Ledger.BudgetLedger.Snapshot | src/omo/access.py:154-168 | a caller is in the snapshot of a day if and only if it has an entry of that day, with that amount, and nothing changes |
| Ledger.KeptTableExact | src/omo/access.py:145-152 | in every history, the table that keeps everything holds exactly what was granted, never above the budget |
| Ledger.AcceptedExactly | src/omo/access.py:113-152 | a request is accepted if and only if its amount is finite and not negative and the caller has no daily budget or what was granted that day leaves room for it |
| Ledger.MemoryAcceptedExactly | src/omo/access.py:113-152 | the in-memory ledger accepts exactly those too while no day returns |
| Ledger.PrunedIsRestriction | src/omo/access.py:145-148 | while no day returns, the in-memory table is the kept one restricted to the last day |
| Ledger.MemoryAnswersAgree | src/omo/access.py:145-152 | in such histories the in-memory ledger answers every request as the kept table does |
| Ledger.MemorySnapshotsAgree | src/omo/access.py:154-168 | with non-decreasing days the snapshots agree for every day from the last reservation on |
| Ledger.MemoryKeepsBudgetsExactly | src/omo/access.py:145-152 | on a sequence of days, the in-memory ledger keeps every budget in every history if and only if no day returns after another one |
| SqliteLedger.CommittedIsSumOfGrants | src/omo/access.py:121-144 | in every interleaving of processes, statement failures and crashes, the committed amount is the sum of the accepted reservations and within the budget |
| SqliteLedger.Serializable | src/omo/access.py:121-144 | the committed table is what one process reserving in commit order would hold, each reservation accepted in turn |
| SqliteLedger.RefusalChangesNothing | src/omo/access.py:131-144 | only a commit changes the table, by exactly the reservation then answered `True`; a refusal, failure or crash changes nothing |
| SqliteLedger.UndisturbedReserves | src/omo/access.py:119-144 | from every reached state with a free table, the four statements of one reservation answer and change the table exactly as the sequential ledger does |
| EventStream.ReadLines | src/omo/provider.py:185-214 | the incremental loop yields the events and the verdict of the block specification on every line sequence and every ending |
| EventStream.OutcomeMeaning | src/omo/provider.py:186-214 | the yielded events are the valid blocks before the first `[DONE]` within the three byte limits, and success means exactly that the marker was reached |
| EventStream.FailureNamesItsCause | src/omo/provider.py:186-214 | a stream that does not succeed has the code of its cause: the first block that is too large, unreadable or over the text limit; else the response limit, the broken connection, or the end without the marker, with or without data |
| EventStream.UsageExactly | src/omo/provider.py:45-53 | a usage report is read as exactly its three counts, or as none if it is missing or null, and refused otherwise |
| EventStream.JoinAppends | src/omo/provider.py:190-208 | the data lines of a block are joined in order with one line break between two of them |
| EventStream.SizeIsBytes | src/omo/provider.py:185-188 | what the response limit counts is the bytes of the lines with one break each |
| EventStream.DecisionIsFinal | src/omo/provider.py:189-204 | a decision reached within the response limit is the outcome however the stream goes on |
| EventStream.RestIgnored | src/omo/provider.py:196-197 | after a decision such as `[DONE]`, further lines and a broken connection have no effect |
| Provider.Stream | src/omo/provider.py:157-225 | at most two upstream requests, a second one if and only if the first was answered 429; what is yielded is the last response's outcome, nothing before a 200 answer; the statement after the loop is never reached |
| Provider.Gather | src/omo/provider.py:233-238 | the collecting loop gives the joined text, the last usage and the last non-empty finish reason |
| Upstreams.WireRead | src/omo/provider.py:185-207 | blocks of data lines, with any white space before the data, and of comments and other fields are read as what their data lines carry |
| Upstreams.AnyStreamRead | src/omo/provider.py:134-246 | whatever chunks an upstream streams before the marker within the limits: the call is answered if and only if every chunk is proper and they hold some text, with the contents in order, the usage of the last report and the last non-empty finish reason, else "stop"; one improper chunk makes the response invalid |
| EventStream.EscapesExactly | src/omo/provider.py:189-224 | an exception that is no provider error leaves the parser if and only if, within the limits, some valid events are followed by a block on which the decoder raises one that no handler catches |
| Provider.CollectStream | src/omo/provider.py:227-246 | the collected completion is that of the last response, or the failure's code with the number of attempts, or the exception that escaped |
| Provider.StreamCrashesExactly | src/omo/provider.py:215-246 | an exception outside the handled ones leaves `collect_stream` if and only if there is a key and the last answer is a 200 whose blocks do that |
| Provider.NestedStreamCrashes | src/omo/provider.py:198-224 | one data line of 16000 opening brackets does, when the decoder raises on it |
| Provider.Complete | src/omo/provider.py:86-132 | at most two requests, a second one if and only if the first was answered 429; the completion, read chunk by chunk, is what the whole last body gives: size bound first, then connection, then the checks of the answer |
| Provider.CompleteCrashesExactly | src/omo/provider.py:108-131 | an exception outside the handled ones leaves `complete` if and only if there is a key and the last answer is a 200 over an unbroken connection whose body, within the limit, raises such an exception in the decoder or holds one choice with a message that is not an object |
| Provider.NestedBodyCrashes | src/omo/provider.py:108-131 | a body of 30000 opening and 30000 closing brackets does, when the decoder raises on it |
| Provider.BufferedRoundTrip | src/omo/provider.py:103-123 | whatever is said in the one choice of a body within the limit, however cut into chunks: it is answered if and only if it is an assistant's text within its limit, without tool calls and with a proper usage report, and then with that text, those counts and that finish reason, "stop" by default; tool calls are refused as such |
| Provider.RefusedAlike | src/omo/provider.py:55-182 | a call whose deciding response is no 200 is refused with the code of its status and the number of requests sent, the same whether it streams or not; without a key nothing is sent |
| Provider.BodyRefused | src/omo/provider.py:100-110 | a 200 answer over the size limit is refused as that, even over a broken connection; then for the connection; then for a text that is not JSON or holds not exactly one choice |
| Provider.TextMessageCrashes | src/omo/provider.py:108-131 | the body `{"choices": [{"message": "x"}]}` does that, whatever bytes it is decoded from |
| StreamPrinter.Chunks | src/omo/api.py:293-326 | the printed blocks are those of the text pieces, the final chunk and the marker |
| StreamPrinter.EmitPieces | src/omo/api.py:300-313 | the slicing loop emits the text in pieces of 256 characters, none missing or repeated |
| StreamPrinter.PiecesJoin | src/omo/api.py:300-308 | the pieces joined give the text back |
| StreamPrinter.RoundTripExact | src/omo/api.py:293-326 | printed and read back, a reply gives the same text, usage and finish reason if and only if it is not empty and fits the parser's limits; otherwise an error |
| StreamPrinter.StreamedAsBuffered | src/omo/provider.py:86-246 | a reply within the limits gives the same answer, attempts included, whether the upstream prints it in one body or streams it |
| StreamPrinter.PrefixGivesAllOrNothing | src/omo/provider.py:185-214 | every prefix of the printed stream, however the connection ends, gives the whole reply or an error, never a shorter success |
| Classification.SerializeMessages | src/omo/classification.py:56-72 | a conversation is printed if and only if it has 1 to 24 messages, no system message after the first, a user message at the end, and a print of at most 16000 bytes |
| Classification.FullConversationFails | src/omo/contracts.py:52-69 | two messages that fill the content bound are a valid request, and no printer that adds a byte can print them within the limit |
| Service.RouteRaisesExactly | src/omo/service.py:51-98 | for every valid request, the serializer's ValueError leaves `route` if and only if the request needs analysis and its printed conversation is over 16000 bytes, and the model's error if and only if it needs analysis, fits, and the model fails |
| Service.FullConversationRaises | src/omo/service.py:72-73 | a valid request on which `route` raises, with any printer that adds a byte to the contents |
| Service.RoutedOutsideExactly | src/omo/service.py:35-98 | a request is routed outside if and only if it asks for that, or its analysis succeeds and proposes that or a local answer, and some entry of the captured registry may serve it within the limits of server, request and caller; it is routed to the first such entry |
| Service.RoutedToHelperExactly | src/omo/service.py:35-98 | a request runs a helper if and only if it states the call, its command spells it or its analysis succeeds and proposes it, and no disabled sandbox is needed; it runs that call |
| Service.AnalysisRefusedExactly | src/omo/service.py:74-90 | exactly when a request is refused because its analysis is too long, and exactly when because it gives no valid proposal |
| Service.RouteAffordable | src/omo/service.py:38-58 | a route to an external model names an entry of the captured registry, found by the lookup, that passed every filter, the proposal's capability included, with no such entry ranked before it, and whose doubled estimate fits the least of the three caps |
| Service.CallerTightens | src/omo/service.py:38-50 | a caller's cap, retention and hosts only tighten what is asked of an external model |
| Service.CallerNeverPromotes | src/omo/service.py:38-98 | where a caller is routed outside, the same request without the caller's limits is too; the caller's target is in the unrestricted list and does not rank ahead of the unrestricted target |
| Service.LookupFinds | src/omo/service.py:162 | with unique ids, looking up an entry's id finds that very entry |
| Service.PayExact | src/omo/service.py:161-170 | a decision asks the ledger for twice its estimate exactly when it leads to an external call of a known caller |
| Service.StepKeeps | src/omo/service.py:100-177 | every reload, start, decision and upstream request keeps the invariant: each account holds what its chats reserved, within the budget |
| Service.BudgetsKept | src/omo/service.py:161-177 | over every run, the estimated cost of the requests a caller's chats sent never passes the caller's daily budget |
| Service.EachChatWithinCap | src/omo/service.py:41-50 | each chat's share of it is within the least of the server's, the request's and the caller's cost cap |
| Service.MemoryRunsAgree | src/omo/access.py:145-152 | a service on the in-memory ledger runs exactly as one on the kept table while no day is asked for again after another |
| Service.BudgetsKeptInMemory | src/omo/access.py:145-152 | in such runs the in-memory ledger keeps every daily budget |
| Fleet.StepKeeps | src/omo/access.py:119-144 | every start, decision, statement, upstream request and death of a process keeps the invariant: each waiting chat holds the one open transaction of its process, and the committed table covers what all chats have reserved |
| Fleet.FleetBudgetsKept | src/omo/access.py:119-144 | in every interleaving of several processes, with busy tables, failed statements and deaths at any moment, the estimated cost of the requests all of them sent for a caller on a day is at most the committed amount, which is at most the budget |
| Fleet.UndisturbedChatIsChat | src/omo/access.py:119-144 | from every reached state of the processes with a free table, a chat that is not disturbed does what one chat on a ledger of its own does: same table, same end, same number of requests sent |
| Service.StoreIsLastLoaded | src/omo/registry.py:96-107 | in every run the store holds the last registry that validated, whatever the chats do |
| Service.SnapshotIsFromStart | src/omo/service.py:102-103 | a chat keeps, to its end, the registry that was the last loaded one when it started |
| Service.LookupAlwaysFinds | src/omo/service.py:162-163 | in every run, reloads included, the target lookup succeeds with an entry that passed every filter, for the capability of the proposal, and its estimate is the reserved one |
| Service.ChatPaysFirst | src/omo/service.py:161-177 | one chat, on any ledger: at most two requests, only to an entry allowed for the proposal's capability, only after twice the estimate was accepted; a chat answered otherwise leaves the ledger alone |
| Service.ChatEndsExactly | src/omo/service.py:100-177 | how every chat ends: outside exactly when it is routed there and the ledger accepts twice the bill of all its tokens, with the completion and the requests of the streamed call if it asks for a stream and of the buffered call otherwise; else with its decision, the ledger's refusal or the exception of `route` |
| Service.BudgetExceededExactly | src/omo/service.py:161-170 | after any history, on either ledger, a chat is refused for its budget if and only if it is routed outside, its caller has a daily budget and what was granted that day leaves no room for twice the estimate; never without a daily budget |
| Service.ChatIsRun | src/omo/service.py:100-177 | a chat that runs alone is a run of the interleaved machine: same table, same target and cost, same number of requests sent |
| Service.Orchestrator.Chat | src/omo/service.py:100-177 | the imperative chat moves ledger, result and number of requests as that specification says |
| Admission.Guard.Enter | src/omo/api.py:73-83 | pruning, refusal and admission change counter and window as specified on the old state |
| Admission.RunKeeps | src/omo/api.py:73-83 | in every run with a monotonic clock the window is exactly the admissions not older than a minute, in order, and the counter is the requests in flight |
| Admission.WindowsBounded | src/omo/api.py:73-83 | no closed 60-second interval of any run holds more admissions than `requests_per_minute` |
| Admission.InFlightBounded | src/omo/api.py:76-120 | the counter equals the admitted requests that have not ended and never passes `max_inflight` |
| Admission.RefusedExactly | src/omo/api.py:76-81 | a request is refused if and only if the requests in flight fill their limit or the admissions of the last minute fill theirs |
| Admission.ReadBody | src/omo/api.py:84-100 | the body loop gives the first of disconnect, deadline, overflow and completion |
| Admission.BodyIgnoresPieces | src/omo/api.py:84-100 | however a body is cut, it is read entirely or refused as too large by its total size alone |
| Admission.BodyInterrupted | src/omo/api.py:84-91 | an unfinished body is never passed on: too large by its total so far, else disconnected or timed out |
| ChangeSets.SplitJoin | src/omo/ci_changes.py:189 | splitting at NUL undoes joining with NUL for NUL-free fields |
| ChangeSets.JoinSplit | src/omo/ci_changes.py:189 | joining undoes splitting for every text |
| ChangeSets.ParseNameStatus | src/omo/ci_changes.py:186-211 | the index loop terminates and gives the paths of the record specification, or the error |
| ChangeSets.RoundTrip | src/omo/ci_changes.py:186-211 | every printed list of records is read back to its old and new paths in order, even with a torn status behind it |
| ChangeSets.ParsedExactly | src/omo/ci_changes.py:195-211 | an output is accepted with some paths if and only if it decomposes into valid records and empty statuses with those paths, at most one field left over |
| ChangeSets.NormalisePath | src/omo/ci_changes.py:85-94 | the stripping loop gives the normal path or the error |
| ChangeSets.NormalisedExactly | src/omo/ci_changes.py:87-94 | the normal path is what follows the `./` prefixes after slash replacement, relative, not empty, and nothing else |
| ChangeSets.NormalisedTwice | src/omo/ci_changes.py:85-94 | normalising a normal path changes nothing |
| CiSelection.Classify | src/omo/ci_changes.py:138-156 | the loop with its early returns computes the gathered classification |
| CiSelection.RaisesExactly | src/omo/ci_changes.py:150-153 | `classify` raises if and only if an unsafe path comes before every unknown one |
| CiSelection.ClassifyDependsOnOrder | src/omo/ci_changes.py:150-153 | two paths for which one order gives full validation and the other raises |
| CiSelection.KnownExactly | src/omo/ci_changes.py:104-135 | the class of every path without the order of the tests: the named exceptions decide alone, other paths need exactly the suites whose lists they match, the rest is unknown unless documentation |
| CiSelection.SelectsExactly | src/omo/ci_changes.py:31-135 | the paths that select both suites, only the model's and only the container's, by directory and by name |
| CiSelection.HarmlessExactly | src/omo/ci_changes.py:104-135 | a path selects no suite if and only if it is one of seven named files or documentation outside the watched directories |
| CiSelection.OnlyDocumentationSkips | src/omo/ci_changes.py:3-5 | the docstring's claim holds of a path if and only if it is not one of those seven |
| CiSelection.Select | src/omo/ci_changes.py:237-246 | forced, unusable, failing and raising inputs select both suites; the rest select what was classified |
| CiSelection.SelectionIsUnion | src/omo/ci_changes.py:145-156 | the selection is the union of what each path asks for alone, and full for no path |
| CiSelection.SelectionIgnoresOrder | src/omo/ci_changes.py:145-156 | reordering and repeating paths changes nothing |
| CiSelection.MorePathsSelectMore | src/omo/ci_changes.py:145-156 | more paths never deselect a suite, except that leaving the empty change set can |
| CiSelection.ModelSkippedExactly | src/omo/ci_changes.py:237-246 | the model suite is skipped if and only if nothing forces it, the output decomposes into records, there is a path, and each is classified as not needing it |
| CiSelection.ContainerSkippedExactly | src/omo/ci_changes.py:237-246 | the same for the container suite |
| CiSelection.RequiresReview | src/omo/ci_changes.py:159-179 | no review if and only if there are paths and all are documentation; an error if and only if an invalid path comes first |
| CiSelection.ReviewVersusSuites | src/omo/ci_changes.py:104-179 | exactly which paths need a suite but no code review, and a code review but no suite |
| Corpus.Validate | evaluation/dataset.py:64-86 | the nested loop with its three tables finds the first fault in file order |
| Corpus.AcceptedExactly | evaluation/dataset.py:68-86 | a corpus is accepted if and only if ids and normalized texts are unique, each family has one split and no record is near an earlier one of another split |
| Corpus.RejectedExactly | evaluation/dataset.py:68-86 | a corpus that is not accepted is reported with the first of duplicate id, family leakage, duplicate text and near duplicate of the first record that breaks the isolation of those before it |
| Corpus.SpacedAppends | evaluation/dataset.py:79 | the compared text is the contents of all messages in order with one space between two of them |
| Corpus.BuildDataset | evaluation/build_dataset.py:51-71 | the builder writes the specified training set, with the counts of its card |
| Corpus.OutputExactly | evaluation/build_dataset.py:51-60 | a training set is written if and only if the corpus is isolated, there is a train record and the model is to answer every train record |
| Corpus.TrainingSetExact | evaluation/build_dataset.py:52-64 | the training set is exactly the train records, each once, in order of id |
| Corpus.TrainingSetIsolated | evaluation/build_dataset.py:51-60 | no protected record, nothing of its family, not its text and no mutual near duplicate of it is in the training set |
| Corpus.TrainingSetCanonical | evaluation/build_dataset.py:51-64 | accepted corpora with the same train records give the same training set, whatever the order and the other splits |
| Corpus.TrainingSetStable | evaluation/build_dataset.py:51-64 | a training set validates again, and building from it gives it back |
| Corpus.BuildSft | training/dataset.py:56-68 | the builder gives the specified records or raises |
| Corpus.ConversionsExact | training/dataset.py:35-66 | one record for each routed record of the split, in source order, and a failure if and only if some such record cannot be converted |
| Corpus.TunedExactly | training/dataset.py:35-67 | fine-tuning records are built if and only if the corpus is isolated, some record is routed to the split and every such record's conversation fits the classifier and its three texts are valid contents |
| Corpus.SftHasSource | training/dataset.py:35-53 | each fine-tuning record carries the id, family, serialized conversation and proposal of one routed source record of its split |
| Corpus.SftIsolated | training/dataset.py:56-66 | fine-tuning records share no family and no id with any record of another split, the test split included |
| Corpus.TrainingSetFullyUsed | training/dataset.py:56-66 | built from a canonical training set, every record gives one fine-tuning record, unless one cannot be serialized |

## Left out

- EmbeddedModel.LlamaModel.Step: a coroutine is a sequence of methods, one for each segment between two awaits, because calls interleave there; the segments of one call are ordered by its place in `calls`, and each is atomic. Which waiting call gets the lock is left open.
- Missing pipes of a created worker (`src/omo/inference.py:63-65`), which `create_subprocess_exec` with `PIPE` never gives.
- InferenceWorker.ParseRequest: JSON decoding, unknown or duplicate keys and a `messages` that is no list are not modelled; a line that fails there is `Unreadable`, or `DecoderRaises` when the decoder raises something else.
- Decimals.RoundedQuotient: does not state which neighbour a refused quotient is rounded to, because the code discards that value.
- Service.BudgetsKept: costs are estimates, as in the code; `Policy.EstimateCoversBill` covers any bill within the token bounds, and a provider that counts more tokens is not modelled.
- Service.Orchestrator.Chat: the text of local answers, helper results and refusals, the sandbox and the timings are not modelled; such chats end as `Internal`; an exception that leaves `route` ends as `RouteRaised`.
- Admission.ReadBody: bytes are characters, and the five-second deadline is an event.
- Admission.Guard.Enter: authentication and the encoding check before it touch no state and are not modelled.
- StreamPrinter.Chunks: a client that disconnects or a write that takes five seconds ends the stream early; that is the truncation of `PrefixGivesAllOrNothing`.
- Policy.EligibleModels: the hostname of an endpoint is a field of the entry; URL parsing is not modelled.
- Registries.RegistryStore.TryReload: reading and validating the YAML file is a parameter.
- Corpus.TrainingSetStable: the 1 MB import budget is not modelled, so a re-import is accepted byte budget aside; digests and the other constants of the card are not modelled.
- Corpus.Validate: the text normaliser and the similarity ratio are parameters, not assumed symmetric.
- Fleet.StepKeeps: reloads are not steps there, a chat starts from any valid registry its process may hold.
- SqliteLedger.Serializable: SQLite's locking is assumed at statement level; `close` and journal recovery are not modelled.
- The sandbox and its worker: their behaviour belongs to a foreign runtime and to operating-system limits.
- Bearer-key comparison, HTTP routing, health and metrics endpoints, logging, command line, Docker and workflow files.
- The contract checks, the benchmark planner, release promotion, the audit schema, `validate_outcomes`, `selective_curve` and the held-out evaluation: flat field checks and counting loops with no state that outlives a call.
