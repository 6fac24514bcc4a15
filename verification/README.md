# CodeMode verification

A Dafny model of CodeMode: a parent process runs an untrusted Starlark program in a child
process and brokers the native calls it makes. The project models the protocol between the two,
the bounded values they exchange, the compilation and two-sided binding of call arguments, and
the catalog a program's capabilities are searched and named through. It proves what each part
promises, over all inputs and all runs. `dafny verify dfyconfig.toml` checks all of it.

## How the modules fit together

- **Values and the wire.** `Text`, `Values`, `Json` and `Codec` hold Go strings as bytes, UTF-8
  (RFC 3629 section 4), normalized values and their canonical JSON (RFC 8259 sections 4 to 7).
  `Encoder` runs the writers over a shared buffer. `Frames`, `Streams` and `Caps` add frame
  payloads, length-prefixed streams and the size caps.
- **Heap values.** `Unfolding` says what a shared and possibly cyclic heap value means: the finite
  tree it unfolds to, if there is one. `Starlark`, `GoHeap` and `Converter` prove the one
  converter, with its depth limit, node budget and active-path set, exact against it in both
  directions. `Output` does the same for typed handler outputs, and `OutputMeaning` says on Go types
  alone what such an output means; `ReadBack` gives it back as an argument of its own type.
- **Protocol.** `Conn` has the two connection objects, proved against transition functions.
  `Protocol` puts an honest parent, an honest child, two FIFO streams and a host that may cancel
  or kill into one step system; `Moves` holds its invariants over a small set of abstract moves,
  and every concrete step is shown to be one of them. `Delivery` adds what an undisturbed run
  agrees on, and `History` reads any run backwards: every frame and every result belongs to one event
  of the program or the dispatcher. `Simulation` drives the connection objects over byte pipes through the same runs and
  shows that they never leave the step system. `Runner` is the step system of many concurrent
  executions over one semaphore, and `Dispatch` that of one native call with its policy and handler
  goroutines. `Sanitize` is the message an aborted call may carry.
- **Binding.** `Shapes` is the type graph and the finite shape of a type; `Compiler` the
  depth-first compiler that turns one into a post-order arena; `Schema` the arena that travels.
  `Binder` is the worker's side, `BindLimits` how its limits compare with the validator's, `Rebinder`
  the parent's side, `CallAgreement` the proof that the two agree.
  `BindMeaning` says what arguments mean for a schema, on trees; `InputMeaning` what a map means for
  a Go type; `CallMeaning` joins them, from the call's arguments to the handler's Go value.
  `Notation` shows that the printed type determines the shape.
- **Catalog.** `Tokens`, `Index` and `Search` are tokenizing, indexing, scoring, ranking and
  packing, each against a specification that does not mention how it is computed. `Registrations`
  and `Catalog` build the catalog. `Dotted`, `Modules`, `Namespace` and `Engine` are dotted names,
  the trie they are assembled in and the modules it freezes to. `Surfaces` shows that lookups,
  namespaces and searches all show the same enabled set.

## What is assumed

- Float formatting: a lawful formatter (`Faithful`) prints every finite float as a JSON number
  with a one-to-one spelling that parses back to the same bits. Floats are known by their bits;
  rounding to float32 is any idempotent function.
- Unicode categories, letter case and white space are arbitrary predicates, with the laws a
  theorem needs stated in its `requires`: ASCII digits are digits, U+FFFD is neither letter nor
  digit, quotes, colons, commas and braces are neither, a space and a dot are printable.
- The Starlark program is an arbitrary sequence of native calls followed by a value or an error;
  the authorizer and the handlers are arbitrary oracles that may also panic or never answer.
- Nil and empty containers of a normalized value are one value; only typed outputs tell them apart.

## Where a promise has a condition

- Decoding undoes encoding only for valid UTF-8 strings and keys and only within the JSON
  decoder's own nesting limit of 10000, one less inside a frame. `Codec.RoundTrip` and
  `Frames.FrameRoundTrip` are stated as equivalences. The same condition decides whether the
  parent authorizes the very map the worker bound (`CallAgreement.AgreementOverTheWire`); what it
  authorizes is always the map its handler receives.
- The comment on `Bind` (internal/binding/bind.go:32-35) says that the limits bound the canonical
  map exactly as `FromStarlark` bounds a value. The code charges a struct's entries before it drops
  explicit `None` members, so a map within the limits can be refused; the model follows the code.
  `BindLimits.BindAgainstValidate` says exactly when, `BindLimits.CommentHoldsIff` for which calls
  the comment holds under all limits: those in which every struct finds room for its raw entries
  within the finished map's node count. `BindLimits.ExplicitNoneCosts` gives the smallest other call.
- The map the worker binds equals the arguments where the schema has no float and no optional
  member (`BindMeaning.BoundMeansArgument`). Elsewhere integers become floats, floats are rounded
  and `None` members are dropped, and nothing else changes.
- A handler's output given back as an argument is the same Go value, except for nil containers
  (`ReadBack.OutputReadsBack`): a nil slice or map converts to `None`, which no list or map
  accepts, and a pointer to one comes back as a nil pointer. Every value of an input type can be
  received, except one with an unsigned integer over int64 (`InputMeaning.InputsAreInhabitants`).
- A query that is a capability's name ranks it first (`Search.ExactComesFirst`). A query that equals
  the name only up to case need not: it is cut into other tokens, and the document may not be
  eligible. `Search.ExactNameCanBeIneligible` gives such a name and query.
- Two input types that differ only in `omitempty` on a pointer print the same notation.
- No operation of an execution is refused as illegal, except one. A lost reply reaches the child's
  engine as a program error, so the child tries a terminal write while its connection still waits
  for that reply; the write is refused and nothing reaches the stream. `Protocol.IllegalIff` says
  that this is the only case and exactly when it occurs, `Protocol.IllegalTerminal` gives a run.

## Model

| member | source | states |
|---|---|---|
| Codec.RoundTrip | internal/worker/value.go:17-180 | A supported value is decoded from its own encoding if and only if every string and key in it is valid UTF-8 and it nests no deeper than the JSON decoder allows. JSON output replaces invalid bytes, so the law fails for every other value. |
| Codec.EncodingInjective | internal/worker/value.go:46-130 | Two supported valid UTF-8 values with the same encoding are equal, at any depth. An int64 and a float64 never share a spelling, and map order cannot show. |
| Codec.ScrubbedIsSame | internal/worker/value.go:17-180 | What a reader sees of a written value is always supported and valid UTF-8, and it is the value itself exactly when its strings and keys were valid UTF-8. |
| Codec.NormalizedIsClean | internal/worker/value.go:134-180 | Whatever the decoder accepts is supported, valid UTF-8 and nested no deeper than the text it came from. |
| Codec.NodesWithinBody | internal/worker/value.go:189-201 | No value has more nodes than its encoding has bytes. |
| Codec.FaithfulExists | internal/worker/value.go:121-130 | The assumptions made about float formatting are consistent: a lawful formatter exists. |
| Encoder.Buffer.WriteValue | internal/worker/value.go:46-130 | The recursive writer over a shared buffer succeeds exactly on supported values and then appends the canonical text, whatever order the map was walked in. |
| Encoder.EncodeNormalized | internal/worker/value.go:17-23 | encodeNormalizedValue succeeds exactly on supported values and yields their canonical bytes. |
| Encoder.EncodeBounded | internal/worker/value.go:183-201 | The node budget derived from the byte limit loses nothing: a value is accepted exactly when it is supported, within the depth limit and at most MaxValueBytes long. Each failure has its error class. |
| Encoder.NormalizeValue | internal/worker/value.go:134-180 | The loops that fill decoded lists and maps compute the decoded value, and fail exactly where it does not exist. |
| Frames.DecodeOfPayload | internal/worker/frame.go:338-473 | Every payload an encoder of the protocol writes decodes to exactly what the other side receives of that frame, errors included. |
| Frames.FrameRoundTrip | internal/worker/frame.go:338-473 | A frame arrives as it was written if and only if its text is valid UTF-8 and its value leaves room for the frame's own object. |
| Streams.FrameReadBack | internal/worker/frame.go:266-309 | A written frame followed by anything is read back alone, exactly under the bounds it may be written under; otherwise the read reports a frame that is too large. |
| Streams.StreamReadBack | internal/worker/frame.go:266-309 | Any sequence of written frames reads back identically, whatever follows it. |
| Streams.Pipe.WriteFrame | internal/worker/frame.go:266-286 | writeFrame appends one length-prefixed frame or leaves the stream as it was, with the error for each refusal. |
| Streams.Pipe.ReadNext | internal/worker/frame.go:289-309 | readFrame consumes exactly one frame, or fails as the byte-level specification says. |
| Caps.AddUint32 | internal/worker/limits.go:286-312 | Checked addition fails exactly when the true sum needs more than 32 bits; the accumulator never wraps on the way. |
| Caps.MulUint32 | internal/worker/limits.go:298-321 | Checked multiplication fails exactly when the true product needs more than 32 bits. |
| Caps.LongestEncodedId | internal/worker/limits.go:231-247 | The longest JSON spelling of any manifest ID, or a failure exactly when it needs more than 32 bits. |
| Caps.ChildPayloadCap | internal/worker/limits.go:51-94 | The child's cap succeeds exactly when the largest native_call fits 32 bits, and is then the maximum over all child frames. |
| Caps.ParentPayloadCap | internal/worker/limits.go:97-126 | The parent's cap succeeds exactly when the largest native_result fits 32 bits, and is then the maximum over all parent frames. |
| Caps.ExecPayloadCap | internal/worker/limits.go:129-156 | The exec cap succeeds exactly when the worst exec frame fits 32 bits. |
| Caps.EscapeLength | internal/worker/limits.go:51-156 | JSON escaping grows any byte string at most sixfold. |
| Caps.ChildFrameFits | internal/worker/limits.go:51-94 | Every frame a child may write, for any manifest ID, any value within the byte limit and any detail within budget, is within the child's cap. |
| Caps.ParentFrameFits | internal/worker/limits.go:97-126 | Every result within the byte limit and every abort detail is within the parent's cap. |
| Caps.ExecFrameFits | internal/worker/limits.go:129-156 | Every source within MaxSourceBytes, under any legal limits, is within the exec cap, however badly its bytes escape. |
| Conn.ParentConn.WriteExec | internal/worker/frame.go:592-612 | writeExec is legal once, refuses illegal limits, writes exactly one exec frame, and otherwise changes neither the state nor the stream. |
| Conn.ParentConn.WriteNativeResult | internal/worker/frame.go:615-633 | Refuses out of order, over the value limits and over the remaining intermediate budget; otherwise sends one frame and charges exactly the body bytes. A refused write changes nothing. |
| Conn.ParentConn.WriteNativeAbort | internal/worker/frame.go:636-649 | Legal exactly while a call is pending; sends one abort and ends the connection's writing without charging the budget. |
| Conn.ParentConn.Read | internal/worker/frame.go:652-722 | Reads, decodes and accepts the next frame; only an accepted frame changes the state, and every refusal has the error of the first check that failed. |
| Conn.ChildConn.WriteNativeCall | internal/worker/frame.go:741-765 | Refuses out of order and over the call limit or the value limits; otherwise sends one frame, which is the call of exactly that capability ID with exactly those arguments, and counts it. |
| Conn.ChildConn.WriteFinal | internal/worker/frame.go:768-782 | Sends a result within the limits once, from the ready state only. |
| Conn.ChildConn.WriteFinalError | internal/worker/frame.go:785-798 | Sends one terminal error from the ready state only. |
| Conn.ChildConn.Read | internal/worker/frame.go:801-884 | Reads the answer to a pending call; a failed read changes no state. |
| Protocol.StepIsMove | internal/worker/child.go:89-253 | Every concrete step of either process, with all its error branches, is one legal move of the abstract protocol. |
| Protocol.RunsAreSafe | internal/worker/frame.go:591-884 | Every state of every run satisfies the protocol invariant, whatever the program, the dispatcher and the host do. |
| Protocol.CountersAndFlight | internal/worker/parent.go:672-753 | In every interleaving at most one frame is in flight, and parent calls <= child calls <= engine counter <= MaxNativeCalls; the dispatched calls are the parent's. |
| Protocol.IllegalIff | internal/worker/frame.go:592-884 | A run has an operation refused as illegal if and only if its child lost a reply and its program then ended: no other read, write or accept of either side is ever out of order. |
| Protocol.TerminalRefusedIff | internal/worker/child.go:195-204 | Whenever a failing program ends and its connection is not finished, the terminal write is refused as illegal if and only if the child lost a reply before. |
| Protocol.IllegalTerminal | internal/execution/execute.go:195-221 | A concrete run in which that happens, for every accepted setup that can make one call: the lost reply is classified as a program error, and its terminal frame is refused. |
| Protocol.BudgetConserved | internal/worker/frame.go:615-649 | In every run the initial intermediate budget is what remains plus the body bytes of the results actually delivered, and the remainder is never negative. |
| Protocol.SilentAfterLoss | internal/worker/child.go:89-204 | After a failed read of a reply, or after an abort, no continuation of the run ever contains a terminal frame. |
| Protocol.NothingInvented | internal/worker/parent.go:672-753 | A value the parent returns is its reading of the one final frame the child wrote; dispatched calls and seen results are the written ones, position by position. |
| History.HistoryOf | internal/worker/child.go:160-241 | In every run each frame the child wrote belongs to one event, in order, and carries exactly the ID and arguments of the call, or the value or error, of that event; each delivered result is the dispatcher's value of one event; calls and answers alternate. |
| Protocol.TerminalIsWritten | internal/worker/child.go:195-227 | A program that ends while its connection is ready always gets exactly one terminal frame out unless the stream is closed; a value within the limits goes out as itself. |
| Protocol.NeverTooLarge | internal/worker/frame.go:266-286 | No frame either side may write is ever refused for its size. |
| Protocol.NoDeadlock | internal/worker/parent.go:672-753 | Until the child has exited and the parent has returned, one of them can take a step of its own. |
| Delivery.Agreement | internal/worker/parent.go:672-813 | In a run that nothing disturbs, dispatched calls, delivered results and the final value are equal on both sides, and they are those of the run's events: call i has the ID and the arguments of the program's call i, result i is the dispatcher's answer to it, and the returned value is the one the program ended with. |
| Delivery.FailuresAreExplained | internal/worker/parent.go:718-813 | In a run that nothing disturbs, the error the parent decides on has one event behind it: a program error keeps its class, a dispatcher error is handed on as it is, and a resource error comes from a value over its byte limit or over the remaining budget. |
| Simulation.Link.Play | internal/worker/frame.go:592-884 | The two connection objects over two byte pipes, driven through any run of the step system, end in the states it computes, with exactly the encoded frames of its queues in the pipes (until a failed read, after which nothing reads that pipe). |
| Simulation.Open | internal/worker/frame.go:592-612 | Writing and reading the exec frame brings fresh objects to the state every run starts in. |
| Simulation.WroteIsWrite | internal/worker/frame.go:266-286 | What a write method does to its connection and to the bytes of its stream is what the step system does to its state and to its queue, errors included. |
| Simulation.TookFrame | internal/worker/frame.go:289-309 | What a read method does to the bytes and the connection is what receiving the first frame of the queue does. |
| Runner.PermitsBoundChildren | internal/worker/parent.go:301-363 | Over any number of concurrent executions the semaphore counts exactly the permit holders, every unreaped child belongs to a holder, and there are never more than the capacity. |
| Runner.ReturnsClean | internal/worker/parent.go:301-363 | On every exit path a call gives back exactly the permit it took, once, only after its child was waited for once, and leaves no exchange running. |
| Runner.ReleaseNeverBlocks | internal/worker/parent.go:316-322 | Taking a permit out of the channel on release never blocks. |
| Runner.NoCallIsStuck | internal/worker/parent.go:301-363 | A call that holds a permit waits for nobody but its own child and exchange; a waiting call can take a permit unless all are held. |
| Runner.ChildSession.Wait | internal/worker/parent.go:466-473 | The process is reaped once however often wait is called, and every call reports what the first one found. |
| Runner.ChildSession.Finish | internal/worker/parent.go:444-463 | Both pipes end closed and the process reaped, killed only on request. |
| Runner.StderrCapture.Write | internal/worker/parent.go:412-441 | What is kept is the longest prefix of all writes within the cap, and overflow says exactly that more came. |
| Dispatch.HandlerStartsOnlyWhenAllowed | dispatch.go:51-119 | In every interleaving the handler starts at most once, after the authorizer was asked about the canonical map projected from the handler's own input, answered nil, and the context was then found live, not having ended before. |
| Dispatch.LateAnswerStartsNothing | dispatch.go:75-89 | A policy answer that arrives after the context ended starts no handler, and the authorizer was asked only once. |
| Dispatch.RefusalStartsNothing | dispatch.go:79-89 | A denial, policy error or policy panic starts no handler. |
| Dispatch.AnswersAreExplained | dispatch.go:51-187 | While the context lives the answer is exactly what binding, policy, handler and conversion make of the call; a value is returned only for an allowed call whose output converted. |
| Dispatch.AnswersHaveCauses | dispatch.go:51-187 | Class by class, what must have happened for each answer: denial, policy error or panic, agent error with its message, other handler errors, input mismatch, handler panic, conversion over or outside the limits, cancellation, deadline, unknown call; a run has at most one verdict and one outcome. |
| Dispatch.EndedCallsFail | dispatch.go:65-106 | A context that ends is noticed at the next check: nobody is asked and nothing is started beyond it, and the answer is the context's failure unless the lookup or the policy before that check refused the call. |
| Dispatch.NeverStuck | dispatch.go:51-119 | Until dispatch returns something other than the end of the context can happen. |
| Dispatch.RunsEnd | dispatch.go:51-119 | Every run of one dispatch has at most twelve events. |
| Sanitize.SanitizeAgentMessage | errors.go:64-81 | The result is the mapped message where it fits 256 bytes, otherwise its longest whole-rune prefix within 253 bytes followed by three dots. |
| Sanitize.SanitizedUnique | errors.go:64-81 | The message determines the result: the specification leaves nothing open. |
| Sanitize.SanitizedIsPrintable | errors.go:64-81 | For any bytes the result is at most 256 bytes of valid, printable UTF-8. |
| Sanitize.SanitizeIdempotent | errors.go:64-81 | Sanitizing twice is sanitizing once. |
| Sanitize.UnchangedIff | errors.go:64-81 | A message is unchanged if and only if it is already short, valid and printable. |
| Sanitize.AbortCarriesMessage | internal/worker/frame.go:390-461 | The abort encoder keeps every sanitized message and the child decodes exactly that message. |
| Converter.FromStarlark | internal/binding/value.go:27-260 | Over aliased and possibly cyclic values: succeeds exactly when the value unfolds to a finite supported tree within both limits, and returns that tree. Sharing alone is never rejected. |
| Converter.ValidateValue | internal/binding/value.go:19-25 | Accepts exactly the Go values that unfold to a finite supported tree within both limits. |
| Converter.ToStarlark | internal/binding/value.go:40-51 | Succeeds on exactly the same values and builds fresh Starlark values that unfold to the same tree. |
| Converter.ThroughStarlark | internal/binding/value.go:27-51 | FromStarlark undoes ToStarlark under the same limits, however much of the value is shared. |
| Converter.ValueConverter.ConvertStarlark | internal/binding/value.go:119-260 | One step of the converter: charges exactly the nodes of the tree, restores the active path, and fails on a value with a tree only because a limit does not hold. |
| Converter.ValueConverter.Validate | internal/binding/value.go:262-320 | The same exactness for validation of slices and maps in any order. |
| Converter.ValueConverter.BuildStarlark | internal/binding/value.go:322-396 | The same exactness for construction, over a growing Starlark store. |
| Unfolding.UnfoldsUnique | internal/binding/value.go:119-320 | A heap value has at most one unfolding. |
| Unfolding.NotOnPath | internal/binding/value.go:398-448 | A container with a finite unfolding is never already on the active path: the cycle check rejects cycles only. |
| BindMeaning.UnfoldsIff | internal/binding/value.go:119-260 | The tree a Starlark value unfolds to is the value written out: equal scalars, items by position, entries by key, integers within int64 and finite floats only. |
| GoHeap.HoldsIff | internal/binding/value.go:262-320 | The tree a Go value unfolds to is the value itself read through the heap, nil slices and maps being empty. |
| Output.ConvertOutput | internal/binding/output.go:11-36 | A handler's output converts exactly when it means a value within both limits, and yields that value; omitted nil pointers are absent, other nils are null. |
| Output.ConvertAndEncode | dispatch.go:107-118 | The node budget min(MaxValueBytes, remaining) rejects nothing: a result is delivered exactly when it is within the depth and both byte limits. It is too large exactly when it is within depth and nodes and over a byte limit; every other refusal is the conversion's. |
| Output.ConvertStruct | internal/binding/output.go:109-148 | Struct members in field order, pre-checked by their included count, with the budget charged exactly. |
| Output.CompiledArenaSound | internal/binding/compile.go:102-292 | Every compiled output arena meets what conversion relies on. |
| OutputMeaning.OutputSays | internal/binding/output.go:41-280 | For every output type that compiles, what a handler's output converts to is fixed by the Go value and its Go type alone: equal scalars where they are finite and fit int64, byte sequences as integers, elements by position, entries by key, fields under their own names, nil as null, and only nil pointers under omitempty left out. |
| ReadBack.OutputReadsBack | internal/binding/output.go:18-280 | A type that compiles in both directions: the map a handler's output converts to, bound again as arguments, gives exactly that Go value, part by part. |
| Compiler.CompileType | internal/binding/compile.go:102-292 | Over any finite, possibly cyclic type graph the compiler terminates, and succeeds exactly when the root unrolls to a finite shape: everything reached is supported and acyclic. |
| Compiler.TypeCompiler.Compile | internal/binding/compile.go:130-150 | A depth-first step reuses finished types, refuses active ones, appends only, and fails only on types without a shape. |
| Compiler.ProjectedRange | internal/binding/schema.go:90-136 | Projected integer bounds admit exactly the values that the Go type holds and an int64 can carry. |
| Compiler.ProjectionValid | internal/binding/schema.go:90-230 | The projection of every compiled input type passes InputSchema.Validate. |
| InputMeaning.InputIsRead | internal/binding/schema.go:90-136 | For every input type that compiles, binding a map gives the one Go value that the Go type itself reads it as, and is refused exactly where the type reads nothing; the arena and its projected schema add and lose nothing. |
| InputMeaning.InputsAreInhabitants | internal/binding/input.go:79-186 | The typed inputs a handler can receive are exactly the values of its Go type whose unsigned integers fit an int64. |
| Shapes.ShapeUnique | internal/binding/compile.go:102-292 | A type has at most one shape. |
| Schema.Validate | internal/binding/schema.go:147-230 | Validate accepts exactly the well-formed post-order arenas. |
| Schema.ValidateInputNode | internal/binding/schema.go:171-199 | One node is accepted exactly when its references point back and its kind's fields are legal. |
| Schema.JsonNameIsUtf8 | internal/binding/names.go:95-113 | A legal member name is valid UTF-8, so the wire cannot change it. |
| Notation.NotationUnambiguous | internal/binding/compile.go:297-369 | Two input types print the same notation if and only if they have the same shape up to number width and sign and the omission of nil pointers, even when field names contain separators. |
| Notation.NameOnce | internal/binding/names.go:127-137 | A printed member name, plain or quoted, has one reading. |
| Notation.ScalarNames | internal/binding/compile.go:152-186 | Strings, booleans, integers and floats of input types print under the four Python names, and nothing else prints as one of them. |
| Notation.Annotate | internal/binding/compile.go:152-202 | The notations built node by node during compilation are the prints of the nodes' shapes. |
| Binder.Bind | internal/binding/bind.go:28-66 | Succeeds exactly when there are no positional arguments, the keywords convert and the result fits; consumes exactly the node count of the returned map. |
| Binder.ArgumentBinder.BindValue | internal/binding/bind.go:109-225 | Binds exactly the values that convert and fit, charges exactly the nodes of the result, and leaves the diagnostic path as it was. |
| Binder.ArgumentBinder.BindStruct | internal/binding/bind.go:69-107 | Binds the members of one struct: unknown, repeated and missing names are refused, optional nulls are dropped. |
| BindMeaning.ConvertIff | internal/binding/bind.go:109-267 | An argument converts, to v, exactly when it is a finite Starlark value that the schema takes as v: a relation on the two trees, scalars by kind and range, elements by position, members by name, that follows no loop of the binder. |
| BindMeaning.CallIff | internal/binding/bind.go:38-107 | A call's keyword arguments bind, to v, exactly when each name is given once and the schema takes them as v. |
| BindMeaning.BoundMeansArgument | internal/binding/bind.go:142-267 | What is bound says what the argument says: an integer may have become a float, a float its float32 rounding, and an object may lack members that were None, and nothing else; where the schema has no float and no optional member the two are equal. |
| BindMeaning.CallMeansArguments | internal/binding/bind.go:38-107 | The same of the whole map that a call sends. |
| BindLimits.BindAgainstValidate | internal/binding/bind.go:28-225 | A call binds if and only if its map passes ValidateValue under the same limits and every struct met in walk order finds room for all its entries; an accepted map is refused exactly when Nodes(map) <= maxNodes < the budget binding takes. |
| BindLimits.CommentHoldsIff | internal/binding/bind.go:32-35 | The limits bound a call's map as FromStarlark bounds a value, under all limits, if and only if for every struct the nodes placed before its entries plus its raw entry count are at most the finished map's node count. |
| BindLimits.NeedIff | internal/binding/bind.go:109-225 | For every value at every place of the walk: the budget suffices exactly when the nodes fit and every struct inside finds room. |
| BindLimits.ExplicitNoneCosts | internal/binding/bind.go:69-107 | A concrete call on which the converse fails. |
| Rebinder.BindValue | internal/binding/input.go:19-37 | The parent's binding returns the typed input and a canonical map that is exactly the projection of that input. |
| Rebinder.ArgumentRebinder.RebindValue | internal/binding/input.go:79-186 | The recursive rebinder over a shared path stack computes the specified typed value and canonical copy, and restores the path. |
| Rebinder.ArgumentRebinder.RebindObject | internal/binding/input.go:40-76 | A struct is rebound member by member; unknown names are found although they are searched for only when the sizes differ. |
| Rebinder.RebindStable | internal/binding/input.go:79-186 | Rebinding a canonical result gives the same typed input and the same map, float32 rounding included. |
| Rebinder.CanonicalRebinds | internal/binding/input.go:79-186 | Every canonical value is accepted and kept unchanged. |
| Rebinder.RebindIsCanonical | internal/binding/input.go:79-186 | Whatever is accepted leaves in canonical form. |
| Rebinder.ProjectOfRebind | internal/binding/input.go:26-186 | The canonical value is the projection of the typed value, node by node. |
| CallAgreement.ConvertIsCanonical | internal/binding/bind.go:109-267 | Whatever the worker's binder produces is canonical for the same arena. |
| CallAgreement.BothSidesAgree | internal/binding/bind.go:38-225 | Whatever map the worker binds, the parent accepts it, keeps it unchanged and builds a typed input that says the same. |
| CallAgreement.RebindIdempotent | internal/binding/input.go:26-37 | BindValue is idempotent on its own canonical output. |
| CallAgreement.AgreementOverTheWire | internal/binding/input.go:26-186 | Through the encoded native_call the parent always accepts what arrives; it is the map the worker bound if and only if the arguments are valid UTF-8. |
| CallAgreement.CompiledCallsAgree | internal/binding/compile.go:102-292 | For every input type that compiles, both sides agree on every call that binds. |
| CallMeaning.CallReceives | internal/binding/input.go:19-186 | For every input type that compiles: worker and parent together bring a call to its handler exactly when the keyword arguments are a tree that the handler's Go type receives, and with exactly that Go value. |
| Tokens.Tokenize | internal/catalog/search.go:237-274 | The scanner yields exactly the maximal unbroken pieces of the text, lower-cased, without connectors. |
| Tokens.PiecesUnique | internal/catalog/search.go:237-294 | A text has exactly one division into pieces. |
| Tokens.DistinctTokens | internal/catalog/search.go:199-217 | The first occurrence of every token, or a refusal exactly when more than sixteen are distinct. |
| Tokens.UniqueTokens | internal/catalog/search.go:220-234 | The first occurrence of every token, in order. |
| Index.CompileIndex | internal/catalog/search.go:452-545 | Succeeds exactly when every result could occupy a response alone, and yields the index the entries determine. |
| Index.IndexUnique | internal/catalog/search.go:452-545 | The entries and their terms determine every document and every rarity factor. |
| Index.RarerScoresMore | internal/catalog/search.go:548-554 | A rarer token never has a smaller factor. |
| Search.FieldContribution | internal/catalog/search.go:358-375 | The field loop computes the weighted best match. |
| Search.BestIsBest | internal/catalog/search.go:358-375 | The best match is a matching token that no token of the field surpasses, exact before prefix and rare before common; without a match it is nothing. |
| Search.ExactDominates | internal/catalog/search.go:356-389 | Where a token equals the query token, the rarest such token decides the field, even if a prefix match would score more. |
| Search.TokenScoreMeans | internal/catalog/search.go:330-355 | A query token scores exactly when some token of some field matches it, and at most 9600. |
| Search.ScoreDocument | internal/catalog/search.go:315-327 | The loop computes the total score and the number of matching query tokens. |
| Search.RankFits | internal/catalog/search.go:139-165 | No score, and no score multiplied by its match count, exceeds 64 bits. |
| Search.BeforeTotal | internal/catalog/search.go:404-419 | With distinct names the ranking order is total and strict. |
| Search.RankingUnique | internal/catalog/search.go:139-174 | A query has exactly one ranking of the eligible documents. |
| Search.OwnNameIsEligible | internal/catalog/search.go:139-174 | A query whose trimmed text is the capability's trimmed name, with at most 16 distinct tokens, matches that capability's document with every token, so it is eligible. |
| Search.ExactComesFirst | internal/catalog/search.go:404-419 | Such a query with a token in it is answered, from any compiled index and any positive result count, with a capability of that name up to case first, and with the named one itself if no other shares its name up to case. |
| Search.ExactNameCanBeIneligible | internal/catalog/search.go:139-174 | A concrete name and query, equal up to case, where the document is not eligible. |
| Search.AnswerIsOrdered | internal/catalog/search.go:404-449 | Every answer lists exact matches first, then higher ranks, then ascending names, each with its own rank, and leaves out no eligible document that would come before one it lists. |
| Search.RankRewardsCoverage | internal/catalog/search.go:139-165 | A rank is the whole score exactly when every query token matched or none scored, and less otherwise. |
| Search.NameOutweighs | internal/catalog/search.go:330-389 | A whole word of the name scores more than the same or a commoner word anywhere else. |
| Search.Pack | internal/catalog/search.go:422-449 | Returns the longest ranked prefix within the result count and 64 KiB of compact JSON, truncated exactly when a candidate is left. |
| Search.Search | internal/catalog/search.go:139-174 | The whole search equals its specification, limits and empty queries included. |
| Search.AnswerUnique | internal/catalog/search.go:139-174 | The specification leaves nothing open. |
| Search.AnswerMeans | internal/catalog/search.go:422-449 | A response never exceeds 64 KiB or the result count, lists eligible documents only, at least one where there is one, and is truncated exactly when an eligible document is missing. |
| Dotted.CheckCollisions | internal/catalog/build.go:211-222 | Succeeds exactly when no name is a segment-wise proper prefix of another. |
| Dotted.SplitInjective | internal/catalog/build.go:150-161 | Names and segment lists determine each other. |
| Registrations.CollectCandidates | internal/catalog/build.go:83-126 | Succeeds exactly when all registrations are valid, IDs and names unique and the metadata within bounds; yields the candidates one for one. |
| Registrations.SortByName | internal/catalog/build.go:129-147 | The candidates in strictly increasing name order, none lost or added. |
| Registrations.SortingUnique | internal/catalog/build.go:129-147 | Candidates have one listing in name order, whatever order they came in. |
| Registrations.ValidateDisabled | internal/catalog/build.go:196-208 | The first repeated or unknown ID decides the failure. |
| Registrations.DisablingMeans | internal/catalog/build.go:196-208 | Disabling succeeds exactly for distinct known IDs, and yields their set. |
| Catalog.Build | internal/catalog/build.go:37-80 | Succeeds exactly on acceptable registrations and options and yields the catalog they determine; only an unknown disabled ID has an error class of its own. |
| Catalog.LiveCatalog.Index | internal/catalog/build.go:150-161 | byName, byID and namespaces agree with the sorted entry list. |
| Catalog.LiveCatalog.Lookup | internal/catalog/catalog.go:123-129 | Returns exactly the enabled entry of that name. |
| Catalog.LiveCatalog.LookupId | internal/catalog/catalog.go:132-138 | Returns exactly the enabled entry of that ID. |
| Catalog.CatalogUnique | internal/catalog/build.go:37-161 | A catalog depends only on which registrations are enabled, not on their order nor on which others were disabled. |
| Catalog.BuildableEnabled | internal/catalog/build.go:37-161 | Where Build succeeds with disabled IDs, building only the enabled registrations succeeds too. |
| Catalog.OrderIrrelevant | internal/catalog/build.go:37-161 | Permuting the registrations changes neither success nor the catalog. |
| Surfaces.EntriesAreEnabled | internal/catalog/build.go:129-147 | The entries are those of the enabled registrations, no more and no fewer. |
| Surfaces.VisibleIffEnabled | internal/catalog/build.go:129-161 | A registration answers to its ID and to its name exactly when it is not disabled. |
| Surfaces.EngineAccepts | internal/execution/engine.go:65-92 | The engine accepts the bindings of every catalog whose plans have valid schemas. |
| Surfaces.CallableIffListed | internal/execution/namespace.go:23-61 | A program reaches a capability by a dotted name exactly when the catalog can look the name up, and it is the one the lookup finds. |
| Surfaces.SearchesAgree | internal/catalog/search.go:139-174 | With and without the disabled registrations the catalogs are equal and every query is answered alike. |
| Surfaces.CatalogIsSearchable | internal/catalog/search.go:452-554 | Every catalog that Build makes can be searched: one document per entry, distinct names, factors from 1 to 8, and every result able to occupy a response alone. |
| Surfaces.BuildAndAsk | internal/catalog/search.go:139-174 | From registrations, options and a query to an answer: there is one exactly when Build succeeds, and it meets the specifications of both. |
| Surfaces.OwedUnique | internal/catalog/search.go:139-174 | Registrations, options and query determine that answer. |
| Surfaces.OwnNameComesFirst | internal/catalog/search.go:404-419 | A catalog asked for the name of an enabled capability lists that capability first, if no other enabled name is equal up to case. |
| Engine.ValidateBindings | internal/execution/engine.go:65-92 | Succeeds exactly on separate, well-named, valid, collision-free bindings. |
| Engine.New | internal/execution/engine.go:39-49 | Succeeds exactly on acceptable bindings and yields the surface they determine. |
| Engine.CallableExactly | internal/execution/namespace.go:23-81 | Walking a dotted path reaches a capability exactly when the path is a registered name, and then the one of that name. |
| Engine.OrderIrrelevant | internal/execution/namespace.go:23-61 | The order of the bindings does not show in the surface. |
| Modules.ResolveReaches | internal/execution/namespace.go:72-81 | A path reaches a capability exactly when it is registered and not also a namespace; a child module would hide a function of the same name. |
| Namespace.Assembly.Register | internal/execution/namespace.go:23-51 | One capability joins the mutable trie unless its name is taken; nothing else changes and no node is created in vain. |
| Namespace.Assembly.FreezeModule | internal/execution/namespace.go:72-81 | The frozen modules are those the registered paths determine. |

## Left out

- Process spawning, pipes, signals, the environment and probe diagnostics: operating-system plumbing and message templates. The child's exit is an event of the step systems.
- The probe handshake and the child's acceptance of the exec frame: single branches before the modelled states; the exec frame's limits and manifest are written as JSON text and not decoded again.
- Streams.Pipe.ReadNext: a read returns once the whole frame or the end of the stream has arrived; partial reads and the bytes lost after a failed read are not modelled, because nothing reads the stream again.
- Frames.FrameRoundTrip: does not cover the exec frame, whose limits and manifest are undecoded documents here.
- Case-insensitive matching of JSON member names by the standard decoder: the encoders of this protocol never write another case.
- Rebinder.BindValue: stores through reflection are modelled as returned typed values, so aliasing between reflect targets is not captured.
- Output.ConvertOutput: typed outputs are trees, because an output type has no cycle; what two pointers share is converted twice, as the source does.
- Converter.FromStarlark: on values without a finite supported tree the error class may be either one, since a limit can be met first.
- Runner.NoCallIsStuck: fairness is not modelled; it says that a step is possible and not that it is taken.
- Search.SortCandidates: the library sort is an insertion sort here; the result is unique, so the algorithm cannot show.
- Registrations.RegistrationOk: plans, handlers and the JSON of a search result are known by number or by an arbitrary function.
- Compiler.CompileType: a struct field arrives with its tag already read; parsing tags and reflection are not modelled. Error paths name no field.
- Notation.NotationUnambiguous: output notation, signatures and diagnostic path strings are not modelled.
- The wording of error messages and of diagnostic paths; the path stack itself is modelled and shown to be restored.
- The Starlark interpreter, its step counter and the classification of runtime errors: the engine's call counter and phase are modelled, the program is arbitrary.
- Defaulting and validation of configured limits, the server builder, the Rego and MCP adapters and generated mocks: wrappers and single branches.
