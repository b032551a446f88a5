# A verified model of protomcp

protomcp turns annotated gRPC services into MCP servers: a generator emits handlers and JSON
schemas, and a runtime library clears, marshals, paginates and registers on their behalf. This
project models the parts of it that make promises, and proves the promises. `dafny verify
dfyconfig.toml` checks everything.

## What is modelled

**Masking.** One policy, "this field is hidden", is implemented five times, and the copies must
agree. A policy is a predicate on field descriptors; descriptors form a finite graph that may be
cyclic (`Descriptors`); messages are finite trees with explicit presence (`Messages`); a
`google.protobuf.Any` holds a type URL and bytes, decoded by a small codec whose round trip is
proved (`Codec`).

- `Reachability`: the depth-first searches with one shared seen set, proved exact on every graph.
- `Masking`: what the clearing walk must compute, as functions on values. `Closed` is the
  fail-closed result, `Erase` the pure erasure, `Verifiable` what the fail-loud walk insists on,
  `Clean` the absence of hidden fields. The laws relating them are proved for every message.
- `ClearWalk`: the walk itself, updating a message in place, proved equal to those functions.
- `WalkPaths`: the same position by position: which positions stop a fail-loud walk, and what a
  fail-closed one leaves at each.
- `ProtoJson`, `StripPass`, `MaskedJson`, `NoLeak`, `StripWalk`: marshalling to a JSON tree, with
  options that bring cleared names back, the strip pass that deletes keys in place, and the absence
  of any hidden name in the result. What a response should contain is defined without the walk or
  the strip pass: render the message, leaving the hidden fields out.
- `NameClash`, `ClashExamples`: what the strip pass does where a field's name is another field's JSON
  name.
- `CleanPart`: the erasure is the greatest part of the message without hidden fields, and the
  fail-closed walk stays within it.
- `SchemaGen`, `SchemaLaws`, `SchemaShape`, `Conformance`, `Satisfiable`, `Meetable`, `InputDemands`,
  `InputPaths`, `SchemaRuntime`: the schema generator with its per-type counter, what its output accepts under JSON Schema 2020-12
  (core, section 10.2.1.3) in terms of the descriptors alone, when it can be satisfied, what an
  accepted input gives the upstream call, and that the schemas and the runtime hide the same
  fields.

**The elicitation gate** (`Elicitation`): a state machine over prompts, answers and forwarded
calls; safety over every run.

**Pagination** (`Base64`, `Cursor`, `SortedKeys`, `Pagination`): the cursor codec down to base64
(RFC 4648, section 4), the middleware, the example backend, and a client that follows cursors.

**The generator's printers** (`GoLiteral`, `FieldPaths`, `Mustache`, `MustacheText`): Go literals and compiled
Mustache messages, undone by an evaluator that follows the sections "String literals" and "Source
code representation" of the Go specification.

**Registration** (`Registration`): claims and SDK bindings over every run, panics included.

**Backoff** (`RetryLoop`): the retry loop over every script of turns.

## Results worth knowing

- Without the emit options, masked marshalling is exact whatever the fields are called. With them a
  clash of names breaks it in three ways. A visible field is lost exactly when a hidden field has its
  key as one of its names (`NameClash.KeptUnlessNamed`, `ClashExamples.DropExample`). A member that
  is left is stripped by exactly the fields that take it up, in the order of their declaration
  (`StripPass.MemberExactly`): under its JSON name, or under its proto name when nothing is left under
  its JSON name. That may leave out its own field, so that a hidden name stays
  (`NameClash.ClashSkipsStrip`, `LeaksExactly`, `ClashExamples.LeakExample`), or take in another, so
  that something visible goes (`ClashStripsOther`, `LostExactly`, `ClashExamples.MisreadExample`). The
  response is the visible part exactly when no visible member is dropped and each comes out of these
  passes right (`NameClash.StrippedExactly`). `MaskedJson.ClearBelow` is a premise on the descriptors
  alone under which that always is so: in the types the message may contain, no field that is hidden,
  or has something hidden below it, has a key in use as its other name. It follows from names without
  a clash, and always holds where the gate finds nothing.
- A compiled getter or assignment walks an approved path exactly when at every step no other field
  has the segment as its proto name or, for assignments, none declared earlier
  (`FieldPaths.WalksTheApproved`, `ClashMisleads`).
- The generator's gate and the masked marshaller differ beyond the depth bound: plain marshalling
  answers, masked marshalling gives up (`NoLeak.GateRefinesMasking`, both directions).
- An RPC that returns a bare `google.protobuf.Any` gets an output schema that lists the two fields
  of Any, while its JSON has `@type` (`SchemaRuntime.AnyRootMismatch`): they agree exactly when no
  type is set.
- A field that holds an Any without a type is rendered as an empty object, which its schema refuses
  (`SchemaRuntime.AnyFieldMismatch`, an exact condition); and with emitUnpopulated an unset message
  field is rendered as null, which the schemas of most well-known types accept and those of Struct,
  Empty, ListValue, FieldMask and of every other message refuse (`SchemaRuntime.UnsetMessageMismatch`).
- An emitted schema can be unsatisfiable: two visible members of a oneof, each required on its own,
  leave no value, and the input validator lets them through (`Meetable.ClashUnsatisfiable`,
  `ClashExample`). `Meetable.SatisfiableExactly` is the exact condition on the descriptors, in both
  directions.
- In a listing of distinct items, a page is the right window exactly when the listing's length fits the
  int32 request field, or the offset does and so does the limit or what is left
  (`Pagination.PageIsWindowOnlyIf`).
- The documentation of the raw-string printer promises an expression that evaluates to the text.
  With a carriage return the value lacks it, and with a NUL or a byte order mark Go rejects the
  source: `GoLiteral.SafeRawString` states the exact value for every text.
- The gate is not a nonce: an accepted call may be repeated without another prompt
  (`Elicitation.AcceptedCallRepeats`).
- A notification overwrites and then removes whatever the SDK has under the sentinel template.
  Registered keys stay bound exactly when no notification follows a registration of that template
  (`Registration.BoundUnlessSentinelClaimed`).

## Conventions

`Env` carries the descriptor graph, the resolver of type URLs and the depth bound (10000 in the
code, any positive number here). What "%v" prints of a getter chain, how protojson renders
well-known types, the hash, random numbers, cancellation and the SDK's refusals are parameters.

## Model

| member | source | states |
|---|---|---|
| Codec.RoundTrip | pkg/protomcp/fieldbehavior.go:190-211 | decoding an encoded Any payload gives the payload back, for every well-typed message |
| Codec.EmptyIsBlank | pkg/protomcp/fieldbehavior.go:166-173 | a payload encodes to no bytes exactly when nothing is set in it, so skipping an Any without bytes skips nothing |
| Codec.Decode | pkg/protomcp/fieldbehavior.go:190-196 | a decoded payload is a well-typed message of the type asked for, and smaller than its bytes: the measure for Any inside Any |
| Paths.ExploredSetIsClosed | pkg/protomcp/fieldbehavior.go:215-241 | if every type seen by a search is explored, no goal is reachable from any of them |
| Reachability.DescriptorHasMatch | pkg/protomcp/fieldbehavior.go:215-241 | the recursive search with a shared seen set: true only if a hidden field or Any is reachable; false leaves every newly seen type explored |
| Reachability.HasMatching | internal/gen/schema/schema.go:244-270 | from an empty seen set the search is exact on every graph, cyclic or not |
| Reachability.HasExclusions | internal/gen/schema/schema.go:227-234 | the input gate is true exactly when an excluded field or Any is reachable |
| Reachability.HasOutputExclusions | internal/gen/schema/schema.go:236-242 | the output gate is true exactly when something the runtime matcher for that RPC hides, or Any, is reachable |
| Reachability.Cold | pkg/protomcp/fieldbehavior.go:187-189 | a type the search rejects has no hidden field, and neither have the types of its fields |
| Reachability.ReachesByFields | pkg/protomcp/fieldbehavior.go:215-241 | what the search finds is a path of message fields, hidden or not, to an Any or to a message with a hidden field |
| Reachability.ReachesUnion | pkg/protomcp/schemamask.go:181-188 | the search for a disjunction of policies succeeds exactly when one of the two searches does |
| Masking.ColdMessage | pkg/protomcp/fieldbehavior.go:187-189 | not opening an Any payload whose type is rejected leaves no hidden field behind |
| Masking.ColdWalk | pkg/protomcp/fieldbehavior.go:75-119 | below a rejected type the walk succeeds, changing nothing, exactly on messages above the depth bound |
| Masking.ClosedIsClean | pkg/protomcp/fieldbehavior.go:75-213 | after the fail-closed walk no hidden field is set anywhere, decodable Any payloads included |
| Masking.VerifiableIsErased | pkg/protomcp/fieldbehavior.go:79-118 | where the fail-loud walk succeeds, its result is the fail-closed one and the pure erasure: a success is never truncated |
| Masking.EraseFixesClean | pkg/protomcp/fieldbehavior.go:57-71 | erasing changes nothing exactly when nothing hidden is set |
| Masking.RepackPayload | pkg/protomcp/fieldbehavior.go:197-212 | packing a walked payload again keeps its type URL, holds exactly that payload, and changes the Any exactly when the payload changed |
| Masking.Compose | pkg/protomcp/fieldbehavior.go:57-213 | clearing for one policy and then another is one fail-closed walk for their disjunction |
| Masking.PassesCommute | pkg/protomcp/schemamask.go:14-28 | the two clears may run in either order |
| Masking.SecondPassIsIdentity | pkg/protomcp/fieldbehavior.go:57-71 | a second run of the walk changes nothing |
| Masking.FixedForPart | pkg/protomcp/fieldbehavior.go:57-71 | a message that the stronger policy leaves alone is left alone by the weaker one |
| Masking.ColdAfter | internal/gen/templates/tool.go.tmpl:23-26 | where the gate finds nothing, the second clear is the identity after the first |
| CleanPart.ErasedIsCleanPart | pkg/protomcp/fieldbehavior.go:57-71 | the erasure is clean, and the message with some fields unset |
| CleanPart.CleanPartIsKept | pkg/protomcp/fieldbehavior.go:90-118 | it is the greatest such: every part of the message without hidden fields is part of the erasure, so exactly the hidden fields go |
| CleanPart.ClosedIsPart | pkg/protomcp/fieldbehavior.go:79-86 | the fail-closed walk adds nothing, whatever it wipes |
| CleanPart.WalkStaysWithinErasure | pkg/protomcp/fieldbehavior.go:57-213 | fail-closed results stay within the erasure, and fail-loud successes reach it |
| WalkPaths.VerifiableExactly | pkg/protomcp/fieldbehavior.go:75-213 | the fail-loud walk succeeds exactly when every position outside hidden fields is above the depth bound and no Any there has bytes and a type that does not resolve, or bytes that do not parse where they must be opened |
| WalkPaths.HiddenSlotsDoNotMatter | pkg/protomcp/fieldbehavior.go:90-101 | so what hidden fields hold, or whether they are set, never decides whether the walk errs |
| WalkPaths.ScalarsAreVerified | pkg/protomcp/fieldbehavior.go:90-108 | and a message with only scalars outside its hidden fields never errs |
| WalkPaths.ClosedLeaves | pkg/protomcp/fieldbehavior.go:75-213 | the fail-closed walk keeps every position it meets down to the bound; it leaves nothing of one at the bound, nor of an Any that it cannot judge, and of any other what is not hidden, every item in its place |
| WalkPaths.InputLeft | internal/gen/templates/tool.go.tmpl:23-26 | what the clears of a handler leave of each field of its input |
| ClearWalk.ClearFieldsMatchingReflect | pkg/protomcp/fieldbehavior.go:75-119 | the worker, in place: it ends on every message; it errs exactly in fail-loud mode on what cannot be verified; otherwise it leaves the fail-closed result, and reports a change exactly when the message differs |
| ClearWalk.ClearField | pkg/protomcp/fieldbehavior.go:90-117 | one round of the loop: only that field changes, and it becomes its fail-closed value |
| ClearWalk.ClearFieldChildren | pkg/protomcp/fieldbehavior.go:121-150 | the items of a singular, list or map field are each walked one level deeper; the error and change flags are exact |
| ClearWalk.ClearAllFields | pkg/protomcp/fieldbehavior.go:152-163 | the wipe leaves the empty message and reports a change exactly when something was set |
| ClearWalk.ClearMatchingInAnyPayload | pkg/protomcp/fieldbehavior.go:165-213 | opening, walking and repacking an Any, with its skips, wipes and errors |
| ClearWalk.ClearFieldsMatching | pkg/protomcp/fieldbehavior.go:57-71 | the input helpers never fail and leave nothing hidden |
| ClearWalk.ClearInput | internal/gen/templates/tool.go.tmpl:23-26 | both clears behind the gate equal one walk for "output-only or excluded" |
| MaskedJson.ErasedCanMarshal | pkg/protomcp/schemamask.go:53-60 | the cleared clone marshals exactly when the visible part of the message does |
| MaskedJson.CompactErased | pkg/protomcp/schemamask.go:61-63 | without emit options the JSON of the cleared clone is already the visible part, whatever the names: skipping the strip pass is sound |
| MaskedJson.StrippedErased | pkg/protomcp/schemamask.go:64-77 | with emit options, and clear keys below the type, stripping the JSON of the cleared clone gives the visible part: nothing hidden stays, nothing visible goes |
| MaskedJson.StrippedAny | pkg/protomcp/schemamask.go:106-126 | the same inside Any payloads, merged and wrapped |
| MaskedJson.ClearNamesSuffice | pkg/protomcp/schemamask.go:88-103 | the keys are clear everywhere when no proto name is another field's JSON name |
| MaskedJson.ColdIsClear | internal/gen/schema/schema.go:232-270 | they are clear, whatever the names, where nothing hidden is reachable |
| StripPass.ColdStrip | pkg/protomcp/schemamask.go:79-104 | below a rejected type the strip pass changes no JSON, whatever the names |
| StripPass.KeysLeft | pkg/protomcp/schemamask.go:88-103 | after any number of fields the object has lost exactly the names of the hidden ones among them, whatever the names |
| StripPass.MemberExactly | pkg/protomcp/schemamask.go:88-103 | whatever the names, a member that no hidden field deletes is stripped by exactly the fields that take it up, in the order of their declaration: visible ones with that JSON name, or with that proto name and no member left under their JSON name |
| StripPass.PassedAlone | pkg/protomcp/schemamask.go:96-102 | a member that of the fields with something hidden below them at most one takes up is stripped as that field, or left as it was |
| StripPass.OwnMember | pkg/protomcp/schemamask.go:96-102 | where the keys are clear, the member of a visible field is left, stripped as that field |
| StripPass.MarkerLeft | pkg/protomcp/schemamask.go:106-126 | where the keys are clear, the type marker of an Any stays as it is |
| NameClash.KeptUnlessNamed | pkg/protomcp/schemamask.go:88-95 | a rendered visible field keeps its member exactly when no hidden field has its key as one of its names |
| NameClash.StrippedIfFound | pkg/protomcp/schemamask.go:96-102 | a visible field strips its own member exactly when it is looked up under its key: JSON names, or nothing left under its JSON name; where no other field that matters takes the member up, it is stripped as its own field then and left as it was otherwise |
| NameClash.PassedKeys | pkg/protomcp/schemamask.go:96-126 | an object that is left has lost exactly the keys that are hidden names of a type that some field taking it up reads it as |
| NameClash.StrippedExactly | pkg/protomcp/schemamask.go:61-77 | with emit options and any names, the response is the visible part exactly when no visible member is dropped and each is right after the passes of the fields that take it up; inside Any too |
| NameClash.ClearIsRight | pkg/protomcp/schemamask.go:88-103 | which is so wherever the keys are clear |
| NameClash.LeaksExactly | pkg/protomcp/schemamask.go:96-102 | the response names a hidden field of a nested message, whose default is rendered, exactly when no field taking the member up deletes the name |
| NameClash.LostExactly | pkg/protomcp/schemamask.go:96-102 | it lacks a visible field of a nested message exactly when a field taking the member up deletes its key |
| NameClash.ClashSkipsStrip | pkg/protomcp/schemamask.go:96-102 | under proto names, a rendered field called what a message field's JSON name is keeps that field from its own member, which stays unstripped unless others take it up |
| NameClash.ClashStripsOther | pkg/protomcp/schemamask.go:96-102 | a field called what another's key is, and not rendered, strips that member as its own: what is hidden in its own type is lost there |
| ClashExamples.LeakExample | pkg/protomcp/schemamask.go:48-77 | a concrete message, verified and rendered, whose response names an excluded field |
| ClashExamples.DropExample | pkg/protomcp/schemamask.go:48-77 | a concrete message whose response lacks a visible field that its visible part has |
| ClashExamples.MisreadExample | pkg/protomcp/schemamask.go:48-77 | under JSON names and without any hidden field in the types of the message, a nested visible field that the response lacks |
| NoLeak.MaskedRendering | pkg/protomcp/schemamask.go:48-77 | where the keys are clear, the visible part names no hidden field at any message position: nested, in lists, in map values, in Any, in Any inside Any |
| NoLeak.ColdRendering | internal/gen/schema/schema.go:232-242 | where the gate finds nothing, plain marshalling already gives the visible part, whatever the names |
| NoLeak.GateRefinesMasking | internal/gen/schema/schema.go:232-270 | where the gate finds nothing, and whatever the names, masked and plain marshalling agree on messages above the depth bound, and beyond it the masked one gives up |
| NoLeak.ShownForRpc | pkg/protomcp/schemamask.go:181-192 | a field is in the visible part for an RPC exactly when it is neither excluded nor names that RPC among those to be excluded from, and is set or asked for by the emit options |
| StripWalk.StripSchemaExcludedJSON | pkg/protomcp/schemamask.go:79-104 | the strip pass over a decoded tree, by cases on Any, for any names; it ends on every tree |
| StripWalk.StripFields | pkg/protomcp/schemamask.go:88-103 | the loop over the fields, deleting and replacing members in place |
| StripWalk.StripField | pkg/protomcp/schemamask.go:89-103 | one round of it: the names of a hidden field go, the member a visible field is looked up under is stripped |
| StripWalk.StripSchemaExcludedAnyJSON | pkg/protomcp/schemamask.go:106-126 | the Any case: unresolvable payloads lose everything but @type, an Any inside an Any is stripped under its value, well-known types are left alone |
| StripWalk.StripSchemaExcludedJSONValue | pkg/protomcp/schemamask.go:152-179 | values of message fields are stripped one by one, in lists and maps too |
| StripWalk.StripItems | pkg/protomcp/schemamask.go:164-174 | every item of a list is stripped |
| StripWalk.StripEntries | pkg/protomcp/schemamask.go:154-163 | every entry of a map is stripped, in any order |
| StripWalk.MarshalProtoMaskedForRPC | pkg/protomcp/schemamask.go:48-77 | it succeeds exactly when the message can be verified and its visible part rendered; without emit options, or with clear keys, or where nothing hidden is reachable, the response is exactly the JSON of the visible part; otherwise it is what the strip pass leaves of the rendered clone, which is the visible part exactly when its members come out right; with clear keys no key names a hidden field; the caller's message is not in its frame |
| SchemaGen.WalkMessage | internal/gen/schema/schema.go:283-369 | the recursive walker ends on every cyclic graph, computes the schema of its path, and puts the shared counts back |
| SchemaGen.WalkFields | internal/gen/schema/schema.go:306-333 | its loop over the fields: properties and required names of exactly the visible ones |
| SchemaGen.CollectGroups | internal/gen/schema/schema.go:334-356 | its loop over the oneofs |
| SchemaGen.AddArm | internal/gen/schema/schema.go:328-331 | a visible member of a real oneof joins the arms collected for it |
| SchemaGen.WalkField | internal/gen/schema/schema.go:373-410 | scalar, well-known, message, list and map fields |
| SchemaGen.ExpansionsBounded | internal/gen/schema/schema.go:293-303 | each type is expanded at most the cap's number of times on any path |
| SchemaLaws.GroupExact | internal/gen/schema/schema.go:334-356 | a oneof's group accepts an object exactly when one visible arm is present, or none where the none-branch is emitted, for any number of arms |
| SchemaLaws.CapTightens | internal/gen/schema/schema.go:293-303 | whatever the schema of a larger cap accepts, the schema of the smaller cap accepts |
| SchemaShape.ExpandedExactly | internal/gen/schema/schema.go:293-303 | the schema spells out a message at the end of a path of visible fields exactly when no type on the way was met as often as the cap before: neither deeper nor shallower |
| SchemaShape.GroupIsOneof | internal/gen/schema/schema.go:334-356 | a group accepts exactly what its oneof allows: one visible member, or none where the oneof is optional or, in output, a hidden member may be the one set |
| SchemaShape.AcceptedExactly | internal/gen/schema/schema.go:283-369 | a node accepts exactly the objects with its required fields, valid values for its visible fields, and every oneof met |
| Conformance.AcceptedConforms | internal/gen/schema/schema.go:283-410 | the emitted schema accepts exactly the values that conform to the descriptor, down to any depth: demanded fields there, arrays for lists, objects for maps, oneofs met, any object at the cap |
| Conformance.FieldAccepted | internal/gen/schema/schema.go:371-410 | so does the schema of a field of any cardinality and kind, item by item |
| Conformance.RequiredIsDemanded | internal/gen/schema/schema.go:741-763 | a field is required by option, by behaviour, or by a rule that applies to it when it is unset |
| Conformance.SpelledOut | internal/gen/schema/schema.go:293-303 | a message that contains itself is spelled out as often as configured, 3 times by default |
| Conformance.OffersExactly | internal/gen/schema/schema.go:83-102 | the properties of an input schema are the fields neither excluded nor OUTPUT_ONLY, those of an output schema the fields neither excluded nor naming the RPC |
| Satisfiable.Witness | internal/gen/schema/schema.go:358-369 | an object that a feasible schema accepts |
| Satisfiable.AcceptedIsFeasible | internal/gen/schema/schema.go:358-369 | a schema that accepts anything is feasible |
| Satisfiable.SatisfiableIffFeasible | internal/gen/schema/schema.go:334-369 | some value is accepted exactly when a condition on the emitted schema holds |
| Satisfiable.SchemaRegular | internal/gen/schema/schema.go:306-369 | emitted schemas name only their own properties in required and in groups, and no two groups share an arm |
| Meetable.MeetableIsFeasible | internal/gen/schema/schema.go:304-369 | that condition holds of the emitted schema exactly when the descriptor can be met |
| Meetable.SatisfiableExactly | internal/gen/schema/schema.go:283-369 | an emitted schema accepts some value exactly when its type is at the cap, or its required fields can be met and no oneof has two required visible members and each may be left out or has a member that can be met |
| Meetable.ClashUnsatisfiable | internal/gen/schema/schema.go:334-356 | two visible members of one oneof, each required, leave no value that is accepted |
| Meetable.ClashExample | internal/gen/schema/schema.go:138-225 | a concrete input with such a oneof that the validator accepts and whose schema, at any cap, accepts nothing |
| Meetable.UnclashedIsMeetable | internal/gen/schema/schema.go:283-369 | where no such clash is reachable through visible fields, the schema can be satisfied at every node |
| InputDemands.ValidateInputExclusions | internal/gen/schema/schema.go:162-225 | the recursive validator: an error only for a reachable impossible demand; success leaves every newly seen type explored |
| InputDemands.CountVisible | internal/gen/schema/schema.go:173-179 | the count of visible members is zero exactly when every member is masked |
| InputDemands.ValidateInput | internal/gen/schema/schema.go:138-141 | the validator succeeds exactly when no impossible demand is reachable through visible fields |
| InputDemands.AcceptedInputMeetsDemands | internal/gen/schema/schema.go:162-225 | what a validated input schema accepts sets, at every expanded message, every required input field and exactly one member of every required oneof, and no excluded field breaks a rule by being zero |
| InputDemands.BadInputIsUnmeetable | internal/gen/schema/schema.go:162-225 | where the validator objects to a message, no object without hidden fields meets the demands |
| InputPaths.ImpossibleByFields | internal/gen/schema/schema.go:162-225 | the validator objects exactly when a path of fields that clients can set leads to a message that demands an excluded field, or a member of a oneof without any that clients can set |
| Meetable.ValidatedInputIsMeetable | internal/gen/schema/schema.go:162-225 | where the validator succeeds, an input that is accepted and meets the demands throughout exists exactly when the descriptor can be met |
| SchemaRuntime.OutputFilterComplements | internal/gen/schema/schema.go:90-103 | the generator's output filter keeps exactly what the runtime's matcher does not hide |
| SchemaRuntime.MaskedResponseMatchesSchema | pkg/protomcp/schemamask.go:48-77 | walking a masked response and its output schema in parallel, every key is a property of its node |
| SchemaRuntime.AnyRootMismatch | internal/gen/schema/schema.go:90-103 | for a response that is itself an Any, that holds exactly when no type is set |
| SchemaRuntime.MarshalOutput | internal/gen/templates/tool.go.tmpl:140-144 | the whole output path behind the gate: when it answers, and that the answer is the JSON of the visible part exactly when no emit option is on or the members come out of the strip pass right; it then has only keys the output schema declares |
| SchemaRuntime.ClearedRequestMatchesSchema | internal/gen/schema/schema.go:70-86 | every field still set after the input clears is a property of its node in the input schema, an Any as request included |
| SchemaRuntime.WellKnownFields | internal/gen/schema/schema.go:576-624 | the schema of a field of a well-known type accepts the shape that protobuf's JSON mapping gives the type, an Any without a type excepted, and no other but null |
| SchemaRuntime.AnyFieldMismatch | internal/gen/schema/schema.go:596-607 | the rendering of an Any matches the schema of its field exactly when a type is set |
| SchemaRuntime.UnsetMessageMismatch | internal/gen/schema/schema.go:576-624 | the null that emitUnpopulated gives an unset message field matches its schema exactly for some of the well-known types |
| Elicitation.ValidateMCPIdentifier | internal/gen/generator.go:815-838 | a name is accepted exactly when it has 1 to 128 characters, all among the 65 listed |
| Elicitation.PreimageInjective | pkg/protomcp/elicitation.go:22-28 | two calls are hashed from the same bytes exactly when tool and raw arguments are the same |
| Elicitation.PreimageBytes | pkg/protomcp/elicitation.go:22-28 | the bytes that are hashed, one by one: name, a zero, arguments |
| Elicitation.StateIdentifiesCall | pkg/protomcp/elicitation.go:22-28 | with a collision-free hash, so for their states |
| Elicitation.AnswerFitsItsCall | pkg/api/gen/examples/tasks/v1/tasks.mcp.pb.go:280-301 | an accepting answer lets through the call it was asked for and re-prompts for every other |
| Elicitation.DecidesByAnswer | pkg/api/gen/examples/tasks/v1/tasks.mcp.pb.go:280-301 | the answer to the prompt for this very call decides it: an acceptance forwards it, any other answer declines it and leaves no trace in the log; every other call is prompted for with its own state |
| Elicitation.UnknownStatePrompts | pkg/api/gen/examples/tasks/v1/tasks.mcp.pb.go:282-294 | so is a call with any state but its own |
| Elicitation.ForwardedIsConfirmed | pkg/api/gen/examples/tasks/v1/tasks.mcp.pb.go:280-301 | a call the gate lets through was prompted for and then accepted, whoever sends it |
| Elicitation.NextKeepsInv | pkg/api/gen/examples/tasks/v1/tasks.mcp.pb.go:280-301 | every call and every answer keeps the invariant of the log |
| Elicitation.ElicitationSafety | pkg/api/gen/examples/tasks/v1/tasks.mcp.pb.go:271-325 | in every run, interleaved calls and reused parameters included, each forwarded call comes after a prompt for the same tool and bytes and an accepting answer to it |
| Elicitation.Handler.HandleCall | pkg/api/gen/examples/tasks/v1/tasks.mcp.pb.go:280-325 | the handler prompts, declines or forwards as the gate decides, and keeps the invariant |
| Elicitation.AcceptedCallRepeats | pkg/api/gen/examples/tasks/v1/tasks.mcp.pb.go:271-282 | an accepted call may be sent again and is forwarded again without a prompt |
| Cursor.DigitsRoundTrip | pkg/protomcp/pagination.go:142-150 | decimal printing is undone by parsing |
| Cursor.DecimalPlaces | pkg/protomcp/pagination.go:142-150 | the digit k places from the right is that of the k-th power of ten, without a leading zero |
| Cursor.CursorJsonRoundTrip | pkg/protomcp/pagination.go:31-34 | so is the JSON object |
| Cursor.JsonExactly | pkg/protomcp/pagination.go:31-34 | the object, character by character, and the only texts that are read as an offset |
| Base64.Base64RoundTrip | pkg/protomcp/pagination.go:149-161 | base64 decoding undoes encoding, for all byte strings |
| Base64.EncodedAt | pkg/protomcp/pagination.go:149-149 | character k of an encoding is the entry of the standard alphabet for bits 6k to 6k + 5, zeros after the last byte, and the rest is padding up to whole quads |
| Base64.Base64DecodesExactly | pkg/protomcp/pagination.go:158-161 | which texts the decoder accepts, and for which bytes, character by character; the bits past the last byte are free |
| Base64.LineBreaksSkipped | pkg/protomcp/pagination.go:158-161 | line breaks anywhere make no difference to it |
| Cursor.DecodeEncoded | pkg/protomcp/pagination.go:142-170 | decoding an encoded cursor gives the offset for every non-negative int64, refuses the negative ones, and an encoding is never the first page's cursor |
| Cursor.EncodingInjective | pkg/protomcp/pagination.go:142-150 | different offsets have different cursors |
| Cursor.CursorExactly | pkg/protomcp/pagination.go:152-170 | a cursor is accepted for an offset exactly when it is empty and the offset zero, or its bytes are the object with that offset, which is not negative |
| Cursor.RefusedCursors | pkg/protomcp/pagination.go:158-168 | and the error tells whether it is no base64, is the object with a negative offset, or is anything else |
| Cursor.CursorOfFifty | pkg/protomcp/pagination.go:142-150 | the cursor of offset 50 on the wire |
| SortedKeys.SortedIsSorted | examples/tasks/server/server.go:212-216 | the sorted keys are all of them, once each, in ascending byte order |
| SortedKeys.SortedUnique | pkg/protomcp/registration.go:194-203 | no other listing is |
| SortedKeys.LessExactly | pkg/protomcp/registration.go:194-203 | one string comes before another when it is a proper beginning of it or has the smaller character where they part |
| SortedKeys.SortKeys | pkg/protomcp/registration.go:194-203 | collecting and sorting gives that listing |
| Pagination.StoredIsNearest | pkg/protomcp/pagination.go:172-214 | a field is given the nearest value its kind can hold |
| Pagination.WindowExactly | examples/tasks/server/server.go:240-248 | item by item: the window starts at the offset and ends at a positive limit, or with the items |
| Pagination.Server.SortedTasks | examples/tasks/server/server.go:212-225 | tasks are listed by ascending id |
| Pagination.Server.SortedTags | examples/tasks/server/server.go:226-238 | so are tags |
| Pagination.Server.ListAllResources | examples/tasks/server/server.go:202-249 | the window [offset, offset + limit) of tasks then tags, with no upper limit without a positive limit; it panics exactly on a negative offset |
| Pagination.Handler | pkg/api/gen/examples/tasks/v1/tasks.mcp.pb.go:441-486 | one resource per item, in order |
| Pagination.ListedExactly | examples/tasks/server/server.go:202-239 | the whole listing: tasks with their URI, title and description in ascending order of their keys, then tags with their URI and name |
| Pagination.AddsModulo | pkg/protomcp/pagination.go:76-76 | the next offset is the int64 that the sum is modulo 2 to the 64th |
| Pagination.ListResources | pkg/protomcp/pagination.go:41-86 | a page errs exactly on an undecodable cursor, with the decoder's error; otherwise it is the window at the cursor, with a next cursor exactly when the page is full |
| Pagination.PageIsWindowOnlyIf | pkg/protomcp/pagination.go:188-194 | in a listing of distinct items, a page is the window exactly when the listing's length fits the int32 field, or the offset does and so does the page size or what is left |
| Pagination.FollowCursors | pkg/protomcp/pagination.go:41-86 | from any valid cursor the pages join to the suffix of the listing from its offset, in order, nothing lost or repeated, and their number is exact |
| Pagination.EnumerateAll | pkg/protomcp/pagination.go:36-86 | from the empty cursor, n/p + 1 pages join to the whole listing |
| GoLiteral.SafeRawString | internal/gen/generator.go:877-918 | the value of the printed expression, for every text and any pattern of back quotes: the text itself exactly without carriage return, NUL and byte order mark |
| GoLiteral.StitchTicks | internal/gen/generator.go:889-918 | the stitching loop: stretches and runs of back quotes become literals whose sum evaluates to the text |
| GoLiteral.Run | internal/gen/generator.go:900-915 | one of its inner scans takes the longest run |
| GoLiteral.Emit | internal/gen/generator.go:892-898 | a piece is appended with a plus sign before all but the first, and its text to the text so far |
| GoLiteral.PiecesEvaluate | internal/gen/generator.go:877-881 | a sum of literals evaluates to the joined texts without carriage returns, if Go accepts it |
| GoLiteral.GoSource | internal/gen/generator.go:877-918 | which texts Go accepts as source, and which characters a raw literal drops |
| GoLiteral.EscapedReads | internal/gen/mustache.go:142-169 | an interpreted literal's body is read back character by character |
| GoLiteral.LiteralEvaluates | internal/gen/mustache.go:142-169 | the literal evaluates to the text exactly without byte order mark |
| GoLiteral.WriteEscaped | internal/gen/mustache.go:148-165 | the switch that escapes one character |
| GoLiteral.EscapesAre | internal/gen/mustache.go:148-165 | what is written for each character: letters for the common control characters, two lower-case digits for the others |
| GoLiteral.GoEscapes | internal/gen/mustache.go:142-169 | the evaluator that undoes it reads Go's escapes |
| GoLiteral.GoStringLiteral | internal/gen/mustache.go:144-169 | the printed literal evaluates to the text, byte order marks excepted |
| FieldPaths.ResolveFieldPath | internal/gen/schema/template.go:172-202 | the resolver's loop accepts exactly the approved paths and returns their last field; otherwise its error is the reason why the fields visited so far are the last |
| FieldPaths.SplitExactly | internal/gen/schema/template.go:176-176 | the segments of a path are the one list of texts without dots that joined by dots give it |
| FieldPaths.ApprovedIsChain | internal/gen/schema/template.go:172-212 | approved are exactly the unexcluded chains of fields, singular messages down to the last, each the field that its segment means, whatever the names |
| FieldPaths.ResolverFinds | internal/gen/schema/template.go:204-212 | the resolver's lookup finds exactly the field with that JSON name, or else with that proto name |
| FieldPaths.FindsExactly | internal/gen/resources.go:333-345 | another lookup finds the same field exactly when no other field has the segment as its proto name or, in declaration order, none that comes earlier |
| FieldPaths.WalksTheApproved | internal/gen/resources.go:347-372 | given an approved path, each getter and assignment walks exactly its fields if and only if every lookup on the way finds the field of the path; the resource getters always do |
| FieldPaths.ClashMisleads | internal/gen/mustache.go:103-106 | with a clash, the Mustache getter reads another field than the approved one, and so does an assignment if that one is declared first |
| FieldPaths.WalkersVisit | internal/gen/resources.go:290-372 | what the two getters and the assignment visit on any path, approved or not: the order of their lookups, and which fields they go through |
| FieldPaths.EntryIs | internal/gen/mustache.go:96-118 | below a map a Mustache getter finds a scalar `key` and a `value` of the map's kind |
| FieldPaths.MustacheGoGetter | internal/gen/mustache.go:96-118 | the Mustache walker, proto names first, through the entry message of a map |
| FieldPaths.MessageFieldGetter | internal/gen/resources.go:347-372 | the resource walker, JSON names first |
| FieldPaths.MessageFieldAssignStringPath | internal/gen/resources.go:290-331 | the assignment walker, in declaration order, to a string field |
| FieldPaths.AssignsExactly | internal/gen/resources.go:309-316 | an assignment sets the last field of its path, and exists only if that is a string |
| Mustache.IndexPair | internal/gen/mustache.go:25-34 | the first doubled brace from a position, or none |
| Mustache.ScanOnce | internal/gen/mustache.go:24-49 | one turn of the scan moves on, and what it finds is a tag: braces, a trimmed body without closing braces, no sigil |
| Mustache.LocateMustacheVars | internal/gen/mustache.go:22-53 | the scanning loop; the tags are ordered and disjoint |
| Mustache.TagsAndTextTile | internal/gen/mustache.go:73-93 | literal pieces and tags together are the whole text |
| Mustache.RenderMustacheGoExpr | internal/gen/mustache.go:73-94 | rendering fails exactly when some tag's getter does; otherwise the expression evaluates to the text with each tag replaced by what its getter reads |
| Mustache.ApprovedIsRead | internal/gen/mustache.go:96-118 | on an approved tag the getter visits the approved fields exactly when it is not distracted on the way |
| Mustache.ApprovedIsFilled | internal/gen/mustache.go:73-118 | so on approved tags that are not, each is replaced by the value of its approved field |
| Mustache.CompileMessage | internal/gen/generator.go:733-759 | a message compiles exactly when it is not empty, every tag is approved and every getter exists; it then evaluates to itself with what the getters read filled in, which is the approved fields' values unless a getter is distracted |
| MustacheText.FillsAsWritten | internal/gen/mustache.go:22-53 | of a message written as text, variables, other tags, triple braces and an unclosed tag, exactly the variables are located, and filling them in leaves everything else as it was written |
| MustacheText.EveryMessageIsWritten | internal/gen/mustache.go:22-53 | every message can be read that way |
| Mustache.TrimExactly | internal/gen/mustache.go:39-39 | the name in a tag is the body without the white space at either end |
| Mustache.SpaceExactly | internal/gen/mustache.go:39-39 | white space as Unicode has it |
| Mustache.SigilExactly | internal/gen/mustache.go:44-48 | the seven signs that make a tag something else than a variable |
| Registration.AllOrNothing | pkg/protomcp/registration.go:166-192 | a call that panics changes neither claims nor SDK; one that succeeds adds its key and handler and nothing else; when it succeeds |
| Registration.RefusedFor | pkg/protomcp/registration.go:166-192 | how a call ends after any run, by the first reason that applies: nil, no name, a key some earlier call registered, a panic in the SDK |
| Registration.SentinelIs | pkg/protomcp/list_changed.go:12-34 | the one key that notifications touch |
| Registration.ClaimedIsRegistered | pkg/protomcp/registration.go:178-192 | in every run a key is claimed exactly when some call registered it |
| Registration.RegisteredOnce | pkg/protomcp/registration.go:187-189 | and by one call only |
| Registration.StaysBound | pkg/protomcp/registration.go:178-192 | a registered key stays bound to its handler in every run in which nothing reaches the SDK's entry another way |
| Registration.BoundUnlessSentinelClaimed | pkg/protomcp/list_changed.go:26-34 | without direct registrations all claimed keys stay bound exactly when no notification follows a registration of the sentinel |
| Registration.NeverRebound | pkg/protomcp/list_changed.go:26-34 | a claimed sentinel that a notification overwrote is never bound again |
| Registration.NotificationIsInvisible | pkg/protomcp/list_changed.go:26-34 | an uninterrupted notification leaves the SDK as it was exactly when the sentinel was not in it |
| Registration.SnapshotDifference | pkg/protomcp/registration.go:139-164 | a later snapshot has, beyond an earlier one, exactly what was registered between them, and drops nothing |
| Registration.Server.SdkAdd | pkg/protomcp/registration.go:166-177 | the SDK's add: all or nothing, replacing silently |
| Registration.Server.ClaimAndRegister | pkg/protomcp/registration.go:178-192 | the critical section takes the step of the machine, in all four outcomes |
| Registration.Server.MustAdd | pkg/protomcp/registration.go:75-137 | so do the five MustAdd functions, nil included |
| Registration.Server.Registered | pkg/protomcp/registration.go:194-203 | a snapshot is the claimed names of its kind, in ascending order |
| Registration.Server.NotifyResourceListChanged | pkg/protomcp/list_changed.go:26-34 | the sentinel is added, then removed |
| RetryLoop.Run | pkg/protomcp/list_changed.go:41-71 | over every script: fn runs once per turn up to the first cancellation observed and never after it; after its j-th return since the last reset the backoff is min(100 ms * 2^j, 30 s), and the sleep is the one its random number calls for, at least 0.9 and below 1.1 of it, the jitter bound being a fifth of it |
| RetryLoop.Draw | pkg/protomcp/list_changed.go:57-58 | the jitter and the length of one sleep |
| RetryLoop.BackoffDoubles | pkg/protomcp/list_changed.go:64-69 | doubling with the cap follows the formula |
| RetryLoop.CappedFromNine | pkg/protomcp/list_changed.go:64-69 | the cap is reached at return number nine, no earlier |
| RetryLoop.Backoffs | pkg/protomcp/list_changed.go:42-47 | the backoffs in nanoseconds |
| RetryLoop.JitterIsSpread | pkg/protomcp/list_changed.go:57-58 | each length from 0.9 up to 1.1 of the backoff comes up for exactly one random number below the jitter bound, and no other length does |
| RetryLoop.SinceResetExactly | pkg/protomcp/list_changed.go:46-47 | returns are counted from the last run that called reset, or else from the first |

## Left out

- Transport: gRPC, HTTP, MCP sessions, notification debounce and locks; a critical section is one step.
- The protobuf wire format, protojson's text and SHA-256: a small codec with a proved round trip, an abstract JSON tree and a collision-free function stand for them. Unknown fields, extensions and invalid UTF-8 are not modelled, and neither is a payload that fails to marshal again.
- Group-encoded fields: the strip pass does not descend into repeated ones, and the theorems do not cover them.
- Nested messages and JSON entries are loaded, walked and stored back rather than shared by reference, so aliasing between them is not captured.
- How protojson renders well-known types other than Any is a parameter; responses that are themselves such a type are covered for Any alone.
- JSON formatting, numbers as text, key order and indentation.
- ClearWalk.ClearFieldsMatchingReflect: does not say which error is reported, only when one is, and leaves open what a failed walk has done to its private copy.
- StripWalk.MarshalProtoMaskedForRPC: takes no field of the well-known types that protojson renders in its own way to be hidden, and no message to be nil.
- buf.validate keywords and the tables of rules that the zero value violates: `Leaf` accepts every value and a flag on the field stands for the table. Of the schemas of well-known types only the JSON type is kept: a string, a number and a boolean are told apart from objects, arrays and null, but not from each other. Comments, examples, enums and formats of the schemas are not modelled.
- Oneof groups are told apart by position rather than name.
- Cursor.DecodeEncoded: the decoder accepts only the JSON that the encoder prints; the leniency of encoding/json on other texts is not modelled.
- Pagination.Handler: URI expansion and Mustache rendering of one resource are reduced to a function; their errors and AIP-158 page tokens are not modelled.
- Elicitation.ElicitationSafety: errors in decoding arguments, and middleware, come after or before the gate and are not modelled; that a client sends an accepting answer only with the state of the prompt it answers is a premise.
- GoLiteral.PiecesEvaluate: the evaluator knows the escapes the printers use; octal, Unicode and high byte escapes make it undefined rather than wrong. Blanks between tokens are spaces.
- Mustache.LocateMustacheVars: positions count characters, not bytes.
- Mustache.CompileMessage: the tags checked against the resolver are the located ones; the Mustache library's own parse is not modelled, and no claim is made that compiled messages equal its output, which escapes HTML.
- Mustache.RenderMustacheGoExpr: gives the summands of the expression; joining them with plus signs into one text, and the text of the getter calls, are not modelled.
- FieldPaths.MustacheGoGetter: a scalar in the middle of a path, on which the original dereferences nil, gives no getter.
- `ResolveItemMessage`, `ValidatePlaceholderBindings`, Go identifier casing, tool-name derivation, annotations and templates: easy members.
- RetryLoop.Run: reset is called from within fn only, and a script is finite; the loop's behaviour on longer ones extends it.
- The example server's change fan-out, authentication and heartbeat.
