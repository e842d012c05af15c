# A verified model of sysrepo-gnxi

sysrepo-gnxi is a gNMI server in front of a sysrepo datastore. This project models, in
Dafny, the four parts of it that carry state or a format, and proves what they promise:

- **Paths and Get.** `XPath` prints a gNMI path as an xpath and reads it back. `Json`,
  `Reader`, `Messages` and `Get` turn the subtrees read for a path into keyed updates.
  `Selection` says what an xpath selects in a datastore, and `SelfAddressing` proves that
  each update Get returns can be asked for again by its own path. `Delivery` says what Get
  notifications and Subscribe responses hold when the data are a given tree.
- **JSON.** `Json` models the sibling loop that fills a JSON value in place; its meaning is
  a group-by, under an exact condition. `JsonRoundTrip` reads the value back with the schema.
- **Set.** `Session` is the sysrepo session shared by all RPCs, `Store` and `Walk` write a
  parsed data tree into it, `SetRpc` is the RPC, `SetHistory` says what one request and any
  number of requests do to the datastores, `SetMeaning` what a request writes and answers in
  the client's terms. `Flatten` proves that the written datastore determines the tree.
- **Subscribe.** `Notify` builds notifications, `Subscribe` answers ONCE and POLL calls,
  `Streaming` runs the sampling loop of STREAM calls, `SubscribeRpc` dispatches. `Scheduler`
  is the theory of that loop as a timed run: spacing, rate, lateness, non-interference and
  the loop cap.

Code that changes things step by step is a method with loops, on classes where the program
has objects (`DataSource`, `Notification`, `GetResponse`, `SetResponse`, `Session`, `Stream`,
`ServerContext`, `SubscribeResponse`, `Clock`). Each such method is tied to a function of its
inputs and of the old state, and the theorems are about those functions. `Gnmi` holds the
shared types, `Decimal` the text of integers, and `Seqs` equations of sequences.

## What the environment is

- **sysrepo, reading.** A `DataSource` answers an xpath by an arbitrary function of the xpath
  and of the number of refreshes made so far, so other clients may change the data between
  any two reads. `Selection.Lookup` is one such answer, for a datastore given as a tree; there
  the meaning of names is an arbitrary relation, and only key predicates are fixed.
- **sysrepo, writing.** `Env` holds an arbitrary effect of an accepted edit and an arbitrary
  verdict for each call, in order. A refused call throws and changes nothing. A commit is
  atomic. `Flatten` uses one concrete effect, a map from locations. A `sysrepo_exception` is
  neither an `invalid_argument` nor a `runtime_error`; were it the latter, one thrown for a
  JSON value would be answered INVALID_ARGUMENT and not INTERNAL (src/gnmi/set.cpp:80-83).
- **libyang.** A parsed text is a forest whose walk is in preorder; its node paths show the
  values of list keys. A schema gives each leaf its type by the names on the way to it; module
  names hold no colon. The parser itself is an arbitrary function.
- **jsoncpp.** Objects are maps, `operator[]` creates members, `append` accepts null and
  arrays and throws on anything else, `asString` accepts null, numbers and strings.
- **protobuf.** The key map of a path element is a list in the order in which it happens to be
  iterated over; statements about printed paths hold for every such order.
- **Time.** The clock never runs backwards, a sleep lasts at least as long as asked, and both
  are otherwise arbitrary. Nanosecond counts do not overflow.
- **gRPC.** The client's messages and the moment of its cancellation are arbitrary; a STREAM
  call is a run of any finite length. An exception that no handler catches is the status
  `Escaped`; a step without meaning in C++ (a null pointer followed, an index before the
  first element) is the fault `Undefined`.

## Where the code differs from what is written about it

- Booleans are written as the strings `"true"` and `"false"` and an empty leaf as `["null"]`,
  unlike sections 6.3 and 6.9 of RFC 7951; a node without children is null.
- A REPLACE runs the code of an UPDATE, and a JSON value ignores the path of its update.
- An update without a path or a value is skipped, yet the Set goes on and answers OK, with an
  entry that names no path. `SetHistory.Transaction` proves that the response is faithful if
  and only if no update is of this kind.
- A failed Set is not undone: the next OK request commits what it had applied
  (`SetHistory.FailedEditsAreCommitted`). It leaves nothing behind, whatever sysrepo answers,
  if and only if it asks for no edit (`SetHistory.AtomicIffNoEdits`).
- Subscribe copies the prefix of the list into its notifications but reads the bare paths, and
  opens every subscription's updates with one that has no value.
- Exceptions other than `invalid_argument` and `sysrepo_exception` are answered INTERNAL in
  the loop over replaces and escape from the loop over updates (src/gnmi/set.cpp:151-177).
- Containers leave no trace in the datastore that storeTree fills, presence containers
  included; list instances and leaves do.

## Model

| member | source | states |
|---|---|---|
| XPath.GnmiToXPath | src/utils/utils.h:37-61 | the flag-carrying loop prints what the recursive printer of steps prints, for every path |
| XPath.OriginShowsInPrint | src/utils/utils.h:48-53 | two paths that differ only in origin have different texts |
| XPath.PrefixHomomorphism | src/gnmi/get.cpp:108-116 | prefix text followed by path text is the text of the joined path if and only if the path has no element or adds no origin of its own |
| XPath.ReadPrint | src/utils/utils.h:46-58 | the reader recovers every clean list of steps from its text, key order included |
| XPath.ReadAcceptsExactlyPrinted | src/utils/utils.h:46-58 | a text is readable if and only if it is the text of some clean steps |
| XPath.PrintRead | src/utils/utils.h:46-58 | whatever is readable is the text of the steps read, and those are clean |
| XPath.PathRoundTrip | src/utils/utils.h:37-61 | every non-empty clean path is recovered from its xpath |
| XPath.ReadPrefixed | src/gnmi/set.cpp:120-130 | prefix text followed by path text reads as the prefix's steps followed by the path's, whatever their origins |
| XPath.ReadUnderPrefix | src/gnmi/get.cpp:108-116 | under a prefix or none, a path's text reads as the prefix's steps followed by its own |
| Decimal.ReadPrintInt | src/gnmi/encode/json_ietf.cpp:87-92 | every integer is recovered from the decimal text it is sent as |
| Json.JsonTree | src/gnmi/encode/json_ietf.cpp:54-141 | the in-place loop computes the fold of its rounds, or ends with the first exception, for every tree |
| Json.LoopSucceeds | src/gnmi/encode/json_ietf.cpp:59-140 | for all children: the loop succeeds if and only if each child is encodable by itself and every appended one finds its nearest earlier namesake appended too or a container without children; where only the second fails, jsoncpp's exception ends it |
| Json.MemberIsFinal | src/gnmi/encode/json_ietf.cpp:59-140 | when the loop succeeds, a member is the last assignment under its name, or the array of what was appended after it |
| Json.GroupingExactly | src/gnmi/encode/json_ietf.cpp:59-140 | the loop computes the group-by if and only if no append fails and under each name all children are appended, or the first and the last are assigned |
| Json.GroupingFold | src/gnmi/encode/json_ietf.cpp:59-140 | where a name is used by appended or by assigned children only, the loop succeeds if and only if every child is encodable by itself, and its value is the group-by: a member for exactly the names that occur, list entries in sibling order, the last of repeated scalars |
| Json.MixedNamesThrow | src/gnmi/encode/json_ietf.cpp:116-121 | a witness for the exact condition: a leaf and a list of one name, each encodable, on which the loop throws |
| JsonRoundTrip.RoundTrip | src/gnmi/encode/json_ietf.cpp:54-141 | every tree of a schema without leaf-lists, decimal64, anydata and anyxml is encodable, and reading its JSON with the schema gives it back, siblings arranged in schema order |
| JsonRoundTrip.RoundTripInOrder | src/gnmi/encode/json_ietf.cpp:54-141 | a tree whose siblings stand in schema order comes back exactly |
| JsonRoundTrip.ArrangedKids | src/gnmi/encode/json_ietf.cpp:60-140 | arranging siblings in schema order, at every level, does not change a tree's JSON |
| JsonRoundTrip.InterleavingIsInvisible | src/gnmi/encode/json_ietf.cpp:60-140 | two trees of one schema have the same JSON if and only if they differ, at every level, in nothing but how differently named siblings interleave |
| Reader.JsonRead | src/gnmi/encode/json_ietf.cpp:144-186 | one entry per subtree, with `tmp` kept between rounds, or the exception of the first subtree that throws |
| Reader.KeysCarryOver | src/gnmi/encode/json_ietf.cpp:162-183 | entry i holds the JSON of tree i and the key pair of the last list instance at or before i, or none |
| Messages.AddUpdates | src/gnmi/get.cpp:61-76 | appends one update per entry, in order, with the key pair put into the last path element; undefined exactly when there is a key and no element |
| Messages.UpdatesForAt | src/gnmi/get.cpp:61-76 | update i is made from entry i alone |
| Messages.AnswerAt | src/gnmi/get.cpp:61-76 | an answer has one update per subtree, holding that subtree's JSON; its path is the one asked for, with the key of the last list instance so far, if any, put into its last element |
| Get.BuildGetUpdate | src/gnmi/get.cpp:31-85 | appends the updates of the subtrees read after one refresh, or answers the status of the exception |
| Get.BuildGetNotification | src/gnmi/get.cpp:98-125 | the notification holds the prefix, a clock reading and exactly the answer to prefix text followed by path text |
| Get.VerifyGetRequest | src/gnmi/get.cpp:128-160 | OK if and only if the encoding is JSON, the type is valid and neither models nor extensions are given |
| Get.Run | src/gnmi/get.cpp:163-196 | OK means one notification per path, in order, each read after its own refresh and stamped in order; otherwise the first path that cannot be answered decides the status, and the response holds the answers before it and a last notification with the prefix |
| Selection.SelectMore | src/utils/utils.h:56-57 | one more key predicate on the last step selects exactly those nodes, among the ones selected before, that carry the key |
| Selection.KeyOrderIsIrrelevant | src/utils/utils.h:56-57 | any order of a step's key predicates selects the same nodes |
| SelfAddressing.KeyPairIsKey | src/gnmi/encode/json_ietf.cpp:166-174 | for a single-keyed list instance, the extracted pair is its key's name and lexical value |
| SelfAddressing.ReplyIsUpdates | src/gnmi/get.cpp:60-76 | a list path is answered with one update per instance found, in order, each under its own key |
| SelfAddressing.SelfAddressing | src/gnmi/get.cpp:61-76 | asking for the path of the update of instance i of an unkeyed list path, under the same prefix, yields exactly that update, same path and same JSON, if and only if no other instance found has its key value |
| SelfAddressing.KeyedPathReads | src/utils/utils.h:56-57 | the path of an update reads back as its own steps if and only if its key is clean, that is, holds no double quote in its value |
| SelfAddressing.KeyedPathsSelfAddress | src/gnmi/get.cpp:61-76 | if every list above the last element is keyed, and the lists met along the path are single-keyed with unique key values, every update is self-addressing, whatever the rest of the datastore holds |
| Delivery.GetReads | src/gnmi/get.cpp:106-124 | on data given as a tree, a path is answered with what the prefix's steps followed by its own select |
| Delivery.NotificationHolds | src/gnmi/get.cpp:106-124 | a notification that Get returned has the request's prefix and one update per selected node, in order, each with its node's JSON under the path asked for or under its own key |
| Delivery.WhyUnanswered | src/gnmi/get.cpp:50-58 | a path that selects nothing is NOT_FOUND, one that sysrepo refuses to read is an INVALID_ARGUMENT, and neither has another status |
| Delivery.UnsupportedIsNotFound | src/gnmi/encode/json_ietf.cpp:130-138 | the first unsupported node read makes the answer NOT_FOUND |
| Delivery.Escapes | src/gnmi/get.cpp:50-58 | what no handler expects leaves the RPC: a failed append, and a list instance without children |
| Delivery.NoticeSelfAddresses | src/gnmi/get.cpp:61-76 | on the notifications Get returns: the path of an update is answered with that update alone if and only if no other instance found has its key value |
| Delivery.RunsSelfAddress | src/gnmi/get.cpp:163-196 | on two runs of Get: the second, for the path of an update of the first, returns that update alone if and only if its key value is unique, and then does not fail |
| Session.IssueFolds | src/gnmi/encode/encode.cpp:152-157 | whatever sysrepo answers, the staged datastore is the fold of the accepted edits, which are the first ones issued |
| Session.Session.Submit | src/gnmi/encode/encode.cpp:152-157 | an edit is applied to the staged datastore, or refused with its exception and not applied |
| Session.Session.Commit | src/gnmi/set.cpp:182-187 | the running datastore becomes the staged one, or nothing changes |
| Store.StoreLeaf | src/gnmi/encode/encode.cpp:47-158 | carries out the leaf's plan: nothing for a key, its typed value, target then itself for a leafref, an exception for unsupported types |
| Store.StoreTree | src/gnmi/encode/encode.cpp:160-201 | carries out the plan of the walk up to the first refusal or exception |
| Store.LeafrefChain | src/gnmi/encode/encode.cpp:117-124 | storing a leafref writes its target and then every leaf that refers to it, inner ones first, with a null value; an unsupported target throws and nothing is written |
| Store.PassedSilently | src/gnmi/encode/encode.cpp:179-198 | leaf-lists, containers and other nodes make no difference to what a walk writes |
| Walk.PrefixOnFailure | src/gnmi/encode/encode.cpp:162-200 | if anything throws, the staged datastore holds the edits of exactly the visits before the one that threw, for walks without leafrefs |
| Walk.ParentsBeforeChildren | src/gnmi/encode/encode.cpp:162-200 | each edit applied finds all list entries that enclose it applied earlier, whatever sysrepo answers |
| Flatten.FlatteningLosesNothing | src/gnmi/encode/encode.cpp:47-57 | after storing a well-formed tree into an empty datastore, that datastore, and no other, is rebuilt with the schema to exactly what the tree says: each list instance, the libyang value of each leaf and key leaf, and nothing else |
| Flatten.FactIsRebuilt | src/gnmi/encode/encode.cpp:51-57 | every fact of the tree is rebuilt at its place with its libyang value, an unwritten key leaf from the predicate of its list entry |
| Flatten.RebuiltIsFact | src/gnmi/encode/encode.cpp:160-201 | whatever is rebuilt, at any location, is stated by the tree there |
| Flatten.RebuildingInvertsFlattening | src/gnmi/encode/encode.cpp:160-201 | for a well-formed tree, what is rebuilt from a datastore is exactly the tree if and only if the datastore is the one that flattening the tree writes |
| Flatten.ReadStored | src/gnmi/encode/encode.cpp:61-124 | the sysrepo value made for a leaf is read back, by its type, as the leaf's libyang value |
| Flatten.StoredRead | src/gnmi/encode/encode.cpp:61-124 | a sysrepo value that can be read as a type's value is the one made for that value |
| Flatten.LeafEdit | src/gnmi/encode/encode.cpp:61-157 | storing a leaf that is no key is one edit at its own path, of a value that stands for the leaf's |
| Flatten.ReadKeyText | src/gnmi/encode/encode.cpp:51-57 | the text of a list predicate is read back, by type, as the value of the unwritten key leaf |
| Flatten.SameStoreSameLeaves | src/gnmi/encode/encode.cpp:47-201 | trees of one schema that fill an empty datastore alike have the same list instances and the same leaves, keys included, with the same libyang values |
| SetRpc.JsonUpdate | src/gnmi/encode/json_ietf.cpp:38-48 | parses and carries out the plan of the parsed tree, or throws what the parser throws |
| SetRpc.HandleUpdate | src/gnmi/set.cpp:27-106 | skips an update without path or value, stores a scalar at prefix and path, passes JSON on, throws for every other kind of value; names the path only on success |
| SetRpc.RunDeletions | src/gnmi/set.cpp:126-143 | the loop over deletes is the run of its operations, in order, up to the first that throws |
| SetRpc.RunReplacements | src/gnmi/set.cpp:145-163 | the loop over replaces likewise, every exception answered |
| SetRpc.RunUpdates | src/gnmi/set.cpp:165-180 | the loop over updates likewise, with exceptions that escape |
| SetRpc.RunOpsAppend | src/gnmi/set.cpp:126-180 | running some operations and then others is running both, unless the first ones end the request |
| SetRpc.Run | src/gnmi/set.cpp:108-190 | session, response and status after a request are those of its operations and one commit |
| SetMeaning.TransactionMeaning | src/gnmi/set.cpp:108-190 | what an OK request commits is the fold, over deletes, replaces and updates, of what each asks for: a delete or one value at an xpath that reads as the prefix's steps followed by the path's, the value being read back as the client's; for JSON the edits of the parsed tree; nothing for an update without path or value |
| SetMeaning.RequestEnds | src/gnmi/set.cpp:126-180 | the first operation that throws decides the status by its exception, leaves an entry without path and operation unless it is a delete, and nothing is committed |
| SetMeaning.BadValueEndsRequest | src/gnmi/set.cpp:56-99 | an unsupported value, or JSON that cannot be parsed, ends the request where it stands, with nothing of it applied |
| SetMeaning.CommitDecides | src/gnmi/set.cpp:112-115 | extensions are refused before anything is done; when every operation went through, the commit alone decides |
| SetHistory.Transaction | src/gnmi/set.cpp:108-190 | OK: the staged datastore is the fold of deletes, then replaces, then updates, and is committed, and the response reports exactly these operations if and only if every update has path and value; not OK: the running datastore is unchanged |
| SetHistory.ServeKeepsHistory | src/gnmi/gnmi.h:65 | the running datastore changes only at an OK request, to the fold of all edits applied so far |
| SetHistory.History | src/gnmi/gnmi.h:65 | over any sequence of requests, staged is the fold of all edits ever applied and running the fold of those applied up to the last OK request |
| SetHistory.AllOkComposes | src/gnmi/set.cpp:126-189 | if all requests are OK, the running datastore is their sequential composition |
| SetHistory.FailedEditsAreCommitted | src/gnmi/set.cpp:150-189 | what a failed request had applied is committed by the next OK request |
| SetHistory.RunOpsIsPlan | src/gnmi/set.cpp:126-180 | the operations of a request apply the first edits of one plan, that of its operations up to the first that throws by itself |
| SetHistory.NoResidue | src/gnmi/set.cpp:126-189 | a request leaves no edit behind if and only if it asks for none or its first call is refused |
| SetHistory.AtomicIffNoEdits | src/gnmi/set.cpp:126-189 | a request leaves nothing behind whenever it fails, whatever sysrepo answers, if and only if it asks for no edit at all |
| SetHistory.HalfDoneDeletes | src/gnmi/set.cpp:132-137 | a witness: two deletes, the second refused; the request fails and an empty request then commits the first |
| Notify.BuildSubsUpdate | src/gnmi/subscribe.cpp:36-99 | appends a value-less update and then one per subtree read after one refresh, or answers the status of the exception; PROTO appends the value-less update alone |
| Notify.BuildSubscribeNotification | src/gnmi/subscribe.cpp:108-166 | appends the updates of all subscriptions, in order, and sets the prefix, or answers why not |
| Notify.ContentIsFlatMap | src/gnmi/subscribe.cpp:150-161 | a notification is built if and only if each subscription can be read in its turn; its updates are then their flat map, in order |
| Notify.FirstUnreadable | src/gnmi/subscribe.cpp:150-161 | the first subscription that cannot be read decides the status |
| Delivery.SubscriptionReads | src/gnmi/subscribe.cpp:150-156 | a subscription is read as what its own steps select, behind an update without a value; the prefix does not enter |
| Delivery.ResponseHolds | src/gnmi/subscribe.cpp:108-166 | a written notification holds, subscription by subscription and each from the data of its turn, an update without a value and one update per node that the path selects |
| Delivery.RefusedLists | src/gnmi/subscribe.cpp:115-140 | a list is UNIMPLEMENTED if and only if its encoding is not JSON or it uses aliases, and its prefix does not change what is built |
| Delivery.SelectsNothing | src/gnmi/subscribe.cpp:61-70 | the first subscription that selects nothing ends the build with NOT_FOUND |
| Subscribe.SendUpdate | src/gnmi/subscribe.cpp:192-198 | one response with exactly the list's updates, stamped while it is built, is written and cleared, or nothing is written |
| Subscribe.HandleOnce | src/gnmi/subscribe.cpp:268-292 | the notification of all subscriptions and then a sync message, or nothing and a cancelled call |
| Subscribe.HandlePoll | src/gnmi/subscribe.cpp:298-332 | the responses, the status and whether the call is cancelled are those of the poll run on the initial list |
| Subscribe.PollAccounting | src/gnmi/subscribe.cpp:301-331 | one response per poll before the first other message, which decides the status; a build that fails ends and cancels the call with its status |
| Scheduler.SamplesAreSpaced | src/gnmi/subscribe.cpp:235-243 | on every run, successive samples of a subscription are strictly more than its interval apart |
| Scheduler.SpacedRate | src/gnmi/subscribe.cpp:235-243 | between samples j and k lie at least (k - j) * (interval + 1) nanoseconds |
| Scheduler.SampleRate | src/gnmi/subscribe.cpp:235-243 | k samples need at least k * (interval + 1) nanoseconds from the moment the loop's timer was set |
| Scheduler.FiredAreSpaced | src/gnmi/subscribe.cpp:235-243 | any two passes that sample a subscription do so more than its interval apart |
| Scheduler.BoundedLateness | src/gnmi/subscribe.cpp:228-259 | if from a due test to a reset in the next pass at most d goes by, successive samples are at most interval + d apart |
| Scheduler.SamplesKeepComing | src/gnmi/subscribe.cpp:228-259 | such a run whose last test of a timer is t after its start has taken at least (t - interval) / (interval + d) samples |
| Scheduler.PaceMakesPrompt | src/gnmi/subscribe.cpp:228-259 | passes that start at most `gap` apart and probe within `work` of their start satisfy that bound with gap + work |
| Scheduler.RefinesSingleTimer | src/gnmi/subscribe.cpp:209-243 | the samples of a subscription in the shared loop are those of a timer of its own, fed its own clock readings |
| Scheduler.OthersDoNotMatter | src/gnmi/subscribe.cpp:209-254 | taking any subscriptions away from a run leaves a run of the loop for the others, with the same sample times |
| Scheduler.LoopCap | src/gnmi/subscribe.cpp:229-258 | in any window of w nanoseconds at most w / 200000000 + 1 passes start |
| Scheduler.FivePerSecond | src/gnmi/subscribe.cpp:256-258 | at most five passes start within a second, six if both of its ends count |
| Scheduler.NotificationCap | src/gnmi/subscribe.cpp:245-258 | in any window at most one notification more is written than passes start in it |
| Streaming.InitTimers | src/gnmi/subscribe.cpp:211-224 | one timer per SAMPLE subscription, in list order, set to a clock reading made here; none for the other modes |
| Streaming.ProbeTimers | src/gnmi/subscribe.cpp:235-243 | timers fire exactly when more than their interval has gone by, fired ones are reset to a later reading, the due subscriptions are collected in order |
| Streaming.RunPass | src/gnmi/subscribe.cpp:228-259 | one valid pass: at most one notification, of exactly the due subscriptions, stamped between the pass's last reading and its write, and at least 200 ms from its start to its end |
| Streaming.Sample | src/gnmi/subscribe.cpp:230-262 | the passes of the loop are a valid run from the timers it was given, over by the time the clock shows at the end; what is written is what they emit, and the loop ends by cancellation or at the first build that fails |
| Streaming.HandleStream | src/gnmi/subscribe.cpp:172-262 | too long an interval or a list that cannot be built writes nothing; otherwise notification, sync message, and a valid run of timers set after the call began and passes made before it ended |
| Streaming.WrittenBy | src/gnmi/subscribe.cpp:245-254 | periodic responses and the passes that wrote one correspond one to one, in order, each response being the notification of its pass's due subscriptions |
| Streaming.LaterNotifications | src/gnmi/subscribe.cpp:230-254 | every response after the sync message notifies a non-empty, order-preserving choice of the SAMPLE subscriptions |
| Streaming.DueAreNotified | src/gnmi/subscribe.cpp:228-254 | on every run, if a completed pass found a subscription due, one response notifies, on the data of that pass, exactly the subscriptions that it found due |
| Streaming.ResponsesAreSpaced | src/gnmi/subscribe.cpp:228-254 | two responses that both notify a subscription hold samples of it more than its interval apart, each taken before its response was stamped |
| Streaming.ResponseRate | src/gnmi/subscribe.cpp:228-254 | k responses that notify a subscription need at least k * (interval + 1) nanoseconds from its timer's start |
| Streaming.ResponseCap | src/gnmi/subscribe.cpp:228-258 | in any window of w nanoseconds at most w / 200000000 + 2 periodic responses are stamped |
| SubscribeRpc.Run | src/gnmi/subscribe.cpp:339-370 | every call writes N S N*, N S or N* according to its mode, or a prefix without the rest; the first notification covers the whole list, and in mode STREAM the rest is what a timed run of the loop emits |
| SubscribeRpc.AtMostOneSync | src/gnmi/subscribe.cpp:200-205 | at most one sync message is written, directly behind the first notification |

## Left out

- Capabilities, authentication, server start-up and logging: copying of fields, a decision table and set-up of libraries.
- Module loading (src/gnmi/encode/load_models.cpp, src/gnmi/encode/runtime.cpp): its recursion runs inside libyang.
- The text of JSON values: updates carry the value that jsoncpp's writer would print.
- Decimal64 and float values: the text of a decimal64 leaf is opaque and doubles are exact reals; leaves of this type are outside the flattening theorems, and list keys of it outside the self-addressing ones.
- Leaf-lists and empty containers in the flattening theorem: storeTree writes nothing for them.
- Walk.ParentsBeforeChildren: leaves out walks with leafrefs, because the target of a leafref is written where it is, which may be outside the lists being stored.
- Walk.PrefixOnFailure: leaves out leafrefs, because a leafref whose own edit is refused has already stored its target.
- SelfAddressing.SelfAddressing: leaves out keys with a double quote in their value, whose path does not read back as its own steps (SelfAddressing.KeyedPathReads), and answers that mix lists with other nodes, whose key pair is carried over.
- A refresh that throws, and exceptions of type `std::string` from the sysrepo value constructor.
- The status code that handleUpdate returns: its callers drop it.
- Several RPCs at once on the shared session: requests are served one after another.
- Timestamps of Set responses: a clock reading given to the call.
