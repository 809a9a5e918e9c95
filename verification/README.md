# Formal model of montygo

Dafny model of the four parts of montygo whose correctness rests on more than
one function: the overlay mount filesystem, the wire codec for values, the
worker pool with its turn engine, and the session lifecycle.

## What is modelled

**Overlay filesystem.** `OverlayState` is the entry map with its sorted key
list and running byte count, updated in place. `MergedTree` defines what a
reader sees through an overlay and the invariant every operation relies on: a
key with an entry has an entry for every host descendant, and every visible
path has a visible directory as parent. `RenamePlan` is the theory of directory
rename: planning, walking the host tree, and committing a batch. `Overlay` has
the operations as methods of a mount, each with all its outcomes. `OverlayRun`
states what a plain filesystem does and shows that every sequence of calls
refines it and fails only for a stated reason. `Keys`, `VirtualPath` and `Utf8`
hold byte-ordered keys, path normalisation with mount routing, and the UTF-8
validator with lossy repair.
The host is a fixed tree of regular files and directories.

**Wire codec.** `ProtoWire`, `Uuid`, `Records`, `Values` and `Codec` define
encoding and decoding of a value. `CodecRoundTrip` shows that decoding undoes
encoding at an exact cost, `CodecBudget` what any successful decode has paid
for, and `CodecDepth` that the depth check bounds the tree of messages on the
wire. `WireGrammar` says on bytes what a protobuf message is, and `CodecMessages`
what each message of the codec means on its list of fields, whatever bytes it
came as. `Calendar`, `RecordRanges` and `RecordMeaning` say on their own terms
which records and values there are and which come back. `Decoder` has the
decoders as they run, over a mutable reader and budget, each proved against its
specification.

**Pool and turn engine.** `Pool` has the critical sections of the pool, as
functions and as methods on its fields. `PoolRun` interleaves them with the
leases, claims and reservations that goroutines hold in between. `Wire`
says what a log of the conversation with a worker must look like, and
`Checkout` has the turn engine and its operations with such a log, whatever the
worker sends and whenever another goroutine terminates the lease.

**Session lifecycle.** `Stop` has the deadlines of a stop request.
`SessionRun` has one step per critical section of the session lock and proves
ownership, deadline and snapshot properties of every interleaving. A step is
taken only by the goroutine that carries the execution on at that point.
`SessionReports` says, over the steps of every run, how a stop is reported and
what the end of a session means.

## Where the code differs from what one might expect

- A new key below a directory that replaced a host *file* is refused as "not a
  directory" by write, append, mkdir and open for append. The condition is
  `Blocked`, part of the contracts of those operations
  (`OverlayRun.BlockedBelowReplacedFile`).
- Renaming a non-empty directory onto itself is refused, where POSIX makes it a
  no-op (`OverlayRun.SelfRename`).
- A host name with a backslash, or one that begins with a letter and a colon, is
  listed, but its path is refused (`Overlay.ListedResolves`).
- A paused execution under a control operation that has a stop, requested or not,
  goes to an aborter when the operation is released
  (`SessionReports.ControlRoundTrip`).
- A value message whose last field is of no known kind is rejected even if an
  earlier field carried a value (`CodecRoundTrip.TrailingUnknown`).
- The depth check does not look at the attributes of builtin types, so it
  accepts values nested deeper than any bound (`CodecDepth.BuiltinAttrsEscape`).
  It is right about values whose builtin types carry none
  (`CodecDepth.DepthBounds`), and about a builtin type itself exactly then
  (`CodecDepth.BuiltinFitsExactly`).
- Bind gives its capacity up and retires its worker in two sections, and a
  failed Bind takes capacity back even in a closed pool. A Shutdown that sees
  the pool empty around either can stop the reapers first, and the retirement
  then sends on a closed channel; around neither it cannot
  (`PoolRun.StopIsSafeExactly`, reached in `PoolRun.HastyShutdown` and
  `PoolRun.HastyRebind`).
- An Abort rejected before it is sent forgets the suspension and makes the next
  reply count as an abort's. A Feed rejected before it is sent marks the working
  directory as set if an earlier turn was sent (contracts of
  `Checkout.Session.Abort` and `Checkout.Session.Feed`).
- A stop that is due before its execution starts reads the clock twice, so its
  request time can be after its kill time (`Stop.DueInOrder` says when).
- A kill that falls due while an abort is on the wire is reported as a kill: the
  abort runs under the kill deadline, and checks for the end of the session when
  it comes back. Only if it came back in time and the kill is claimed between
  that check and the abort's own resolution of the stop can the kill be reported
  as a normal finish (`SessionRun.KillMaskedExactly`,
  `SessionRun.KillDuringAbort`).

## Model

| member | source | states |
|---|---|---|
| Keys.SearchStrings | internal/mountfs/overlay_state.go:65-85 | binary search: the first position whose key is not below the one sought, in any sorted list |
| Keys.PrefixOrder | internal/mountfs/overlay_state.go:163-170 | for every prefix and key, the byte-order range from prefix+"/" to prefix+"0" holds exactly the keys under the prefix |
| OverlayState.State.NoEntryShared | internal/mountfs/overlay_state.go:65-100 | no entry object sits under two keys of an indexed state |
| OverlayState.State.Put | internal/mountfs/overlay_state.go:65-73 | the map gains the entry and the key list stays strictly sorted and equal to the map's domain, whether the key was new or not |
| OverlayState.State.Remove | internal/mountfs/overlay_state.go:75-85 | the entry leaves map and key list, is handed back, and the usage drops by its cost |
| OverlayState.State.Insert | internal/mountfs/overlay_state.go:87-95 | succeeds exactly when the total after the insertion is within the limit; a refusal changes nothing |
| OverlayState.State.InsertUnchecked | internal/mountfs/overlay_state.go:97-100 | usage stays equal to the sum of entry costs when the sum does not saturate |
| OverlayState.State.AppendFile | internal/mountfs/overlay_state.go:110-123 | grows a file entry in place, exactly when the limit allows it, and leaves every other entry alone |
| OverlayState.State.FileReplacementExact | internal/mountfs/overlay_state.go:125-139 | the cheap check of a file replacement agrees with the total after it |
| OverlayState.EntryCharges | internal/mountfs/overlay_state.go:172-185 | a new entry adds 304 bytes, its key, and the content it holds or the path it refers to |
| OverlayState.State.CheckReplacements | internal/mountfs/overlay_state.go:142-160 | for a batch with repeated keys, the projection accepts exactly when the total after applying the batch in order is within the limit |
| OverlayState.State.PrefixKeys | internal/mountfs/overlay_state.go:163-170 | the sorted list of exactly the keys below a directory |
| MergedTree.InvInitial | internal/mountfs/overlay.go:225-234 | an empty overlay satisfies the global invariant on every well-formed host |
| MergedTree.NoResurrection | internal/mountfs/overlay.go:225-234 | below a key that has an entry only keys with entries are visible, and only under a directory, so exact-key lookup never brings a deleted tree back |
| MergedTree.InvPut | internal/mountfs/overlay.go:291-372 | what an insertion must respect for every entry to keep all its host descendants shadowed and every visible path a visible directory as parent |
| MergedTree.InvDelete | internal/mountfs/overlay.go:576-646 | the same for a tombstone |
| MergedTree.HostChildVisible | internal/mountfs/overlay.go:657-678 | a bare host key below a directory shows up as a bare child of it, so scanning one level decides emptiness |
| RenamePlan.RenameMoves | internal/mountfs/overlay.go:790-943 | main theorem of directory rename: after the batch, the node at every key is the one the renamed tree has there, wherever it came from |
| RenamePlan.RenameKeepsInv | internal/mountfs/overlay.go:790-943 | an admissible rename preserves the global invariant |
| RenamePlan.RenameShadowed | internal/mountfs/overlay.go:913-943 | after a rename every key with an entry still has all its host descendants shadowed |
| RenamePlan.RenameConnected | internal/mountfs/overlay.go:790-943 | after a rename every visible path still has a visible directory as parent |
| RenamePlan.WalkStep | internal/mountfs/overlay.go:996-1049 | opening one pending directory of the real tree keeps what was found distinct, bare and apart from what is still pending, and loses nothing |
| RenamePlan.WalkDone | internal/mountfs/overlay.go:996-1049 | a finished walk has found exactly the host nodes below the source that have no entry |
| RenamePlan.PlanComplete | internal/mountfs/overlay.go:869-912 | entries below the source plus the walked nodes make a complete plan |
| RenamePlan.BatchLeaves | internal/mountfs/overlay.go:869-943 | in whatever order the host is walked and the plan is made, the entries after the commit are those of one order-free description |
| RenamePlan.PlanCostIsSum | internal/mountfs/overlay.go:877-884 | the charge of a plan does not depend on the order of its entries |
| RenamePlan.ScanCondemned | internal/mountfs/overlay.go:1005-1048 | a walk that stops over budget part way would be over budget in any order |
| RenamePlan.CommitRoom | internal/mountfs/overlay.go:920-943 | no prefix of the commit saturates the usage counter, so projecting and committing agree |
| Overlay.Mount.EnsureParentExists | internal/mountfs/overlay.go:458-490 | true exactly when every proper prefix is a visible directory |
| Overlay.Mount.Exists | internal/mountfs/overlay.go:225-234 | true exactly when the key is in the merged tree |
| Overlay.Mount.IsFileAt | internal/mountfs/overlay.go:225-234 | true exactly when the merged tree has a file there |
| Overlay.Mount.IsDirAt | internal/mountfs/overlay.go:225-234 | true exactly when the merged tree has a directory there |
| Overlay.Mount.Read | internal/mountfs/overlay.go:252-289 | the merged file's content, or the exact error for a directory, a missing path or a content over the available memory |
| Overlay.Mount.StatAt | internal/mountfs/overlay.go:680-701 | size, kind and time of the merged node, or the error of a missing one |
| Overlay.Mount.RejectDirectoryTarget | internal/mountfs/overlay.go:434-456 | a directory is refused as such, a key below a host file as not a directory, nothing else is refused |
| Overlay.Mount.CommitWriteBytes | internal/mountfs/table.go:241-252 | a write that the limit check admitted leaves the saturating counter of written bytes within the limit |
| Overlay.Mount.Write | internal/mountfs/overlay.go:291-314 | every outcome in order of precedence; success puts exactly one file node into the merged tree, and a refusal changes nothing |
| Overlay.Mount.Append | internal/mountfs/overlay.go:316-372 | every outcome in order of precedence; success extends the merged content, whether it came from the overlay or the host |
| Overlay.Mount.CreateOverlayParents | internal/mountfs/overlay.go:536-574 | makes the missing chain from the top; refused exactly over a file on the chain, or when the whole chain is over the limit, and then it has made as much of it as fits |
| Overlay.MkdirTotalGrows | internal/mountfs/overlay.go:536-574 | making more of a chain of directories never costs less, so the chain fits exactly when its last step does |
| Overlay.Mount.Mkdir | internal/mountfs/overlay.go:492-534 | every outcome, decided by the state before the call; a parents-mkdir that runs out of memory leaves the longest part of the chain that fits, and only then a trace |
| Overlay.Mount.Unlink | internal/mountfs/overlay.go:576-606 | removes exactly one file from the merged tree, or the exact error |
| Overlay.Mount.OverlayDirectoryHasChildren | internal/mountfs/overlay.go:648-655 | true exactly when some live entry lies below the directory |
| Overlay.Mount.RealDirectoryHasVisibleChildren | internal/mountfs/overlay.go:657-678 | true exactly when some host child is not tombstoned |
| Overlay.Mount.EmptinessByScans | internal/mountfs/overlay.go:608-678 | the two scans together decide whether the merged directory is empty |
| Overlay.Mount.Rmdir | internal/mountfs/overlay.go:608-646 | removes exactly one empty directory, or the exact error |
| Overlay.Mount.Iterdir | internal/mountfs/overlay.go:703-787 | lists each visible child exactly once with its path; refused exactly when the charges of the listing exceed the available memory |
| Overlay.ListedResolves | internal/mountfs/overlay.go:703-787 | a listed path resolves to the key of the very child it stands for, or is refused exactly if the child's name has a backslash or looks like a drive |
| Overlay.Mount.ScanDirectory | internal/mountfs/overlay.go:1005-1048 | the bare children of one host directory, with their exact charge, or a prefix of them that is over budget |
| Overlay.Mount.CollectRealDescendants | internal/mountfs/overlay.go:996-1049 | every bare host node below the source exactly once; refused exactly when their charges together exceed what is available |
| Overlay.Mount.PlanDirectory | internal/mountfs/overlay.go:869-912 | a complete plan that cannot saturate any counter; refused exactly when the charges of the entries and of the bare host nodes exceed the available memory |
| Overlay.Mount.TakeSources | internal/mountfs/overlay.go:924-934 | takes exactly the planned entry objects out of the map |
| Overlay.Mount.InsertMoves | internal/mountfs/overlay.go:935-942 | inserting the moves yields exactly the batch applied to the old entries |
| Overlay.Mount.CommitRename | internal/mountfs/overlay.go:920-943 | removal and re-insertion together apply the planned batch and keep the invariant and the limit |
| Overlay.Mount.OntoNonemptyDir | internal/mountfs/overlay.go:972-993 | true exactly when the destination is a non-empty merged directory |
| Overlay.Mount.CheckRename | internal/mountfs/overlay.go:790-842 | the refusals of a rename, in the order the code finds them |
| Overlay.Mount.Rename | internal/mountfs/overlay.go:790-943 | all or nothing: the exact refusal; out of memory, with the state untouched, exactly when the plan or the overlay it leaves is over the limit; otherwise a pointwise renamed tree |
| OverlayRun.OpenForRead | internal/mountfs/overlay.go:1051-1086 | opening for reading succeeds exactly on a visible file |
| OverlayRun.EnsureAppendTarget | internal/mountfs/overlay.go:1089-1126 | opening for append leaves an existing file alone and creates a missing one |
| OverlayRun.Query | internal/mountfs/overlay.go:188-222 | the calls that only look answer as a plain filesystem would, or are refused exactly as it would refuse them or for memory |
| OverlayRun.Execute | internal/mountfs/overlay.go:165-223 | a call succeeds exactly when a plain filesystem allows it, no replaced host file blocks it and both limits hold, and then does what the plain filesystem does; a failure names one of these reasons and leaves everything alone |
| OverlayRun.Run | internal/mountfs/overlay.go:165-943 | any sequence of calls refines the same run on a plain filesystem, call by call as above, and at every moment the tree is connected and both limits hold |
| OverlayRun.SelfRename | internal/mountfs/overlay.go:829-842 | a rename onto itself changes nothing and is allowed exactly on what is empty |
| OverlayRun.BlockedBelowReplacedFile | internal/mountfs/overlay.go:434-456 | witness of the one refusal a plain filesystem would not make: a new key below a directory that replaced a host file |
| VirtualPath.NormalizeVirtualPath | internal/value/vpath.go:11-36 | equals the stack-based reference on every string |
| VirtualPath.NormalizedFixed | internal/value/vpath.go:38-51 | the fast path agrees with the slow one: an accepted string normalises to itself |
| VirtualPath.NormalizedClean | internal/value/vpath.go:11-51 | a normalised path has no empty, dot or dot-dot segment |
| VirtualPath.NormalizedIdempotent | internal/value/vpath.go:11-51 | normalising twice changes nothing more |
| VirtualPath.NormalizedRoot | internal/value/vpath.go:11-36 | the empty path and "/" are the root, and ".." at the root stays there |
| VirtualPath.NormalizedStay | internal/value/vpath.go:11-36 | an empty or dot segment at the end changes nothing |
| VirtualPath.NormalizedChild | internal/value/vpath.go:11-36 | a plain segment at the end is appended to the normalised path |
| VirtualPath.NormalizedUp | internal/value/vpath.go:11-36 | a plain segment followed by ".." changes nothing |
| VirtualPath.Table.Push | internal/mountfs/table.go:121-130 | keeps the table ordered, longest first and later specs before earlier ones, and loses no mount |
| VirtualPath.Table.FindMount | internal/mountfs/table.go:199-207 | the longest matching mount, the later spec on ties, and none exactly when nothing matches |
| VirtualPath.ResolveSound | internal/mountfs/pathpolicy.go:25-52 | a resolved key has only plain segments and, joined to the mount, is the normalised path again |
| VirtualPath.ResolveExactly | internal/mountfs/pathpolicy.go:25-70 | for a path that normalises to mount and key joined: null byte if and only if it has one, path escape if and only if the key has a backslash or a segment that is a letter and a colon first, and otherwise exactly that key |
| VirtualPath.ResolveElsewhere | internal/mountfs/pathpolicy.go:25-52 | a path without null bytes that is at no key of the mount has no mount point |
| VirtualPath.ResolveJoined | internal/mountfs/pathpolicy.go:25-70 | every plain key without null bytes, backslashes and drive segments is what its own path resolves to |
| VirtualPath.MatchesJoined | internal/mountfs/pathpolicy.go:40-52 | a normalised path matches a mount if and only if it is some plain key joined to it |
| VirtualPath.ResolveChild | internal/mountfs/pathpolicy.go:25-70 | the path of a child resolves to the child of what the path resolves to |
| VirtualPath.RoutedResolves | internal/mountfs/pathpolicy.go:40-52 | resolving against a matching mount never reports a missing mount point |
| Utf8.ScanAccepts | internal/mountfs/utf8.go:5-70 | accepts exactly the byte strings of the grammar in section 4 of RFC 3629 |
| Utf8.ScanLongestPrefix | internal/mountfs/utf8.go:5-70 | the reported prefix is well formed and no longer one is |
| Utf8.ScanErrorLen | internal/mountfs/utf8.go:5-70 | length 0 is reported exactly when the tail is a proper prefix of a well-formed character |
| Utf8.StepRejects | internal/mountfs/utf8.go:5-70 | a rejected sequence is the maximal prefix that could still have been completed, or one byte |
| Utf8.Utf8Check | internal/mountfs/utf8.go:5-86 | the index loop computes the scan |
| Utf8.LossyWellFormed | internal/mountfs/utf8.go:117-136 | repair always yields well-formed UTF-8 |
| Utf8.LossyIdempotent | internal/mountfs/utf8.go:117-136 | repair is the identity exactly on well-formed input, and idempotent |
| Utf8.LossyUtf8 | internal/mountfs/utf8.go:117-136 | the repair loop terminates and computes the repair |
| Utf8.LossyKeeps | internal/mountfs/utf8.go:117-136 | a well-formed prefix is kept and the rest is repaired on its own |
| Utf8.LossyReplaces | internal/mountfs/utf8.go:117-136 | a maximal rejected sequence becomes one replacement character and the rest is repaired on its own |
| Utf8.LossyTail | internal/mountfs/utf8.go:117-136 | an incomplete character at the end becomes one replacement character |
| Utf8.LossyRepairs | internal/mountfs/utf8.go:117-136 | the repair satisfies these three laws |
| Utf8.LossyDetermined | internal/mountfs/utf8.go:117-136 | no other function satisfies them |
| ProtoWire.VarintRoundTrip | internal/wire/proto.go:114-117 | every 64-bit number survives its varint, whatever follows it |
| ProtoWire.NextBlob | internal/wire/proto.go:44-55 | a length-delimited field is read back with its number, bytes and remainder |
| ProtoWire.NextFieldBounded | internal/wire/proto.go:61-85 | whatever the bytes, a varint or fixed field that is read fits 64 bits |
| WireGrammar.VarintExactly | internal/wire/proto.go:61-72 | a number is read off the front of any bytes exactly when they begin with a varint of at most ten bytes, minimal or not, and is the number its seven-bit groups write |
| WireGrammar.NextFieldExactly | internal/wire/proto.go:17-95 | a field is read off the front of any bytes exactly when they begin with one the protobuf grammar allows, groups nested up to ten thousand deep included, and nothing but that field is consumed |
| ProtoWire.BigMinimal | internal/wire/value_codec.go:214-221 | a magnitude never needs more bytes than it was sent with |
| Uuid.ParseFormat | internal/wire/proto.go:163-182 | sixteen bytes survive being written as a uuid and parsed |
| Uuid.FormatParse | internal/wire/proto.go:163-182 | a canonical lower-case uuid is the text of the bytes it parses to |
| Uuid.ParseExactly | internal/wire/proto.go:163-182 | a text is parsed if and only if it has the shape of a uuid, in either case, and means the bytes whose text is its lower case |
| Records.FlatRoundTrip | internal/wire/value_codec.go:569-963 | reading back any flat message yields the last value of each of its fields |
| Records.RecordRoundTrip | internal/wire/value_codec.go:118-187 | every record its decoder's checks accept is decoded to itself; RecordRanges says which these are |
| Records.DecodedRecordWellFormed | internal/wire/value_codec.go:569-773 | whatever the bytes, a decoded record passes the checks of its kind, which Checked turns into ranges, and its numbers fit their types |
| Calendar.DatesMet | internal/wire/value_codec.go:604-619 | stepping one day at a time from 1 January 1 to 31 December 9999 meets exactly the dates with a year, a month and a day in range, February having 29 days in leap years |
| RecordRanges.Checked | internal/wire/value_codec.go:604-632 | the decoders' checks are the ranges written out: the calendar, the clock, offsets below a day, a zone name only with an offset, the twelve file modes |
| RecordRanges.RecordDecodesExactly | internal/wire/value_codec.go:118-187 | for every record whose numbers fit their Go types, decoding its encoding gives it back if it is in range and fails otherwise |
| RecordRanges.DecodedInRange | internal/wire/value_codec.go:569-963 | whatever the bytes, a decoded record is in range |
| RecordRanges.DecodesToItselfExactly | internal/wire/value_codec.go:46-566 | with enough budget the encoding of a value without cycle markers is decoded to that value if and only if its records are in range, its types and instances are named as they must be, and it nests no deeper than there is room for |
| RecordRanges.DecodedProper | internal/wire/value_codec.go:306-435 | whatever the bytes, a decoded value has all its records in range and its types and instances properly named |
| RecordRanges.AppendExactly | internal/wire/value_codec.go:46-192 | a value is encoded if and only if it has no cycle marker and every id is a uuid text, whose case does not matter to the bytes |
| CodecMessages.FieldsExactly | internal/wire/proto.go:17-95 | bytes are a message with these fields exactly when they are fields of the grammar one after the other |
| CodecMessages.FlatMeans | internal/wire/value_codec.go:569-963 | a flat message is read exactly if its known fields have their wire types, and each has the value last sent; unknown fields mean nothing |
| CodecMessages.ItemsMean | internal/wire/value_codec.go:468-487 | the items of a list are its fields numbered 1 in order, each decoded with the budget the ones before left |
| CodecMessages.PairMeans | internal/wire/value_codec.go:536-567 | a pair has the last key and the last value, and both must occur |
| CodecMessages.PairsMean | internal/wire/value_codec.go:515-534 | the pairs of a dict are its fields numbered 1 in order |
| CodecMessages.NamedTupleMeans | internal/wire/value_codec.go:489-513 | a named tuple has the last name, and every field name and value in order |
| CodecMessages.TypeMeans | internal/wire/value_codec.go:795-844 | every part of a type is the last one sent, and a builtin type has no id while sandbox and host types have one |
| CodecMessages.InstanceMeans | internal/wire/value_codec.go:846-886 | of an instance the last type, id and non-empty attributes count; type and id must occur, and the type is not builtin |
| CodecMessages.ValueMeans | internal/wire/value_codec.go:310-435 | a value message is read exactly if it sits at most 100 deep, its 88 bytes can be paid, every field can be decoded and the last is of a known kind, and means that last field |
| CodecMessages.OneWayKinds | internal/wire/value_codec.go:353-417 | a text form is received as a string, and a uuid is refused |
| RecordMeaning.RecordMeans | internal/wire/value_codec.go:569-963 | a message decodes to a record if and only if its known fields have their wire types, the record is in range, and the last numbers and texts sent say that record |
| CodecRoundTrip.ValueRoundTrip | internal/wire/value_codec.go:46-566 | decoding the encoding of any well-formed value, at any depth with room below it, returns the value and takes exactly its need from the budget |
| CodecRoundTrip.TrailingUnknown | internal/wire/value_codec.go:420-433 | a last field of no known kind spoils the message, whatever value came before it |
| CodecRoundTrip.PairsRoundTrip | internal/wire/value_codec.go:234-251 | dict bodies come back pair by pair, in order |
| CodecRoundTrip.TypeRoundTrip | internal/wire/value_codec.go:261-279 | a type's name, id, origin, flag and attributes come back, absent ones as absent |
| CodecBudget.ValueFacts | internal/wire/value_codec.go:310-566 | any successful decode, of any bytes, paid 88 bytes a node plus its string, bytes and big-integer payloads, returned a well-formed value within the nesting limit, and would return the same with more budget |
| CodecDepth.TreeIsEncoding | internal/wire/value_codec.go:46-303 | the bytes of a value are the serialisation of its tree of messages |
| CodecDepth.DepthBounds | internal/value/depth.go:21-76 | a value the check accepts nests at most budget + 1 messages on the wire and needs at most budget levels of decoding |
| CodecDepth.DepthTight | internal/value/depth.go:21-76 | the other side, for every value: messages nested less than budget deep are never turned away, so a refusal means the tree is at least budget deep |
| CodecDepth.DepthSlack | internal/value/depth.go:21-76 | neither side of the depth check can be improved by one message |
| CodecDepth.NeverTurnedAway | internal/value/depth.go:21-76 | no value whose messages nest at most 96 deep is turned away |
| CodecDepth.AcceptedRoundTrip | internal/wire/value_codec.go:46-566 | an accepted value is encoded, nests at most 98 messages, and is decoded to itself exactly when the budget covers it |
| CodecDepth.DecodedReencodes | internal/wire/value_codec.go:306-435 | whatever bytes a value came from, its own encoding gives it back |
| CodecDepth.BuiltinAttrsEscape | internal/value/depth.go:36-40 | why builtin types must carry no attributes above: for every bound there is a value the check accepts that nests deeper on the wire |
| CodecDepth.BuiltinFitsExactly | internal/value/depth.go:36-40 | the check is right about a builtin type, for every budget, if and only if the type carries no attributes |
| Values.DepthMonotone | internal/value/depth.go:21-76 | a larger budget never turns an accepted value away |
| Decoder.Reader.Next | internal/wire/proto.go:17-28 | splits off a tag, or stops at the end or at the first error |
| Decoder.Reader.Bytes | internal/wire/proto.go:44-55 | reads a payload of the wanted wire type or records an error |
| Decoder.Reader.Skip | internal/wire/proto.go:87-94 | passes over a field of any wire type, groups included |
| Decoder.ReadFlat | internal/wire/value_codec.go:569-963 | the field loop shared by the flat decoders computes the table of last values |
| Decoder.ReadRecord | internal/wire/value_codec.go:569-963 | the record decoders compute their specification |
| Decoder.ReadBig | internal/wire/value_codec.go:437-466 | big integers: value and charge as specified |
| Decoder.ReadValue | internal/wire/value_codec.go:310-435 | the recursive decoder, over a mutable reader and budget, computes its specification, value and budget |
| Decoder.ReadMessage | internal/wire/value_codec.go:327-423 | every length-delimited kind is dispatched as specified |
| Decoder.ReadItems | internal/wire/value_codec.go:468-487 | item lists as specified |
| Decoder.ReadNamedTuple | internal/wire/value_codec.go:489-513 | named tuples as specified |
| Decoder.ReadPairs | internal/wire/value_codec.go:515-534 | dict bodies as specified |
| Decoder.ReadPair | internal/wire/value_codec.go:536-567 | pairs as specified: the last key and value win, and both must occur |
| Decoder.ReadType | internal/wire/value_codec.go:795-844 | types as specified, with the id and origin checks |
| Decoder.ReadInstance | internal/wire/value_codec.go:846-886 | instances as specified |
| Pool.Workers.Acquire | internal/pool/pool.go:172-226 | with its loop over dead idle workers it hands out the last live idle worker, keeps every other one, and makes room for a new one only below the maximum |
| Pool.Workers.Spawned | internal/pool/pool.go:196-222 | the room of a spawn goes to its worker or is given back; a worker that arrives after Close is kept for the reaper |
| Pool.Workers.Release | internal/pool/pool.go:245-276 | the worker becomes idle again exactly if it is alive, the pool is open and reuses workers, and it is below the checkout limit; otherwise the pool keeps it for the reaper |
| Pool.Workers.RetireFromLease | internal/pool/pool.go:315-322 | the pool keeps the worker for the reaper and the number of workers stays |
| Pool.Workers.Close | internal/pool/pool.go:352-379 | the pool keeps every idle worker for the reaper and the number of workers stays; a second Close changes nothing |
| Pool.Workers.Reserve | internal/pool/reservation.go:26-64 | room without a worker, exactly when open and below the maximum, and never above it |
| Pool.Workers.Bind | internal/pool/reservation.go:107-122 | the room of a reservation passes whole to the worker, or is given up when the pool is closed |
| Pool.Workers.Handoff | internal/pool/reservation.go:182-188 | the pool keeps the worker for the reaper and room for a successor besides, even at the maximum |
| Pool.Contend | internal/pool/lease.go:18-41 | of any sequence of finish and terminate calls on one lease, exactly the first gets the worker |
| Pool.AcquireConserves | internal/pool/pool.go:172-226 | acquire loses no worker and never goes over the maximum; it waits or spawns only if no idle worker is alive |
| Pool.GiveUpConserves | internal/pool/pool.go:245-322 | a worker given up is kept by the pool whichever way it is given up, once, and is idle again exactly when it may be reused |
| Pool.CloseConserves | internal/pool/pool.go:352-379 | closing conserves workers and is idempotent |
| PoolRun.AcquireRefines | internal/pool/pool.go:172-226 | the run's acquire step acts on the pool as the specified section does |
| PoolRun.TakeKeeps | internal/pool/pool.go:154-322 | every step of every goroutine keeps the counting, placement and capacity invariants |
| PoolRun.CapacityHolds | internal/pool/pool.go:154-322 | in every interleaving the live workers are at most the maximum plus the handoffs and re-reservations so far; without those, at most the maximum and no send finds the reaper queue full |
| PoolRun.ActiveIsOwned | internal/pool/lease.go:18-41 | in every interleaving active equals live leases plus claims in transit, and each acquisition is given up at most once |
| PoolRun.OneHolder | internal/pool/pool.go:245-322 | in every interleaving no worker is idle or leased twice, or both, and none in use is being retired |
| PoolRun.ReusedNext | internal/pool/pool.go:172-276 | after a served finish and release of a live worker below the checkout limit, in any open reusing pool, the next acquire is given that very worker, counted once more, and spawns nothing |
| PoolRun.CheckoutsBounded | internal/pool/pool.go:245-276 | in every run no idle or leased worker has served as many checkouts as the limit |
| PoolRun.ReservationRoundTrip | internal/pool/reservation.go:26-85 | room is reserved exactly in an open single-use pool below its maximum, and a reservation given back leaves no trace |
| PoolRun.BindSettled | internal/pool/reservation.go:87-158 | a bind is settled once, and after that can no longer fail and take capacity back |
| PoolRun.LeaseWonOnce | internal/pool/lease.go:18-41 | once finish, handoff or terminate has taken a slot, no later step of any run finds it |
| PoolRun.TerminateKillsItsOwn | internal/pool/checkout.go:651-668 | terminating a lost lease does nothing; otherwise the worker killed is held by that lease alone |
| PoolRun.KilledNeverReused | internal/pool/checkout.go:651-668 | in every run a worker killed through a lease is never idle or leased again |
| PoolRun.NoSendAfterStop | internal/pool/pool.go:382-416 | no send meets the closed reaper channel unless Shutdown saw the pool empty while a Bind was under way; without reservations never |
| PoolRun.StopIsSafeExactly | internal/pool/pool.go:382-416 | when Shutdown sees the pool empty, some continuation sends on the closed reaper channel if and only if a Bind is between its two sections or has yet to succeed or fail |
| PoolRun.HastyShutdown | internal/pool/reservation.go:107-119 | such a state is reached by binding one reservation across Close |
| PoolRun.HastyRebind | internal/pool/reservation.go:116-155 | the other kind is reached when the pool closes around a bound worker that is then terminated and reaped |
| Wire.Alternation | internal/pool/checkout.go:162-241 | in an acceptable log frames and consumed events strictly alternate |
| Wire.ResumeAnswersLatest | internal/pool/checkout.go:398-458 | with a conforming worker every resume on the wire has the kind and call id of the latest suspension, which nothing answered before |
| Wire.CrossingAborted | internal/pool/checkout.go:219-239 | in an acceptable log a consumed suspension whose count is over the limit is followed by an abort, and the abort by an error, a crash or a shutdown before anything else is sent |
| Wire.TallyExact | internal/pool/budget.go:38-52 | after any events the budget has counted every suspension among them and its limit is the least of its own and those announced |
| Wire.AnswersFit | internal/pool/checkout.go:398-459 | a request may answer a suspension exactly if it is of its kind and carries its call id |
| Wire.AnsweredLog | internal/pool/checkout.go:162-239 | such a log with a conforming worker exists: a call is answered and the feed completes |
| Checkout.ReplyExactly | internal/pool/checkout.go:162-241 | a turn has an event for its caller exactly if its request goes out and the first event after any prints is that one, is one the caller is given, and is not a suspension too many |
| Checkout.Session.EnsureReady | internal/pool/checkout.go:136-149 | passes exactly a leased, idle, not cancelled checkout |
| Checkout.Session.IoFailure | internal/pool/checkout.go:243-282 | every transport failure ends the lease |
| Checkout.Session.Dispatch | internal/pool/checkout.go:301-362 | what each event does to the pending suspension and the lease, and which are returned |
| Checkout.Session.Consume | internal/pool/checkout.go:205-239 | one non-Print event: it is recorded with the budget it led to; if it is a suspension over the limit it is aborted, or the lease is over, and otherwise the turn is over as its kind says |
| Checkout.Session.Turn | internal/pool/checkout.go:162-241 | keeps the log acceptable, records exactly the events taken with the budget each led to, follows every suspension over the limit by an abort or the end of the lease, keeps the lease of a failed turn only on an error the worker survives, and returns the reply of a worker that answers in order |
| Checkout.Session.Exceed | internal/pool/checkout.go:219-239 | a suspension over the limit is aborted exactly when it is well formed and the abort can be sent; otherwise the lease is over |
| Checkout.Session.Feed | internal/pool/checkout.go:365-395 | sent only without a pending suspension; exact about the working-directory flag when the request is rejected |
| Checkout.Session.Resume | internal/pool/checkout.go:398-421 | answers a pending call under its own id, or sends nothing |
| Checkout.Session.ResumeLookup | internal/pool/checkout.go:424-434 | answers a pending lookup, or sends nothing |
| Checkout.Session.ResumeAwaited | internal/pool/checkout.go:437-458 | answers pending futures, or an eager call with its single result |
| Checkout.Session.DumpState | internal/pool/checkout.go:504-516 | a checkout that is not ready sends nothing and fails; a dump that succeeds leaves the count and the pending suspension alone; an error the worker survives leaves the suspension too, and any other answer costs the lease |
| Checkout.Session.Restore | internal/pool/checkout.go:519-552 | a successful restore starts the count over; a failed one keeps it; a checkout that is not ready sends nothing and fails with its budget as it was |
| Checkout.Session.Install | internal/pool/checkout.go:555-585 | sent only by a ready checkout without a pending suspension, and otherwise a failure |
| Checkout.Session.Finish | internal/pool/checkout.go:588-626 | always ends the lease; only a local worker is reset |
| Checkout.Session.Abort | internal/pool/checkout.go:630-647 | sent only by a ready checkout with a pending suspension; exact about what a rejected abort leaves behind |
| Checkout.Session.Handoff | internal/pool/reservation.go:160-193 | possible exactly for a ready remote checkout with nothing pending; the budget goes along |
| Checkout.Session.RestoreCarried | internal/pool/reservation.go:198-216 | the count is carried over and the tighter limit applies |
| Checkout.Bind | internal/pool/reservation.go:87-146 | a new worker goes on with the carried count and no looser a limit, and its log is exactly the accepted configuration and the accepted state with the budget each led to; a failed attempt keeps the reservation unless the pool is closed |
| Checkout.Rotate | internal/pool/reservation.go:87-193 | a rotation binds a worker if some attempt is to succeed before the pool closes, and otherwise leaves no lease behind; the log of a bound worker is exactly its configuration and load in one of the attempts |
| Checkout.RunSession | internal/pool/budget.go:12-52 | over any sequence of operations, rotations and failed binds, each operation does what it promises in the state the ones before it left; what it adds to the log of the worker the session goes on with is exactly the events it took, each with the budget it led to; and after each of them the suspensions handed to the host since the last Restore are at most the configured limit |
| Stop.StopRequest.Shorten | stop.go:76-95 | in place, the deadlines become the specified ones, and the watcher is woken exactly if one moved |
| Stop.ShortenedFacts | stop.go:76-95 | a later request moves the request to the earlier of the two times unless it has come, and the kill to the earlier of its time and the new grace after the request, so only earlier and no later than its own caller asked |
| Stop.DueInOrder | lifecycle.go:209-221 | a stop made due before the start has its deadlines in order exactly when the clock moved by at most drain plus grace between its two readings |
| Stop.DueOutOfOrder | lifecycle.go:209-221 | a concrete stop whose request time is after its kill time |
| SessionRun.TakeKeeps | lifecycle.go:137-406 | every critical section keeps the ownership, deadline and snapshot invariants |
| SessionRun.Ownership | lifecycle.go:335-406 | in every interleaving: done is closed once, exactly when the terminal cause is set; an execution and a control operation never both own the session; the current execution is not finished and has an operation channel exactly when not paused; each execution's done closes once |
| SessionRun.RunEvolves | lifecycle.go:335-406 | over every run: the terminal cause stays, finished executions stay finished, deadlines shrink, stops stay resolved, claims stay |
| SessionRun.StopDeadlines | stop.go:178-239 | in every run a stop kills no later than any caller's bound, resolves at most once, and has its deadlines in order exactly when they were not made late |
| SessionRun.StopOnlyShrinks | stop.go:68-95 | between any two points of a run the deadlines only move earlier, a requested one is frozen and a resolved kind is final |
| SessionRun.RequestBounds | stop.go:178-206 | every caller of requestStop leaves its own bound behind, unless the execution is finished, its stop resolved, or it ended with no stop |
| SessionRun.KillReported | stop.go:286-378 | in every run a claimed kill is reported as a kill if and only if no failing abort resolved the stop first, and such an abort had passed its check for the end of the session before the claim |
| SessionRun.KillMaskedExactly | stop.go:286-378 | after a kill was claimed some run reports the stop as finished if and only if an abort had passed its check for the end of the session before the claim; otherwise every run reports a kill |
| SessionRun.KillDuringAbort | stop.go:328-378 | such a state is reached: the abort comes back before the kill deadline and passes its check, the kill falls due and is claimed only then, and the failing abort has it reported as finished |
| SessionRun.ClaimedOnce | snapshot.go:123-162 | after a claim, no token for the same suspension, copied or not, is accepted at any later point, and that sequence is never paused again |
| SessionReports.MarksExact | lifecycle.go:194-236 | in every run an execution is marked as stopped before its start, aborted, delivered to and ended exactly if the step that does so was taken |
| SessionReports.FinishReports | lifecycle.go:335-373 | in every run the finish of an execution resolves its open stop exactly if no kill was claimed, and reports an abort if and only if the stop was found before anything was sent, or the worker answered an abort, or the reason was delivered and the execution then failed or was ended |
| SessionReports.StopExplained | stop.go:277-378 | in every run a resolved stop was resolved at one of its steps, and its kind is what that step and what happened before it say |
| SessionReports.KindsReached | stop.go:277-378 | each kind is reached: an answered abort, a run that ends on its own, and a kill |
| SessionReports.TerminateTakesEffect | lifecycle.go:375-406 | terminating sets the cause once and takes a paused execution out of its caller's hands |
| SessionReports.EndedForGood | lifecycle.go:171-192 | in every run, once the session has ended its cause stays and no step begins work again |
| SessionReports.StoppedForGood | stop.go:221-239 | in every run, once a stop is requested nothing is published, claimed or begun, and a callback or resume goes out only if the reason can be caught |
| SessionReports.TimerRequests | stop.go:241-275 | a request that has come due is entered when the timer fires, and a paused execution goes to an aborter |
| SessionReports.CallbackRoundTrip | lifecycle.go:265-319 | a callback begins and a resume goes out if and only if the driver may go on, and the callback ends where it began |
| SessionReports.BeginGoesOn | lifecycle.go:194-236 | an execution that nothing has stopped is sent or prepared as asked |
| SessionReports.AbortInTime | stop.go:328-378 | the answer to an abort counts exactly if it is back before the kill deadline it was sent with |
| SessionReports.ControlRoundTrip | session_control.go:12-70 | a control operation is admitted if and only if nothing stands in its way, and its release gives the session back as it was, or a stopped execution to an aborter |
| SessionReports.ClosingAdmitsNothing | session_control.go:72-117 | while a close is under way nothing is reserved, claimed or controlled |
| SessionReports.CloseTakesExactly | session_control.go:136-160 | a close takes the session exactly when it is idle or its execution is paused |
| SessionReports.CloseEnds | session_control.go:72-190 | a close of an idle session ends it with the close's cause and leaves nothing held; one that gives up before it could take the session leaves it as it was |
| SessionRun.PublishedIsClaimable | snapshot.go:101-121 | publishing makes exactly the new sequence claimable |

## Left out

- Symlinks, special files, host I/O errors and names that are not UTF-8: the host is an immutable tree without them, so the branches that skip or report them are not modelled.
- Saturating arithmetic is modelled, but the overlay's memory limit is at most 2^59 bytes in `Overlay`, where no sum saturates.
- The error texts of mount calls.
- A nil decode budget, which charges nothing: every decode here has a budget.
- Packed repeated fields, and the request and event frames around a value: only values are encoded and decoded.
- Go's error values: a failed decode is one failure, whatever its message; a failed turn says only whether the worker was lost and whether it was a typing error.
- Records.FlatRoundTrip: the decoders of flat messages share one loop here, with a table of the fields each of them switches on.
- CodecRoundTrip.ValueRoundTrip: encodings of 2^64 bytes or more are excluded, because a length prefix cannot express them.
- Dict and set lookup: their items are kept in order and not compared.
- Telemetry, metrics and observer lifetimes of the pool and the checkouts; the metrics calls between sections have no effect on the counters.
- Waiting: the channels that wake waiters are not modelled, so nothing is said about progress or fairness of acquire, Reserve, Close and Stop.
- Checkout.Session.Turn: the deadline of a turn and the execution-time part of the budget are inputs, not computed.
- ResumeFromMounts and HandlePendingMount, which answer an OS call from the feed's mounts through Resume.
- Bind without a state, which starts a session of its own and so is the constructor followed by a Configure turn.
- PoolRun.LeaseWonOnce: at most one of finish, handoff and terminate wins; that one eventually does depends on the callers.
- SessionRun models the lifecycle on values rather than on objects updated in place: a step is a whole critical section, and aliasing of execution objects is replaced by their numbers.
- SessionRun.KillMaskedExactly: the termination that a failing abort asks for is the separate Terminate step, so only its place before the resolution is kept.
- SessionRun.Ownership: contexts, callbacks, observers and the pending futures of an execution are not part of the state.
- The wrap of execution and sequence numbers at 2^64, which the code refuses.
- Connection rotation, dialing, transports, host objects, stub generation, generated protobuf code and print collection.
