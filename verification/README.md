# Vash, modelled and proved

Vash is a cache server that speaks memcached, Redis and its own binary protocol over one sharded
store, with tag invalidation gossiped between nodes. This project models its hardest parts in Dafny
and proves what they promise. `dafny verify dfyconfig.toml` checks everything.

## What is modelled

**The pipelined request path.** A connection's buffer is measured into runs of reads, plain writes
and everything else; the runs may be collapsed or merged; each slice is run inline, submitted and
awaited, or handed to the pool; inside a slice, consecutive plain `set`s are held back and submitted
as one batch; a failed batch is retried one write at a time. All of this is meant to be invisible.
`Serving` is the reference it is measured against: one frame at a time. `Executor.Executor.ExecuteBlock` and
`Drain.Connection.Drain` are the code's loops, proved to end where the reference ends, for every
parser whose answer depends only on the bytes it consumes (`Framing`), every block, and every way a
submission can turn out (`SetMany.Fate`). Agreement comes in three strengths:

- *exact*: connection, replies, contents and compare-and-swap tokens are all equal. This holds while
  every submission was applied in request order within each shard, or failed having committed
  nothing and spent no token.
- *twin*: connection and contents are equal, and so are the replies but for the tokens they show; and
  each key's token is the same on both sides, or is on both sides one its shard had yet to give out
  when the block began. This holds whatever the submissions came to, so long as no key's writes were
  reordered to a lasting effect, for every block in which no `cas` names a token its shard had yet to
  give out when the block began. A token a client was shown earlier is never one
  (`StoreLaws.GivenOutIsNotAhead`): if the key was stamped since, it is stale on both sides, and if not,
  both sides hold it.
- *hidden*: the replies are equal outright, for such a block none of whose frames shows a token.

The condition on `cas` cannot be dropped: one that names a token yet to come can tell a batch from one
write at a time (`Retry.CasMayDisagree`), exactly when a write a read would find shares its shard with
another (`Retry.CasExactIff`).

`Conversation.Converse` is the connection's own loop, over any sequence of reads: however the stream
is cut, what was drained agrees with serving the stream as a whole. Three limits judged once per read
can end the connection early, and so can depend on the cut: the buffer ceiling, the bound on failed
authentications, and the length of a line, which is judged only while its end has not arrived
(`Framing.LongLineDependsOnTheCut`).

What the reference itself answers is held to what a client can observe. `Replies` says what each kind
of frame adds to the output: the one word of a storage verb, the lines of a retrieval, the number of a
counter, the refusals. `Histories` says what a read finds after any command, any run of other commands
and any time, and what becomes of tokens.

`Store` splits a record's contents from its token because only `cas` reads a token. `StoreLaws` says
what each command does to what a client sees, what roles buy, that tokens stay unique, and that a
stale one opens nothing. `Twins` relates two stampings that no token given out before can tell apart.

**Where batching does show.** A pipeline is promised the answers of commands sent one at a time
(crates/vash-server/src/dispatch.rs:96-103 and 122-134). In two places the code can fall short of
that, and the exact conditions are proved:

- `Shards::group` sorts with `sort_unstable_by_key` (crates/vash-store/src/shard.rs:191), whose contract
  leaves the order of one shard's writes open, where the comments and the awaited path take it to be
  the request's. What follows rests on that contract and not on what one version of the sort does:
  current ones happen to keep short and already ordered slices as they are. For a held batch only
  tokens can move (`Retry.TokensMayPermute`), and no order shows exactly when no two of its writes
  share a shard (`Retry.TokensExactIff`). The awaited path has no check for repeated keys, so an
  earlier value may win (`Retry.EarlierValueMayWin`); no order shows exactly when writes to one key
  agree on what they store (`Retry.ValuesExactIff`).
- Retrying a failed batch leaves the same values but, as its comment admits, may leave a fresher
  token (`Retry.RetryMayShow`), which `gets`, `cas`, `mg c`, `me` and `metadump` can see. It leaves the
  very same state exactly when nothing had been committed and no aborted transaction had spent a
  token (`Retry.RetryExactIff`). Short of an aborted transaction no failure can show exactly when the
  batch touches one shard only, its lowest shard holds a refused write, or a write names too many
  tags (`Retry.CommitInvisibleIff`); an aborted transaction can show on one shard too, which leaves
  the last two (`Retry.FailureInvisibleIff`).

**Cluster tag invalidation.** Tag tables that merge by maximum (`TagTable`), the digest and reply of a
gossip exchange (`Gossip`), what one exchange achieves (`Convergence`), rotating windows over
registries larger than one message (`Sweep`), whole clusters of exchanges (`AntiEntropy`), the step
system with lost, repeated and reordered messages (`Cluster`), and convergence of its runs at any
registry size and in any interleaving (`Turns`). `Liveness` is what all this does to one node's stored bytes.

**Smaller cores.** The glob matcher, the `SCAN` cursor table, counter arithmetic and its decimal
text, the on-disk record codec, TTL encoding, and the benchmark's latency histogram.

## Model

| member | source | states |
|---|---|---|
| Conversation.Converse | crates/vash-server/src/conn.rs:102-367 | However a client's bytes are cut into reads, session, contents, replies and tokens agree at the three strengths above with serving the stream so far, and with serving the whole stream unless the connection was cut off; the unfinished command at the end is what stays buffered; every read drained was within the ceiling for its connection's standing and followed reads that gave no cause to stop; and it stays open if and only if all reads were, the last of them giving no cause either. |
| Conversation.ClosedForGood | crates/vash-server/src/conn.rs:351-353 | Once a command has hung up, bytes that follow change nothing about where the stream's reference ends. |
| Drain.Connection.Drain | crates/vash-server/src/conn.rs:690-831 | For every buffer, threshold and outcome of every submission: the hops run each command once, in order, up to and including the first that hangs up; inline hops hold only reads and exist only where inlining is on and the block is within the bound, awaited ones only untagged plain sets of a connection that may write, and the pool gets only what neither may take or, where reads stay in the pool, a mixed block whole; session, contents, replies and tokens agree with one-at-a-time serving at the three strengths above, `cas` included unless it names a token yet to be given out; a block whose neighbouring plain sets agree per key is never reordered visibly; the unparsed tail stays in the buffer. |
| Drain.Connection.Measure | crates/vash-server/src/conn.rs:917-951 | The runs cover exactly the whole commands at the front of the buffer, byte for byte and in order, each run uniform in kind and maximal; fatal exactly when the parser says so after them. |
| Drain.Connection.Gather | crates/vash-server/src/conn.rs:746-778 | The merged runs are contiguous, their lengths add up to the bytes between two command starts, and a run bound for the inline or awaited tier is never merged. |
| Drain.Connection.RunAll | crates/vash-server/src/conn.rs:746-831 | The hop loop keeps agreement with the reference after every hop, at the three strengths above, and stops at the hop that closes the connection. |
| Drain.StretchConsistent | crates/vash-server/src/conn.rs:548-578 | Whether untagged writes to one key agree does not depend on the tag table, so a client can tell before sending. |
| Drain.WriterStays | crates/vash-server/src/conn.rs:225-238 | A connection allowed to write when its buffer is drained stays so for the whole buffer. |
| Runs.ExtendLayout | crates/vash-server/src/conn.rs:437-449 | Extending the runs by one command keeps them an exact, uniform layout of the commands measured. |
| Framing.SliceFrames | fuzz/fuzz_targets/memcached_text.rs:18-33 | A slice between two command starts parses to exactly the commands between, with nothing left over. |
| Framing.FramesExtend | crates/vash-proto/src/memcached/mod.rs:81-98 | Bytes that arrive later continue exactly where the whole commands before them ended: the commands of a longer stream are those of the shorter one and those of its leftover with the new bytes. |
| Framing.LinesAreFramed | crates/vash-proto/src/memcached/mod.rs:107-125 | Splitting off lines answers by the consumed bytes alone, under both truncation and extension. |
| Framing.LongLineDependsOnTheCut | crates/vash-proto/src/memcached/mod.rs:107-125 | Every line over 16384 bytes is a command when its end arrives with it, and fatal when the limit is passed first, by one byte and not before. |
| Slices.ParseWrites | crates/vash-server/src/memcached.rs:34-60 | Decodes a block if and only if it is whole commands that are all untagged plain sets, and then yields their writes and silence flags in order. |
| Slices.AwaitWrites | crates/vash-server/src/conn.rs:548-578 | A submission that is accepted answers what one at a time would and leaves its contents unless a key was reordered, and twins of its tokens; one declined leaves a state from which running the writes again comes to running them once, in whatever order it had written if their lifetimes are fixed. |
| Slices.RunSlice | crates/vash-server/src/conn.rs:779-831 | A slice, awaited, declined and re-run, or executed, carries agreement with the reference from its first command to its last, at the three strengths above, and a slice of reads leaves the store untouched. |
| Slices.SliceAgrees | crates/vash-server/src/conn.rs:579-689 | Agreement with the reference composes: serving a slice from where the executor stands agrees with serving it from where the reference stands, though tokens have drifted apart before it. |
| Executor.Executor.ExecuteBlock | crates/vash-server/src/memcached.rs:68-152 | The batching executor refines one-at-a-time serving for every block, repeated keys, noreply and parse errors included, at the three strengths above: however the submissions turned out, contents and token-masked replies agree unless a `cas` names a token its shard had yet to give out when the block began; every command that reached the store was allowed for its roles under the identity held at its place; a connection still locked out at the end has changed nothing. |
| Executor.Executor.Take | crates/vash-server/src/memcached.rs:86-139 | After each frame the batch holds exactly the frames since the last point of agreement with the reference, all of them plain sets with distinct keys that the connection may write. |
| Executor.Executor.Execute | crates/vash-server/src/memcached.rs:198-371 | The gated execution of one command is the reference's step, whose replies the rows of `Replies` below pin down, and the store is visited exactly when the gate allows. |
| Serving.LockedFrame | crates/vash-server/src/memcached.rs:395-458 | On a connection that must authenticate, a frame leaves the store alone, says one thing at most and nothing under noreply, closes only for `quit`, establishes an identity if and only if it is a plain set carrying a name and secret the table verifies, and then exactly that identity, and raises the failures by one, up to the most a u32 counts, if and only if it is any other plain set. |
| Serving.LockedSays | crates/vash-server/src/memcached.rs:395-458 | Such a frame is told to authenticate if and only if it is no plain set, that its credentials are malformed if and only if they are not two words, that they failed if and only if the table does not know them, and STORED, under token zero where one is asked for, when it got in. |
| Replies.StorageSays | crates/vash-proto/src/memcached/encode.rs:178-184 | An allowed storage frame says one word, or nothing under noreply: STORED if and only if its verb's guard holds of what a read would find and, for `cas`, of the token; EXISTS if and only if a `cas` finds the key under another token; NOT_FOUND if and only if a `cas` finds none; NOT_STORED for the other guards; a failure line exactly over the limits. |
| Replies.RetrievalSays | crates/vash-proto/src/memcached/encode.rs:396-428 | An allowed retrieval shows exactly the keys a read finds, in the order asked, each with its value and flags, its token if and only if asked for, and ends. |
| Replies.WordSays | crates/vash-proto/src/memcached/encode.rs:186-209 | Delete, invalidate, touch and flush say whether a read found the key, the tag was registered, or flushing is on. |
| Replies.CounterSays | crates/vash-proto/src/memcached/encode.rs:196-205 | A counter frame says the number it has come to, NOT_FOUND for a miss, or fails exactly for text that does not read or a number too long to store. |
| Replies.MetaSays | crates/vash-proto/src/memcached/encode.rs:430-457 | A meta frame answers what its command answers, with tokens exactly where its verb and flags ask: those after a write, those before a read. |
| Replies.DumpSays | crates/vash-server/src/memcached.rs:241-259 | A dump answers even when asked for silence: every key a read would find if its class is selected, with all tokens if it is a full dump, none if not, a refusal where listing is off; and changes nothing. |
| Replies.ReportSays | crates/vash-server/src/memcached.rs:261-276 | Statistics and version frames answer their command's reply, a section of the statistics even when asked for silence. |
| Replies.QuitCloses | crates/vash-server/src/memcached.rs:352-370 | An allowed frame closes the connection if and only if it is `quit`, which says nothing. |
| Replies.RefusalSays | crates/vash-server/src/memcached.rs:224-239 | A frame whose identity lacks a role it needs is told so, unless it asked for silence, and nothing else comes of it. |
| Replies.MalformedSays | crates/vash-server/src/memcached.rs:115-139 | A malformed command is answered with its own error, or with the demand to authenticate. |
| Executor.InlineOnlyReads | crates/vash-core/src/command.rs:245-273 | A command classed as safe to run inline leaves the store as it was, whoever sends it and however its reply is styled. |
| Executor.HeldJustified | crates/vash-server/src/memcached.rs:95-110 | A write held back and submitted later was allowed when its own turn came. |
| Backend.SetBatch.Flush | crates/vash-server/src/dispatch.rs:142-192 | Whatever the submission came to, replies are those of one write at a time, in request order, and so are the contents; tokens too when it was exact, and twins of them always. |
| Backend.SetBatch.Push | crates/vash-server/src/dispatch.rs:104-113 | Appends a write whose key the batch does not hold, keeping keys distinct. |
| Backend.SetBatch.RetryEach | crates/vash-server/src/dispatch.rs:161-188 | The retry executes the writes one at a time and renders each its own verdict. |
| Backend.Backend.SetMany | crates/vash-store/src/store.rs:277-316 | A submission either succeeds in some order, or fails with some group uncommitted: having registered nothing if a write names too many tags, and committed or aborted only groups in shards below the first that holds a refused write. |
| SetMany.VerdictIsFixed | crates/vash-store/src/store.rs:346-356 | An unconditional write's verdict and effect on the contents depend on the limits alone, not on what the store holds. |
| SetMany.BatchContents | crates/vash-store/src/store.rs:277-316 | A successful batch, in any order that keeps each key's writes, leaves the contents of one at a time. |
| SetMany.StampsInOrder | crates/vash-store/src/apply.rs:204-218 | Shards stamp independently: orders that agree within each shard give the same tokens. |
| SetMany.ConsistentKeepsKeys | crates/vash-store/src/shard.rs:182-211 | Any reordering of writes that agree per key keeps every key's writes. |
| Retry.RunAgain | crates/vash-server/src/dispatch.rs:131-134 | Re-applying a key's writes to what they left changes nothing, even where a write keeps the deadline it finds. |
| Retry.RetryContents | crates/vash-server/src/dispatch.rs:122-134 | After a failed batch, one-at-a-time retry leaves the contents it would have left anyway, whatever was already registered and committed, and in whatever order if the lifetimes are fixed. |
| Retry.RetryExactIff | crates/vash-server/src/dispatch.rs:122-134 | The retried state equals one at a time, tokens included, if and only if nothing had been committed and no aborted transaction had spent a token. |
| Retry.CommitInvisibleIff | crates/vash-store/src/store.rs:277-316 | No failure that aborts no transaction can show if and only if a write names too many tags, the batch touches one shard only, or the lowest shard it touches holds a refused write. |
| Retry.FailureInvisibleIff | crates/vash-store/src/store.rs:277-316 | No failure of a batch can show, an aborted transaction's included, if and only if the batch is empty, a write names too many tags, or the lowest shard it touches holds a refused write. |
| Retry.RetryMayShow | crates/vash-server/src/dispatch.rs:131-134 | A concrete batch whose failure leaves a token one at a time would not give. |
| Retry.BatchExact | crates/vash-server/src/dispatch.rs:96-103 | A batch each shard applies in request order is indistinguishable from one at a time. |
| Retry.TokensExactIff | crates/vash-store/src/shard.rs:182-211 | Every order a successful batch may take gives one-at-a-time's state, tokens included, if and only if no two writes share a shard. |
| Retry.TokensMayPermute | crates/vash-store/src/shard.rs:191 | Twenty-two keys over two shards: an order the sort's contract allows gives some of them each other's tokens. |
| Retry.CasExactIff | crates/vash-store/src/shard.rs:182-211 | Every `cas` after every order a successful batch of fixed-lifetime writes may take is answered as after one at a time, if and only if no write of it stored with a deadline to come shares its shard with another. |
| Retry.CasMayDisagree | crates/vash-store/src/shard.rs:191 | Twenty-two sets over two shards and then a `cas`: an order the sort's contract allows answers it otherwise than request order would. |
| Twins.SettledTwin | crates/vash-server/src/dispatch.rs:122-134 | However a submission turned out, once a failed one is retried each key's token is the one of one write at a time, or both are ones its shard had yet to give out before the submission. |
| Twins.TwinsMatchAlike | crates/vash-store/src/apply.rs:449-453 | A `cas` with a token already given out at the start opens both of two twin stores or neither. |
| Retry.ValuesExactIff | crates/vash-server/src/conn.rs:548-578 | Every order an awaited run of fixed-lifetime writes may take gives request order's contents if and only if writes to one key agree. |
| Retry.EarlierValueMayWin | crates/vash-server/src/conn.rs:548-578 | Twenty-two writes to two keys of two shards: an order the sort's contract allows leaves a key an earlier value. |
| Serving.TwinServe | crates/vash-server/src/memcached.rs:198-371 | Over any run whose `cas` commands name only tokens given out before it, stores that differ only in tokens given out since lead to stores that still do, with the same contents, and to replies that differ in the tokens shown only; to the very same replies if none is shown. |
| Serving.OnlyAllowedChange | crates/vash-server/src/memcached.rs:214-239 | Only a frame the gate allows can change the store; a frame never changes an identity once held; a locked-out frame never changes the store. |
| Serving.LockedChangesNothing | crates/vash-server/src/memcached.rs:395-458 | A connection that must authenticate and never does leaves the store as it found it, over any run. |
| Serving.PlainServe | crates/vash-server/src/dispatch.rs:304-313 | A run of plain sets answers verdicts the store has no say in and writes one at a time. |
| Store.TagsStayKnown | crates/vash-store/src/store.rs:91-136 | No command stores a record whose tags are unregistered or from a generation yet to come. |
| StoreLaws.SetIsSeen | crates/vash-store/src/apply.rs:357-506 | A storage command writes exactly when its guard holds of what a read would find, replies accordingly and with the previous value when asked, and a read then finds exactly what it stored; no other key is affected. |
| StoreLaws.TagRetires | crates/vash-store/src/tags.rs:422-452 | Invalidating a tag hides exactly the records carrying it, unless its generation has saturated. |
| StoreLaws.GetAndTouchIsSeen | crates/vash-store/src/store.rs:406-433 | Answers what was found before touching, and every live key named ends with the new deadline. |
| StoreLaws.CountIsSeen | crates/vash-store/src/apply.rs:643-696 | In numbers: an increment leaves the sum, less 2^64 past the largest u64, a decrement the difference or zero, and the integer domain the sum or what its policy makes of the bounds, as decimal text with the key's flags and tags and the lifetime asked for, reporting the number and the distance; anything else changes nothing and is a miss, a number left alone or an error, each exactly when. |
| StoreLaws.DeferrableExactly | crates/vash-server/src/dispatch.rs:304-313 | A write within the limits may be held back if and only if no two stores answer it differently. |
| StoreLaws.OthersUnaffected | crates/vash-store/src/apply.rs:357-760 | Whatever the command, a key it neither names, nor reaches by tag, nor flushes is read at any time as before, is not stamped and keeps its token. |
| Histories.GetAfter | crates/vash-store/src/apply.rs:357-890 | After any command, any run of commands at any times that is not about the key, and any delay, a `get` answers with exactly the record the command left there, until its deadline: none after a delete, an enabled flush or an invalidation of its tag, a new deadline after a touch, what was stored after a write whose guard held, and what a read found before in every other case. |
| Histories.TokenAfter | crates/vash-store/src/apply.rs:204-218 | A command that writes a record gives it a token its shard had never given out, one that removes a record removes its token, and no other key's token moves, with exactly which in terms of what a read finds. |
| Histories.RepliesMean | crates/vash-server/src/dispatch.rs:553-721 | Reads answer pointwise what they find, delete and touch whether they found it, invalidation whether the tag was registered, flush and listing whether they are on, and a listing shows every key as a read would find it. |
| Histories.SetLasts | crates/vash-core/src/clock.rs:63-96 | A set with a lifetime of `s` seconds is read back, value and flags, exactly while less than 1000 * `s` ms have passed, whatever ran in between; for ever if `s` is zero, not at all for the already-expired value, and until that point in time beyond thirty days. |
| Histories.SetThenInvalidate | crates/vash-store/src/tags.rs:422-452 | A record that was set is gone after an invalidation if and only if the tag was given with the set. |
| StoreLaws.ReadersChangeNothing | crates/vash-server/src/auth.rs:817-870 | Without a role to write, invalidate or flush, nothing a connection may run changes the store. |
| StoreLaws.WritersLearnNothing | crates/vash-server/src/auth.rs:817-870 | Without the roles to read or list, no reply a connection may be sent carries stored data. |
| StoreLaws.TokensStayUnique | crates/vash-store/src/apply.rs:204-218 | No two records ever share a token, through any command and any batch, reordered or failed. |
| StoreLaws.StaleTokenRefused | crates/vash-store/src/apply.rs:204-218 | After any run of commands and batches, failed ones included, in which the key was rewritten, a `cas` with a token given out before the run is refused and changes no record. |
| StoreLaws.GivenOutIsNotAhead | crates/vash-store/src/apply.rs:204-218 | A token a shard has given out is never one it has yet to give out, so tokens a client was shown meet the condition on `cas` above. |
| Auth.MissingIsExact | crates/vash-server/src/auth.rs:136-150 | The roles a denial names are exactly what has to be granted. |
| Auth.RolesExactly | crates/vash-server/src/auth.rs:817-870 | Role by role, a frame is permitted if and only if it holds read for what shows values, write for what changes records, and the roles to invalidate, list and flush for those. |
| Auth.InlineNeedsNoMore | crates/vash-core/src/command.rs:245-273 | The commands safe to run inline are exactly those that need no role but to read. |
| Auth.SplitInvertsJoin | crates/vash-server/src/memcached.rs:628-636 | The credential block splits if and only if it joins two non-empty space-free words, and gives them back. |
| Convergence.FullExchangeReachesMaximum | crates/vash-server/src/dispatch.rs:723-768 | A whole-table exchange brings the receiver to the pointwise maximum, and the sender too when both tables fit in one message. |
| Convergence.FullExchangeProgress | crates/vash-server/src/dispatch.rs:723-768 | Truncated or not, a whole-table exchange between nodes that disagree raises somebody. |
| Convergence.ExchangeBounds | crates/vash-server/src/cluster.rs:506-525 | No exchange lowers a generation or passes a common bound. |
| AntiEntropy.ProductiveStepDecreases | crates/vash-server/src/cluster.rs:566-643 | Every productive exchange strictly lowers the cluster's total gap to the join. |
| AntiEntropy.GossipConverges | crates/vash-server/src/cluster.rs:566-643 | No run of productive exchanges is longer than the initial gap, and one that can go no further on a connected peer graph leaves every node at the maximum of the start. |
| AntiEntropy.DisagreementProceeds | crates/vash-server/src/cluster.rs:566-643 | While two peers disagree and the tags fit in one message, a productive exchange between them exists. |
| Sweep.WindowDistinct | crates/vash-server/src/cluster.rs:617-643 | A window over a registry of more than 8192 entries holds exactly 8192 distinct ones. |
| Sweep.EveryEntryOffered | crates/vash-server/src/cluster.rs:617-643 | Enough consecutive rounds, from any starting round, offer every entry. |
| Sweep.DigestShows | crates/vash-server/src/cluster.rs:617-643 | While a node learns no name, each round's digest holds the entries due in that round of the listing the turn began with, at the generations held by then. |
| Turns.TurnDelivers | crates/vash-server/src/cluster.rs:540-643 | Over any run of the message system, once a link's consecutive rounds have arrived the receiver holds everything the sender held when the turn began, in whatever order they arrived and whatever else happened meanwhile, if the sender learned no name. |
| Turns.BothWaysMeet | crates/vash-server/src/cluster.rs:540-643 | Two nodes whose turns towards each other interleave as they may both end above the pointwise maximum of where they began. |
| Turns.RunBacked | crates/vash-server/src/cluster.rs:336-377 | Over every run from an empty network, invalidations included, no message in flight is above what the nodes hold. |
| Turns.InvalidationsSpread | crates/vash-core/src/cluster.rs:41-47 | At any registry size and in any interleaving, with messages lost, repeated and reordered and nodes invalidating meanwhile: once every link of a connected cluster has carried enough turns each way, every node holds at least everything any node held at the start. |
| Turns.ClusterConverges | crates/vash-core/src/cluster.rs:41-47 | If nobody invalidates during such a run, every node ends at exactly the maximum of the start; nodes times names of that maximum, and nodes again, bound the turns it takes. |
| Turns.BumpSpreads | crates/vash-core/src/cluster.rs:41-47 | Once every link of a connected cluster has carried enough turns each way since an invalidation, every node is strictly past the generation the invalidating node held before it. |
| Turns.InvalidatedEverywhere | crates/vash-core/src/cluster.rs:41-47 | And by then no read on any node finds a record carrying the tag from before the invalidation. |
| Gossip.Registry.ApplyMerges | crates/vash-server/src/cluster.rs:506-525 | Max-merges a batch and counts its informative entries. |
| Gossip.Registry.TagSync | crates/vash-server/src/dispatch.rs:723-768 | Replies, cut to the message limit, with exactly the names the sender is behind on, judged before merging, then merges the offer. |
| Gossip.Registry.BuildDigest | crates/vash-server/src/cluster.rs:617-643 | Offers the whole non-zero table when it fits and otherwise the round's window of the name-sorted table. |
| TagTable.MergeAllIsMaximum | crates/vash-server/src/cluster.rs:506-525 | After a merge each name holds the maximum of what was held and offered; an entry at generation zero registers nothing. |
| TagTable.MergeIgnoresOrder | crates/vash-core/src/cluster.rs:21-25 | Merging the same entries in any order with any repetition leaves the same table. |
| TagTable.SplitMessagesMerge | crates/vash-core/src/cluster.rs:21-25 | However the same entries are cut into messages, merging the messages one by one leaves the same table. |
| Cluster.RunsAreSafe | crates/vash-server/src/cluster.rs:255-299 | Over every run with lost, repeated and reordered messages, generations never go back and each was produced by a bump. |
| Cluster.DeliveredForGood | crates/vash-server/src/cluster.rs:336-377 | An invalidation that reached a node holds there for the rest of the run. |
| Cluster.BumpRaises | crates/vash-store/src/tags.rs:422-452 | An invalidation moves its own node exactly one generation on unless it has reached the last, and nothing else, and the push of that generation to every peer named is on the network. |
| Cluster.SentCanArrive | crates/vash-server/src/cluster.rs:336-377 | Every push, digest and reply a step of a run sends can be delivered at any later point of the run. |
| Cluster.RegisteredForGood | crates/vash-store/src/tags.rs:422-452 | A name a node has registered it can invalidate at any later point of the run. |
| Cluster.PushRetires | crates/vash-server/src/cluster.rs:336-377 | A node that has served the push of an invalidation is past the generation the invalidating node held before, for the rest of the run. |
| Cluster.DigestRetires | crates/vash-server/src/cluster.rs:566-643 | So is a node that has served a digest offered since, if it carries the name, which a digest of the whole table always does. |
| Liveness.AliveExactly | crates/vash-core/src/record.rs:155-218 | Over every run of one node, bytes are alive exactly while their deadline is zero or more than the clock at the write and the milliseconds passed since, no tag of theirs was raised, and flushes come to a multiple of 2^32. |
| Liveness.DeadForGood | crates/vash-core/src/record.rs:155-218 | Within a turn of the epoch, dead bytes never come back. |
| Liveness.BumpRetires | crates/vash-store/src/tags.rs:422-452 | A bump kills a live record if and only if it carries the tag and the generation has not saturated, and a merge if and only if it carries the tag and the merged generation is past the one held. |
| Liveness.FirstHeard | crates/vash-core/src/record.rs:155-218 | An unknown tag fails closed; once registered or learned it stands where it was said to, and exactly the records that captured that generation are alive. |
| Glob.Matches | crates/vash-core/src/glob.rs:54-111 | The greedy matcher answers true exactly for candidates in the language of the tokenised pattern, never for a pattern that does not tokenise, within (candidate length + 1) * (pattern length + 1) iterations of its two loops. |
| Glob.Validate | crates/vash-core/src/glob.rs:29-42 | Accepts exactly the patterns that tokenise. |
| Glob.FitsIsTheLanguage | crates/vash-core/src/glob.rs:54-111 | Position-by-position fitting is membership in the token language. |
| Glob.TokenMeans | crates/vash-core/src/glob.rs:54-111 | In ASCII, `*` selects anything, `?` one byte, a backslash and a byte that byte, any other byte itself, a lone backslash nothing and the empty pattern everything. |
| Glob.Concatenates | crates/vash-core/src/glob.rs:54-111 | A pattern put together from two selects exactly what splits into a part for each. |
| ScanCursors.Table.Issue | crates/vash-server/src/scan.rs:75-100 | Issues tokens 1, 2, 3 and so on, never the start token 0, recording exactly that issue while the table stays sorted and bounded. |
| ScanCursors.Table.Resolve | crates/vash-server/src/scan.rs:115-122 | The binary search over what survives eviction answers what the whole issue history says: the cursor, exactly while the TTL has not elapsed and fewer than the capacity were issued since. |
| ScanCursors.SpentForGood | crates/vash-server/src/scan.rs:115-122 | A token that stops resolving never resolves again. |
| Arithmetic.IntEvaluationExact | crates/vash-core/src/arith.rs:239-278 | Integer evaluation is exact over the mathematical integers under every bound policy and for every pair of bounds, erring exactly when the distance does not fit. |
| Arithmetic.CounterEvaluationExact | crates/vash-core/src/arith.rs:222-238 | A counter stores the sum, less 2^64 past the largest u64, or the difference, zero below it; reports what it stores; and reports the difference modulo 2^64. |
| Arithmetic.EvaluateExactly | crates/vash-core/src/arith.rs:211-278 | An absent key is a miss or zero as asked, text that does not read in the operation's domain is an error if and only if, and everything else is the domain's evaluation of the number read. |
| Arithmetic.IntRunConserves | crates/vash-core/src/arith.rs:211-334 | Over any run of integer operations the text stays canonical and the final value is the initial plus everything reported. |
| Arithmetic.RunConservesModulo | crates/vash-core/src/arith.rs:211-334 | Over any run mixing both domains the final value is the initial plus everything reported, modulo 2^64, and the text stays readable. |
| Decimal.ParseIntExactly | crates/vash-core/src/arith.rs:357-378 | Accepts exactly the canonical texts of i64 values and reads each back. |
| Decimal.ParseCounterText | crates/vash-core/src/arith.rs:343-356 | Reads back the text of every u64. |
| Decimal.ParseCounterExactly | crates/vash-core/src/arith.rs:343-356 | Reads a value if and only if the text is decimal digits of it, leading zeros allowed, behind at most one plus, with any ASCII space around. |
| Decimal.TextIsAscii | crates/vash-proto/src/digits.rs:17-43 | Texts are ASCII, most significant digit first, behind a minus when negative. |
| Decimal.PushU64 | crates/vash-proto/src/digits.rs:17-37 | Appends the canonical digits; the 20-byte buffer is never overrun. |
| Decimal.PushI64 | crates/vash-proto/src/digits.rs:38-43 | Appends the canonical text of every i64, the minimum included. |
| Record.ParseInvertsEncode | crates/vash-core/src/record.rs:280-307 | Encoding fails exactly for too many tags, and parsing gives back what was encoded. |
| Record.EncodeInvertsParse | crates/vash-core/src/record.rs:128-148 | A buffer that parses re-encodes to itself but for the two reserved bytes. |
| Record.EncodedLayout | crates/vash-core/src/record.rs:280-307 | Every byte of a record: version 1, tag count, two zeros, epoch, flags, deadline and token at 4, 8, 12 and 20, tags from 28 at twelve bytes each, then the value, least significant byte first. |
| Record.ParseRefuses | crates/vash-core/src/record.rs:128-148 | Parsing fails if and only if the buffer is under 28 bytes, of a version other than 1, or shorter than the tags it announces, each with its own error. |
| Record.PatchU64 | crates/vash-core/src/record.rs:262-271 | Overwrites exactly eight bytes in place, or nothing when they do not fit. |
| Record.PatchIsReencode | crates/vash-core/src/record.rs:253-260 | Patching the token or deadline is re-encoding with that field changed. |
| Record.PatchesCommute | crates/vash-core/src/record.rs:253-260 | The two patches commute. |
| Clock.OffsetDeadline | crates/vash-core/src/clock.rs:63-96 | An encoded offset loses nothing and adds under a second if and only if it does not saturate, and never becomes a sentinel. |
| Clock.OffsetMonotone | crates/vash-core/src/command.rs:530-536 | Longer offsets never expire sooner, and the remaining lifetime is the offset or one second more. |
| Clock.TtlMeans | crates/vash-core/src/clock.rs:63-96 | For every value of the field and every later clock: zero never expires, all ones is over at once, up to thirty days counts from the write, and anything larger is a point in time. |
| Clock.RemainingMeans | crates/vash-core/src/command.rs:530-536 | The remaining lifetime is -1 if and only if there is no deadline, else whole seconds rounded up, zero once past. |
| Histogram.BucketError | crates/vash-bench/src/load.rs:183-202 | Bucketing is monotone, exact below 1000 us, rounds down to the hundred below 100000 us, and reports 100000 from there on. |
| Histogram.Histogram.Record | crates/vash-bench/src/load.rs:203-210 | Adds one sample to the multiset the buckets count. |
| Histogram.Histogram.Merge | crates/vash-bench/src/load.rs:211-219 | Leaves the buckets of both sample sets together. |
| Histogram.Histogram.Percentile | crates/vash-bench/src/load.rs:220-233 | For a rank within the count a sample of that rank exists, and the value returned is its bucket's. |

## Left out

- Sockets, TLS, HTTP, tasks, timers, permits, shutdown, metrics, slowlog and configuration.
- The line RESP owes on a fatal protocol error: `drain` takes it as a closure, which is empty for memcached.
- Deadlines of silent and unauthenticated connections and the choice of dialect, in the connection loop.
- The VCP and RESP dialects and their executors; `Command` variants only they produce.
- The memcached grammar and the bytes of replies: a parser is a parameter, a classic reply is its words, numbers and lines, and a meta reply the value its bytes are rendered from.
- LMDB, index rows, the sweeper and the reclaimer; a record is its value, flags, deadline and tags.
- The clock is one reading for a whole block, and only this connection's commands reach the store while it runs.
- Failures of a single write other than its refusal: want of capacity, or a broken environment. A batch may fail for any of these.
- A submission's within-shard order in `get_and_touch`: its touches are taken in request order.
- Each shard's own tag registry: one table per node, as the node reports it.
- `stats` contents, the paging and scan budget of a dump: a dump's answer is the record table it walks.
- Credential hashing and reloads: the credential table is a fixed function while a block runs.
- Float arithmetic, and trimming of non-ASCII whitespace around a counter.
- Wrap-around of u64 tokens and counters of tokens; a registry with no room for a merged name; overflow of the round number.
- Backend.Backend.SetMany: the order between shards is left open as well, since it has no effect.
- Liveness.DeadForGood: does not hold past a whole turn of the 32-bit flush epoch, which `Liveness.AliveExactly` states exactly.
- ScanCursors.Table.Issue: one atomic step, where the code takes the token before the lock.
- Histogram.Histogram.Percentile: takes the rank, not the floating-point fraction it is computed from.
- AntiEntropy.DisagreementProceeds: a cluster whose tags exceed one message is covered by `Turns.ClusterConverges` instead.
- Turns.ClusterConverges: a turn is counted by the names its sender knew when it began; that the loop of each peer completes turns is a matter of scheduling and is assumed.
- Retry.CasExactIff: takes writes with lifetimes of their own, which is all the classic grammar's `set` produces.
- Conversation.Converse: one clock reading for the whole conversation, no other client in between, and its condition on `cas` is judged by the tokens given out when it began.
- Histories.GetAfter: the run in between is of single commands; that a batch comes to the same contents is what the rows on batches state.
- Replies.CounterSays: counters of the memcached domain only, the one this dialect's grammar produces.
