# Pandora's Veil: a verified model

Pandora's Veil is an end-to-end encrypted relay. Clients post age ciphertext to a relay that keeps everything
in Redis: pastes with a deadline, some of them read once only; registered public keys; an offline inbox with
one queue per (recipient, sender) and an index of senders; and publish/subscribe streams. Handles have several
spellings (case, an optional `PV-` in front), and both the client and the relay fan out over them. A browser
dashboard keeps contacts and conversations in memory. This project models that logic in Dafny and proves what
it keeps. `dafny verify dfyconfig.toml` checks everything.

## How it is laid out

Two layers share one set of Redis commands (`Redis.dfy`: each command is a function on the database, with an
abstract clock).

- **Whole operations.** `RelayStore.dfy` is the store as a class, each method the command sequence the source
  issues, run without interference. `Relay.dfy` is the TTL policy, uploads with their fan-out, stream opening
  and inbox fetches. `Globs.dfy` gives the patterns of KEYS a meaning, and `Patterns.dfy` finds which recipients'
  full drains keep to their own queues.
  `ChatClient.dfy` is the client's own fan-out on top of that.
- **Steps.** Any number of requests run at once, and a run is any sequence of their commands, of the clock and
  of flushes. `PasteLedger.dfy` (puts and reads are one command each), `Registration.dfy` (HSETNX, then HSET)
  and `InboxSteps.dfy` (pushes of four commands; drains that LRANGE, DEL and SREM, one queue or all of them) go
  down to single commands. `Streams.dfy` takes store operations as single steps and interleaves uploads,
  publishing, streams that flush and then subscribe, and inbox fetches. `InboxAlone.dfy` (and
  `Streams.UploadAlone`) show that one request whose steps nobody interrupts does what the whole operation does.
- **Routing and codecs.** `Handles.dfy` (spellings), `ShareIds.dfy` and `ShareLinks.dfy` (base32 IDs with the
  mode in front, links and their parser), `Base64.dfy` and `Envelopes.dfy`, `Sse.dfy`, `FilePayloads.dfy`,
  `Args.dfy` and, for the commands' own flags, `Commands.dfy`; `Ascii.dfy` has the string helpers.
- **The dashboard session.** `Session.dfy` is a class with the page's state; ghost fields record what happened,
  and the invariant ties the visible state to that record.

Where an obvious claim is false of the code, the exact condition is proved:

- a message read twice, or never: `InboxSteps.ReadTwice`, `InboxSteps.LosesIff`, `InboxSteps.DropsIff`,
  `InboxSteps.DeletedUnreadIff`, and for whole runs `InboxSteps.ReadTwiceIff` and `InboxSteps.ExactlyOnceIff`;
- a message discarded by a `with` stream, and never written to it: `Streams.DiscardsIff`, `Streams.RunDiscardsIff`,
  `Streams.NeverWrittenIff`;
- a queue name that is another's, a full drain that takes another's queue: `RelayStore.NameIsOwnIff`,
  `RelayStore.PushedNameIsOwnIff`, `RelayStore.ReachedIff`, `Patterns.OwnQueuesOnlyIff`;
- a lifetime that is not the clamped request: `Relay.ClampedIff`; one cut short by a later push, an index that goes before a
  queue it lists: `RelayStore.LastPushDecides`, `RelayStore.IndexExpiresFirst`;
- a lookup with a foreign fingerprint after a deletion or a flush: `Registration.DeleteIsSafeIff`,
  `Registration.FlushIsSafeIff`;
- spellings that do not meet: `Handles.Rendezvous`; bytes, files, events and arguments that do not come back:
  `Envelopes.DecodingPathAgrees`, `FilePayloads.FileRoundTrip`, `Sse.RoundTripIff`, `Args.ParsedAsGrouped`,
  `Commands.ReadIff`; an open chat that is not listed: `Session.ListedIfTrimmed`, `Session.Session.SelectContact`.

Concrete failing runs and inputs stand beside them: `InboxSteps.PushInTheGapIsLost`, `Streams.GapLoses`,
`RelayStore.ColonsCollide`, `RelayStore.LongerIsReached`, `RelayStore.StarReachesAll`, `Relay.WrapShortens`,
`Registration.LateFingerprint`, `Registration.ForeignFingerprint`, `Handles.TooManyPrefixes`, `Args.GroupingMisleads`.

Where the code and its comments differ, the code is followed. The comment in `redis.go` takes HSETNX followed
by HSET to be sufficient for registration. It is, as long as no handle is removed; a deletion keeps lookups sound exactly
if nobody is registering that handle, and a flush exactly if nobody is registering any. The comment in
`normalizeArgs` says the flag parser then parses correctly: for any line of declared flags and words it does, except
that in `run` a word behind `-open` is taken for its value; values with a hyphen in front are outside that
(`Args.HyphenIsTaken`). `burn` concerns `GET /paste` only; queued and published copies carry the ciphertext
separately, and the model keeps them separate.

## Model

| member | source | states |
|---|---|---|
| `RelayStore.KeyNamesDiffer` | server/internal/store/redis.go:203-206 | No Redis key can have two of the four prefixes, so keys, pastes, inboxes and sender indexes never collide |
| `RelayStore.InboxNamesDiffer` | server/internal/store/redis.go:210 | For handles without colons a queue's name determines recipient and sender; for a fixed sender it always determines the recipient |
| `RelayStore.ColonsCollide` | server/internal/store/redis.go:210 | With a colon in a handle two different inboxes share one queue |
| `RelayStore.NameIsOwnIff` | server/internal/store/redis.go:210 | Among all pairs of strings a queue name belongs to one recipient and sender only if and only if neither of the two has a colon |
| `RelayStore.PushedNameIsOwnIff` | server/internal/store/redis.go:210 | Among the pairs the relay pushes for, whose sender is not empty: if and only if the recipient has no colon and the sender none before its last character |
| `RelayStore.ReachedIff` | server/internal/store/redis.go:241-258 | For a recipient without glob characters: exactly which queues a full drain reaches, those of whatever handles, namely the ones whose recipient and sender, joined, begin with the recipient and a colon; the sender index makes no difference |
| `RelayStore.LongerIsReached` | server/internal/store/redis.go:241-258 | So the drain of `a` always takes every queue of `a:b` |
| `RelayStore.ReachedIsOwn` | server/internal/store/redis.go:241-258 | Among handles without colons, for a recipient without glob characters, a full drain reaches exactly that recipient's queues, whatever the sender index holds |
| `RelayStore.StarReachesAll` | server/internal/store/redis.go:257-258 | A recipient spelled `*` reaches every queue of everybody |
| `Patterns.OwnQueuesOnlyIff` | server/internal/store/redis.go:241-258 | Among the queues of colon-free handles with non-empty senders: full drains of a recipient reach, in every database, its own and no others if and only if the recipient has no colon and none of the characters special to KEYS |
| `Redis.PrefixPattern` | server/internal/store/redis.go:257-258 | KEYS with a literal prefix and a final star matches exactly the keys with that prefix |
| `Globs.GlobIsMeaning` | server/internal/store/redis.go:257-258 | The matcher agrees with the meaning of patterns, for every pattern of stars, question marks, bracket classes with ranges, escapes and negation, quoted and literal characters, and every text |
| `RelayStore.DeliveryIsBlocks` | server/internal/store/redis.go:247-267 | A full drain's answer is cut into consecutive blocks, one per queue, each in its own push order and complete |
| `RelayStore.DrainIsExact` | server/internal/store/redis.go:240-270 | A full drain of a recipient without glob characters takes exactly the queues `ReachedIff` names, leaves the others, and delivers each taken queue whole as one block; among colon-free handles those are the recipient's own |
| `RelayStore.PushPipeline` | server/internal/store/redis.go:209-222 | The four pipelined commands together append one message, add the sender to the index, and reset both deadlines |
| `RelayStore.LastPushDecides` | server/internal/store/redis.go:213-214 | Whatever was there before, after a push the queue is what it was then plus the message until exactly that push's deadline, and nothing after it: a later push may cut an earlier message's lifetime short |
| `RelayStore.IndexExpiresFirst` | server/internal/store/redis.go:213-216 | After a push from another sender the index is gone while this queue still lives exactly between the deadlines of the two, and the key scan still finds the queue |
| `RelayStore.Store.RegisterKey` | server/internal/store/redis.go:87-105 | Alone: succeeds exactly if the handle has no public key, then stores key and fingerprint; otherwise changes nothing |
| `RelayStore.FoundAsRegistered` | server/internal/store/redis.go:87-129 | A registered handle is looked up with exactly the key and fingerprint registered, a deleted one is not found, and both leave every other handle's answer as it was |
| `RelayStore.Store.DeleteKey` | server/internal/store/redis.go:126-129 | Removes that handle's hash and nothing else |
| `RelayStore.Store.PutPaste` | server/internal/store/redis.go:137-150 | Stores under a free ID with its deadline; a taken ID is refused and nothing changes |
| `RelayStore.Store.GetPaste` | server/internal/store/redis.go:166-187 | Returns the stored bytes or not-found; removes the paste exactly for burn IDs |
| `RelayStore.Store.PushInboxMessage` | server/internal/store/redis.go:209-222 | The database afterwards: message appended, sender indexed, deadlines reset, nothing else changed |
| `RelayStore.Store.GetAndClearInbox` | server/internal/store/redis.go:225-237 | Returns that queue and removes it; the sender leaves the index exactly when something was returned |
| `RelayStore.Store.GetAllAndClearInbox` | server/internal/store/redis.go:240-270 | Returns every reachable queue once, whole, in some order, and removes exactly those and the index |
| `RelayStore.Store.FlushDb` | server/internal/store/redis.go:273-275 | Leaves an empty database |
| `PasteLedger.Ledger` | server/internal/store/redis.go:137-187 | In every interleaving, for each ID: present before + accepted puts = present after + (for burn IDs) successful reads + expiries + flushes |
| `PasteLedger.BurnOnce` | server/internal/store/redis.go:158-176 | However many readers race for a burn paste put once, at most one succeeds; exactly one, if it is gone without expiry or flush |
| `PasteLedger.ContentsAreLastPut` | server/internal/store/redis.go:137-187 | In every run, what a present ID holds is byte for byte what its last accepted put stored, deadline included |
| `PasteLedger.ReadsGiveLastPut` | server/internal/store/redis.go:166-187 | A read after any run gives exactly the bytes of the last accepted put of that ID |
| `PasteLedger.NothingLivesForever` | server/internal/store/redis.go:137-148 | In every reachable state a present paste was put at some time t, its deadline is t plus a lifetime within the bounds, and still ahead |
| `PasteLedger.GoneAtDeadline` | server/internal/store/redis.go:137-148 | As the clock moves on, a paste is present before its deadline and gone from then on |
| `PasteLedger.ModeInIdRefinesFlag` | internal/client/api.go:739-790 | Deciding GET or GETDEL from the ID answers every sequence of posts (fresh generated IDs) and fetches as the mock client's burn flag does |
| `PasteLedger.ModeInIdRefines` | server/internal/store/redis.go:166-187 | The same from any pair of stores that hold the same pastes |
| `Registration.WinsBalance` | server/internal/store/redis.go:87-129 | In every run, removals included: held before + registrations won = held after + removals that hit, for each handle |
| `Registration.KeyNeverChanges` | server/internal/store/redis.go:94-104 | Until a handle is removed its public key never changes and nobody else wins it |
| `Registration.StepRefines` | server/internal/api/handlers_test.go:38-72 | Each Redis command of a registration, lookup or undisturbed removal is one operation of the atomic registry, taking effect at the HSETNX |
| `Registration.RunRefines` | server/internal/api/handlers_test.go:38-72 | Every interleaving answers as the atomic registry does, except that a fingerprint may still be empty |
| `Registration.LookupsSound` | server/internal/store/redis.go:108-123 | Every lookup of such a run sees a real key with its own fingerprint or none yet |
| `Registration.RegistrationsOnly` | server/internal/store/redis.go:87-123 | With registrars and lookups only: at most one registrar per handle succeeds and every lookup is sound |
| `Registration.DeleteIsSafeIff` | server/internal/store/redis.go:126-129 | All lookups stay sound after a deletion, whatever follows, if and only if nobody was registering that handle |
| `Registration.FlushIsSafeIff` | server/internal/store/redis.go:272-275 | All lookups stay sound after a flush, whatever follows, if and only if nobody was registering any handle |
| `Registration.LateFingerprint` | server/internal/store/redis.go:101 | A registrar overtaken by a deletion revives the handle with a fingerprint and no key |
| `Registration.ForeignFingerprint` | server/internal/store/redis.go:94-101 | Or leaves its fingerprint beside the next registrant's key |
| `InboxSteps.StepKeeps` | server/internal/store/redis.go:209-270 | One Redis command of any push or drain, a tick or a flush keeps: each queue a suffix of its history, each batch a run of it, deliveries accounted for |
| `InboxSteps.RunKeeps` | server/internal/store/redis.go:209-270 | The same for every interleaving of any number of pushes and drains |
| `InboxSteps.EveryMessage` | server/internal/store/redis.go:209-270 | Each message ever pushed is still queued in its place, or was in a batch at its place, or was deleted unread, expired or flushed |
| `InboxSteps.HistoryIsPushes` | server/internal/store/redis.go:213 | A queue's history is exactly the messages pushed, in order |
| `InboxSteps.DropsIff` | server/internal/store/redis.go:228-233 | A drain's DEL removes a message it did not read if and only if something was pushed since its LRANGE and the queue is not empty |
| `InboxSteps.DeletedUnreadIff` | server/internal/store/redis.go:228-233 | A message queued when a DEL comes, whatever came between LRANGE and DEL: it is in no batch in any continuation if and only if no drain has read past it and not yet deleted |
| `InboxSteps.PushInTheGapIsLost` | server/internal/store/redis.go:228-233 | In particular the first push since an LRANGE, when the DEL is the next command, is in no batch, whatever happens afterwards |
| `InboxSteps.LostForGood` | server/internal/store/redis.go:228-233 | A message that left its queue unread is never delivered later |
| `InboxSteps.ReadTwice` | server/internal/store/redis.go:228-233 | In every reachable state and for every position: a step makes it read twice if and only if it is the LRANGE of that queue, the message is queued, and another drain has read past it and not yet deleted |
| `InboxSteps.ReadIffHeld` | server/internal/store/redis.go:228-233 | A message still queued is in some batch if and only if a drain that has read past it is about to delete |
| `InboxSteps.ReadTwiceIff` | server/internal/store/redis.go:228-233 | A run delivers some message of a queue twice if and only if one of its steps is such a second read |
| `InboxSteps.LosesIff` | server/internal/store/redis.go:209-270 | A step makes a queue lose a message undelivered if and only if it ends the queue (DEL, expiry, flush) while no drain has read up to its end |
| `InboxSteps.ExactlyOnceIff` | server/internal/store/redis.go:209-270 | After a run from an empty relay every message that left a queue was in exactly one batch, and none is in two, if and only if no step of the run rereads or strands |
| `InboxSteps.CleanInOrder` | server/internal/store/redis.go:209-237 | In such a run, when no drain is holding the queue: pushes = all batches in order, then the queue |
| `InboxSteps.ExactlyOnce` | server/internal/store/redis.go:209-237 | Where nothing came between a drain's LRANGE and DEL and nothing expired or was flushed: pushes = all batches in order, then the queue |
| `InboxSteps.NoQueueForever` | server/internal/store/redis.go:213-216 | In every interleaving a queue with no push in progress is gone after the longest lifetime without further pushes |
| `InboxSteps.GoneAtDeadline` | server/internal/store/redis.go:213-216 | As the clock moves on, a queue is as it was before its deadline and gone from then on |
| `InboxAlone.PushAlone` | server/internal/store/redis.go:209-222 | Uninterrupted, the four commands of a push have the effect of the whole operation |
| `InboxAlone.DrainOneAlone` | server/internal/store/redis.go:225-237 | Uninterrupted, LRANGE, DEL and SREM have the effect of the whole operation, and the batch read is the whole queue |
| `InboxAlone.DrainAllAlone` | server/internal/store/redis.go:240-270 | Uninterrupted, a full drain has the effect of the whole operation and reads exactly the messages of its answer, in whatever order its loops visit senders and keys |
| `InboxAlone.RequestFinishes` | server/internal/store/redis.go:209-270 | No push or drain is ever stuck: from wherever it stands among others, its own next commands bring it to its end |
| `InboxAlone.DrainFinishes` | server/internal/store/redis.go:240-270 | So a full drain always has such an uninterrupted run |
| `Relay.Wrap64` | server/internal/api/handlers.go:53 | The 64-bit result of a product: congruent, in range, unchanged if it fits |
| `Relay.ResolveBounds` | server/internal/api/handlers.go:49-61 | No requested TTL gets the default; every requested one, even if its product wraps, resolves into [Min, Max]; without wrap-around it is the clamped request, and monotone |
| `Relay.WrapShortens` | server/internal/api/handlers.go:53-55 | A request beyond the 64-bit range can be granted the minimum |
| `Relay.ClampedIff` | server/internal/api/handlers.go:49-61 | A request is granted its clamped lifetime if and only if the product fits, the policy is a single value, or what it wraps to is past the same bound |
| `Relay.FanOutQueue` | server/internal/api/handlers.go:210-220 | The fan-out appends the message once to each target's queue with a fresh deadline, and leaves every other queue as it was, deadline included |
| `Relay.TargetQueue` | server/internal/api/handlers.go:210-218 | For a given sender the queue of h is a target's queue exactly when h is a target |
| `Relay.FanOutKeepsShape` | server/internal/api/handlers.go:210-220 | The fan-out keeps the store well-formed and touches only queues and indexes |
| `Relay.UploadedQueue` | server/internal/api/handlers.go:157-225 | One accepted upload adds its event to the inbox of h if h is a spelling of the recipient, and nothing otherwise |
| `Relay.Handlers.UploadPaste` | server/internal/api/handlers.go:157-225 | When each error is returned, and that the store is then as it was; otherwise the ciphertext under its ID and one more message at the end of the queue of each spelling, all for the policy's default lifetime, or the requested seconds clamped to its bounds, every other paste and queue as it was, and the events published |
| `Relay.Handlers.FanOutTo` | server/internal/api/handlers.go:203-221 | The loop with its `seen` map queues and publishes each distinct spelling once, in order; without a sender it only publishes |
| `Relay.Handlers.OpenStream` | server/internal/api/handlers.go:252-309 | What a stream writes first, what leaves the store, and which channels it then listens on |
| `Relay.Handlers.FetchInbox` | server/internal/api/handlers.go:345-379 | What an inbox request returns and what leaves the store |
| `Streams.RunKeeps` | server/internal/api/handlers.go:157-341 | In every run queues are suffixes of their histories, what counts as written was written, and uploads have reached the spellings they passed |
| `Streams.NothingLost` | server/internal/api/handlers.go:195-222 | At every moment of every run, each spelling an upload reached has its message still queued, or written to a client, or expired or flushed; discarded only if some step of the run discards from that queue |
| `Streams.EndToEnd` | server/internal/api/handlers.go:195-340 | After a complete upload, and without `with` streams, that holds for the inbox of every spelling of the recipient, however publishing and subscribing interleave |
| `Streams.UploadAlone` | server/internal/api/handlers.go:203-221 | Uninterrupted, an upload that queues and publishes spelling by spelling has the effect of the whole fan-out on the store, and every client hears exactly the events that one announces, in order |
| `Streams.FinishIsRun` | server/internal/api/handlers.go:210-221 | That uninterrupted upload is a run of the step machine |
| `Streams.ReceiveWrites` | server/internal/api/handlers.go:314-339 | A stream writes the message it receives unless it filters for a sender and the message names another one, letter by letter and ignoring case; no other client is touched |
| `Streams.LiveDelivery` | server/internal/api/handlers.go:309-339 | From its subscription on a stream writes what is published to its channels, filtered, in order, without gaps |
| `Streams.OncePerSharedSpelling` | server/internal/api/handlers.go:203-221 | An uninterrupted upload adds its message to the output of an open stream without a filter once for every spelling that recipient and stream share; for the stream's own handle as often as that has spellings |
| `Streams.DiscardsIff` | server/internal/api/handlers.go:320-335 | For every step and queue: it discards messages if and only if a stream with `with` receives a message it shows, from a named sender, while that queue holds something from the sender it filters for; then it discards all that is left |
| `Streams.RunDiscardsIff` | server/internal/api/handlers.go:320-335 | A run discards something from a queue if and only if one of its steps does |
| `Streams.FilterDiscards` | server/internal/api/handlers.go:320-335 | Whatever follows, a discarded message stays discarded, and the stream writes it if and only if it already had it, written or waiting, or gets it published again |
| `Streams.NeverWrittenIff` | server/internal/api/handlers.go:320-335 | A discarded message is never written to the stream in any continuation that does not publish it to it again if and only if the stream neither wrote it nor had it waiting |
| `Streams.GapLoses` | server/internal/api/handlers.go:273-335 | A message whose whole upload runs after a `with` stream flushed and before it subscribes is discarded when the next one from that sender arrives, and never written to the stream in any run in which nobody uploads that envelope again |
| `Streams.QueueDeadlines` | server/internal/store/redis.go:209-222 | In every reachable state each queue's deadline is the time of its last push plus a lifetime within the policy, and still ahead |
| `ChatClient.PickTargets` | internal/client/api.go:468-485 | The loop's targets: the distinct spellings, without blanks, in order |
| `ChatClient.PostChatMessage` | internal/client/api.go:458-520 | Runs the posts one by one against the relay, failures included; returns the first accepted ID, else the kind of failure |
| `ChatClient.PostedQueue` | internal/client/api.go:481-511 | When all posts succeed, each inbox gains exactly one copy for every target whose server spellings contain it |
| `ChatClient.WhoReceives` | internal/client/api.go:468-485 | Every non-empty spelling of the recipient gains at least one copy, an inbox of another name none |
| `ChatClient.CopiesSay` | internal/client/api.go:458-497 | Every copy names the sender, carries the ciphertext, in base64 if it was not, and an ID in the chosen mode |
| `ChatClient.CopiesLive` | internal/client/api.go:464-511 | Every inbox that gained a copy lives for the seconds asked, a day if none or fewer are, clamped to the policy; the others keep their deadlines |
| `ChatClient.AtMostEighteen` | internal/client/api.go:468-485 | Over any distinct inboxes the two levels of fan-out queue at most 18 copies in all (not 25), and there is always a target |
| `ChatClient.EighteenAttained` | internal/client/api.go:468-485 | A message to `pv-Bob` makes 18 |
| `ChatClient.ChatFanOut` | internal/client/api.go:458-520 | All of this together: what each inbox gains, at most 18 copies over all inboxes and 18 events, and the returned ID is that of the first post |
| `Handles.Rendezvous` | server/internal/api/handlers.go:203-209 | Publisher and listener share a channel if and only if the names agree and the ranges of prefix counts overlap |
| `Handles.CaseAndOnePrefixMeet` | server/internal/api/handlers.go:293-307 | Handles equal ignoring case, or up to one leading `PV-`, always meet |
| `Handles.TooManyPrefixes` | server/internal/api/handlers.go:203-209 | Handles of one name can be too many prefixes apart to meet |
| `Handles.VariantKeepsName` | server/internal/api/handlers.go:203-209 | Every spelling names what the handle names, with at most one prefix more or less |
| `Handles.SpellingCount` | server/internal/api/handlers.go:203-215 | At most 5 distinct spellings, 4 for a handle in small letters, 3 for one in capitals |
| `Handles.StreamChannels` | server/internal/api/handlers.go:293-307 | The loop with its `seenCh` map yields the distinct spellings, enough to hear exactly the publishers that meet |
| `Handles.CandidateKeepsName` | internal/shell/shell_server.go:40-47 | Every candidate of the key lookup has the name of the trimmed handle |
| `Handles.FirstRegistered` | internal/shell/shell_server.go:49-59 | The loop asks for the candidates in order, none twice, up to and including the first registered one |
| `Handles.ResolveKey` | internal/shell/shell_server.go:34-62 | Finds the trimmed handle if it is registered, else its capitals, else its small letters, else the prefixed capitals, else itself or its capitals without the prefix; nothing if the handle is blank or none of these is registered; asks for none twice and for none after the one found |
| `ShareIds.NewIsBijective` | server/internal/idgen/idgen.go:41-60 | New is a bijection between (mode, 15 bytes) and IDs of one letter and 24 base32 digits, and the mode is readable from the ID |
| `ShareIds.NewIsInjective` | server/internal/idgen/idgen.go:41-53 | Different bytes or different modes never give the same ID |
| `ShareLinks.LinkRoundTrip` | cmd/pandora/read.go:16-33 | Reading back a printed share link, bare or in its colour codes, gives the ID it was printed for |
| `ShareLinks.BareText` | cmd/pandora/read.go:16-33 | Text that is no http(s) link is taken as it is, without the white space around it |
| `ShareLinks.BareIdIsRead` | cmd/pandora/read.go:16-33 | So a bare ID is read as itself |
| `ShareLinks.CodeIsStripped` | cmd/pandora/read.go:16 | ESC, a bracket, digits or semicolons and a letter are taken out, and so is the same without ESC if it ends in `m` |
| `ShareLinks.OnlyCodesAreStripped` | cmd/pandora/read.go:16 | Nothing else is taken out |
| `ShareLinks.ModeSurvivesTheLink` | cmd/pandora/send.go:147-151 | The mode and the random bytes survive printing and parsing, so the sender's choice decides the read mode |
| `ShareLinks.OrdinaryRelay` | cmd/pandora/send.go:147-151 | The round trip holds for every http or https address of letters, digits, dots, hyphens and a port, with any slashes at its end |
| `ShareLinks.UrlPathIs` | cmd/pandora/read.go:20-31 | For a URL given by scheme, host, path, query and fragment: when it parses, and that only its decoded path counts |
| `ShareLinks.LinkWithMore` | cmd/pandora/read.go:20-31 | A query, a fragment or slashes behind the ID and any plain path in front of it do not change what is read |
| `ShareLinks.UnparsedIsKept` | cmd/pandora/read.go:20-33 | A link that does not parse is taken as it is |
| `ShareLinks.EscapeBack` | cmd/pandora/read.go:21-24 | Percent escapes, in small or capital digits, decode to what was escaped |
| `Base64.RoundTrip` | internal/client/api.go:421-424 | Decoding undoes encoding for all bytes |
| `Base64.ForeignSymbol` | internal/client/api.go:459-462 | A symbol outside the alphabet anywhere makes text undecodable |
| `Base64.SymbolsAre` | internal/client/api.go:421-424 | The symbols are those of the standard alphabet in its order, the padding is the equals sign |
| `Envelopes.RelayAccepts` | server/internal/api/handlers.go:171-174 | What the client posts for a non-empty ciphertext always passes the relay's base64 check |
| `Envelopes.DecodingPathAgrees` | internal/client/api.go:599-601 | GetPaste and ListenStream, which decode on receipt: the first decryption attempt gets the original non-empty bytes if and only if they were not valid base64 themselves |
| `Envelopes.InboxPathAgrees` | internal/client/api.go:659-681 | FetchInbox, which does not decode: the same, or they were base64 of nothing |
| `Envelopes.AgeFileSurvives` | internal/crypto/decrypt.go:22-45 | Ciphertext with a `-` in it, as in the header of every binary age file, reaches age unchanged over all three paths |
| `Envelopes.TriedUnlessEmpty` | internal/crypto/decrypt.go:22-45 | Nothing is tried on an empty ciphertext; any other is tried decoded, if it decodes to something, or as it is |
| `Sse.Listen` | internal/client/api.go:588-605 | The scanner loop, with its line limit |
| `Sse.RoundTripIff` | server/internal/api/handlers.go:278-287 | For any tag and limit: the client receives exactly the list of payloads written if and only if each is intact |
| `Sse.FramingRoundTrip` | internal/client/api.go:588-605 | With the repository's tag and limit: no line feed, no final carriage return, short enough, is the exact condition |
| `FilePayloads.FileIff` | internal/crypto/decrypt.go:55-84 | For every text: it is a file exactly if what is between its white space is a record with one of the two flags and a non-empty payload in valid base64, its own field or what follows the first comma of the data URL; then with which name and bytes |
| `FilePayloads.PlaintextIsKept` | internal/crypto/decrypt.go:83 | Whatever is not a file is handed back as it came |
| `FilePayloads.FileRoundTrip` | internal/crypto/decrypt.go:55-84 | Decoding an encoded file gives base name and bytes if the file is not empty; an empty one is not recognised. Asks of JSON only that it gives this one record back |
| `FilePayloads.DashboardRoundTrip` | internal/web/static/app.js:752-759 | The dashboard's data-URL form decodes to the same bytes and name (a blank one becomes `received_file`) exactly if the file is not empty and the media type has no comma |
| `FilePayloads.BaseIsName` | internal/crypto/encrypt.go:84-91 | The stored name is a single path element: a plain name stays, with or without a directory in front, and no slash survives but the root's |
| `Args.NormalizeArgs` | cmd/pandora/ui.go:96-112 | The loop computes the stable partition of the tokens, flag groups first |
| `Args.TokensSpell` | cmd/pandora/ui.go:99-110 | The tokens (flags, flags with values, positionals) spell the argument list |
| `Args.StablePartition` | cmd/pandora/ui.go:96-112 | Flags and positionals are each picked in increasing order of position, and the two pickings cover every token |
| `Args.StablePermutation` | cmd/pandora/ui.go:96-112 | So normalising permutes the arguments and keeps the order among flags and among positionals |
| `Args.Idempotent` | cmd/pandora/ui.go:96-112 | Normalising twice is normalising once |
| `Args.Reread` | cmd/pandora/ui.go:96-112 | How any list with its flags in front is tokenised again |
| `Args.TokensPreserved` | cmd/pandora/ui.go:96-112 | Grouping the normalised list a second time, by the normaliser's own rule, gives the same tokens, flags first, if and only if no last flag waits for a value that a positional could supply |
| `Args.ParsedAsGrouped` | cmd/pandora/ui.go:95-112 | For any command: Go's flag parser reads the normalised list as the normaliser grouped it, every flag with its value and all positionals left over, if and only if each flag has a name the command declares and a value it accepts, and, unless that value is attached with `=`, is boolean exactly where the normaliser gave it none |
| `Args.KnownBooleans` | cmd/pandora/ui.go:86-112 | A flag without an attached value gives up the word behind it exactly if it is one of the ten known as boolean |
| `Commands.CommandIsRead` | cmd/pandora/send.go:16-33 | For the declared flags of `init`, `identity`, `send`, `read`, `chat`, `tui` and `shell`, and any line of flags in either spelling, values behind them or attached, and words, in any order: the parser gives each flag its value and leaves exactly the words |
| `Commands.RunIsReadIff` | cmd/pandora/run.go:22-40 | For `run` that holds if and only if each word right behind `-open` is followed by words alone and preceded by no other word |
| `Commands.ReadIff` | cmd/pandora/ui.go:95-112 | The same condition for any command and whichever of its boolean flags the normaliser does not know |
| `Args.HyphenStops` | cmd/pandora/ui.go:96-112 | A lone hyphen stops the parser before a flag behind it, although the second grouping is the same |
| `Args.DoubleHyphenStops` | cmd/pandora/ui.go:96-112 | A double hyphen stops it too, and is left out of what remains |
| `Args.HyphenIsTaken` | cmd/pandora/ui.go:96-112 | A value with a hyphen in front is parsed as the value, although the normaliser counts it as a flag |
| `Args.UnknownHides` | cmd/pandora/run.go:26-38 | A word after a boolean flag the normaliser does not know, such as `-open`, hides the flags behind it |
| `Args.GroupingMisleads` | cmd/pandora/ui.go:95-112 | Two command lines: `- --to b` is grouped the same twice and misread; `hello --ttl -5` is not, and is read well |
| `Session.AppendFollows` | internal/web/static/app.js:486-489 | Appending keeps a conversation equal to its log, pruned as of the last pruning |
| `Session.PruneFollows` | internal/web/static/app.js:524-527 | Pruning, at any later time, keeps that too |
| `Session.KeptTwice` | internal/web/static/app.js:841-853 | Pruning earlier and again later keeps what pruning once, later, keeps |
| `Session.KeptSurvives` | internal/web/static/app.js:841-853 | Pruning leaves, in their order and number, exactly the messages without an expiry or with one still ahead |
| `Session.RecentIsUnique` | internal/web/static/app.js:384-411 | The record of touches and removals determines the contact list: each live handle once, ignoring case, latest first |
| `Session.TouchKeepsRecent` | internal/web/static/app.js:390-411 | Moving or adding the touched contact to the front keeps the list the recency order of the record |
| `Session.RemovalKeepsRecent` | internal/web/static/app.js:1054-1056 | So does removing a contact |
| `Session.NextListed` | internal/web/static/app.js:1060-1062 | After a removal the open chat is empty or names a listed contact |
| `Session.ListedIfTrimmed` | internal/web/static/app.js:443-494 | A target just touched is listed exactly if it has no blanks around it |
| `Session.StoredTwiceNever` | internal/web/static/app.js:437-440 | No message ID is stored twice in a session, pruning and removal notwithstanding |
| `Session.EventGoesTo` | internal/web/static/app.js:443-445 | A group's event goes to the group, any other to its sender, or to the open chat if it names none |
| `Session.EventBecomes` | internal/web/static/app.js:446-484 | Sender, text, lifetime, expiry and direction of the message an event becomes |
| `Session.LifetimeOrder` | internal/web/static/app.js:654-690 | A lifetime chosen for messages goes before the conversation's, that before the session's, and then 300 seconds |
| `Session.TouchedDetails` | internal/web/static/app.js:384-411 | The touched contact is first, in its first spelling, with what is new of its details; all others keep theirs |
| `Session.SidebarRun` | internal/web/static/app.js:375-411 | After any run of touches, selections and removals the list is the recency order of the record, and the open chat, if only listed ones were selected, is a listed one |
| `Session.Session.TouchContact` | internal/web/static/app.js:384-411 | The contact list afterwards, with the first spelling kept and details refreshed; an open listed chat stays listed |
| `Session.Session.SelectContact` | internal/web/static/app.js:375-381 | Opens the chat, resets the message lifetime and removes from that conversation exactly the messages past their expiry; the open chat is then a listed one exactly if the handle is empty or listed |
| `Session.Session.RemoveCorrespondence` | internal/web/static/app.js:1054-1068 | Drops the contact in any spelling and the conversation under the given one; if that chat was open, the first contact left is opened instead; the conversation then open is pruned, the others stay as they were |
| `Session.Session.OnMessage` | internal/web/static/app.js:432-498 | Stored exactly if not empty and its ID new; then where it goes, with the preview text of a file, what is opened, and when the open chat stays a listed one |
| `Session.Session.SendMessage` | internal/web/static/app.js:654-690 | Sending appends the message with its effective lifetime and touches the contact |
| `Session.Session.PruneExpired` | internal/web/static/app.js:836-859 | Afterwards no conversation holds a message past its expiry, and all others are there, in their order and number |

## Left out

- Age encryption, X25519, SHA-256 and random sources: ciphertext is opaque bytes, the fingerprint an arbitrary function, random bytes an argument.
- HTTP, routing, status codes, logging, configuration, health checks, the token checks of the local server: wrappers without a deep property.
- JSON: records stand for their encodings; `FilePayloads` takes the codec as a parameter and assumes of it only that the record sent comes back (Go's JSON replaces invalid UTF-8, so names must be valid UTF-8 for that). File names use `/` as the only separator.
- Unicode case mapping and trimming: handles are ASCII.
- Redis failures and partly failed pipelines: commands succeed. Deadlines are exact; the whole-second rounding of EXPIRE is not modelled.
- The real clock: time is abstract and does not run back (a backward tick is ignored).
- Network delivery after a response is written, reconnects of the stream client, and requests cancelled half-way.
- The URL parser's verdict on the host part of a link is a parameter of `ShareLinks`.
- PostGroupChatMessageWithOptions: a loop over `PostChatMessage` that stops at the first failure.
- In the dashboard: the page itself, saving and loading the session, group and file details of a message (only the text shown is kept, and what a JSON parser makes of an event's text is a parameter), sending files, events whose group is missing rather than empty, and handles that name built-in properties of JavaScript objects.
- InboxSteps.NoQueueForever: gives an upper bound on the deadline only; the lower bound, with store operations as single steps, is in `Streams.QueueDeadlines`.
- Streams.NothingLost: pushes and drains are single steps there; what two interleaved ones can lose is in `InboxSteps`. Pastes themselves are left to `PasteLedger`.
- PasteLedger.NothingLivesForever: takes the bounds on lifetimes as given; `Relay.ResolveBounds` proves them for every request.
- PasteLedger.ModeInIdRefinesFlag: needs fresh IDs and no expiry, as the mock client has neither collisions nor deadlines.
