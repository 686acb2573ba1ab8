# KnoKeep: verified model

KnoKeep is a compare-and-swap key/value store whose leases carry monotone fences. It is built several
times, over memory, an object store, a directory with a write-ahead journal, and a git ref, and it has
two clients with protocols of their own: a store-to-store migration and a document editor that never
drops a losing edit. This project models those parts in Dafny and proves what they promise.

Everything is measured against one small specification, the fenced register of one key
(`Register.dfy`): value, owner token, expiry, allocated fence, last accepted fence, and four atomic
operations. The in-memory backend keeps exactly that state. The object store and the git backend are
proved to implement it over every interleaving of any number of clients. The local backend applies the
same write rule in each critical section, but a write that failed to publish can become visible when
the directory is next opened, so over several instances its fences, its generations and its recovery
are proved directly. The migration and the editor are proved on top of any store that answers like the
register, other people's late writes and names a failed create leaves blank included.

## How the files fit together

| file | models |
|---|---|
| `Types.dfy`, `Register.dfy`, `Generations.dfy`, `Framing.dfy` | results, the reference register, generation headers, binary and decimal numbers |
| `FakeBackend.dfy` | the in-memory backend, method by method against the register |
| `Envelopes.dfy`, `ObjectStore.dfy`, `ObjectStoreBackend.dfy` | envelope encoding; the protocol of N clients with delayed, repeated and lost PUTs; the retry loops against an adversary |
| `Journal.dfy`, `LocalStore.dfy`, `CrashRecovery.dfy`, `LocalFences.dfy`, `LocalGenerations.dfy`, `LocalBackend.dfy`, `LocalSettle.dfy` | the journal format and its parser, crashes, recovery, instances with separate caches, late publishing, the imperative backend |
| `Sidecars.dfy`, `Git.dfy`, `GitBackend.dfy` | sidecar text, commits on a ref that only fast-forwards, the push loops |
| `Store.dfy` | a store as clients meet it: others act between any two requests and each request ends as an adversary chooses |
| `MigrationLease.dfy`, `MigrationCopy.dfy`, `Reruns.dfy` | the migration mutex, the two-pass copy, and what interrupted runs and reruns leave |
| `Lines.dfy`, `Outline.dfy`, `SectionText.dfy`, `Sections.dfy` | the section lens, from lines up to the two patterns |
| `Patterns.dfy` | the patterns, the guard and the writer's newlines against what they are meant to be |
| `FrontMatter.dfy`, `SessionJournal.dfy`, `FlushDoc.dfy`, `Conflicts.dfy` | metadata blocks, the append-only journal, the conflict protocol, conflict resolution |
| `Dumping.dfy`, `Neighbours.dfy`, `NamedEdits.dfy`, `Reapply.dfy` | what a dump strips, one edit seen by another section, names, and when edits of other sections park a retry |

Check it with `dafny verify dfyconfig.toml`.

## Conventions

- sha256 is collision free: a version is its body behind a constructor, a sidecar path its key. The
  journal digest is any function with 32-byte output, and a conflict marker's truncated digest any
  function at all, so markers may collide.
- JSON text, float and integer spellings, Python's whitespace and line-break sets, clocks, tokens and
  the secret scanner are parameters, constrained only by what the proofs use.
- Concurrency is an adversary: machines have one step per request or critical section, and classes
  take a function from request number to what others do first and how the request ends. Ghost lists
  record what landed and what was read.
- A contract about any interference would also hold of a call that always refuses. So most methods
  have a second part: with no interference and no fault they do exactly what the specification says.
- Clock readings are integers.

## Where the code and its documentation differ

- `store/local.py` reopens its journal in append mode without cutting a torn tail; appended records
  count exactly when the journal was clean when opened (`AppendsCountIffClean`), and recovery is proved
  for that case.
- `store/local.py` answers BUSY after the journal append when the replace fails; the write is published
  when the directory is next opened, exactly if no other write of the key was committed in between
  (`BusyLandsLate`).
- `store/git_backend.py` reports NETWORK for a push that failed without a rejection marker, which
  counts as definitely not committed; the push may have landed (`NetworkHidesLanding`). The contract of
  `Write` says exactly when: the others left the way free and the server applied the push.
- `_acquire_migration_lease` documents that a refusal changes nothing on the target. That holds exactly
  when it comes before the lock or the lock allocated no fence (`Acquire`); otherwise the fence has
  advanced (`RefusalAdvancesFence`), and an unconfirmed create leaves a document.
- `session_append` keeps an existing body exactly when it is empty or starts with a character `dump`
  does not strip (`AppendKeepsBodyIff`).
- The section laws need names no heading line is shared by (`IndependentIffTwoNames`); the name check
  of `_flush_doc` accepts blank-padded names, some of which share one.
- `_section_eq` ignores trailing line ends so that edits of other sections never park a retry. They do
  not if the names are safe (`AlwaysKeptIff`) and the dump touches neither end of the document
  (`UnrelatedEdits`): it touches none of a dumped one (`StoredIsKept`), and no end made of line ends, LF
  or CRLF (`LineEndsAreSafe`). Blanks at the end of a hand-written document do park one (`FalsePark`).
- `store/local.py` answers BUSY for a create whose replace failed and leaves an empty file, so the same
  create meets a foreign value until the directory is reopened (`BusyCreateBlocksItself`). A migration
  that stops there ends as if uninterrupted exactly once the name is filled (`RerunsConverge`).

## Model

| member | source | states |
|---|---|---|
| `Register.JudgeCommits` | store/fake.py:164-213 | A write that commits is one enabled register step storing exactly its body; an update commits only under the newest lease, unexpired, on the expected version; a create only on an absent value. |
| `Register.JudgeIsExact` | store/fake.py:164-213 | When a write commits and what else it is answered: a create exactly where there is no value; an update exactly under the newest lease before its time is up, over the version it names, with a body that may follow it. |
| `Register.LeaseWorks` | store/fake.py:290-312 | What an acquisition is good for: under its lease an update of the value that is there commits at every time before the agreed one and at none from then on, and the lease is still good afterwards. |
| `Register.ExtensionWorks` | store/fake.py:330-346 | An extension moves that time and nothing else. |
| `Register.StepEffects` | store/fake.py:164-213 | One step never lowers the fence or the accepted fence, never un-writes a key, changes the owner only with a larger fence, and replaces a numbered value only by a larger number. |
| `Register.RunMonotone` | store/fake.py:269-312 | Over any run fences and accepted fences never go back and a written key stays written. |
| `Register.SupersededForever` | store/fake.py:269-288 | A lease whose fence a later acquisition passed never owns the key again, over any run. |
| `Register.AcquisitionsIncrease` | store/fake.py:290-312 | Two acquisitions of one key, whatever happens in between, get strictly increasing fences. |
| `Register.GenerationsGrow` | store/objectstore.py:1151-1157 | Along a run of numbered bodies the number grows with every change of value. |
| `Register.NoRecurrence` | store/objectstore.py:1151-1157 | ABA freedom: once a numbered value was replaced, neither it nor its version ever comes back. |
| `FakeBackend.FakeBackend.Write` | store/fake.py:125-232 | The dictionaries change by exactly the register step the shared write rule allows, for this key only; each injected fault strikes where it should (before anything, after landing, or instead of landing) with its own result. A call uses up exactly the one fault it reports, and a refused write leaves every fault armed. |
| `FakeBackend.FakeBackend.TakeFault` | store/fake.py:215-232 | Which injected fault fires, whether the write lands under it, the result it gives, and that it alone is used up. |
| `FakeBackend.FakeBackend.Lock` | store/fake.py:290-312 | A granted lock is the register acquisition with the next fence; a held key is refused and nothing changes. |
| `FakeBackend.FakeBackend.Unlock` | store/fake.py:314-328 | Releases exactly the unexpired lock of this token; the register of every key stays. |
| `FakeBackend.FakeBackend.Renew` | store/fake.py:330-346 | Extends the register owner expiry only while this token holds both the lock and the fence. |
| `Generations.ExtractCharacterized` | store/gate.py:198-216 | A body has generation g exactly when g fits uint64 and the body starts with the header made for g: the round trip, and no other spelling counts. |
| `Generations.HeaderIsExtracted` | store/gate.py:202-216 | Every uint64 generation is read back from its own header. |
| `Framing.BigEndianRoundTrip` | store/local.py:552-571 | `struct.pack` lengths and fences read back, for every number that fits the field. |
| `Framing.BytesRoundTrip` | store/local.py:416-475 | And a field is the encoding of the number it reads as. |
| `Framing.CanonicalIsDecimal` | store/gate.py:198-199 | A digit run without superfluous zeros is the decimal text of the number it denotes. |
| `Envelopes.DecodeEncode` | store/objectstore.py:284-366 | Decoding undoes encoding for every header that fits and every body, even a body that is itself an envelope. |
| `Envelopes.ValidateFields` | store/objectstore.py:315-348 | A header this adapter wrote validates to itself exactly with the body it describes. |
| `Envelopes.ValidateMeans` | store/objectstore.py:315-348 | The header checks accept exactly an object whose fields, each in a type JSON may give it, spell a header that describes the body. |
| `Envelopes.InterpretCurrent` | store/objectstore.py:863-910 | An object written by this adapter is read back as its own header and body. |
| `Envelopes.InterpretLegacy` | store/objectstore.py:863-910 | An object of the previous adapter (version metadata over the raw bytes) is read as that body, even when the bytes look like an envelope. |
| `Envelopes.InterpretIsHonest` | store/objectstore.py:863-910 | Whatever is read as an envelope has a version that is the hash of its body. |
| `ObjectStore.PutIsOneOperation` | store/objectstore.py:995-1338 | A PUT computed from a GET and applied to the version that GET saw is exactly the call's own register operation, enabled there. |
| `ObjectStore.DecisionIsVerdict` | store/objectstore.py:995-1188 | What a call decides from one GET is exactly the reference verdict on the state that GET shows: PUT where the register commits, otherwise the same refusal, or the settle loop for a lost fence. |
| `ObjectStore.LandingIsOneOperation` | store/objectstore.py:995-1338 | The same for any PUT ever sent that passes its condition, however late it arrives; other keys are untouched. |
| `ObjectStore.StepRefines` | store/objectstore.py:995-1338 | Every step of N clients (issue, delayed, repeated or lost PUT) is at most one register operation on one key; the system invariant is kept. |
| `ObjectStore.RunRefines` | store/objectstore.py:995-1338 | Refinement: over every interleaving the history of every key that starts absent, legacy or enveloped is a run of the register. |
| `ObjectStore.ForeignUntouched` | store/objectstore.py:1236-1280 | A foreign or corrupt object is never changed, over any run. |
| `ObjectStore.NoBodyRecurs` | store/objectstore.py:1151-1157 | ABA freedom of the object store: a replaced numbered body never becomes current again. |
| `ObjectStore.ListedIffReadable` | store/objectstore.py:912-956 | `list` yields exactly the keys for which `read` returns a value, on every bucket the two adapters and probe litter can produce. |
| `ObjectStore.StepKeepsTame` | store/objectstore.py:928-956 | Every protocol step keeps the bucket in the class the listing law is about. |
| `ObjectStoreBackend.Bucket.Put` | store/objectstore.py:673-701 | One conditional PUT: answered 200 landed; 412, 403 and a failure before sending did not; a landing passed its condition on the object it replaced. |
| `ObjectStoreBackend.LandingIsFaithful` | store/objectstore.py:995-1338 | A landing on the version its GET saw is the call's own register operation. |
| `ObjectStoreBackend.ObjectStoreBackend.WriteCreateOnly` | store/objectstore.py:995-1021 | A result classed definitely-not-committed means no PUT of this call took effect; OK means it landed or the key was seen holding the body; at most one landing, and it is the create. Undisturbed, the answer is exactly the reference verdict on the object that is there. Another value reported by EXISTS was seen during the call. A PUT that went wrong is reported as what went wrong, and contention alone exhausts the call only after all its rounds. On a foreign object the raw bytes decide, on a corrupt one CORRUPTION is answered. |
| `ObjectStoreBackend.ObjectStoreBackend.ResolveCreateConflict` | store/objectstore.py:1023-1096 | The same through the conflict loop: phantom fill-in, replay, foreign object, exhausted retries. Undisturbed, exactly the reference verdict. |
| `ObjectStoreBackend.ObjectStoreBackend.CreateRound` | store/objectstore.py:1035-1090 | One round of the conflict loop: another round only after a round that landed nothing; undisturbed, one round decides as the reference does. |
| `ObjectStoreBackend.ObjectStoreBackend.FillIn` | store/objectstore.py:1055-1090 | Filling in a phantom: a definitely-not-committed answer or another round excludes a landing; on the object the GET saw it lands. |
| `ObjectStoreBackend.ObjectStoreBackend.WriteCasUpdate` | store/objectstore.py:1100-1188 | The same for updates; an update that says OK has itself landed. Undisturbed, exactly the reference verdict at the clock reading used. A STALE is the write rule's refusal of the object seen, or the rule allowed it and another version was current at the PUT. |
| `ObjectStoreBackend.ObjectStoreBackend.PutUpdate` | store/objectstore.py:1158-1188 | The conditional PUT of an update and the reading of its answer: OK landed, definitely-not-committed did not, a lost condition means another version was current then, and on the object the GET saw it is OK. |
| `ObjectStoreBackend.ObjectStoreBackend.Settle` | store/objectstore.py:1190-1220 | The answer is the version at the last read, or the expected one when that read failed or found no envelope; nothing is written; it polls as long as the owner's write is awaited and nothing has changed, and its last read begins within a poll of the deadline. |
| `ObjectStoreBackend.ObjectStoreBackend.AdvanceDurableFence` | store/objectstore.py:1236-1280 | At most one landing, the acquisition; a fence is handed out exactly for the header that landed and exceeds the accepted fence. Undisturbed, only a foreign or corrupt object refuses it. It gives up only after a fault, on such an object, or after as many rejections as there are attempts. |
| `ObjectStoreBackend.ObjectStoreBackend.RenewDurableFence` | store/objectstore.py:1313-1338 | At most one landing, the extension; True only after it landed. Undisturbed, True exactly for the owner. False only after a fault, for another owner's key, or after as many rejections as there are attempts. |
| `ObjectStoreBackend.ObjectStoreBackend.Lock` | store/objectstore.py:1224-1234 | A lease carries the fence of the header that landed; a key held in this process is refused without a request. Undisturbed, a lease is granted exactly unless this process holds the key or the object is foreign or corrupt. |
| `ObjectStoreBackend.ObjectStoreBackend.Unlock` | store/objectstore.py:1282-1291 | Releases exactly the unexpired registry entry of this token. |
| `ObjectStoreBackend.ObjectStoreBackend.Renew` | store/objectstore.py:1293-1311 | The registry entry moves only if the durable extension landed. Undisturbed, it moves exactly for the holder of both the unexpired entry and the object. |
| `Journal.MagicIsNoKeyLength` | store/local.py:207 | The v2 magic never reads as a legal key length, so a legacy record is never taken for a v2 one. |
| `Journal.ReplayOfPrefix` | store/local.py:416-475 | Torn tail: for any records of either shape and any cut of the file, replay yields exactly the records lying wholly before the cut, in order, with their fences. |
| `Journal.NextOfPrefix` | store/local.py:416-475 | One record of a cut file: read whole, or not at all. |
| `Journal.ReplayTornAppend` | store/local.py:552-571 | One more record on a clean journal counts exactly once it is whole. |
| `Journal.ReplayExtends` | store/local.py:416-475 | Extending any file keeps everything replayed so far. |
| `Journal.CleanAppend` | store/local.py:552-571 | On a file replay reads to its end, an appended record is replayed last. |
| `Journal.TornTailHidesAppends` | store/local.py:374 | The witness: over one to three bytes of a torn magic nothing appended is replayed, for the first gigabyte. |
| `Journal.AppendsCountIffClean` | store/local.py:416-475 | An appended record is replayed last, whatever record it is, exactly when replay had read the file to its end: any unread byte makes some record's append go missing. |
| `Journal.ReadRecord` | store/local.py:416-475 | One iteration of the cursor loop: the next record and the cursor after it, or the point where parsing stops, as the specification says. |
| `Journal.ReadPayload` | store/local.py:432-475 | Reads length, body and digest at the cursor exactly as the specification does. |
| `Journal.IterRecords` | store/local.py:416-475 | The cursor loop over the file yields exactly the specified replay. |
| `Journal.ReplayIsHonest` | store/local.py:416-475 | Nothing is replayed that was not framed with its lengths and digest: of any file, what replay yields is exactly what the part it read encodes, and the rest begins with something that is no record. |
| `LocalStore.LatestIsLast` | store/local.py:477-496 | The record replay keeps for a key is the last one of that key, at or after any given record of it. |
| `LocalStore.LatestIsARecord` | store/local.py:477-496 | Whatever is kept for a key is a record of the journal with that key. |
| `LocalStore.StopLeaves` | store/local.py:587-608 | What a reader finds where a commit stopped: the old file before the publish, an empty one once a create reserved its name, the new body once the replace was done; other files stay. |
| `LocalStore.LockIsAcquire` | store/local.py:941-991 | A lock is granted exactly when no advisory entry is in force and it does not die on the way; its owner file is then the register acquisition, and nothing else changes. |
| `LocalStore.LockedLeaseWrites` | store/local.py:752-781 | Under the lease it grants, an update of the value that is there is stored at every time before the agreed one, and refused for its fence from then on. |
| `LocalStore.LockExcludes` | store/local.py:941-991 | Until that time nobody else is granted the key, and from then on anybody is. |
| `LocalStore.RenewIsExtend` | store/local.py:1017-1051 | A renewal by the holder of both files is the register extension, and both are then in force until the new time; anybody else's changes nothing. |
| `LocalStore.UnlockFrees` | store/local.py:993-1015 | After the holder unlocked the next lock is granted at once, with a larger fence; nobody else frees a key. |
| `LocalStore.WriteIsOneOperation` | store/local.py:698-750 | A write that completes is one register operation for the instance that made it, and touches no other key. |
| `CrashRecovery.CrashRecovery` | store/local.py:477-496 | For any run of commits, failed publishes, crashes, reopenings and reopenings that die half-way over a clean journal, then a crash at any byte of an append or any later step: reopening leaves every journalled key equal to its last whole record, with its fence, and every other file as it was. |
| `CrashRecovery.AcknowledgedWritesSurvive` | store/local.py:835-854 | Every write that returned OK is, after recovery, its key's value or older than a later whole record of the key. |
| `CrashRecovery.AcknowledgedFenceLostAfterTornTail` | store/local.py:374 | What a lost commit costs: over a torn magic an acknowledged commit is published and never replayed, and the next reopening forgets its fence. |
| `CrashRecovery.AcknowledgedBodyRolledBack` | store/local.py:374 | The worse cost: if an older whole record of the key lies before the torn magic, the next reopening puts that older body back over the acknowledged one, and its older fence with it. |
| `CrashRecovery.CommitsReplayedIffClean` | store/local.py:374 | Completed commits are all replayed exactly when the journal that was reopened for appending was clean. |
| `CrashRecovery.ReopeningIsRestartable` | store/local.py:477-496 | A reopening that dies between two keys or inside the rebuild of one loses nothing: reopening again ends as if it had not been tried. |
| `CrashRecovery.JournalOfRun` | store/local.py:835-854 | The journal of a run is the past entries and one record per commit, in order. |
| `LocalBackend.LocalBackend.Resume` | store/local.py:477-496 | The replay loop leaves the files and the cache of accepted fences as recovery specifies. |
| `LocalBackend.LocalBackend.LatestOf` | store/local.py:477-484 | The dictionary loop keeps the last record per key. |
| `LocalBackend.LocalBackend.Rebuild` | store/local.py:484-496 | Every key is rebuilt to its record and its fence cached, whatever the order. |
| `LocalBackend.LocalBackend.JournalAppend` | store/local.py:552-571 | Exactly the record's bytes up to the crash are appended; whole keeps the journal clean. |
| `LocalBackend.LocalBackend.Publish` | store/local.py:587-608 | Reserve then replace, and what each stopping point leaves: absent, empty or whole. |
| `LocalBackend.LocalBackend.Commit` | store/local.py:835-854 | Journal first, publish second, cache last; the cache moves only on completion. |
| `LocalBackend.LocalBackend.Refusal` | store/local.py:698-750 | Exactly the refusals of the shared write rule, in its order, on the owner file and this instance's cache. |
| `LocalBackend.LocalBackend.Write` | store/local.py:698-750 | The whole critical section equals its specification on directory, journal bytes and cache, for every stopping point down to the byte of the append. |
| `LocalBackend.LocalBackend.Lock` | store/local.py:941-991 | The fence is one above everything allocated durably or accepted in this cache; the owner file is written before the advisory one. |
| `LocalBackend.LocalBackend.Unlock` | store/local.py:993-1015 | Removes exactly the unexpired advisory entry of this token. |
| `LocalBackend.LocalBackend.Renew` | store/local.py:1017-1051 | Extends both files, and says so, exactly while this token owns both; the fence stays. |
| `LocalFences.CommitsOnlyUnderNewest` | store/local.py:752-781 | A fenced write commits only under the newest allocated fence and its token, before expiry, on the expected version. |
| `LocalFences.StepKeepsInv` | store/local.py:698-991 | Every critical section of every instance keeps: the allocated fence bounds every cached and journalled fence, and journalled fences per key never decrease. |
| `LocalFences.RunKeepsInv` | store/local.py:698-991 | So does every interleaving of any number of instances with their own caches. |
| `LocalFences.GrantIsNewest` | store/local.py:941-991 | A granted lock exceeds everything allocated before and is then the newest. |
| `LocalFences.LocksIncrease` | store/local.py:941-991 | Successive locks of one key, from any instances, get strictly increasing fences. |
| `LocalFences.SupersededLeaseNeverCommits` | store/local.py:752-781 | After a later grant, a write under an older fence changes nothing, from any instance, for ever. |
| `LocalFences.LeaseGoodUntilNextLock` | store/local.py:752-781 | Over any run: as long as nobody is granted the key again or renews it, a write under a granted lease, from any instance and over the value that is there then, commits exactly before the agreed time, whatever was written, crashed, unlocked or reopened in between. |
| `LocalFences.JournalFencesNeverDecrease` | store/local.py:835-854 | From an empty directory, journalled fences per key never decrease over any run. |
| `LocalGenerations.StepMoves` | store/local.py:698-854 | Every critical section, crash and reopening of any instance moves a key's visible value forward by the generation guard, or not at all; what the journal holds unpublished may follow what is visible. |
| `LocalGenerations.GenerationsGrow` | store/local.py:740-744 | Over any run of any number of instances, late publishing included, a key's generation never goes back and every change of its numbered value raises it. |
| `LocalGenerations.NoRecurrence` | store/local.py:740-744 | ABA freedom of the local backend: a numbered value that was replaced never becomes visible again, nor does its version. |
| `LocalGenerations.BusyHidesARecord` | store/local.py:573-684 | A write inside the critical section answers BUSY exactly when it reached its commit and the replace failed: the record is then last in the journal, an update leaves the file as it was, and a create leaves it empty. |
| `LocalGenerations.BusyCreateBlocksItself` | store/local.py:587-608 | The same create issued again meets the empty file and is answered EXISTS with the version of nothing, changing nothing, unless it writes nothing itself. |
| `LocalGenerations.BusyLandsLate` | store/local.py:677-684 | Over any run: at any later opening the record of a write answered BUSY, update or create, is what the key shows exactly when no other write of the key was committed in between; otherwise the key shows a record after it. |
| `LocalGenerations.LastUntilNext` | store/local.py:477-496 | Over any run the journal only grows, and a record stays the last of its key exactly until the next write of that key is committed. |
| `LocalSettle.Scene.Settle` | store/local.py:791-833 | When the owner's fence was seen consumed, the answer was read after that commit's publish; the loop ends within its bound of rounds; an unreadable file gives the expected version. As long as the owner's write is awaited and nothing has changed it polls up to the deadline. |
| `LocalSettle.VersionFirstIsStale` | store/local.py:791-833 | Reading version and fence in the other order can return the version from before the race. |
| `Sidecars.SidecarRoundTrip` | store/git_backend.py:472-508 | A sidecar parses back to what was encoded exactly unless the token is the text None; it always parses. |
| `Sidecars.ParsedIsPrintable` | store/git_backend.py:496-508 | Whatever parses can be encoded again. |
| `Sidecars.SplitJoin` | store/git_backend.py:497-500 | Splitting on single spaces undoes joining words. |
| `Git.PushLandsIffUnmoved` | store/git_backend.py:702-713 | A push of a child of the captured head is a fast-forward exactly when the ref is still that head, or already is this commit. |
| `Git.CommitIsOneOperation` | store/git_backend.py:791-918 | The commit a call builds is exactly its register operation on the value and the sidecar of its key. |
| `Git.DecisionIsVerdict` | store/git_backend.py:791-918 | What a write decides from a captured head is exactly the reference verdict on the value and sidecar found there. |
| `Git.CommitTouchesOnlyItsKey` | store/git_backend.py:398-431 | A commit changes its key and that key's sidecar and nothing else; an update changes both at once, a create never the sidecar. |
| `Git.ForeignBlobsKept` | store/git_backend.py:512-574 | No call overwrites a blob at a sidecar path that is not a sidecar. |
| `Git.ViewMeans` | store/git_backend.py:734-753 | Readers see every value of a key, and a user's blob at a sidecar path too; what the fence wrote they never see. |
| `Git.FenceCommitsAreInvisible` | store/git_backend.py:734-754 | Lock and renew commits leave everything `read` and `list` show unchanged. |
| `Git.WriteCommitsShowOneKey` | store/git_backend.py:734-754 | Write commits change what is shown at their own key only. |
| `Git.StepRefines` | store/git_backend.py:791-918 | Any push by any client, from any head captured earlier, is at most one register operation on one key; other keys and the invariant are kept. |
| `Git.RunRefines` | store/git_backend.py:791-918 | Refinement: over every run of pushes each key's history is a run of the register, and the ref's history is only extended. |
| `Git.ForeignBlobsSurvive` | store/git_backend.py:532-547 | User data at a sidecar path survives every run. |
| `GitBackend.Remote.Push` | store/git_backend.py:702-713 | What a push does and what its caller is told, for everything the others pushed first and every way it can end. |
| `GitBackend.ForwardIffWayFree` | store/git_backend.py:702-713 | A push lands on the ref exactly when the others pushed nothing since the capture, or one pushed this very commit. |
| `GitBackend.LandingIsFaithful` | store/git_backend.py:791-918 | A landing is the call's own operation, touches two paths at most, and for lock and renew is invisible. |
| `GitBackend.GitBackend.Capture` | store/git_backend.py:791-830 | The head a write works from is the ref as just fetched. |
| `GitBackend.LockedTenure` | store/git_backend.py:548-552 | After a lock commit the sidecar names the token, its expiry and a fence above all before. |
| `GitBackend.GitBackend.Write` | store/git_backend.py:791-918 | OK has landed or replays a create. Any other answer hides a landing exactly when the push found the way free, the server applied it and the exit status failed without a rejection marker, and the answer is then NETWORK; an exception is a push that timed out. At most one push, at a known turn. Undisturbed, the answer is exactly the reference verdict at the fetched head. |
| `GitBackend.GitBackend.Send` | store/git_backend.py:858-918 | Build, scan and push of a decided write: at most one push, and the answer follows from how it ended. |
| `GitBackend.GitBackend.NetworkHidesLanding` | store/git_backend.py:895-918 | The witness: on an unborn branch, with nobody else at work, a write is answered NETWORK, which counts as definitely not committed, and has landed. |
| `GitBackend.GitBackend.AfterRejection` | store/git_backend.py:891-918 | After a rejection nothing is retried: STALE for an update, and for a create what a re-read shows. |
| `GitBackend.GitBackend.Settle` | store/git_backend.py:579-596 | One re-read at the fresh head, or the expected version. |
| `GitBackend.GitBackend.AdvanceDurableFence` | store/git_backend.py:512-574 | The fence is returned exactly for the sidecar that landed. It gives up only after a fault, on a blob that is no sidecar, or after as many rejected pushes as there are attempts; undisturbed, exactly on such a blob. |
| `GitBackend.GitBackend.RenewDurableFence` | store/git_backend.py:598-632 | True only after the extension landed; False only after a fault, for another owner's key, or after as many rejected pushes as there are attempts. Undisturbed, True exactly for the owner. |
| `GitBackend.GitBackend.FenceRound` | store/git_backend.py:548-570 | One round of a fence loop: another round only after a push that landed nothing; a landing goes unreported exactly when the push applied and its answer was lost. |
| `GitBackend.GitBackend.Lock` | store/git_backend.py:922-932 | A lease carries the fence of the sidecar that landed, and a key held in this process is refused without a push. Undisturbed, a lease is granted exactly unless this process holds the key or its sidecar path holds a blob that is no sidecar. |
| `GitBackend.GitBackend.Renew` | store/git_backend.py:945-961 | The registry entry moves only with a landed extension. Undisturbed, it moves exactly for the holder of both the unexpired entry and the sidecar. |
| `Store.Store.Persist` | store/gate.py:569-616 | The write door as callers meet it: OK means the body is there and an update landed; STALE and EXISTS mean nothing landed or ever will; an error or an exception leaves open whether it landed, whether it lands later, and whether a create left its name reserved with a blank value, and marks the key as doubtful. With nobody else acting and no fault it answers as the reference register does. An exception or a timeout is exactly an answer that was lost. |
| `Store.Store.Lock` | store/backend.py:65-68 | A lease is the newest acquisition of the key; a refusal may or may not have advanced the fence. With nobody else acting it is granted. |
| `Store.Store.Read` | store/backend.py:37-41 | A read shows the value after whatever others did, late writes answered with an error included. |
| `MigrationLease.Unbroken` | migrate/migrate.py:367-379 | If the current control document is the run's own, every write since its first was its own, whoever else was at work. |
| `MigrationLease.TakenOverForever` | migrate/migrate.py:308-365 | Once another run's document landed after a run's first, that run never writes the control document again. |
| `MigrationLease.OneOfTwoIsShutOut` | migrate/migrate.py:419-508 | Of two runs that both wrote, the earlier one is shut out for good: it cannot verify and cannot write. |
| `MigrationLease.TakeoverWaits` | migrate/migrate.py:440-470 | Whoever next replaces a document that proved ownership, having found it free to take, looked at it no earlier than the time the document names. |
| `MigrationLease.WhoMayTake` | migrate/migrate.py:440-470 | Real data keeps every newcomer out, a holder until the time its document names; an absent or released document keeps out nobody. |
| `MigrationLease.MigrationLease.VerifyOwnership` | migrate/migrate.py:367-379 | It passes only if no other run's document landed since this run acquired the lease. With nobody else at work it passes exactly while the document is this run's. |
| `MigrationLease.MigrationLease.WriteDoc` | migrate/migrate.py:308-365 | Success means the document was this run's own up to the replacement; a run that was taken over fails and writes nothing, through every fence re-acquisition. With nobody else at work it succeeds exactly while the document is this run's, even when its fence was lost. |
| `MigrationLease.MigrationLease.WriteOnce` | migrate/migrate.py:308-345 | One attempt: a success lands a document with the run's fields and the clock reading it was built from, and another attempt follows only if nothing was written. |
| `MigrationLease.MigrationLease.TryWrite` | migrate/migrate.py:322-345 | One fenced write: it lands only over this run's own document. |
| `MigrationLease.MigrationLease.Reacquire` | migrate/migrate.py:345-365 | A fresh fence is taken only while the document is still this run's. |
| `MigrationLease.MigrationLease.HeartbeatIfDue` | migrate/migrate.py:381-403 | Either ownership was proven less than a heartbeat ago, or a renewal was due and has just proven it up to now; a failure leaves the last proof as it was. A run that was taken over is told so when a renewal is due and writes nothing. With nobody else at work a renewal that is due passes exactly while the document is this run's. The fence is renewed first, and if that raises nothing is written. |
| `MigrationLease.MigrationLease.Release` | migrate/migrate.py:405-416 | Writes nothing for a run that was taken over. With nobody else at work it leaves a released document, and any newcomer finds the key free at once. |
| `MigrationLease.Acquire` | migrate/migrate.py:419-508 | The document replaced was absent, released or expired by the clock right after it was read; the new one names the run it follows and the one it takes over from; real data is never repurposed; a create is confirmed by a fenced write of the run's own. A refusal left the key alone exactly when it came before the lock, or the lock allocated nothing; a refusal for lack of confirmation left a document. With nobody else at work it is taken exactly when the control key is absent, released or expired. |
| `MigrationLease.RefusalAdvancesFence` | migrate/migrate.py:457-468 | The witness: a lock that raises after its fence was allocated is a refusal that changed the target, on a key nobody ever used. |
| `MigrationLease.TakeAndConfirm` | migrate/migrate.py:457-508 | Lock, first document and confirmation: which refusals left a fence, and which a document. |
| `MigrationLease.Probe` | migrate/migrate.py:440-470 | What a newcomer may conclude from reading the control document, without changing it. |
| `MigrationLease.Take` | migrate/migrate.py:472-495 | The first write of a run replaces exactly the document it read; a refusal means it was not recorded, and an unchanged value under a good lease is enough to take it. |
| `MigrationLease.TakeUnder` | migrate/migrate.py:472-508 | First document and, for a create, its confirmation: the document replaced is the one that was read; a refusal for lack of confirmation left a document behind. |
| `MigrationLease.Record` | migrate/migrate.py:472-495 | The first document: recorded means it landed over exactly the value that was read; a fresh lease and an unchanged value are enough. |
| `MigrationLease.Confirm` | migrate/migrate.py:496-508 | A created document is confirmed by a fenced write, or the run gives up; with nobody else at work it is confirmed. |
| `Reruns.Agreeing` | migrate/migrate.py:1005-1101 | How many keys precede the first divergence: none of them diverges, the next one does. |
| `Reruns.Resumable` | migrate/migrate.py:985-1174 | A run that stopped anywhere before the first divergence changes nothing about how an uninterrupted run ends. |
| `Reruns.StubResumable` | migrate/migrate.py:1076-1101 | A run that stopped at a name its create left reserved can be resumed exactly when the source's value is the blank one; otherwise every later run changes nothing and stops there as at a divergence. |
| `Reruns.LeftResumable` | migrate/migrate.py:985-1174 | For whatever a run may leave, whole copies or a reserved name after them: when it can be resumed, and that filling the name makes it so. |
| `Reruns.RerunsConverge` | migrate/migrate.py:985-1174 | Any number of interrupted runs and reopenings, then one run that is not interrupted, end with the data and verdict of one run from the start, exactly when no create left a name reserved that no reopening filled. |
| `MigrationCopy.Reconcile` | store/gate.py:624-668 | An unknown create counts as OK exactly if a read now shows the intended body; never STALE. |
| `MigrationCopy.WriteOne` | migrate/migrate.py:1005-1101 | One create-only write with its unknown outcomes resolved: at most one landing, of the source's body, on an absent key. An answer that was lost is made up for by one read, and then the key's value decides: a create that landed is not given up. Without worse, only another value under the key stops it. |
| `MigrationCopy.CopyOne` | migrate/migrate.py:1005-1150 | The key is verified only if it was read, after the answer to its create, with the source's content. A failed create may leave a new key blank, and then the run stops. |
| `MigrationCopy.PassOne` | migrate/migrate.py:857-979 | Every key name and value scanned clean up to the first abort, the lease renewed as source reads take time; nothing is written to the target. With nothing failing, clean keys all pass. |
| `MigrationCopy.StepTwo` | migrate/migrate.py:985-1174 | One key of pass 2: the target is what it was plus a first part of the manifest, the counters split it by what was listed before; its write is issued less than a heartbeat after ownership was proven, and not at all after a due renewal failed. |
| `MigrationCopy.BeginStep` | migrate/migrate.py:985-1003 | The check before a write: the write is in time, or a due renewal failed. |
| `MigrationCopy.TakeoverComesLater` | migrate/migrate.py:381-403 | If clocks advance together, whoever took the key over after a data write's proof of ownership, having found it free, looked at it only after that write was issued, provided the proof took no longer than the lease's time leaves beyond a heartbeat. |
| `MigrationCopy.CopyCounted` | migrate/migrate.py:1005-1150 | One key copied and counted: the counters still split the keys written by what was listed before; if nothing worse happens on the target than lost answers, only a divergence stops it. |
| `MigrationCopy.PassTwo` | migrate/migrate.py:985-1174 | The loop, with time passing on the target: every data key was issued in its turn and less than a heartbeat after ownership was proven; at most one key beyond the verified ones was written; a failure is blamed on the key it happened at. Each verified key was read back after its create was answered. |
| `MigrationCopy.CopyScanned` | migrate/migrate.py:985-1211 | Pass 2 and the last ownership check: the report is truthful, success means the control key was the run's own up to the verdict. |
| `MigrationCopy.CopyAll` | migrate/migrate.py:857-1211 | Both passes and the last ownership check: a pass-1 abort changes no data key; every write was in time; success means undisturbed ownership up to the verdict and every key scanned clean. A data key is named in clear only if its name was scanned clean. |
| `MigrationCopy.CheckControlKey` | migrate/migrate.py:818-846 | Real data under the control key of the source aborts the run. |
| `MigrationCopy.MigrateBody` | migrate/migrate.py:797-1211 | Success: all source keys but the control key clean and each read back after its create was answered, counters equal, no other migration's document from the run's first to the verdict; abort: only a first part of the manifest written, create-only, each write in time, perhaps one name reserved where a create failed, and the key named is the one it stopped at. With nobody else at work and nothing failing, a migratable source gets through, or stops at a key the target holds with another value. Reported as migrated, a readable source had no secret and no user data under its control key. |
| `MigrationCopy.BlamedAfterVerified` | migrate/migrate.py:985-1172 | Every key before the aborted one, in the order of the manifest, was verified; after a loss behind a key's copy that key is verified too. |
| `MigrationCopy.LeaseAndRun` | migrate/migrate.py:696-794 | Lease, run and release: the report is truthful whatever happens to the lease, and success says what it says of the body. |
| `MigrationCopy.MigrateUnderLease` | migrate/migrate.py:764-790 | A source that shows this run's own control document, or cannot be read, is refused as an alias before any data is written. |
| `MigrationCopy.EveryKeyReadBack` | migrate/migrate.py:1108-1150 | After success every source key was read on the target, after its create was answered, with the source's content, and verified = copied + already present = source count. |
| `MigrationCopy.KeyReadBack` | migrate/migrate.py:1108-1150 | The same for the manifest's i-th key: an answer to its create, later a read of the source's value, and, with nobody else at work, that value on the target. |
| `MigrationCopy.ExistingDataUntouched` | migrate/migrate.py:1005-1101 | After any run every pre-existing target value is unchanged; a new value is the source's or, at the one key a create failed on, the blank value of a reserved name; and every verified key holds the source's value. |
| `MigrationCopy.RunIsResumable` | migrate/migrate.py:1005-1075 | However a run ended, one uninterrupted run from here ends as one from the start would have, exactly when no create left a name reserved with a value other than the source's; once that name is filled it does so too. |
| `MigrationCopy.RunIsStep` | migrate/migrate.py:985-1174 | Every run, however it ended, is one of the steps that `RerunsConverge` is about. |
| `MigrationCopy.SuccessIsUninterrupted` | migrate/migrate.py:1176-1211 | A successful run leaves exactly the data of one uninterrupted run. |
| `MigrationCopy.DivergenceIsUninterrupted` | migrate/migrate.py:1076-1101 | A run stopped by a real divergence leaves exactly what any uninterrupted run leaves, and reports the failure every rerun would. |
| `MigrationCopy.SmoothRunIsUninterrupted` | migrate/migrate.py:985-1211 | What such a run leaves, data and verdict, is exactly the one uninterrupted run the resumability results are measured against. |
| `MigrationCopy.Migrate` | migrate/migrate.py:696-794 | The report is truthful whatever fails: success means every key scanned clean and read back after its create was answered, and the control key the run's own up to the verdict; a run that never got past scanning leaves the target's data alone; a data key is named in clear only if its name was scanned clean or the lease was lost. With the control key free and nothing failing but answers to creates that landed, a migratable source gets through, or stops at a divergence, and the control key is free again. A source that shows this run's control document is never reported as migrated. A readable source is reported as migrated only with no secret and no user data under its control key. |
| `Lines.FlatSplit` | skill/knokeep_state.py:483-504 | Cutting a text into lines loses nothing. |
| `SectionText.GetSection` | skill/knokeep_state.py:483-504 | The offsets returned are offsets into the body, in order. |
| `SectionText.ReplacedKeeps` | skill/knokeep_state.py:507-520 | After replacing one section, another one is found where it was, moved along with its lines. |
| `Outline.LocateMeans` | skill/knokeep_state.py:494-504 | Absent, ambiguous and found are exactly: no heading line of the name, two, one with everything up to the next heading. |
| `Sections.OneLineOneName` | skill/knokeep_state.py:494 | One line can be the heading of two names only if they differ in outer blanks alone. The exact condition is `ShareLineIffMeet`. |
| `Sections.ShareLineIffMeet` | skill/knokeep_state.py:494 | One line can be the heading of two names exactly when they agree once trimmed, the leading blanks of one end with the other's, and the trailing blanks of one begin with the other's. |
| `Sections.HeadingIsH2` | skill/knokeep_state.py:480-494 | Every heading line of a name is a level-2 heading to the general pattern. |
| `Sections.GuardMeansNoH2` | skill/knokeep_state.py:259-263 | A text that passes the guard on normalised line ends has no level-2 heading line of its own. |
| `Sections.SearchIsLawful` | skill/knokeep_state.py:480-520 | The heading line the writer puts is found again by the reader's pattern, for every accepted section name. |
| `Sections.GetAfterReplacing` | skill/knokeep_state.py:483-520 | Get after replace returns the new content, between the newlines the writer puts; replace fails exactly on a duplicate heading. |
| `Sections.ReplacingTwice` | skill/knokeep_state.py:507-520 | Replacing twice equals the last replace, whether the section was there or appended. |
| `Sections.ReplacingCommutes` | skill/knokeep_state.py:507-520 | Replaces of two existing sections of different names commute. |
| `Sections.OtherSectionsKept` | skill/knokeep_state.py:507-520 | Replacing an existing section leaves every other section exactly as it was, and absent or duplicate ones so. |
| `Sections.OtherSectionsKeptByAppend` | skill/knokeep_state.py:507-535 | Appending a section leaves the others as they were up to trailing line ends. |
| `Sections.BlankPaddedNamesCollide` | skill/knokeep_state.py:494-520 | What it costs: writing " A" beside "A" leaves two headings of "A". |
| `Sections.IndependentIffTwoNames` | skill/knokeep_state.py:494-520 | Writing one section leaves the other as it was in every document exactly when no heading line names both. |
| `Sections.PaddedNames` | skill/knokeep_state.py:494 | Both cases occur: a bare name and a padded one share a line, a space-padded and a tab-padded one do not. |
| `Patterns.H2IsGrammar` | skill/knokeep_state.py:480 | The general pattern accepts exactly up to three spaces, the marker, and a blank, a line end of either kind or nothing after it. |
| `Patterns.HeadingIsGrammar` | skill/knokeep_state.py:494 | The pattern for a name accepts exactly up to three spaces, the marker, blanks, the name, blanks and perhaps a CR. |
| `Patterns.GuardIsExact` | skill/knokeep_state.py:259-263 | The guard refuses exactly the texts in which some line, ended by LF, CR or CRLF, is a level-2 heading. |
| `Patterns.StripNewlinesMeans` | skill/knokeep_state.py:507-512 | The writer strips all newlines at either end of new content, and nothing else. |
| `Patterns.OneBlankLine` | skill/knokeep_state.py:512-518 | A section that was not there is put behind the body with exactly one blank line between. |
| `FrontMatter.ParseDump` | skill/knokeep_state.py:52-66 | Parse undoes dump: sound metadata comes back in order, the body stripped and closed. |
| `FrontMatter.ParsedIsSound` | skill/knokeep_state.py:54-62 | Whatever is parsed, its metadata can be dumped and parsed again unchanged. |
| `FrontMatter.NoFenceInLines` | skill/knokeep_state.py:52 | No metadata line is taken for the closing fence. |
| `FrontMatter.SplitJoin` | skill/knokeep_state.py:59 | `splitlines` undoes joining lines without breaks. |
| `FrontMatter.PutInPlace` | skill/knokeep_state.py:334-347 | Setting a field changes its value where it is, or adds it at the end, and keeps all others. |
| `FrontMatter.LastLineCounts` | skill/knokeep_state.py:54-62 | The metadata say of a field what the last line that sets it says; a line without a colon sets none. |
| `SessionJournal.AppendExtends` | skill/knokeep_state.py:441-452 | One append to a body that is empty or starts visibly turns it into the old body, or the heading, with the entry right after it. |
| `SessionJournal.FirstDocIsJournal` | skill/knokeep_state.py:434-437 | The first document holds the heading and the entry. |
| `SessionJournal.JournalOnlyGrows` | skill/knokeep_state.py:413-466 | Over any interleaving of appenders, writes that land late included, each committed journal body is a prefix of every later one. |
| `SessionJournal.AcknowledgedEntryStays` | skill/knokeep_state.py:413-466 | Every acknowledged entry is in the body stored then and in every body any appenders leave later. |
| `SessionJournal.EnteredSteps` | skill/knokeep_state.py:422-465 | Everything a call did to the journal key is a step of such a run of appenders. |
| `SessionJournal.AppendKeepsBodyIff` | skill/knokeep_state.py:434-452 | For every document: an append keeps the body it found as the beginning of the new one exactly when that body is empty or starts with a character that is not stripped. |
| `SessionJournal.LeadingBlanksAreNotKept` | skill/knokeep_state.py:64-66 | Two failing bodies: a lone newline, and one that is more than blanks but starts with a line end. |
| `SessionJournal.SessionAppend` | skill/knokeep_state.py:413-466 | At most one write of the call lands, and it is an append of the entry under the metadata found; an acknowledged entry ends the document; a call that gives up wrote nothing, and for want of luck only after all its attempts. With nobody in the way it answers INVALID exactly if the metadata found, or the defaults, with `updated` set are refused, and otherwise appends at once to the document that is there. |
| `SessionJournal.AttemptAppend` | skill/knokeep_state.py:422-465 | One attempt: lease, read, compose, write; another attempt only if nothing was written. With nobody in the way only refused metadata prevents the append. |
| `SessionJournal.WriteEntry` | skill/knokeep_state.py:434-465 | Compose over what was read and write it: at most one landing, an append; refused metadata, and it alone, is answered so; under a lease that holds, on the value read, it is appended. |
| `SessionJournal.ComposedEnters` | skill/knokeep_state.py:434-452 | The composed document is the entry put after what was read, under its metadata, and is there exactly when that metadata is accepted. |
| `SessionJournal.AppendKeepsMetadata` | skill/knokeep_state.py:434-447 | After an append the metadata reads back as it was found, in order, or as the defaults where there was none, with only `updated` set. |
| `FlushDoc.DecisionIsSafe` | skill/knokeep_state.py:297-357 | Whatever an attempt decides to write replaces a document whose section equals the caller's, with exactly that section edited, or the declared whole document. |
| `FlushDoc.SectionDecision` | skill/knokeep_state.py:306-341 | A section is written only over the document read, when its section is still the one first seen in the caller's version. |
| `FlushDoc.FirstPlan` | skill/knokeep_state.py:283-357 | What a first attempt comes to in terms of the document read alone: which edits are applied, under which metadata, which are parked, and which refused. |
| `FlushDoc.AttemptOnce` | skill/knokeep_state.py:283-357 | One attempt under one lease: at most one write, safe, and none unless the attempt is final. With nobody in the way it does what was decided. |
| `FlushDoc.DecideAndWrite` | skill/knokeep_state.py:288-357 | Decide on what was read and do it: at most one landing, safe; without interference the decision is carried out. |
| `FlushDoc.Attempts` | skill/knokeep_state.py:275-391 | The retry loop: an outcome after at most one safe write, or the decision to park after writing nothing, for a reason that was seen or after all attempts; with nobody in the way the first plan decides. |
| `FlushDoc.ParkText` | skill/knokeep_state.py:551-583 | A conflict key is returned only if the losing text was stored there to the letter; the document is left alone. With nobody in the way the first of the three names that takes the text is its key, and only if none does is parking given up. |
| `FlushDoc.KeepText` | skill/knokeep_state.py:565-580 | One candidate name: kept means the text is stored there; the document is neither touched nor left in doubt. |
| `FlushDoc.ParkConflict` | skill/knokeep_state.py:546-606 | Parked means the text is kept verbatim under a conflict key and the document was not touched. With nobody in the way it parks under the first name that takes the text. |
| `FlushDoc.FlushJob` | skill/knokeep_state.py:265-402 | No lost update and no dropped edit, for any competing writers: flushed means a safe edit, under the metadata found and stamped, landed once; parked means the document was untouched, the text is kept, and a reason was seen: a changed or doubled section, another version than declared at first sight, a refused whole document, five refused writes or a waited-out lease. With nobody in the way an edit of the version that is there is applied at once, any other is parked, and a missing hash, missing metadata or refused metadata is answered so. Neither outcome leaves a write of the call behind that could land later. |
| `FlushDoc.Flush` | skill/knokeep_state.py:216-402 | The same for the public call; a bad section name or a heading in the new text is refused before anything is read. With nobody in the way the outcome is the one the document that is there calls for. |
| `FlushDoc.KeysApart` | skill/knokeep_state.py:84-91 | The document, conflict copies and conflict journal never share a key. |
| `Neighbours.NeighbourKept` | skill/knokeep_state.py:507-535 | Replacing, appending or creating a section of any body and dumping it keeps every other section up to trailing line ends if the dump touches neither end of the body for that section; if it touches one end and not the other, it does not. |
| `Neighbours.StoredIsKept` | skill/knokeep_state.py:64-66 | A body that was dumped once is touched at neither end for any section. |
| `Dumping.EndKeepsIff` | skill/knokeep_state.py:65 | Stripping the end of a text keeps a section that is not ambiguous exactly when the last visible line stays its title or not, stays a heading or not if the section reaches it, and only line ends are stripped from a section that holds the end. |
| `Dumping.FrontKeepsIff` | skill/knokeep_state.py:65 | Stripping the front keeps it exactly when the first visible line stays its title, or stays not its title. |
| `NamedEdits.NamedNeighbourKept` | skill/knokeep_state.py:480-535 | The same for the two patterns and any two names that share no heading line and of which the bare heading line of the edited one does not name the other. |
| `NamedEdits.AlwaysKeptIff` | skill/knokeep_state.py:480-535 | Edits of one name keep another in every dumped body, for every content the guard passes, exactly when the names are such. |
| `NamedEdits.LineEndsAreSafe` | skill/knokeep_state.py:523-535 | A body from whose end only line ends are stripped, LF or CRLF, is not touched there for any named section. |
| `NamedEdits.TrailingBlanksAreUnsafe` | skill/knokeep_state.py:523-535 | A last section that ends in blanks is: an edit of the section before it touches the end for it. |
| `NamedEdits.VerticalTabIsUnsafe` | skill/knokeep_state.py:65 | Two names that share no heading line and still are not safe: "A" with a vertical tab, whose bare heading line is stripped to that of "A". |
| `NamedEdits.NamesCancel` | skill/knokeep_state.py:65 | If a dump touches both ends the two may cancel out: for every name that ends in what is stripped, a body where the section is kept all the same. |
| `Reapply.WritesEditSections` | skill/knokeep_state.py:334-356 | Every section write of this protocol is such an edit of the document it was decided on. |
| `Reapply.FirstDecides` | skill/knokeep_state.py:523-535 | Over any run of edits of other sections, each document the one before left, a section is kept as the first edit keeps it. |
| `Reapply.EditKeepsOthers` | skill/knokeep_state.py:54-66 | Through dump and parse of whole documents, from none at all to any number of metadata lines; every edit leaves a dumped document. |
| `Reapply.OthersKeep` | skill/knokeep_state.py:523-535 | From a dumped document on, however many other sections are written in a row, a section stays equal as `_section_eq` sees it. |
| `Reapply.UnrelatedEdits` | skill/knokeep_state.py:306-341 | A retry whose own section nobody wrote does not park, whatever other sections were written meanwhile, if the first of those edits touched neither end of the document for it, and parks if it touched one: otherwise it writes against the version just read, unless metadata is refused. |
| `Reapply.FalsePark` | skill/knokeep_state.py:306-341 | The false park: the last section of a hand-written document ends in blanks, another writer edits the section before it, and the retry parks. |
| `NamedEdits.TidyBlockLines` | skill/knokeep_state.py:65 | A block at the end of a document still starts with a heading, and reads as no section of another name, once the dump stripped it. |
| `Conflicts.EveryConflictCounted` | skill/knokeep_state.py:687-690 | Outstanding plus settled is always exactly the parked conflicts. |
| `Conflicts.ParkedIsOutstanding` | skill/knokeep_state.py:551-583 | A text parked by a flush is listed as a conflict, outstanding until its marker is there. |
| `Conflicts.MarkerBinds` | skill/knokeep_state.py:624-637 | A marker settles its own conflict and no other. |
| `Conflicts.MarkersAreNoConflicts` | skill/knokeep_state.py:618-622 | A marker is never listed as a conflict. |
| `Conflicts.ResolveMovesOne` | skill/knokeep_state.py:701-742 | Resolving moves exactly the named conflict whatever digests collide, succeeds exactly when its marker is absent or its own, changes nothing otherwise, and never replaces a value. Which of the other answers is given says whether the key is no conflict key, is not there, or is blocked. |
| `Conflicts.ResolveIsIdempotent` | skill/knokeep_state.py:701-742 | A second resolution succeeds and changes nothing, at any later time. |
| `Conflicts.SharedDigestFailsClosed` | skill/knokeep_state.py:724-737 | If two conflicts share a digest, resolving one leaves the other outstanding and its resolution refused. |
| `Conflicts.ResolveConflict` | skill/knokeep_state.py:701-742 | With others at work: the only write is the marker, created where nothing was; success means a marker bound to this conflict was seen; a refusal wrote nothing. With nobody in the way, data and answer are exactly those of the specification. |
| `Conflicts.PutMarker` | skill/knokeep_state.py:716-737 | The create and its answers: an existing value is kept, and counts only if it binds to this conflict. |
| `Conflicts.CheckResolved` | skill/knokeep_state.py:624-637 | True only after reading a marker bound to this conflict; unreadable counts as unresolved. Undisturbed, exactly whether the marker there binds. |

## Left out

- PostgreSQL adapter: one more instance of the register whose correctness rests on row locks that are
  not in view.
- Secret scanner, gate markers, key shape rules and `validate_write`: deterministic predicates; scanning
  appears as an arbitrary result wherever a write or a pass depends on it. That a gate-accepted key is
  never a sidecar path is taken from `store/gate.py:151-176`.
- SigV4 signing, HTTP transport, XML listing, git plumbing, file locks, fsync, Windows retries: only
  their effects are kept (atomic step, lost answer, crash point, mutual exclusion).
- Case-insensitive volumes, path resolution, and keys of which one is a directory prefix of another.
- mcp/server.py, reconciler/, store/config.py, telemetry, eval, health and the command line.
- FakeBackend.FakeBackend.Write: a fence loss answers at once, where the source first waits for the
  owner's pending write to settle; the local and object-store settles are modelled.
- MigrationCopy.Reconcile: only the create case the migration uses, without an expected hash and without
  a retry.
- Envelope headers of 4 GiB and more, where `struct.pack` raises; landings with such headers are
  excluded from `LandedAsCall`.
- Neighbours.NeighbourKept: if a dump touches both ends of a document for one section, it may keep that
  section or lose it (`NamesCancel` is a case where it keeps it); nothing is claimed then.
- Expiry at landing: the object store checks it at the GET, so refinement is about ownership at landing,
  not expiry.
- A second torn tail: that appends over an unclean journal lose some record is proved, not which ones.
- Sidecars of other tools with negative counters: `int()` would read them, the model reads natural
  numbers only.
- Advisory `unlock` in `SessionJournal`, `FlushDoc`, `MigrationLease` and the git registry: it releases
  an in-process or advisory entry and never changes a register; whether a later `lock` is refused is
  left to the adversary.
- MigrationLease.Control.Persist: a request of a run takes effect before its call returns or never, and
  nothing is published late on the control key; the blank value a failed create leaves there is
  modelled, and refused as real data; `TakenOverForever` and `OneOfTwoIsShutOut` hold of logs with
  landings that come late under their own lease.
- Store.Store.Persist: a write answered with an error may become visible later, as after BUSY on the
  local backend; the blank value such a create leaves until then is modelled. A late one is then one of
  the others' late writes, which arrive under no lease, and the call that made it has died: its claims
  are about the landings before it returned. `doubtful` records such keys, and a flushed or parked edit
  leaves its document out of it. Keys no other client touches are assumed free of late writes, which the
  migration's data theorems need.
- MigrationCopy.Migrate: the identity checks that refuse to migrate a store onto itself are left to the
  aliasing probe, because source and target are two objects here; secret labels and timestamps of
  reports are not modelled.
- FlushDoc.Flush: metadata stamping is an arbitrary function that may refuse, telemetry and the exact
  text of notes are parameters, and malformed declared hashes are excluded by their type.
- Sections.GetAfterReplacing: what a later reader gets after `dump` stripped the whole body is the
  section up to trailing line ends, which `_section_eq` ignores; the lens laws are about the body before
  it is dumped.
