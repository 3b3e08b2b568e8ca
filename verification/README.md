# The dnsmasq cache and three of its helpers, verified

This project models the DNS cache of `src/cache.c` and proves that its lists,
fast paths and shortcuts agree with a plain set of records with expiry times. It
also covers the block pool of `src/blockdata.c`, the ARP cache of `src/arp.c` and
the checksums of `src/bpf.c`.

The build modelled is the default one: DHCP on, DNSSEC off.

## How it is organised

Records of the cache are handles (`Id`) into a map. The pool that `cache_init`
allocates has the handles below the cache size; records made with malloc have the
others. In `State` linked lists are sequences: `lru` runs from `cache_head` to
`cache_tail`, `pending` is `new_chain`, and `table` holds the hash chains. The class
`Cache` has the head, the tail, `new_chain` and the `prev` and `next` fields
themselves, and its `Wired` says that they lead through those sequences. `State.Inv`
is the invariant: the LRU list and the batch share out the pool, every LRU record in use
is hashed once and in its own bucket, chains are ordered reverse, mortal,
immortal, the LRU list is in order of last touch with the free records at its
end, uids are unique, and long-name storage is conserved.

| files | what they hold |
|---|---|
| `Names`, `Records`, `State` | names and their hash, records, the state, the pointer operations and the invariant |
| `Ops`, `Lookup`, `Rehash`, `NonTerminals` | what each function of `src/cache.c` does to the state |
| `Keeps`, `Scans`, `Batch` | every step keeps the invariant |
| `Answers`, `AddrAnswers`, `Exact`, `RoundRobin`, `Fair` | what lookups return and how they reorder chains |
| `Clears`, `Slots`, `Replace`, `Renewal`, `Statics`, `Stuck` | exactly what scans and inserts remove, which record and uid an insert reuses, when live records are given up, when inserts succeed and when they end in the internal error |
| `Runs`, `Safety`, `Atomic` | whole runs from `cache_init`: the invariant, CNAME links, batches |
| `Wire`, `Pipe`, `Delivery`, `Arrival`, `Room` | the pipe from a child process to its parent |
| `Ancestors`, `Promotion`, `Hollow` | empty non-terminals over successive calls, what they do to the invariant, and what they answer |
| `Witness`, `Leases`, `Full` | runs in which a statement one might expect fails |
| `Cache` | the class: methods that walk and rewire the lists as the C code does, each proved to have the effect of its function on `State` |
| `LruList`, `Footing` | the pointer updates on lists, and the part of the invariant they rely on |
| `BlockPool`, `Tenants` | `src/blockdata.c` on heap objects, and many chains in one pool |
| `ArpState`, `ArpProofs`, `ArpEvents`, `ArpAsked`, `Arp` | `src/arp.c`: functions, proofs, runs, when the kernel is asked, and the class |
| `Checksum` | the IP and UDP checksums of `src/bpf.c` |

Time, the kernel's ARP table, the bytes in the pipe, the 64-byte mixing table and
the success of each malloc are parameters. Every lemma switches automatic
induction off, so what is proved follows from the bodies alone.

## What turned out not to hold

Eight statements one might expect of the code are false. Each has a run of the
model in which it fails and a lemma with the exact condition under which it holds.

- A lookup by name returns every live record of the name that does not dangle.
  It can miss a CNAME whose target shares its bucket, comes first and is removed
  by the same lookup (`Witness.LiveRecordMissed`, for every mixing table). It misses
  one if and only if a path of CNAME links leads from it back along the chain to an
  entry that has expired or dangles (`Fair.GivenExactly`, `Fair.AllLiveFound`).
- A commit drops only the CNAMEs that dangle when it begins. When a chain of CNAMEs
  comes without an answer it drops the others too (`Witness.ChainDropped`); it does
  if and only if a pending CNAME points at a dangling one before it
  (`Atomic.DropsOnlyDangling`).
- When a record is replaced, the CNAMEs for it go on to work. The new record takes its
  place and its uid, so their links still pass the uid test, but a CNAME behind it in
  the same chain is removed by the same insert (`Witness.RenewalLoses`, for every mixing
  table). A live CNAME stays if and only if it is not behind it (`Renewal.Renewed`).
- Every record that a child puts in its table gets into its parent's. NXDOMAIN
  replies have no type and are passed over (`Witness.NxdomainLost`); a record gets
  there if and only if it has a type, or is a CNAME and one with a type was sent
  before it (`Arrival.RoundTrip`).
- Making empty non-terminals keeps chains in order. A lease that lasts for ever
  promotes the entry of its parent where it stands, and a record behind it is then
  out of the reach of scans (`Leases.OrderLost`). The call keeps the order if and
  only if no forward entry among those it promotes has a mortal one after it that it
  does not promote (`Promotion.MakeOrder`); everything else about the invariant is
  kept in any case (`Ancestors.MakeKeeps`).
- Making empty non-terminals gives no lookup by type anything to answer with. It adds
  no entry with a type (`Hollow.NothingAnswers`), but it prolongs whatever entry of its
  kind it finds for a parent, not only an empty one, so that the address of a lease
  outlives it (`Hollow.LeaseProlonged`). A lookup gains an answer at some time if and only if
  such an entry has a type and would have expired before the new name
  (`Hollow.LookupGains`).
- An insert finds a record to use whenever the LRU list is not empty. In a full cache
  it ends in the internal error when the record at the tail is a CNAME whose name is
  the parent of a lease (`Full.InternalReached`); it does if and only if the scan for
  that record's name or address would pass no pool entry that it removes
  (`Stuck.InternalError`).
- ARP events replay to the current entries. An entry that is found again before it
  was reported is never reported (`ArpEvents.UndrainedLoses`); exactly such entries
  are missing (`ArpEvents.ReplayExact`, `ArpEvents.SilentExactly`).

The comment on `do_arp_script_run` says that vanished entries are reported oldest
first; the code reports the one at the head of the list, which is the latest. The
comment in `make_non_terminals` says that a later expiry is passed on to an empty entry;
the code passes it on to the first forward entry of the kind. The model does what the
code does.

## Model

| member | source | states |
|---|---|---|
| Names.HashBucket | src/cache.c:447-462 | the loop computes the bucket function, and every name equal up to ASCII case gets the same bucket |
| Names.BucketIgnoresCase | src/cache.c:452-461 | names equal up to ASCII case share a bucket whatever the mixing table and the table size |
| Rehash.MaskIsRemainder | src/cache.c:460-461 | for a power of two, masking with size - 1 is the remainder, so every bucket is reached and none is out of range |
| Rehash.NewSize | src/cache.c:377-378 | the size aimed for is a power of two, at least 64 and at least a tenth of the cache, and less than twice that unless it is 64 |
| Rehash.GrowInvisible | src/cache.c:372-404 | rehash keeps the invariant and the set of hashed records and changes nothing but the table; with memory the new size is the least power of two that is at least 64, a tenth of the cache size and the old size, and without memory or if the size stays nothing changes |
| Rehash.DhcpForgotten | src/cache.c:2709-2724 | every chain loses exactly its DHCP entries and keeps the order of the rest |
| Rehash.DhcpSpared | src/cache.c:2709-2724 | exactly the DHCP entries leave the table and become spare, each once and in front of the old spare ones, and no record is both spare and in the table |
| Hollow.ForgottenReady | src/cache.c:2709-2724 | so the table is as ready for new names, spare records included, as it was |
| Keeps.HashKeeps | src/cache.c:504-524 | hashing a record keeps chains in order and every record in its own bucket, and adds the record |
| Keeps.EvictKeeps | src/cache.c:1144-1152 | taking an entry off its chain and freeing it keeps the invariant |
| Keeps.TouchKeeps | src/cache.c:1920-1921 | moving a record to the head of the LRU list keeps the invariant |
| Keeps.ReorderKeeps | src/cache.c:1924-1944 | any reordering of a chain that respects the three segments keeps the invariant |
| Keeps.GrabKeeps | src/cache.c:1495-1548 | taking a free record into the batch keeps the invariant, long-name storage included |
| Keeps.CommitKeeps | src/cache.c:1608-1609 | committing the head of the batch keeps the invariant |
| Keeps.DropKeeps | src/cache.c:1249-1254 | giving the head of the batch back keeps the invariant |
| Keeps.SetLinkKeeps | src/cache.c:1776-1788 | pointing a CNAME at a record keeps the invariant |
| Scans.ScanBucketKeeps | src/cache.c:1102-1157 | the scan of one bucket keeps the invariant, removes and never adds, and the record it offers for reuse is free, has the name, and has a uid no other record has |
| Scans.ScanTableKeeps | src/cache.c:1158-1187 | the scan of the whole table keeps the invariant, removes and never adds |
| Scans.TakeSlotKeeps | src/cache.c:1448-1493 | the slot loop keeps the invariant and ends with a free LRU record or none |
| Clears.TableScan | src/cache.c:1158-1187 | in spite of its early exits the whole-table scan removes exactly the expired records and the dynamic reverse records for the address |
| Slots.ScanBucketClears | src/cache.c:1102-1157 | a forward scan stops at a static entry in the way, or leaves nothing in the way and nothing expired in the bucket |
| Replace.InsertReplaces | src/cache.c:1405-1551 | after a successful insert the table holds no entry that the new one replaces (a clashing forward entry of the name; for a reverse insert, an expired entry or one for the address), and every entry it holds was there before, unchanged |
| Replace.ScanBucketExact | src/cache.c:1102-1157 | a forward scan goes as far as the first static entry in the way; up to there it removes exactly the entries in the way, the expired ones and the CNAMEs whose link fails the uid test or leads to a record this scan removed before, the rest keep their order, exactly the removed pool records are freed, no other bucket changes, and what is offered for reuse is the last entry in the way that has a uid |
| Slots.SpillIsLastResort | src/cache.c:1448-1493 | live entries are given up only when no LRU record is free and none in the table has expired, for the record touched longest ago, in at most three rounds |
| Slots.InsertLastResort | src/cache.c:1405-1493 | the same for a whole insert that is not both forward and reverse |
| Slots.SpillFrees | src/cache.c:1481-1487 | scanning for a pool record's own name or address frees that record, unless a static entry claims the name |
| Slots.SlotFound | src/cache.c:1449-1493 | the slot loop finds a record within three rounds and never reaches the internal error |
| Renewal.StaticDecides | src/cache.c:1427-1446 | if static entries are in the way the first of them in the chain decides: it is returned, without an error, if it gives the address, and the insert fails otherwise; with none in the way no static entry is returned |
| Renewal.ReuseKeepsUid | src/cache.c:1115-1124 | a forward insert that gets a pool record, and replaces an entry with a uid, gets such an entry, the last of them in the chain, with the uid it had; if none has a uid the record has none |
| Renewal.Renewed | src/cache.c:1517-1521 | if only one replaced entry has a uid, the new record takes its place and every CNAME link to it that passed the uid test still does; a live CNAME for it that is not itself replaced stays in the table, unchanged, if and only if it is not behind it in its chain |
| Renewal.RenewedInRun | src/cache.c:1115-1124 | the same in every run from cache_init, and after the commit: the link leads to what was inserted, in the table |
| Renewal.RenewalRoom | src/cache.c:1495-1521 | replacing an entry with a uid gets its record whenever no static entry is in the way and there is storage for a long name, however full the cache is |
| Witness.RenewalLoses | src/cache.c:1102-1157 | a run after which replacing the target of a live CNAME removes the CNAME, although its link would pass the uid test |
| Slots.AlwaysRoom | src/cache.c:1405-1551 | an insert with nonzero TTL and a nonempty LRU list always gets a record when no static entry claims the names involved, every pool record has a type, and, for a long name, storage is free or the allowance is not used up and malloc succeeds; the allowance is untouched while storage is free |
| Stuck.InternalError | src/cache.c:1448-1493 | the slot loop ends in the internal error if and only if, once it has looked for expired entries, every LRU record is in use and the scan for the name or address of the one at the tail passes no pool entry in its way, expired or dangling before a static one stops it |
| Stuck.StuckBehindStatic | src/cache.c:1481-1487 | then, if that record has a type, it is a forward one and a static entry in its way has its name and is before it in the chain |
| Full.InternalReached | src/cache.c:1469-1479 | a run after which an insert ends in the internal error although no entry has its name |
| Batch.InsertEffect | src/cache.c:1405-1551 | an insert only removes entries and then fails, returns a static entry of the table for the name with the same address, or takes one free record, whose name, flags, data and expiry are the ones given, with no uid or the one it had, and that only under the same name; after an error and with a TTL of zero it fails at once and removes nothing (which record, and when it keeps its uid, is `Renewal.ReuseKeepsUid`) |
| Statics.InsertFirm | src/cache.c:1405-1551 | an insert leaves in the table every static entry that has not expired and is no CNAME |
| Batch.DiscardKeeps | src/cache.c:1244-1257 | abandoning a batch keeps the invariant |
| Batch.CommitAllKeeps | src/cache.c:1600-1652 | committing a batch keeps the invariant |
| Answers.NameLookup | src/cache.c:1887-1972 | a first call and its continuations yield each record of the name and type left in the table exactly once, nothing else, and nothing expired |
| AddrAnswers.AddrLookup | src/cache.c:2021-2080 | a first call and its continuations yield exactly the live reverse records for the address, each once, although the sweep leaves every chain at its first forward entry |
| Exact.NameLeaves | src/cache.c:1903-1960 | after a lookup the bucket of the name has the entries kept, in an order given by the rotation, all other buckets are as they were, and exactly the removed pool records are freed |
| RoundRobin.ArrangeTurns | src/cache.c:1924-1944 | moving every match but the first up turns the matches once around and keeps the order of the others |
| RoundRobin.FullTurn | src/cache.c:1924-1944 | k turns of k elements are the identity |
| Fair.LookupTurns | src/cache.c:1903-1960 | a lookup turns the matches of the first match's flag class from m1..mk into m2..mk,m1 and keeps all other entries in order |
| Fair.ManyTurns | src/cache.c:1903-1960 | lookups at any times that remove none of the leading group's matches turn these around as often, whatever else they remove |
| Fair.FullRound | src/cache.c:1903-1960 | k such lookups put the k matches back in their order |
| Fair.AddressesLast | src/cache.c:1903-1912 | matches that are no CNAMEs and do not expire before the last lookup are removed by none of them |
| Fair.DoomedExactly | src/cache.c:1903-1912 | an entry goes if and only if a path of CNAME links starts at it, each to an earlier pool entry of the chain, that ends at an expired or dangling entry |
| Fair.GivenExactly | src/cache.c:1903-1960 | a lookup gives only live records that do not dangle, and such a record if and only if no such path starts at it |
| Fair.AllLiveFound | src/cache.c:1887-1972 | a lookup gives exactly the live, undangling records of the name if and only if none of them starts such a path |
| Witness.MissedInBucket | src/cache.c:1903-1960 | whenever two short names share a bucket there is a run from cache_init after which a lookup misses a live CNAME of one for the other that did not dangle |
| Witness.LiveRecordMissed | src/cache.c:447-462 | for every mixing table and cache size two short names share a bucket, so there is such a run for two different names |
| Runs.InitialInv | src/cache.c:303-324 | cache_init establishes the invariant and a power-of-two table |
| Runs.StepKeeps | src/cache.c:1244-1611 | each operation keeps the invariant, the pool size and the power of two |
| Runs.Reachable | src/cache.c:303-324 | in every state of every run the LRU list and the batch partition the pool, an LRU record is in use if and only if it is hashed, once and in its bucket, chains and LRU list are in order, long-name storage is conserved |
| Safety.StepTame | src/cache.c:1115-1124 | a step leaves a uid with a pool record only under the same name, through frees, reuse and replacement |
| Safety.LinkSafety | src/cache.c:957-970 | however a run goes on after a CNAME was linked, while its link passes the uid test the target has the name it had |
| Safety.LinkOrigin | src/cache.c:1776-1788 | every link in a state of a run was there at its start or was made by a step of the run |
| Safety.EveryLinkSafe | src/cache.c:957-970 | in every run from cache_init, every CNAME link that passes the uid test was made by some step, and its target still has the name it had at that step |
| Atomic.FailedBatch | src/cache.c:1414-1446 | if an insert fails in a batch, then whatever is done until the next batch begins, none of its records is ever in the table, and all that the table has was there when the batch began, apart from new static entries |
| Atomic.AbandonedBatch | src/cache.c:1244-1257 | the next batch starts with every record of the abandoned one back on the LRU list and free, and nothing else changed |
| Atomic.CommittedBatch | src/cache.c:1595-1652 | a commit adds to the table exactly the pending records it does not drop and changes none of them; those it drops are freed |
| Atomic.DropsOnlyDangling | src/cache.c:1604-1609 | a commit puts in the table exactly the pending records that do not dangle when it begins if and only if no pending CNAME points at a dangling one before it |
| Witness.ChainDropped | src/cache.c:1604-1605 | a run with a chain of two CNAMEs and no answer, after which a commit drops a record that did not dangle |
| NonTerminals.EmptyNonTerminals | src/cache.c:2926-3013 | when allocation succeeds every ancestor of the name has an entry of the source's kind that lasts as long as the source, so cache_find_non_terminal succeeds on it at any time before the source expires, in whatever order the chains are (what the entries hold is `Hollow.NothingAnswers`) |
| NonTerminals.CoverAllCovers | src/cache.c:2967-3012 | the loop over the dots covers every suffix after a dot from some point on and uncovers none |
| Hollow.NothingAnswers | src/cache.c:2926-3013 | whichever mallocs fail: every entry that is new in the table has the name after a dot of the source's, none of the six types, is not a reverse one, is of the source's kind and has exactly its expiry; every other entry is as before, or is a forward one of that kind for a name above that now has exactly the source's later expiry; only one old empty entry of the name itself is out, if there was one; so lookups by type and by address have the same entries to choose from |
| Hollow.SpareAccounted | src/cache.c:2991-3000 | spare records, and an empty entry that is taken out, end up spare or in the table and no others become spare; only a DHCP source uses them, and no new record is allocated for one while there are any |
| Hollow.LookupGains | src/cache.c:2983-2989 | some lookup by type has an unexpired entry at some time that it had not if and only if, once an old empty entry of the name is out, some entry that a round finds has a type and would have expired before the source |
| Hollow.LeaseProlonged | src/cache.c:2983-2989 | a run with leases of two names, one above the other, after which the upper one has its address beyond the end of its lease |
| Ancestors.ExtendOrder | src/cache.c:2983-2989 | extending an entry keeps the chains in order if and only if it promotes none, or a reverse entry, or one that only immortal forward entries follow |
| Ancestors.CoverOrder | src/cache.c:2967-3012 | the same for one round of the loop, which looks for the entry and may create it |
| Ancestors.MakeKeeps | src/cache.c:2926-3013 | make_non_terminals keeps all of the invariant but chain order, also with failing mallocs |
| Promotion.MakeOrder | src/cache.c:2926-3013 | for the whole call, with any failing mallocs: the invariant is kept if and only if, once an old entry for the name is out, no forward entry that a round finds and promotes has a mortal forward one after it that no round does |
| Leases.OrderLost | src/cache.c:2983-2989 | a run with a record and two leases of names below its own, after which the chain is out of order and a scan of the table leaves the record in it when it has expired |
| Ancestors.EveryName | src/cache.c:2926-3013 | after any number of names were added, with any failures, a name whose allocations succeed has all its ancestors known until it expires |
| Footing.EvictHoused | src/cache.c:1146-1151 | taking an entry off its chain and freeing it keeps what the pointers rely on and leaves free records free, in whatever order the chains are |
| Footing.CommitHoused | src/cache.c:1608-1609 | so does committing a record |
| Footing.GatherHoused | src/cache.c:1914-1922 | so does gathering an answer |
| Cache.Cache.constructor | src/cache.c:303-324 | builds the initial state, with the pool well linked |
| Cache.Cache.Prepend | src/cache.c:687-696 | the writes to the head, the tail and the link fields put the record in front of the LRU list, which stays linked both ways, and disturb neither the batch nor the threads of static records |
| Cache.Cache.Append | src/cache.c:629-635 | the same at the tail |
| Cache.Cache.Detach | src/cache.c:739-750 | the writes take exactly this record out of the LRU list, head and tail included, and disturb nothing else |
| Cache.Cache.PushBatch | src/cache.c:1547-1548 | the writes put a record in front of the batch and leave the LRU list linked |
| Cache.Cache.PopBatch | src/cache.c:1249-1253 | following the `next` field of the head gives the rest of the batch |
| Cache.Cache.Resized | src/cache.c:377-378 | the doubling loop finds the new table size |
| Cache.Cache.FreeRec | src/cache.c:623-645 | clears the in-use flags and the uid, links the record at the tail and returns its long-name storage |
| Cache.Cache.PlaceIn | src/cache.c:513-521 | the loops stop where the record's segment begins |
| Cache.Cache.HashRec | src/cache.c:504-524 | puts the record at the start of its segment in the chain of its bucket |
| Cache.Cache.ScanForward | src/cache.c:1102-1157 | the loop over one bucket has the effect of the forward scan |
| Cache.Cache.ScanWhole | src/cache.c:1158-1187 | the loop over the table has the effect of the whole-table scan |
| Cache.Cache.ScanFreeRecs | src/cache.c:1079-1190 | the pointer form of cache_scan_free has the effect of the scans and offers only a record that is free and in the LRU list |
| Cache.Cache.FindSlot | src/cache.c:1448-1493 | the loop over `cache_tail` ends as the slot search does, with the same number of rounds and the same record spilled |
| Cache.Cache.ReallyInsert | src/cache.c:1405-1551 | the pointer form of really_insert has the effect of `Ops.Insert`, which the rows of `Replace`, `Renewal`, `Batch` and `Slots` describe, keeps both lists linked, and the record it returns is in the batch or static |
| Cache.Cache.FillSlot | src/cache.c:1495-1550 | long-name storage is found, the record is filled in and joins the batch |
| Ops.ClampTtl | src/cache.c:1330-1333 | a TTL within the limits is unchanged, one above them becomes the upper limit and one below them the lower limit, and where the limits cross the lower one wins; a limit of zero does not apply and a nonzero TTL stays nonzero |
| Cache.Cache.CacheInsert | src/cache.c:1311-1337 | an insert with the TTL that `Ops.ClampTtl` gives for the configured limits |
| Cache.Cache.StartInsert | src/cache.c:1244-1257 | gives back what was not committed and clears the error |
| Cache.Cache.EndBatch | src/cache.c:1595-1661 | commits the batch, and in a child process writes exactly the bytes for the records committed and the end mark, or nothing after an error |
| Cache.Cache.Arrive | src/cache.c:1735-1789 | one record read from the pipe is inserted, and a CNAME is linked to the last record that is not one |
| Cache.Cache.RecvInsert | src/cache.c:1711-1791 | reads records until the end mark or a failed read and has the effect of inserting them one by one |
| Cache.Cache.FindByName | src/cache.c:1887-1972 | the sweep that threads static answers through `next`, moves the others to the head of the LRU list and ties the thread to it has the effect of the lookup and leaves both lists linked |
| Cache.Cache.AllByName | src/cache.c:1872-1876 | calling until there is no answer, each call reading the `next` field of the last answer, gives every record of the name and type in the table once, nothing else, and nothing expired |
| Cache.Cache.FindByAddr | src/cache.c:2021-2080 | the same for the sweep of the whole table by address |
| Cache.Cache.AllByAddr | src/cache.c:2021-2080 | calling until there is no answer gives exactly the live reverse records for the address that were in the table, each once |
| Cache.Cache.GrowTable | src/cache.c:372-404 | the loops over the old table have the effect of `Rehash.Grow` |
| Cache.Cache.ForgetDhcp | src/cache.c:2709-2724 | the loops unhash the DHCP entries and put them on the spare list |
| Cache.Cache.KnownName | src/cache.c:1826-1839 | the loop answers whether some live forward entry has the name and is not a negative one |
| Cache.Cache.MakeNonTerminals | src/cache.c:2926-3013 | the loops over the chain and over the dots have the effect of `NonTerminals.MakeNonTerminals`, which the rows of `NonTerminals`, `Ancestors`, `Promotion` and `Hollow` describe |
| Wire.FlagsFit | src/cache.c:1617-1626 | a set of flags fits an unsigned int and comes back from it |
| Wire.ItemBack | src/cache.c:1735-1789 | for every flag combination the reader consumes exactly the bytes written for a record and gets its name, flags, expiry and data back, or stops if it is an SRV record with an empty target |
| Wire.SentinelBack | src/cache.c:1729-1733 | the end mark is read as such and as nothing more |
| Wire.BatchBack | src/cache.c:1614-1661 | a batch is read back record by record and the reader stops where the next batch begins |
| Wire.CutOff | src/cache.c:1726-1743 | no part of a batch that ends before its end mark is taken for a batch |
| Pipe.SentExact | src/cache.c:1600-1652 | a child writes exactly the records it puts in its table, in that order |
| Pipe.BatchArrives | src/cache.c:1711-1791 | reading a child's bytes applies its records in order, commits, and leaves the rest of the pipe |
| Delivery.Delivered | src/cache.c:1745-1789 | if no insert fails, each record with a type is in the batch with the child's name, flags, data and absolute expiry or a static entry already gives its name the address, each CNAME is linked to the record of the last item with a type and the link is good, other items are passed over, and the batch holds nothing else |
| Arrival.RunPlain | src/cache.c:1526-1548 | in every run the records of a batch are as an insert leaves them |
| Arrival.Shown | src/cache.c:1595-1652 | after the parent's commit the table says what an item says if and only if the item has a type, or is a CNAME and one with a type came before it |
| Arrival.RoundTrip | src/cache.c:1595-1791 | for every run of a child and of a parent: the parent reads exactly the child's batch; unless an insert fails, a record the child put in its table is in the parent's, either with its name, flags, data and expiry or as a static entry of the same name and address (which stays unless it has expired), if and only if it has a type, or is a CNAME and one with a type was sent before it, to the last of which it is then linked; nothing else enters, and nothing at all if an insert fails |
| Room.NoneFails | src/cache.c:1405-1551 | no insert of a batch fails if the parent's pool has as many records as the batch, what is in the pool or to be inserted has a type, the new names are short, and no static entry has any of their names |
| Room.AllArrive | src/cache.c:1595-1791 | under these conditions on the parent, for every run of a child and of a parent, every record with a type arrives, and every CNAME sent after one |
| Witness.NxdomainLost | src/cache.c:1745-1789 | a run in which a child puts an NXDOMAIN reply in its table and sends it, after which every parent's cache is as if it had received nothing |
| BlockPool.Pool.constructor | src/blockdata.c:124-140 | an empty pool, in which free blocks and blocks taken make up all blocks |
| BlockPool.Pool.Expand | src/blockdata.c:124-140 | if there is memory exactly n new blocks are chained in front of the old free list, and otherwise nothing changes |
| BlockPool.Pool.ChainUp | src/blockdata.c:132-136 | the loop makes new blocks lead one to the next and on to the old free list |
| BlockPool.Pool.Release | src/blockdata.c:453-465 | a chain goes back in front of the free list, block by block, and the counters stay exact |
| BlockPool.Pool.Take | src/blockdata.c:306-324 | a block is taken from the free list, which is refilled with 50 only if it is empty; there is none if and only if that was refused; the counters stay exact, the high-water mark included |
| BlockPool.Pool.Store | src/blockdata.c:299-345 | a store of len bytes that are there succeeds if and only if no expansion of the pool was refused; if the free blocks are enough it succeeds without any expansion; the chain has ceil(len/40) blocks, none of them taken before, and holds the bytes; on failure it is given back, after a refusal all of it and otherwise but for one block |
| BlockPool.Pool.Fetch | src/blockdata.c:544-552 | the bytes of a chain, in order |
| BlockPool.Pool.StoreAndFetch | src/blockdata.c:522-552 | what is stored is what is fetched, for every length, and data that fits the free blocks is stored |
| BlockPool.Pool.SendAndReceive | src/blockdata.c:605-613 | what is written to a pipe from one pool is what another pool reads from it, unless that pool has fewer free blocks than are needed and cannot be expanded |
| BlockPool.Pool.Lose | src/blockdata.c:332-337 | a failed read leaves exactly one block taken that is on no chain, unless there was none for the read, with the counters still exact |
| Tenants.Serve | src/blockdata.c:299-345 | through any sequence of stores and releases each datum still kept is in a chain that holds it, no two chains share a block, none has a block of the free list, the count is exactly the number of blocks they need, and a store that the blocks of the pool have room for beside what is kept does not fail |
| ArpProofs.RefreshAny | src/arp.c:436-461 | whatever the kernel reports and whichever mallocs fail, after a refresh the records with a MAC are for reported entries that fit, those held before and reported are held, and all that fit are if no malloc fails |
| ArpProofs.RefreshExact | src/arp.c:436-461 | after a refresh the records with a MAC are exactly the kernel's entries, those moved to the old list are exactly the vanished ones, new and confirmed ones are told apart, negative records are alone for their host, and the three lists share out all records ever allocated |
| ArpProofs.EnumerateSeen | src/arp.c:225-291 | each kernel entry confirms, fills in or adds one record, so that what is live is what has been enumerated |
| ArpProofs.MacSound | src/arp.c:398-491 | an answer is a MAC the snapshot gave the host, an answer of none means it had none, the snapshot is under 90 seconds old, the kernel is read at most once, and unless the caller is lazy an answer of none rests on a snapshot taken in this call |
| ArpEvents.RunMacSound | src/arp.c:398-491 | the same after any run of lookups and reports, with the time at which the run last read the kernel |
| ArpAsked.RefreshNegative | src/arp.c:441-463 | a refresh keeps the negative record of a host if and only if the kernel does not list it |
| ArpAsked.NegativeExactly | src/arp.c:465-488 | after any run there is a negative record for a host if and only if some call read the kernel, found no entry for it and could record that, and no table read since lists it |
| ArpAsked.AskedExactly | src/arp.c:407-435 | after any run find_mac does not ask the kernel, and then changes nothing, if and only if the last snapshot is under 90 seconds old and has the host, or the caller is lazy and was refused for it since the last snapshot that had it |
| ArpEvents.RefreshTold | src/arp.c:441-461 | a refresh at any time keeps the log of events in step with the lists, apart from the entries it confirms while they are still to be reported |
| ArpEvents.ScriptTold | src/arp.c:562-592 | reporting one event keeps the log of events in step with the lists, vanished entries are reported before new ones, and there is no event exactly when nothing is left to report |
| ArpEvents.ReplayExact | src/arp.c:562-592 | in every run, whenever nothing is left to report, replaying all events gives the kernel's entries but the silent ones, so it gives all of them if and only if there are no silent ones |
| ArpEvents.SilentExactly | src/arp.c:244-262 | an entry is silent if and only if some reading of the kernel confirmed it while it was still to be reported and no later one missed it |
| ArpEvents.ReplayPatient | src/arp.c:562-592 | the replay gives all entries if the kernel is never read while it holds an entry still to be reported |
| ArpEvents.UndrainedLoses | src/arp.c:441-461 | a run after which nothing is left to report and the replay differs |
| Arp.ArpTable.FilterMac | src/arp.c:225-291 | the loop and what follows it treat one kernel entry |
| Arp.ArpTable.Search | src/arp.c:412-433 | the first record for the host that may be used |
| Arp.ArpTable.MarkAll | src/arp.c:442-445 | marks all records that are not negative |
| Arp.ArpTable.RemoveMarked | src/arp.c:449-463 | moves the marked records to the old list |
| Arp.ArpTable.ReadKernel | src/arp.c:436-463 | a whole refresh |
| Arp.ArpTable.FindMac | src/arp.c:398-491 | find_mac with its one retry has the effect of `ArpState.FindMac`, which the rows `ArpProofs.MacSound` and `ArpAsked.AskedExactly` describe |
| Arp.ArpTable.ScriptRun | src/arp.c:562-592 | do_arp_script_run |
| Checksum.OnesSumReduces | src/bpf.c:655-659 | adding in one's complement word by word, as section 1 of RFC 1071 defines it, is adding everything up and folding the carries once |
| Checksum.ByteOrder | src/bpf.c:655-660 | a message verifies on a machine of one byte order if and only if it does on the other |
| Checksum.OnlyStored | src/bpf.c:660-679 | the value stored is never zero, makes the message verify, and is the only one that does, except that zero does where all ones was stored |
| Checksum.AddWords | src/bpf.c:655-656 | the 32-bit sum of the words is exact: it cannot overflow |
| Checksum.FoldCarries | src/bpf.c:657-658 | the folding loop ends and keeps the value modulo 65535 |
| Checksum.IpChecksum | src/bpf.c:654-660 | the header verifies on every machine and nothing but the checksum changed |
| Checksum.UdpSum | src/bpf.c:667-677 | for every payload up to 16384 bytes the sum over pseudo header, header and padded payload is exact in 32 bits |
| Checksum.UdpChecksum | src/bpf.c:664-679 | the datagram with its pseudo header verifies on every machine, the stored checksum is not zero, the length field is right, and of the payload only the padding byte changed |

## Left out

- cache_reload and the loading of hosts files: they clear flags but keep uids, which breaks the argument about links, and are otherwise file parsing.
- add_hosts_entry: its search for duplicates compares the first match only, so what it is meant to keep does not hold.
- DNSSEC records: off by default, and their uid field holds a class. `Batch.Insertable` excludes them.
- cache_add_dhcp_entry: a DHCP or hosts entry is a step `Define` that adds any new static record; how its fields are worked out is not modelled.
- make_non_terminals as a step of a run: it may promote an entry in place, after which chains need not be in order (`Promotion.MakeOrder`) and the statements about scans that leave a chain early no longer apply. What it keeps is proved by itself (`Ancestors.MakeKeeps`).
- A spare DHCP record that is used again as a CNAME target keeps its old uid; links to such records are not modelled.
- The wrap-around of the 32-bit uid counter: uids are unbounded, so a uid is never handed out twice.
- The union of a long name with the link of its free list: storage for long names is counted, not laid out.
- The blocks that an SRV record owns: its target is a value, and `BlockPool` is proved by itself. That blocks for a target read from a pipe can be had is taken for granted.
- Records of the cache as heap objects: a record is a handle, and its fields are in maps of one object. The links of the LRU list, of the batch and of threaded answers are such fields; hash chains and the list of spare DHCP records are sequences.
- The static buffer of blockdata_retrieve: the caller's buffer is modelled.
- Byte layout in the pipe: sizes and pointers of 8 bytes, times of 8, flags of 4, numbers least significant byte first, as on both ends of one pipe.
- Log messages, metrics and statistics.
- The rest of send_via_bpf: filling in the other header fields, and sending.
- NonTerminals.EmptyNonTerminals: asks that no static entry is a negative one and that spare records are not in the table; `Ancestors.EveryName` shows that adding names keeps this.
- Room.NoneFails: leaves long names aside, since their storage may run out.
- Promotion.MakeOrder: is for caches without DNSSEC records, as all of this model.
- Hollow.LookupGains: is for caches without DNSSEC records too, and speaks of expiry only: an entry that matches counts whether or not its link dangles.
- ArpProofs.RefreshExact: is for a kernel that reports no entry twice and MACs of 1 to 16 bytes, and for mallocs that succeed; `ArpProofs.RefreshAny` has no such conditions and says less about the old list.
- ArpEvents.RunMacSound: before the first reading of the kernel the snapshot counts as empty and taken at time 0, as the initial value of `last` has it.
- Cache.Cache.ForgetDhcp: the spare records are a sequence; that a record's `next` field leads to the one after it is not modelled.
- Cache.Cache.Arrive: asks that a record to be inserted is a forward or reverse one and not static, without which the lists of the C code need not stay linked.
- Cache.Cache.RecvInsert: asks that each record to be inserted is a forward or reverse one and not static, as a child of the same program writes them.
- Arrival.RoundTrip: asks that the child's records have not expired and fit the fields they are written to.
