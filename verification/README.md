# Bitcoin Core models

A model of seven components of the Bitcoin Core sources vendored with the kernel library, and
proofs about it. Each component is a group of modules; the operations are written in the form the
source has: classes with fields updated in place where the source has objects, loops over arrays
where it works in place, functions where it only computes, and a step relation where it is
concurrent. Each method is proved against a specification function or predicate, and the laws are
lemmas about those.

- **Address manager** (`AddrManTypes`, `AddrManInvariant`, `AddrManOps`, `AddrManRuns`,
  `AddrManEffects`, `AddrMan`, `AddrManCheck`, `AddrManFile`, `AddrManRoundTrip`, `AddrManReload`). The class holds two bucket tables, the id and
  address maps, the random vector, the counters and the collision set. The keyed bucket and
  position functions and the classification of addresses are arbitrary functions in `Env`, so every
  result holds for the hashes the program uses (`HashedEnv`). Random draws, clock readings and the
  order in which hash maps are walked are parameters. A state is a value `State`; small moves on it
  (create, drop, place, demote, promote, ...) each keep the invariant up to a stated gap, and the
  operations are built from them. What each operation does is told a second time, by the states
  before and after alone, in `AddrManEffects` and, for reading a file, in `AddrManReload`.
- **Bech32 and Bech32m** (`Bech32Field`, `Bech32Checksum`, `Bech32`, `Bech32Codec`). The checksum
  register is 32-bit; everything rests on one step being linear over exclusive or and injective on
  30-bit registers.
- **Limb arithmetic and compact targets** (`Powers`, `Limbs`, `LimbShifts`, `ArithUint`,
  `CompactTarget`), for every number of limbs. Limbs are integers below 2^32; every 64-bit
  intermediate is asserted to fit.
- **Base58** (`Radix`, `Base58`). One in-place carry loop serves both directions.
- **Compact blocks** (`CompactBlocks`, `CompactBlockClass`, `DifferenceFormatter`).
- **Golomb-coded set filters** (`BitStream`, `GolombRice`, `BlockFilter`), down to the bits in bytes.
- **Nonce grinding and ban lists** (`Grind`, `BanMan` with `BanRuns`), as interleavings of steps.

Where the code falls short of what one would expect, the exact condition is stated:

- the consistency check of the address manager overlooks stale addresses in the address map, the id
  counter and a network without a counter (`CheckExact`, `MissingCounterPasses`);
- Bech32 does not notice zeros put in or left out before a final one, Bech32m does
  (`ZerosUnnoticed`, `ZeroNoticed`);
- a Base58 length limit, even a negative one, never refuses the empty result (`DecodeEncoded`);
- a filter of more than 0x02000000 elements is built but can be neither read back nor matched
  (`RebuiltSame`, `MatchInternal`);
- a ban that ends at or before the epoch leaves a blank entry in memory that is not marked for
  writing (`BanSaved`, `BlankNotSaved`);
- sweeping the ban list changes the answer for an exact subnet that is invalid (`SweepExactSubnet`).

What callers must provide, as in the source: a non-zero key; positive times for marking an address
good and for the collision clock, and non-negative times for attempts; a message of at most 65535
transactions, which is what the deserializer lets through (`blockencodings.h:121-130`); at least two
limbs wherever a 64-bit word is assigned; coding parameters below 64; a human-readable part without
capitals and 5-bit values for the Bech32 encoder; and a number of grinding tasks whose batches of
5000 fit in 32 bits.

## Model

| member | source | states |
|---|---|---|
| `AddrManRuns.RunInv` | libbitcoinkernel-sys/bitcoin/src/addrman.cpp:397-605 | every state of every run of the public operations from the empty manager, with any clock and any draws, satisfies the whole invariant: ids and addresses are mutually inverse, the random vector is a permutation with exact back pointers, tried ids sit exactly at home, new ids sit in exactly as many determined slots as their reference count says (1 to 8), and the totals and per-network counters are exact |
| `AddrManRuns.StepInv` | libbitcoinkernel-sys/bitcoin/src/addrman.cpp:607-982 | each public operation keeps the whole invariant |
| `AddrManRuns.RunTried` | libbitcoinkernel-sys/bitcoin/src/addrman.cpp:497-528 | in every run a tried slot that is occupied stays occupied for ever |
| `AddrManRuns.StepTried` | libbitcoinkernel-sys/bitcoin/src/addrman.cpp:472-529 | no operation empties an occupied tried slot |
| `AddrManRuns.GoodTried` | libbitcoinkernel-sys/bitcoin/src/addrman.cpp:607-660 | marking an address good leaves the tried table alone or changes exactly its home slot to it |
| `AddrManRuns.RunNoPhantom` | libbitcoinkernel-sys/bitcoin/src/addrman.cpp:956-982 | in every run the collision set is within its limit, and a remembered id that still exists has an occupied home slot, whose occupant is a real tried entry |
| `AddrManEffects.RunOrderly` | libbitcoinkernel-sys/bitcoin/src/addrman.cpp:531-982 | in every run only routable addresses are known, and an entry that is remembered as a collision is not in the tried table |
| `AddrManEffects.StepOrderly` | libbitcoinkernel-sys/bitcoin/src/addrman.cpp:531-982 | each public operation keeps that |
| `AddrManRoundTrip.RunCapacity` | libbitcoinkernel-sys/bitcoin/src/addrman_impl.h:25-33 | in every run there are at most 65536 new and 16384 tried entries |
| `AddrManTypes.BucketsShared` | libbitcoinkernel-sys/bitcoin/src/addrman.cpp:29-42 | with the hashing the program uses, for any hash, the addresses of one group share at most 8 tried buckets, and what one source group announces goes into at most 64 new buckets |
| `AddrManRuns.EmptyInv` | libbitcoinkernel-sys/bitcoin/src/addrman.cpp:90-106 | a new manager satisfies the invariant |
| `AddrManRuns.AddedAll` | libbitcoinkernel-sys/bitcoin/src/addrman.cpp:662-672 | adding a list of addresses one by one keeps the invariant |
| `AddrManRuns.AscendingIds` | libbitcoinkernel-sys/bitcoin/src/addrman.cpp:897-898 | the collision set walked in ascending order, as the ordered set is, each id once |
| `AddrManInvariant.CreatedKeeps` | libbitcoinkernel-sys/bitcoin/src/addrman.cpp:397-411 | creating an entry keeps the invariant but for the new entry, which is still to be placed |
| `AddrManInvariant.SwappedKeeps` | libbitcoinkernel-sys/bitcoin/src/addrman.cpp:413-435 | swapping two places of the random vector keeps the invariant |
| `AddrManInvariant.DeletedKeeps` | libbitcoinkernel-sys/bitcoin/src/addrman.cpp:437-452 | deleting an entry without references keeps the invariant of the rest |
| `AddrManInvariant.DroppedKeeps` | libbitcoinkernel-sys/bitcoin/src/addrman.cpp:459-464 | taking one reference away keeps slots, reference counts and totals in step |
| `AddrManInvariant.PlacedKeeps` | libbitcoinkernel-sys/bitcoin/src/addrman.cpp:593-594 | putting an id into a free determined slot keeps them in step |
| `AddrManInvariant.WithdrawnKeeps` | libbitcoinkernel-sys/bitcoin/src/addrman.cpp:476-490 | taking an id out of all its new slots keeps them in step |
| `AddrManInvariant.DemotedKeeps` | libbitcoinkernel-sys/bitcoin/src/addrman.cpp:503-507 | taking the occupant of a tried slot out keeps tables and counters in step |
| `AddrManInvariant.PromotedKeeps` | libbitcoinkernel-sys/bitcoin/src/addrman.cpp:523-528 | putting an id into its home slot keeps tables and counters in step |
| `AddrManOps.ClearedNewKeeps` | libbitcoinkernel-sys/bitcoin/src/addrman.cpp:454-470 | emptying a new slot, with its entry deleted when that was the last reference, keeps the invariant |
| `AddrManOps.MadeTriedKeeps` | libbitcoinkernel-sys/bitcoin/src/addrman.cpp:472-529 | moving an entry to tried, with the occupant of the slot moved back to new and whatever it displaces there, keeps the invariant |
| `AddrManOps.MadeTriedEffect` | libbitcoinkernel-sys/bitcoin/src/addrman.cpp:472-529 | the tried table changes in exactly the home slot, no entry is added, and only the moved one becomes tried |
| `AddrManOps.InsertedKeeps` | libbitcoinkernel-sys/bitcoin/src/addrman.cpp:580-604 | the insertion of an entry into its new slot, or its removal when it has no slot at all, keeps the invariant |
| `AddrManOps.AddedSingleInv` | libbitcoinkernel-sys/bitcoin/src/addrman.cpp:531-605 | adding one address keeps the invariant, for every clock reading and draw |
| `AddrManOps.GoodInv` | libbitcoinkernel-sys/bitcoin/src/addrman.cpp:607-660 | marking an address good keeps the invariant, with or without testing before eviction |
| `AddrManOps.AttemptedInv` | libbitcoinkernel-sys/bitcoin/src/addrman.cpp:674-692 | noting an attempt keeps the invariant |
| `AddrManOps.ConnectedInv` | libbitcoinkernel-sys/bitcoin/src/addrman.cpp:858-875 | noting a connection keeps the invariant |
| `AddrManOps.ServicesSetInv` | libbitcoinkernel-sys/bitcoin/src/addrman.cpp:877-891 | setting services keeps the invariant |
| `AddrManOps.SelectedTriedInv` | libbitcoinkernel-sys/bitcoin/src/addrman.cpp:956-982 | selecting a collision, and dropping a stale one, keeps the invariant |
| `AddrManEffects.AddedUnknown` | libbitcoinkernel-sys/bitcoin/src/addrman.cpp:576-605 | a routable address that is not known is inserted exactly when its slot for the source is free, or its occupant is terrible or has more than one reference; then the slot holds a new entry with that address and source, the penalised time and one reference, the former occupant has lost one reference and is gone exactly when that was its last, and every other entry and slot is unchanged; otherwise nothing but the id counter changes |
| `AddrManEffects.AddedKnown` | libbitcoinkernel-sys/bitcoin/src/addrman.cpp:546-604 | what becomes of the time and the flags of a known address, and that it gets the slot for the source exactly when it is new, has fewer than 8 references, is announced with a later time than recorded, the draw succeeds, and the slot is free or held by another, terrible entry; who loses a reference then, and that nothing else changes |
| `AddrManEffects.AddedUnroutable` | libbitcoinkernel-sys/bitcoin/src/addrman.cpp:535-536 | an address that is not routable changes nothing |
| `AddrManEffects.AddedForgets` | libbitcoinkernel-sys/bitcoin/src/addrman.cpp:50-73 | an announcement costs another entry its existence only if that entry had one slot, the one asked for, and was not tried for a minute and is from the future, unseen for 30 days, never reached in 3 attempts, or not reached for a week and 10 attempts; for an unknown address exactly then |
| `AddrManEffects.InsertedTakes` | libbitcoinkernel-sys/bitcoin/src/addrman.cpp:580-604 | when a slot changes hands, who takes it, who loses it and what is left alone |
| `AddrManEffects.ClearedNewOccupant` | libbitcoinkernel-sys/bitcoin/src/addrman.cpp:454-470 | emptying a slot takes one reference from its occupant, which goes with its address exactly when that was the last; nothing else changes |
| `AddrManEffects.MadeTriedMoves` | libbitcoinkernel-sys/bitcoin/src/addrman.cpp:472-529 | the entry is at home with no reference and no new slot; the one that lived there is at the slot of its own source, once; both tables are otherwise as before |
| `AddrManEffects.GoodEffect` | libbitcoinkernel-sys/bitcoin/src/addrman.cpp:607-660 | an entry moves exactly when it is known, not tried, and its home is free or need not be tested; then tables are as for a move; a known new entry that does not move is remembered if fewer than 10 are; success and attempt times are the time given and the attempts zero for every known address; nothing else changes |
| `AddrManEffects.ResolvedOneEffect` | libbitcoinkernel-sys/bitcoin/src/addrman.cpp:898-951 | the home of a remembered entry changes hands exactly when the entry exists, is valid and not tried, the occupant had no success for 4 hours, and it was tried between 60 seconds and 4 hours ago, or not for 4 hours while the newcomer succeeded more than 40 minutes ago; the entry stays remembered exactly while the test has just begun or may still come; no table changes otherwise |
| `AddrManEffects.SelectedTriedEffect` | libbitcoinkernel-sys/bitcoin/src/addrman.cpp:956-982 | selecting forgets exactly a remembered id that no longer exists |
| `AddrManEffects.AttemptedEffect` | libbitcoinkernel-sys/bitcoin/src/addrman.cpp:674-692 | only the record of a known address changes; a failure is counted exactly when asked for and none has been counted since the last success anywhere, so a second one is not counted before another success |
| `AddrManEffects.ConnectedEffect` | libbitcoinkernel-sys/bitcoin/src/addrman.cpp:858-891 | the time of a known address is renewed exactly when more than 20 minutes old; setting services replaces its flags; neither touches anything else |
| `AddrManEffects.AddedAllJoins` | libbitcoinkernel-sys/bitcoin/src/addrman.cpp:662-672 | adding two lists in turn is adding them joined, and the counts add up |
| `AddrManEffects.AddedAllOne` | libbitcoinkernel-sys/bitcoin/src/addrman.cpp:662-672 | adding a list of one is adding it |
| `AddrManEffects.ResolvedJoins` | libbitcoinkernel-sys/bitcoin/src/addrman.cpp:893-954 | resolving collisions in two parts is resolving them in one |
| `AddrManClass.AddrMan.constructor` | libbitcoinkernel-sys/bitcoin/src/addrman.cpp:90-106 | all tables start empty |
| `AddrManClass.AddrMan.Create` | libbitcoinkernel-sys/bitcoin/src/addrman.cpp:397-411 | the indexes after creating an entry, and its id |
| `AddrManClass.AddrMan.SwapRandom` | libbitcoinkernel-sys/bitcoin/src/addrman.cpp:413-435 | the vector and both back pointers after a swap |
| `AddrManClass.AddrMan.Delete` | libbitcoinkernel-sys/bitcoin/src/addrman.cpp:437-452 | the indexes after deleting an entry |
| `AddrManClass.AddrMan.ClearNew` | libbitcoinkernel-sys/bitcoin/src/addrman.cpp:454-470 | the indexes after emptying a new slot |
| `AddrManClass.AddrMan.Withdraw` | libbitcoinkernel-sys/bitcoin/src/addrman.cpp:476-486 | the walk over the buckets, stopped when no reference is left, removes the id from every new slot |
| `AddrManClass.AddrMan.Evict` | libbitcoinkernel-sys/bitcoin/src/addrman.cpp:497-522 | the occupant of a tried slot ends in its default new slot, which is cleared first |
| `AddrManClass.AddrMan.Refer` | libbitcoinkernel-sys/bitcoin/src/addrman.cpp:593-594 | the slot holds the id, which has one reference more |
| `AddrManClass.AddrMan.MakeTried` | libbitcoinkernel-sys/bitcoin/src/addrman.cpp:472-529 | the indexes after moving an entry to tried |
| `AddrManClass.AddrMan.Find` | libbitcoinkernel-sys/bitcoin/src/addrman.cpp:382-395 | an address is found exactly when it is indexed, and then with an entry for it |
| `AddrManClass.AddrMan.AddSingle` | libbitcoinkernel-sys/bitcoin/src/addrman.cpp:531-605 | the state and the answer are those of `AddedSingle`, whose effect `AddedUnknown`, `AddedKnown` and `AddedUnroutable` state for every address; the invariant holds after it |
| `AddrManClass.AddrMan.Add` | libbitcoinkernel-sys/bitcoin/src/addrman.cpp:662-672 | the addresses are added one after the other (`AddedAllOne`, `AddedAllJoins`), and the answer is whether any took a slot; the invariant holds after it |
| `AddrManClass.AddrMan.Good` | libbitcoinkernel-sys/bitcoin/src/addrman.cpp:607-660 | the state and the answer are those of `GoodDone`, whose effect `GoodEffect` states; the invariant holds after it |
| `AddrManClass.AddrMan.Attempt` | libbitcoinkernel-sys/bitcoin/src/addrman.cpp:674-692 | the record changes as `AttemptedEffect` states; the invariant holds after it |
| `AddrManClass.AddrMan.Connected` | libbitcoinkernel-sys/bitcoin/src/addrman.cpp:858-875 | the record changes as `ConnectedEffect` states; the invariant holds after it |
| `AddrManClass.AddrMan.SetServices` | libbitcoinkernel-sys/bitcoin/src/addrman.cpp:877-891 | the record changes as `ConnectedEffect` states; the invariant holds after it |
| `AddrManClass.AddrMan.ResolveCollisions` | libbitcoinkernel-sys/bitcoin/src/addrman.cpp:893-954 | every remembered collision judged once, in ascending order, each with the effect of `ResolvedOneEffect`; the invariant holds after it |
| `AddrManClass.AddrMan.ResolveOne` | libbitcoinkernel-sys/bitcoin/src/addrman.cpp:898-951 | one collision: the newcomer takes its home, is forgotten, or waits, exactly under the conditions of `ResolvedOneEffect` |
| `AddrManClass.AddrMan.SelectTriedCollision` | libbitcoinkernel-sys/bitcoin/src/addrman.cpp:956-982 | the entry returned is the occupant of the home slot of the id picked; no entry is created |
| `AddrManClass.AddrMan.GetAddr` | libbitcoinkernel-sys/bitcoin/src/addrman.cpp:793-832 | a sample within the limit, without repetition, of entries that pass the filter, all of them when the limit is not reached; only the order of the random vector changes |
| `AddrManClass.SampleLimitExact` | libbitcoinkernel-sys/bitcoin/src/addrman.cpp:798-805 | the limit is the largest number that is within the count, the bound and the percentage given |
| `AddrManClass.SampledMeans` | libbitcoinkernel-sys/bitcoin/src/addrman.cpp:821-827 | a sample holds only the network asked for and, if filtered, no terrible entry; one that was not cut short lacks only entries so excluded |
| `AddrManCheck.CheckAddrman` | libbitcoinkernel-sys/bitcoin/src/addrman.cpp:1044-1147 | on any state the check returns zero exactly when entries, tables, totals and counters pass |
| `AddrManCheck.CheckEntries` | libbitcoinkernel-sys/bitcoin/src/addrman.cpp:1058-1094 | the walk over the entries finds a fault exactly when there is one |
| `AddrManCheck.CheckTried` | libbitcoinkernel-sys/bitcoin/src/addrman.cpp:1096-1111 | the walk over the tried table ends without a fault and with nothing over exactly when each tried id is in its home slot and nowhere else |
| `AddrManCheck.CheckNew` | libbitcoinkernel-sys/bitcoin/src/addrman.cpp:1113-1126 | the walk over the new table ends without a fault and with nothing over exactly when each new id is in as many slots as its reference count, at determined positions |
| `AddrManCheck.CheckCounters` | libbitcoinkernel-sys/bitcoin/src/addrman.cpp:1137-1144 | the comparison of counters, as far as it goes |
| `AddrManCheck.Pigeonhole` | libbitcoinkernel-sys/bitcoin/src/addrman.cpp:1044-1147 | if every entry points back into a vector of the same length, the vector is a permutation of the ids |
| `AddrManCheck.CheckedMeaning` | libbitcoinkernel-sys/bitcoin/src/addrman.cpp:1044-1147 | a state that passes has a permutation as random vector, its tried ids at home and nowhere else, and its new ids in exactly as many slots as they count |
| `AddrManCheck.CheckExact` | libbitcoinkernel-sys/bitcoin/src/addrman.cpp:1044-1147 | the invariant holds exactly when the check passes and the things it does not look at are right |
| `AddrManCheck.MissingCounterPasses` | libbitcoinkernel-sys/bitcoin/src/addrman.cpp:1137-1144 | the comparison of counters goes one way: a state with the counter of a network missing can pass, although its counts are wrong |
| `AddrManFile.Serialize` | libbitcoinkernel-sys/bitcoin/src/addrman.cpp:113-209 | the records written for a manager, for any order the map is walked in; the written counts are the totals |
| `AddrManFile.Unserialize` | libbitcoinkernel-sys/bitcoin/src/addrman.cpp:211-380 | any file, also an ill-formed one, is accepted exactly when its header is readable and the restored state passes the check, and then the manager is that state; what that state holds is stated for every readable file by `ReloadedNew`, `ReloadedListing` and `ReloadedTried`; a file for a later format is told apart |
| `AddrManFile.ReadTried` | libbitcoinkernel-sys/bitcoin/src/addrman.cpp:274-295 | the tried section as read, with the entries that found no slot not counted |
| `AddrManFile.ReadBuckets` | libbitcoinkernel-sys/bitcoin/src/addrman.cpp:300-312 | the bucket lists as read, with indexes outside the new section left out |
| `AddrManFile.EntriesExact` | libbitcoinkernel-sys/bitcoin/src/addrman.cpp:302-312 | an entry is read exactly when a bucket list names it and it is in the new section |
| `AddrManFile.PlaceEntries` | libbitcoinkernel-sys/bitcoin/src/addrman.cpp:329-357 | every listed entry tried in its old slot, if buckets are kept, and then in its default slot; the outcome is stated by `ReloadedNew` and `ReloadedListing` |
| `AddrManFile.Prune` | libbitcoinkernel-sys/bitcoin/src/addrman.cpp:359-369 | entries that found no slot are deleted |
| `AddrManRoundTrip.RoundTrip` | libbitcoinkernel-sys/bitcoin/src/addrman.cpp:113-380 | what is written is readable, and reading it gives a manager that satisfies the invariant, passes the check and holds the same addresses with the same data in the same slots with the same reference counts up to renaming of ids, for any map order, provided all stored addresses are valid |
| `AddrManRoundTrip.WrittenForm` | libbitcoinkernel-sys/bitcoin/src/addrman.cpp:113-209 | the header fields written, and that the sections are as long as it says |
| `AddrManReload.ReloadedNew` | libbitcoinkernel-sys/bitcoin/src/addrman.cpp:329-369 | for every readable file: a record of the new section survives exactly when it has a slot in the end, with as many references as slots, and only if it is valid and listed; a listed valid one is lost only to another holder of its default slot; when buckets cannot be kept, a survivor has exactly its default slot |
| `AddrManReload.ReloadedListing` | libbitcoinkernel-sys/bitcoin/src/addrman.cpp:329-357 | for every readable file and every bucket entry of a valid record: when buckets are kept its slot is taken in the end unless the record has 8 references; when not, its default slot belongs to a record listed no later |
| `AddrManReload.ReloadedTried` | libbitcoinkernel-sys/bitcoin/src/addrman.cpp:274-295 | for every readable file the tried table holds exactly the first valid record of each home, with its data |
| `AddrManReload.LoadTriedKept` | libbitcoinkernel-sys/bitcoin/src/addrman.cpp:274-295 | reading the tried section is reading those records; all others are counted as lost |
| `AddrManReload.KeptExact` | libbitcoinkernel-sys/bitcoin/src/addrman.cpp:274-295 | a record is kept exactly when it is valid and no valid record before it has the same home |
| `AddrManReload.PrunedEffect` | libbitcoinkernel-sys/bitcoin/src/addrman.cpp:359-369 | pruning removes exactly the entries without a place and moves nothing |
| `AddrManReload.ReloadedInv` | libbitcoinkernel-sys/bitcoin/src/addrman.cpp:211-380 | a readable file with a key, distinct addresses and tried records that tell of a success is read into a manager that satisfies the whole invariant, whatever its bucket lists say and whatever is lost |
| `AddrManReload.Rebucketed` | libbitcoinkernel-sys/bitcoin/src/addrman.cpp:113-380 | a manager written under one asmap version and read under any other, with any bucketing, is accepted and satisfies the invariant; every valid tried entry alone at its new home and every valid new entry alone at its new default slot is back there with its data, the latter with one reference |
| `Bech32Field.StepLinear` | libbitcoinkernel-sys/bitcoin/src/bech32.cpp:193-212 | one step of the checksum register is linear over exclusive or |
| `Bech32Field.StepNonzero` | libbitcoinkernel-sys/bitcoin/src/bech32.cpp:193-212 | a step with a zero symbol never takes a non-zero register to zero |
| `Bech32Checksum.RunLinear` | libbitcoinkernel-sys/bitcoin/src/bech32.cpp:130-216 | the register is linear in its start and the whole input |
| `Bech32Checksum.RunShort` | libbitcoinkernel-sys/bitcoin/src/bech32.cpp:130-216 | up to six symbols from the zero register leave zero only if all are zero |
| `Bech32Checksum.ChecksumUnique` | libbitcoinkernel-sys/bitcoin/src/bech32.cpp:341-353 | the six symbols created make the register end at the wanted value, and no other six do |
| `Bech32Checksum.BurstDetected` | libbitcoinkernel-sys/bitcoin/src/bech32.cpp:130-216 | two different lists of any length that differ only within six consecutive positions never leave the same register, whatever came before |
| `Bech32.BurstRejected` | libbitcoinkernel-sys/bitcoin/src/bech32.cpp:327-339 | such lists under the same human-readable part never both verify under the same encoding |
| `Bech32.VerifiedExact` | libbitcoinkernel-sys/bitcoin/src/bech32.cpp:327-353 | six symbols verify under an encoding exactly when they are its checksum |
| `Bech32.ZerosUnnoticed` | libbitcoinkernel-sys/bitcoin/src/bech32.cpp:121-125 | a list ending in one verifies as Bech32 exactly when it does with any number of zeros put in before the one |
| `Bech32.ZeroNoticed` | libbitcoinkernel-sys/bitcoin/src/bech32.cpp:121-125 | a list ending in one and the same list with a zero put in before the one never both verify as Bech32m |
| `Bech32.StepOnce` | libbitcoinkernel-sys/bitcoin/src/bech32.cpp:193-212 | the loop body as written, with its five conditional additions, is the linear step |
| `Bech32.PolyMod` | libbitcoinkernel-sys/bitcoin/src/bech32.cpp:130-216 | the loop computes the register |
| `Bech32.CheckCharacters` | libbitcoinkernel-sys/bitcoin/src/bech32.cpp:287-309 | the positions reported are, in order, exactly the unprintable characters and the letters of the other case than the first; none is reported exactly when all are printable and the case is not mixed |
| `Bech32.CleanExact` | libbitcoinkernel-sys/bitcoin/src/bech32.cpp:287-309 | no position is bad exactly when the string is printable and of one case |
| `Bech32.PreparePolynomialCoefficients` | libbitcoinkernel-sys/bitcoin/src/bech32.cpp:311-324 | high bits, a zero, low bits, then the values |
| `Bech32.VerifyChecksum` | libbitcoinkernel-sys/bitcoin/src/bech32.cpp:327-339 | the encoding whose constant the register ends at, if any; which encoding has which constant follows from `ZerosUnnoticed`, `ZeroNoticed` and `KnownStrings` |
| `Bech32.CreateChecksum` | libbitcoinkernel-sys/bitcoin/src/bech32.cpp:342-353 | the six symbols that verify under the encoding (`VerifiedExact`) |
| `Bech32.CharsetInverse` | libbitcoinkernel-sys/bitcoin/src/bech32.cpp:22-35 | the decoding table undoes the encoding table |
| `Bech32.RevInverse` | libbitcoinkernel-sys/bitcoin/src/bech32.cpp:22-35 | the encoding table undoes the decoding table up to case |
| `Bech32Codec.Encode` | libbitcoinkernel-sys/bitcoin/src/bech32.cpp:357-371 | the whole string: human-readable part, separator, symbols and the checksum of the encoding, as in `KnownStrings` |
| `Bech32Codec.Decode` | libbitcoinkernel-sys/bitcoin/src/bech32.cpp:373-400 | the result for every string: refused for bad characters, length, separator, symbols or checksum, and otherwise the parts (`DecodeEncoded`, `EncodeDecoded`, `DecodeIgnoresCase`, `KnownStrings`) |
| `Bech32Codec.DecodeEncoded` | libbitcoinkernel-sys/bitcoin/src/bech32.cpp:357-400 | decoding an encoded string gives back encoding, human-readable part and values exactly when that part is non-empty and printable and the length is within the limit; otherwise it is refused |
| `Bech32Codec.EncodeDecoded` | libbitcoinkernel-sys/bitcoin/src/bech32.cpp:357-400 | encoding what an accepted string decodes to gives the string in lower case |
| `Bech32Codec.SameDecoding` | libbitcoinkernel-sys/bitcoin/src/bech32.cpp:373-400 | accepted strings that decode alike are equal up to case |
| `Bech32Codec.DecodeIgnoresCase` | libbitcoinkernel-sys/bitcoin/src/bech32.cpp:373-400 | a string decodes like its lower-case form if all its characters are printable and it does not have letters of both cases; otherwise it is refused |
| `Bech32Codec.KnownStrings` | libbitcoinkernel-sys/bitcoin/src/test/bech32_tests.cpp:16-50 | "a12uel5l" is the Bech32 form and "a1lqfn3a" the Bech32m form of "a" without data, and they decode to it |
| `Bech32Codec.CharsetString` | libbitcoinkernel-sys/bitcoin/src/bech32.cpp:22-23 | the symbols in order are written with the character set |
| `ArithUint.BaseUint.constructor` | libbitcoinkernel-sys/bitcoin/src/arith_uint256.h:34-38 | the number is zero |
| `ArithUint.BaseUint.AssignWord` | libbitcoinkernel-sys/bitcoin/src/arith_uint256.h:70-77 | the number is the 64-bit word |
| `ArithUint.BaseUint.Add` | libbitcoinkernel-sys/bitcoin/src/arith_uint256.h:117-127 | the sum modulo two to the number of bits, for every width, also with itself as operand; no 64-bit intermediate overflows |
| `ArithUint.BaseUint.Negate` | libbitcoinkernel-sys/bitcoin/src/arith_uint256.h:59-66 | the two's complement: the modulus minus the number, or zero |
| `ArithUint.BaseUint.Sub` | libbitcoinkernel-sys/bitcoin/src/arith_uint256.h:129-133 | the difference modulo two to the number of bits, exact when it is not negative |
| `ArithUint.BaseUint.Increment` | libbitcoinkernel-sys/bitcoin/src/arith_uint256.h:155-162 | one more, wrapping at the end |
| `ArithUint.BaseUint.Decrement` | libbitcoinkernel-sys/bitcoin/src/arith_uint256.h:172-179 | one less, wrapping at zero |
| `ArithUint.BaseUint.MulLimb` | libbitcoinkernel-sys/bitcoin/src/arith_uint256.cpp:48-58 | the product with one limb modulo two to the number of bits |
| `ArithUint.BaseUint.AddRow` | libbitcoinkernel-sys/bitcoin/src/arith_uint256.cpp:63-71 | one row adds digit times number, moved up, but for a multiple of the modulus; carry plus limb plus product fits in 64 bits |
| `ArithUint.BaseUint.Mul` | libbitcoinkernel-sys/bitcoin/src/arith_uint256.cpp:60-74 | the product modulo two to the number of bits, for every operand, also the receiver |
| `ArithUint.BaseUint.ShiftLeft` | libbitcoinkernel-sys/bitcoin/src/arith_uint256.cpp:14-29 | multiplication by a power of two modulo two to the number of bits, for every shift amount |
| `ArithUint.BaseUint.ShiftRight` | libbitcoinkernel-sys/bitcoin/src/arith_uint256.cpp:31-46 | division by a power of two, for every shift amount |
| `ArithUint.BaseUint.Div` | libbitcoinkernel-sys/bitcoin/src/arith_uint256.cpp:76-100 | exactly the floor of the quotient, with the working copy ending as the remainder; refused exactly for a zero divisor, when the receiver has been cleared |
| `ArithUint.Aligned` | libbitcoinkernel-sys/bitcoin/src/arith_uint256.cpp:89-90 | the shift that aligns the divisor with the dividend loses no bit |
| `ArithUint.BaseUint.CompareTo` | libbitcoinkernel-sys/bitcoin/src/arith_uint256.cpp:102-112 | the numeric order of the two numbers |
| `ArithUint.BaseUint.Bits` | libbitcoinkernel-sys/bitcoin/src/arith_uint256.cpp:156-169 | the position of the highest bit set plus one, zero exactly for zero |
| `ArithUint.BaseUint.GetLow64` | libbitcoinkernel-sys/bitcoin/src/arith_uint256.h:222-226 | the number modulo two to the 64th |
| `ArithUint.ProductFits` | libbitcoinkernel-sys/bitcoin/src/arith_uint256.cpp:66-68 | two limbs and a product of two limbs stay below two to the 64th, and the carry is a limb |
| `LimbShifts.LeftValue` | libbitcoinkernel-sys/bitcoin/src/arith_uint256.cpp:14-29 | limbs moved up limb by limb and bit by bit stand for the shifted number with the top lost |
| `LimbShifts.RightValue` | libbitcoinkernel-sys/bitcoin/src/arith_uint256.cpp:31-46 | limbs moved down stand for the quotient |
| `CompactTarget.ArithUint256.SetCompact` | libbitcoinkernel-sys/bitcoin/src/arith_uint256.cpp:176-194 | the number is the meaning of the compact form modulo 2^256; negative exactly when the sign bit is set and the meaning is not zero; overflow exactly when the meaning does not fit in 256 bits |
| `CompactTarget.ArithUint256.GetCompact` | libbitcoinkernel-sys/bitcoin/src/arith_uint256.cpp:196-217 | the result is the compact form of the number; neither assertion fails |
| `CompactTarget.OverflowExact` | libbitcoinkernel-sys/bitcoin/src/arith_uint256.cpp:189-192 | the three comparisons on size and mantissa hold exactly when mantissa times 256^(size-3) is at least 2^256 |
| `CompactTarget.CompactUnique` | libbitcoinkernel-sys/bitcoin/src/arith_uint256.cpp:196-217 | a number and a sign have only one compact form |
| `CompactTarget.CompactRoundTrip` | libbitcoinkernel-sys/bitcoin/src/arith_uint256.cpp:176-217 | reading the compact form of x gives x with its part below 256^k cleared, k from the final exponent, never more than x, and the sign asked for unless x is zero |
| `CompactTarget.Recompact` | libbitcoinkernel-sys/bitcoin/src/arith_uint256.cpp:176-217 | on the objects: writing, reading and writing again gives the number with its low part cleared, no overflow, the sign asked for unless the number is zero, and the same form |
| `CompactTarget.CompactStable` | libbitcoinkernel-sys/bitcoin/src/arith_uint256.cpp:176-217 | the number read back has the same compact form |
| `Radix.Absorb` | libbitcoinkernel-sys/bitcoin/src/base58.cpp:103-113 | the in-place carry loop replaces the number in the buffer by number times base plus digit, as digits without leading zeros; no carry is left when the buffer has room |
| `Base58.Encode` | libbitcoinkernel-sys/bitcoin/src/base58.cpp:89-127 | ones for leading zeros, then the digits of the rest in base 58; the carry assertion never fails |
| `Base58.Decode` | libbitcoinkernel-sys/bitcoin/src/base58.cpp:40-87 | the bytes of the trimmed string, or nothing for a character outside the alphabet, a space inside, or a result over the limit; the carry assertion never fails |
| `Base58.DecodeString` | libbitcoinkernel-sys/bitcoin/src/base58.cpp:129-135 | the same for every string, also with zero bytes in it |
| `Base58.EncodeRoom` | libbitcoinkernel-sys/bitcoin/src/base58.cpp:99 | 138/100 digits per byte and one more are always enough |
| `Base58.DecodeRoom` | libbitcoinkernel-sys/bitcoin/src/base58.cpp:54 | 733/1000 bytes per digit and one more are always enough |
| `Base58.Alphabet` | libbitcoinkernel-sys/bitcoin/src/base58.cpp:20 | the digits in order are written with the alphabet |
| `Base58.DecodeEncoded` | libbitcoinkernel-sys/bitcoin/src/base58.cpp:40-127 | decoding an encoded byte string gives it back, leading zeros included, exactly when the limit allows its length or it is empty; otherwise it is refused |
| `Base58.EncodeDecoded` | libbitcoinkernel-sys/bitcoin/src/base58.cpp:40-127 | encoding what an accepted string decodes to gives the string without the whitespace around it |
| `Base58.EncodeCheck` | libbitcoinkernel-sys/bitcoin/src/base58.cpp:137-144 | the encoding of data and the first four bytes of its hash |
| `Base58.DecodeCheck` | libbitcoinkernel-sys/bitcoin/src/base58.cpp:146-161 | the data when the last four bytes match the hash of the rest, for any hash |
| `Base58.CheckDecodeEncoded` | libbitcoinkernel-sys/bitcoin/src/base58.cpp:137-169 | data comes back from its checksummed form exactly when the widened limit allows it |
| `Base58.CheckEncodeDecoded` | libbitcoinkernel-sys/bitcoin/src/base58.cpp:137-169 | an accepted checksummed string is, trimmed, the checksummed form of what it decodes to |
| `CompactBlockClass.Announce` | libbitcoinkernel-sys/bitcoin/src/blockencodings.cpp:20-33 | the first transaction in full at index 0 and a short id for each other one |
| `CompactBlockClass.PartialBlock.PlacePrefilled` | libbitcoinkernel-sys/bitcoin/src/blockencodings.cpp:72-87 | accepted exactly when no prefilled transaction is null and each index is within 16 bits and leaves nothing missing before it; then each is in its slot and all other slots are free |
| `CompactBlocks.SlotsIncrease` | libbitcoinkernel-sys/bitcoin/src/blockencodings.cpp:72-87 | the slots of prefilled transactions are strictly increasing |
| `CompactBlockClass.PartialBlock.NextFree` | libbitcoinkernel-sys/bitcoin/src/blockencodings.cpp:95-99 | the scan finds the next free slot within the block and its 16-bit offset never wraps |
| `CompactBlockClass.PartialBlock.MapIds` | libbitcoinkernel-sys/bitcoin/src/blockencodings.cpp:94-114 | succeeds exactly when all short ids are distinct and no bucket is too large; then short ids and free slots correspond one to one, in order |
| `CompactBlockClass.PartialBlock.OfferPool` | libbitcoinkernel-sys/bitcoin/src/blockencodings.cpp:120-136 | one mempool transaction: the first match takes the slot, a later one empties it, and the bookkeeping of what was seen stays exact |
| `CompactBlockClass.PartialBlock.OfferExtra` | libbitcoinkernel-sys/bitcoin/src/blockencodings.cpp:146-168 | one extra transaction: a match takes an unused slot, and empties a used one unless it is the same transaction |
| `CompactBlocks.SlotSettled` | libbitcoinkernel-sys/bitcoin/src/blockencodings.cpp:120-168 | of the transactions seen, a slot is filled exactly when it has a match, the mempool has no second one, and no extra transaction with its short id differs from another one with it |
| `CompactBlockClass.PartialBlock.InitData` | libbitcoinkernel-sys/bitcoin/src/blockencodings.cpp:59-179 | refused exactly for an ill-formed message or a block already started, which is then unchanged; failed exactly for equal short ids or a bucket too large; otherwise prefilled slots keep their transactions, every other filled slot holds a mempool or extra transaction with its short id, the mempool count grows by the number of those, and from a fresh object a slot with exactly one match is filled; the slots are settled by a first part of the mempool and of the extra transactions as `SlotSettled` states, and from a fresh object a part is not the whole only when each short id has one match in it, or every slot is filled |
| `CompactBlockClass.PartialBlock.IsTxAvailable` | libbitcoinkernel-sys/bitcoin/src/blockencodings.cpp:181-187 | whether a slot of a started block is filled |
| `CompactBlockClass.PartialBlock.FillBlock` | libbitcoinkernel-sys/bitcoin/src/blockencodings.cpp:189-235 | refused exactly when no block is started or the number of transactions sent differs from the number of empty slots; otherwise the block has the filled slots and the transactions sent in order, and the object is reset |
| `CompactBlockClass.AnnouncedRight` | libbitcoinkernel-sys/bitcoin/src/blockencodings.cpp:20-179 | a receiver of an announced block has nothing wrong in any slot, and completing it with what is missing gives the block, if no transaction at hand shares a short id with a different one of the block |
| `CompactBlockClass.RoundTrip` | libbitcoinkernel-sys/bitcoin/src/blockencodings.cpp:20-235 | announcing, starting and filling a block of up to 65535 transactions gives back its transactions whenever it is started, which is exactly when its short ids are distinct and no bucket is too large |
| `DifferenceFormatter.Formatter.Ser` | libbitcoinkernel-sys/bitcoin/src/blockencodings.h:29-34 | the difference for a value, refused exactly when the value is not past the one before or is the largest word |
| `DifferenceFormatter.Formatter.Unser` | libbitcoinkernel-sys/bitcoin/src/blockencodings.h:36-42 | the value for a difference, refused exactly when the sum, reckoned without wrapping, is too large |
| `DifferenceFormatter.Encode` | libbitcoinkernel-sys/bitcoin/src/blockencodings.h:23-43 | a list is written exactly when it is strictly increasing and below the largest word, and then as its differences |
| `DifferenceFormatter.Decode` | libbitcoinkernel-sys/bitcoin/src/blockencodings.h:23-43 | a list is read exactly when no value, reckoned without wrapping, is too large; what is read is strictly increasing |
| `DifferenceFormatter.DifferencesUnique` | libbitcoinkernel-sys/bitcoin/src/blockencodings.h:23-43 | lists and their differences determine each other |
| `DifferenceFormatter.RoundTrip` | libbitcoinkernel-sys/bitcoin/src/blockencodings.h:23-43 | 16-bit indexes are written exactly when strictly increasing, and then read back unchanged |
| `DifferenceFormatter.ReadBack` | libbitcoinkernel-sys/bitcoin/src/blockencodings.h:23-43 | every list that is read is written again as the same differences |
| `BitStream.BitWriter.Write` | libbitcoinkernel-sys/bitcoin/src/streams.h:351-365 | appends the low bits of a word to what has been written, through the one-byte buffer |
| `BitStream.BitWriter.Flush` | libbitcoinkernel-sys/bitcoin/src/streams.h:371-379 | pads to whole bytes, with less than a byte of padding |
| `BitStream.BitReader.Read` | libbitcoinkernel-sys/bitcoin/src/streams.h:303-321 | takes the next bits as a number, or fails exactly when fewer are left |
| `BitStream.BitsAt` | libbitcoinkernel-sys/bitcoin/src/streams.h:303-365 | the highest bit of a number comes first |
| `GolombRice.Encode` | libbitcoinkernel-sys/bitcoin/src/util/golombrice.h:15-29 | appends the quotient in unary, a zero, and the low bits |
| `GolombRice.Decode` | libbitcoinkernel-sys/bitcoin/src/util/golombrice.h:32-44 | the next code, or failure exactly when it is incomplete |
| `GolombRice.CodeReads` | libbitcoinkernel-sys/bitcoin/src/util/golombrice.h:15-44 | a code is read back whatever follows it |
| `GolombRice.ManyReads` | libbitcoinkernel-sys/bitcoin/src/util/golombrice.h:15-44 | a row of codes is split into the same codes whatever follows |
| `GolombRice.CompactSizeBack` | libbitcoinkernel-sys/bitcoin/src/serialize.h:302-363 | a size is read back exactly when it is at most 0x02000000; a larger one is written but refused by the reader |
| `GolombRice.CompactSizeForm` | libbitcoinkernel-sys/bitcoin/src/serialize.h:302-326 | what is written byte by byte, lowest byte first after the mark for the width |
| `GolombRice.CompactSizeCanonical` | libbitcoinkernel-sys/bitcoin/src/serialize.h:335-363 | only the shortest form of a size within the limit is read |
| `BlockFilter.BuildHashedSet` | libbitcoinkernel-sys/bitcoin/src/blockfilter.cpp:34-43 | the hashes in ascending order |
| `BlockFilter.FastRange64` | libbitcoinkernel-sys/bitcoin/src/util/fastrange.h:25-49 | the high half of the 128-bit product, computed from 32-bit halves without overflow |
| `BlockFilter.FastRangeEven` | libbitcoinkernel-sys/bitcoin/src/util/fastrange.h:25-49 | the range is divided evenly: order is kept and every value of the range is met |
| `BlockFilter.SortSorted` | libbitcoinkernel-sys/bitcoin/src/blockfilter.cpp:41 | sorting gives the same values in ascending order |
| `BlockFilter.Build` | libbitcoinkernel-sys/bitcoin/src/blockfilter.cpp:74-102 | refused exactly for 2^32 elements or more; otherwise the encoding is the number of elements and the codes of the differences of the sorted hashes |
| `BlockFilter.Rebuild` | libbitcoinkernel-sys/bitcoin/src/blockfilter.cpp:49-72 | accepted exactly when the number is readable and, unless skipped, all codes are complete and less than a byte is left |
| `BlockFilter.RebuiltSame` | libbitcoinkernel-sys/bitcoin/src/blockfilter.cpp:49-102 | the encoding of a built filter is accepted, checked or not, exactly when it has at most 0x02000000 elements, and gives the same filter |
| `BlockFilter.MatchInternal` | libbitcoinkernel-sys/bitcoin/src/blockfilter.cpp:104-134 | the merge finds a match exactly when a query is among the values; a filter over the size limit cannot be read |
| `BlockFilter.Match` | libbitcoinkernel-sys/bitcoin/src/blockfilter.cpp:136-140 | true exactly when some member has the hash of the element |
| `BlockFilter.MatchAny` | libbitcoinkernel-sys/bitcoin/src/blockfilter.cpp:142-146 | true exactly when one of the elements matches by itself |
| `BlockFilter.MemberHits` | libbitcoinkernel-sys/bitcoin/src/blockfilter.cpp:136-146 | a member is never missed |
| `Grind.BatchLands` | libbitcoinkernel-sys/bitcoin/src/bitcoin-util.cpp:101-102 | the end of a batch is one of the task's own nonces, past the present one and not past the end |
| `Grind.StepWithin` | libbitcoinkernel-sys/bitcoin/src/bitcoin-util.cpp:110-111 | stepping inside a batch reaches its end without passing it or wrapping |
| `Grind.StepInv` | libbitcoinkernel-sys/bitcoin/src/bitcoin-util.cpp:90-113 | each atomic step of each task keeps the invariant |
| `Grind.RunInv` | libbitcoinkernel-sys/bitcoin/src/bitcoin-util.cpp:115-146 | every interleaving keeps it |
| `Grind.TestsDisjoint` | libbitcoinkernel-sys/bitcoin/src/bitcoin-util.cpp:90-113 | two tasks never test the same nonce, at any times in any interleavings, and all nonces tested are below the bound |
| `Grind.OneWriter` | libbitcoinkernel-sys/bitcoin/src/bitcoin-util.cpp:105-107 | at most one task is ever about to propose a nonce |
| `Grind.GrindResult` | libbitcoinkernel-sys/bitcoin/src/bitcoin-util.cpp:115-146 | when all tasks are done the flag is set exactly when the target is usable and some nonce below the bound meets it, and then the proposed nonce does |
| `Grind.RunsEnd` | libbitcoinkernel-sys/bitcoin/src/bitcoin-util.cpp:90-113 | no run takes more than n * (2 * 2^32 + 5) steps |
| `Grind.GrindTask` | libbitcoinkernel-sys/bitcoin/src/bitcoin-util.cpp:90-113 | the nested loops of one task with nobody else running: the first of its nonces that meets the target is proposed, if there is one and the flag is not set yet; every batch ends exactly where it should |
| `Grind.GrindAll` | libbitcoinkernel-sys/bitcoin/src/bitcoin-util.cpp:115-146 | the tasks one after the other find a nonce below the bound that meets the target, or there is none |
| `Grind.OwnCovers` | libbitcoinkernel-sys/bitcoin/src/bitcoin-util.cpp:96-99 | every nonce below the bound belongs to a task, before its end |
| `Grind.BoundLargest` | libbitcoinkernel-sys/bitcoin/src/bitcoin-util.cpp:98-99 | the bound is the largest multiple of the number of tasks that leaves room for as many more |
| `BanMan.BanList.constructor` | libbitcoinkernel-sys/bitcoin/src/banman.cpp:29-46 | the list read and swept, or an empty one to be written |
| `BanMan.BanList.Sweep` | libbitcoinkernel-sys/bitcoin/src/banman.cpp:182-206 | exactly the expired and invalid entries are removed, and the list is to be written if there were any |
| `BanMan.BanList.Ban` | libbitcoinkernel-sys/bitcoin/src/banman.cpp:142-149 | recorded exactly when it ends later than the ban there is, or than the epoch when there is none; otherwise a missing subnet gets a blank entry and nothing is marked for writing |
| `BanMan.EntryFor` | libbitcoinkernel-sys/bitcoin/src/banman.cpp:130-140 | when a ban ends, by offset, base and default time, and when that is after the epoch |
| `BanMan.BanList.Unban` | libbitcoinkernel-sys/bitcoin/src/banman.cpp:162-172 | the subnet is gone; marked for writing exactly when it was there |
| `BanMan.BanList.Clear` | libbitcoinkernel-sys/bitcoin/src/banman.cpp:72-81 | the list is empty and to be written |
| `BanMan.BanList.GetBanned` | libbitcoinkernel-sys/bitcoin/src/banman.cpp:174-180 | a copy of the swept list |
| `BanMan.BanList.DumpStart` | libbitcoinkernel-sys/bitcoin/src/banman.cpp:53-60 | the swept list, taken for writing exactly when there are changes |
| `BanMan.BanList.DumpEnd` | libbitcoinkernel-sys/bitcoin/src/banman.cpp:62-66 | the file holds the copy, or after a failed write anything, with the list marked again |
| `BanMan.BanList.DumpBanlist` | libbitcoinkernel-sys/bitcoin/src/banman.cpp:48-70 | after a dump with nothing in between the file holds the list, or the list is still to be written |
| `BanMan.BanList.IsBanned` | libbitcoinkernel-sys/bitcoin/src/banman.cpp:89-102 | true exactly when an unexpired ban of a valid subnet covers the address |
| `BanMan.SweepKeepsAnswers` | libbitcoinkernel-sys/bitcoin/src/banman.cpp:182-206 | sweeping changes no present or later answer about any address |
| `BanMan.SweepExactSubnet` | libbitcoinkernel-sys/bitcoin/src/banman.cpp:104-116 | sweeping changes a present or later answer about an exact subnet exactly when the subnet is banned and invalid |
| `BanMan.SweepForgetsInvalid` | libbitcoinkernel-sys/bitcoin/src/banman.cpp:182-206 | an input for which it does |
| `BanRuns.BanSaved` | libbitcoinkernel-sys/bitcoin/src/banman.cpp:142-149 | a ban keeps memory and file in step exactly when it ends after the epoch, or its subnet is listed, or changes are waiting anyway |
| `BanRuns.BlankNotSaved` | libbitcoinkernel-sys/bitcoin/src/banman.cpp:142-149 | an input for which it does not |
| `BanRuns.StepSaved` | libbitcoinkernel-sys/bitcoin/src/banman.cpp:48-180 | every other step keeps them in step |
| `BanRuns.RunSaved` | libbitcoinkernel-sys/bitcoin/src/banman.cpp:48-180 | in every interleaving with positive ban end times, failing writes included, whenever nothing is marked and no dump is between its copy and its end, the file holds the list |
| `BanRuns.RunAnswers` | libbitcoinkernel-sys/bitcoin/src/banman.cpp:89-102 | listings, dumps and the passing of time change no later answer about an address |
| `BanRuns.BanLengthens` | libbitcoinkernel-sys/bitcoin/src/banman.cpp:142-149 | after a ban the subnet is banned exactly as long as before or as asked, whichever is longer |

## Left out

- Address manager `Select_`, `GetEntries_`, `FindAddressEntry_` and `Size_`: read-only queries; termination of the random selection is only probabilistic.
- Address manager hashing and network groups: arbitrary functions; only their ranges are used.
- The byte layout of the address records in the peers file, the file format numbers below the current one and the checksum of the asmap: a file is a list of records with its header fields, and an entry keeps its fields unchanged.
- Locks and the periodic consistency check of the address manager: every operation is one step.
- Integer widths of counters, ids and times in the address manager and of lengths elsewhere: integers are unbounded there; widths are modelled where the code relies on them.
- AddrManRoundTrip.RoundTrip: states the case of an unchanged asmap version and bucket count; a changed version is `Rebucketed`, and every other file is covered by the lemmas of `AddrManReload`.
- Bech32 `LocateErrors` and the tables of the field with 1024 elements.
- Bech32.PreparePolynomialCoefficients: takes characters as unsigned bytes; a human-readable part with bytes above 127 is shifted with its sign where characters are signed.
- The bitwise operators, `EqualTo`, `getdouble` and hexadecimal output of the limb integers.
- CompactBlockClass.PartialBlock.InitData: says nothing about the count of extra transactions, which only serves a log line; the size of a hash bucket is an arbitrary answer.
- CompactBlockClass.PartialBlock.FillBlock: the check of a block for mutation is an arbitrary predicate.
- Serialization of compact blocks other than the differential indexes, and the size limit of the reader of those differences.
- Real hashing (SHA-256, SipHash) everywhere: an arbitrary function.
- BlockFilter.MatchInternal: is stated for encodings of sorted values, as built filters have; an arbitrary accepted encoding whose values wrap in 64 bits is not covered.
- BlockFilter.BuildHashedSet: the library sort is an insertion sort.
- Block filter headers, types and the choice of elements from a block.
- Decoding the header and writing the result in the grinding command, and the hash of a header: which nonces meet the target is an arbitrary predicate.
- Discouraged peers, notifications and the format of the ban file; the file is the list it holds, or unreadable.
- The Rust wrappers, the bindings, the programs and everything else in the repository.
