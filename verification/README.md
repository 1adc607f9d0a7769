# Verified model of the Merkle state engine and the packet format

This project models two parts of the repository and proves what they are for.

**The Merkle state engine (`crates/minimal-mpt`).** A 16-way Merkle trie is kept incrementally: every subtree has a
cached hash, a write marks its key dirty, and taking the root evicts the prefixes of dirty keys and walks the rest.
Beside it stands the stateless recursion over all entries. Three such layers (delta over intermediate over snapshot)
form the state; every `snapshot_epoch_count` commits the intermediate layer is re-keyed into the snapshot, the delta
becomes the intermediate layer, and the padding that scrambles delta keys changes. The main results:

- every root taken in any history of writes, clears and roots is the stateless root of the entries at that moment
  (`TrieRuns.Replay`), and the root binds the entries or yields two strings with one hash (`Binding.RootBindsEntries`);
- on every run, rotations and restarts included, the layered state answers as one flat map would
  (`StateRuns.RunIsFlat`), and with deletions by address prefix, which empty the delta, as two flat maps would
  (`TwoMaps.RunIsTwoMaps`, `StateDriver.Execute`);
- on every run of any operations, writes of odd keys included, a restart from a checkpoint changes no answer
  (`StateRuns.RestartsCannotBeObserved`), nothing fails but for a bad address (`StateRuns.FailsExactlyWhen`), and
  rotations happen exactly once a period (`StateRuns.RotationsFromStart`);
- every commit of any such run answers the stateless roots of the three layers at that moment
  (`StateRuns.CommitsAnswerStatelessRoots`), so histories that end in equal layers commit one root
  (`StateRuns.HistoriesCommitAlike`);
- reads and deletions by prefix are exact through every mix of live values and tombstones in three layers, down to the
  order of the list (`PrefixLaws.ReadCompletePrefix`, `PrefixLaws.DeleteCompletePrefix`, `PrefixOrder.ListIsInOrder`).

**The packet format (`crates/cfxpack`, and the packer and the flag patcher of `crates/replay-data-extractor`).**
Blocks become variable-length records laid into fixed-size prefixes with an overflow tail and a bitmap, behind interned
tables and an offset table; transactions follow in a segment, repeated ones as references. The main results:

- encoding a packet and decoding the bytes gives the packet back, up to what the format does not keep, exactly when no
  block repeats a transaction hash that appears in it for the first time, and decoding fails otherwise
  (`PacketLaws.PacketRoundTrip`); encoding the result again gives the same bytes (`Reencode.DecodeThenEncode`);
- a reference names the first place of its hash in the whole packet, and there is one exactly where that lies before
  (`FirstPlaces.PayloadNamesFirst`);
- setting a flag bit in the encoded bytes commutes with encoding, and with packing into containers
  (`FlagPatch.PatchCommutesWithEncoding`, `ContainerPatch.PatchCommutesWithPacking`,
  `ContainerPatch.PatchFlagsPackets`);
- the container writer emits the same containers for every arrival order of its packets
  (`PackWriter.WriteContainers`, `Packing.ArrivalOrderIsInvisible`), and parsing the files gives the packets back.

## How the model is built

- The hash function is a parameter: any total function from byte strings to 32-byte strings. Nothing else is assumed
  of it, so a binding result reads "equal, or here are two different strings with one hash".
- Objects that the program updates in place are classes with the same fields (`IncrementalTrie`, `AccountKeyCache`,
  `SnapshotTrie`, `State`, `ContainerBuilder`, `PackSummary`); buffers patched in place are arrays; loops are loops.
  Each method is proved equal to a function of its inputs or of the old state, and the lemmas are about those functions.
- A reader that advances an offset is a function that returns the value with the next offset. A slice that would panic
  is an error result.
- The list codec of a transaction payload (RLP), the compressor (snappy) and the transaction hash are function
  parameters (`TxPayload.Wire`). Only `TxPayload.RoundTrips` is assumed of them, where a lemma says so: lists whose
  items have the shape of their kind and fit their machine words come back, and compressed bytes do.
- Threads appear as arbitrary order: arrivals at the writer, reward look-ups in the patcher, and the order in which
  their results are applied.
- The two ratios of the prefix size are compared by multiplying out instead of dividing; for record counts that fit
  memory the rounded quotients compare the same way.

The modules whose names end in `Format` say what the specified encodings are, byte by byte and bit by bit, without the
functions that define them: `TrieFormat`, `KeyFormat`, `CodecFormat`, `ContainerFormat` and `PacketFormat`.

Where code and documentation differ the model follows the code. The flag patcher's own comment promises bytes identical
to a fresh extraction; that holds for the bytes of encoding the same packet with the flag set. A block that repeats
inside itself a transaction hash no earlier block has encodes without an error and cannot be decoded:
`RepeatedHash.EncodesButCannotBeDecoded` gives such a packet, and `PacketRoundTrip` states the exact condition. A write
to a key outside `KeyCodec.Writable` (a short Account key, say) is stored, and breaks the invariant behind the flat
answers: `StateLaws.SetKeepsInvExactlyWhen` draws the line. Roots, restarts and errors are as they should be beyond it
too. A rotation that fails, which only a raw entry from outside can make it do, loses the intermediate layer while its
root stays (`StateLaws.CommitFailsExactlyWhen`). A partial Storage prefix scans a padded layer exactly only under the
condition of `PrefixLaws.StorageScanAgreesExactlyWhen`.

## Model

| member | source | states |
|---|---|---|
| TrieSpec.OccupiedChildHash | crates/minimal-mpt/src/trie.rs:114-121 | A child slot with entries below it holds the hash of exactly those entries |
| TrieSpec.ToNibblesKeepsOrder | crates/minimal-mpt/src/trie.rs:43-50 | Nibble keys sort as the byte keys do, so converting after iterating keeps the order |
| TrieSpec.ToNibblesKeepsPrefixes | crates/minimal-mpt/src/trie.rs:181-188 | One key is a prefix of another exactly when their nibble forms are |
| TrieSpec.NodePrefixIsUnique | crates/minimal-mpt/src/trie.rs:124-143 | A set of keys has only one longest common prefix |
| TrieSpec.NibbleFormIsUnique | crates/minimal-mpt/src/trie.rs:43-50 | A map has only one nibble form: no key or value is lost or merged |
| Trie.BytesToNibbles | crates/minimal-mpt/src/trie.rs:181-188 | The loop yields high and low nibble of every byte, in order |
| Trie.CompressNibbles | crates/minimal-mpt/src/trie.rs:190-208 | Packing two nibbles to the byte, the first alone on an odd start depth, a last one padded |
| Trie.ComputeNodeMerkle | crates/minimal-mpt/src/trie.rs:145-161 | The node hash is that of tag, sixteen slots and the value if there is one |
| Trie.ComputePathMerkle | crates/minimal-mpt/src/trie.rs:163-179 | The path hash is that of info byte, packed path and node hash, whose bits `TrieFormat.PathBytes` gives; no path leaves the node hash |
| Trie.CommonPrefixLen | crates/minimal-mpt/src/trie.rs:124-143 | The length is the longest prefix all keys share beyond the depth |
| Trie.SharedPrefixIsNodeAt | crates/minimal-mpt/src/trie.rs:65-70 | What the key comparison finds is the longest prefix of the block |
| Trie.ChildRanges | crates/minimal-mpt/src/trie.rs:77-90 | The cut of a sorted block: ordered, disjoint, non-empty runs covering exactly the keys beyond the node, one a next nibble |
| Trie.SliceListsChild | crates/minimal-mpt/src/trie.rs:92-112 | Each run lists exactly the entries below its child |
| Trie.MerkleForNode | crates/minimal-mpt/src/trie.rs:59-122 | The recursion over a sorted slice terminates and gives the hash of the block by its definition on maps |
| Trie.RootForEntries | crates/minimal-mpt/src/trie.rs:52-57 | The root of a sorted entry list is the root of the map it lists |
| Trie.TrieRootOf | crates/minimal-mpt/src/trie.rs:43-50 | The root of a byte-keyed map by conversion, sorting and recursion is its root by definition, which `TrieFormat.BlockEquation` and `TrieFormat.OneKeyRoot` write out |
| TrieFormat.NodeBytes | crates/minimal-mpt/src/trie.rs:145-161 | Byte by byte, a node is hashed as an n, its sixteen child hashes from slot 0 on, and a v with the value if there is one |
| TrieFormat.PathBytes | crates/minimal-mpt/src/trie.rs:163-208 | Bit by bit, the info byte of a path has bit 7 set, bit 6 on an odd start depth, and the length cast to a byte modulo 63; then a first nibble alone on an odd depth, the others in pairs with the earlier one high, the node hash last |
| TrieFormat.BytePath | crates/minimal-mpt/src/trie.rs:163-208 | A path of whole bytes from an even depth is hashed as those bytes and the node hash |
| TrieFormat.BlockEquation | crates/minimal-mpt/src/trie.rs:59-122 | The hash of a block, written out: the node at its prefix with the hash of nothing in each empty slot, under the path from where the block was entered |
| TrieFormat.OneKeyRoot | crates/minimal-mpt/src/trie.rs:43-122 | The root over any one key, written out as three nested hashes of concrete bytes, tombstones as empty values |
| TrieFormat.NullIsHashOfNothing | crates/minimal-mpt/src/types.rs:27-27 | The hash in empty slots and of the empty trie is that of no bytes |
| Binding.NodeInputInjective | crates/minimal-mpt/src/trie.rs:145-161 | A node preimage determines all sixteen slots and the value, absent and empty values apart |
| Binding.PathInfoSeparates | crates/minimal-mpt/src/trie.rs:171-178 | The info byte tells apart the two lengths one packed length allows, also where the cast to a byte wraps |
| Binding.PathInputInjective | crates/minimal-mpt/src/trie.rs:163-208 | A path preimage determines path, start parity and node hash, for every length |
| Binding.PathNeverLooksLikeNode | crates/minimal-mpt/src/trie.rs:163-179 | A path preimage never equals a node preimage |
| Binding.BlockBinds | crates/minimal-mpt/src/trie.rs:59-122 | Blocks that hash different values and have one hash yield two different preimages with one hash |
| Binding.RootBinds | crates/minimal-mpt/src/trie.rs:43-122 | Equal roots over different hashed values yield two different strings, hashed on the way to the roots, that collide |
| Binding.RootBindsEntries | crates/minimal-mpt/src/trie.rs:10-50 | Without empty live values, equal roots mean equal maps, tombstones included, or a collision is in hand |
| Binding.ValuesFixTheRoot | crates/minimal-mpt/src/trie.rs:23-28 | The root depends only on the hashed values: a tombstone hashes as an empty value |
| Incremental.RangeIsBlock | crates/minimal-mpt/src/incremental.rs:280-285 | The half-open range from a prefix to it followed by 16 is exactly the keys under the prefix |
| Incremental.EndsGiveNodeAt | crates/minimal-mpt/src/incremental.rs:519-526 | The common prefix of a sorted block is that of its first and last key |
| Incremental.UntouchedBlock | crates/minimal-mpt/src/incremental.rs:163-169 | Changing one key leaves every block that the key is not under as it was |
| Incremental.MemoNodeRebuild | crates/minimal-mpt/src/incremental.rs:404-490 | The cold rebuild returns the stateless hash, and cache entries with distinct prefixes each holding its block hash, for every parallel depth, parallel threshold and policy |
| Incremental.RebuildChildren | crates/minimal-mpt/src/incremental.rs:430-475 | One recursive call a child range; the lists of all children stay distinct when joined |
| Incremental.ExtendedHolds | crates/minimal-mpt/src/incremental.rs:181-184 | Loading the rebuilt entries restores the cache invariant |
| Incremental.IncrementalTrie.FromDelta | crates/minimal-mpt/src/incremental.rs:116-128 | From an existing map: the entries in nibbles, an empty cache |
| Incremental.IncrementalTrie.Insert | crates/minimal-mpt/src/incremental.rs:130-135 | The entry is set, the key dirty, the invariant kept |
| Incremental.IncrementalTrie.Remove | crates/minimal-mpt/src/incremental.rs:137-143 | The entry is gone, the key dirty, the invariant kept |
| Incremental.IncrementalTrie.Clear | crates/minimal-mpt/src/incremental.rs:145-151 | No entries, no cache |
| Incremental.IncrementalTrie.EvictDirty | crates/minimal-mpt/src/incremental.rs:163-169 | Exactly the prefixes of dirty keys leave the cache; every one left holds the hash of its non-empty block |
| Incremental.IncrementalTrie.RootWithPolicy | crates/minimal-mpt/src/incremental.rs:157-206 | The root is the stateless root of the entries, under either policy and on either path; nothing is dirty after it |
| Incremental.IncrementalTrie.Root | crates/minimal-mpt/src/incremental.rs:153-155 | The same under the full policy |
| Incremental.IncrementalTrie.MemoNode | crates/minimal-mpt/src/incremental.rs:298-373 | The cached walk returns the block hash and only adds correct cache entries |
| Incremental.IncrementalTrie.MemoChildren | crates/minimal-mpt/src/incremental.rs:343-363 | Each child slot gets the hash of the entries below it |
| TrieRuns.Apply | crates/minimal-mpt/src/incremental.rs:130-206 | One operation acts on the map and takes the stateless root |
| TrieRuns.Replay | crates/minimal-mpt/src/incremental.rs:103-206 | Every root taken in any history is the stateless root of the entries at that moment |
| Snapshots.SnapshotTrie.constructor | crates/minimal-mpt/src/snapshot.rs:12-16 | A snapshot trie holds exactly the given map |
| Snapshots.SnapshotTrie.ApplyUpdates | crates/minimal-mpt/src/snapshot.rs:26-33 | Live updates insert and tombstones remove, in order |
| Snapshots.SnapshotTrie.RootWithPolicy | crates/minimal-mpt/src/snapshot.rs:35-37 | The root is the stateless root of the live entries |
| Snapshots.SnapshotTrie.Get | crates/minimal-mpt/src/snapshot.rs:39-41 | A lookup answers as the map |
| Snapshots.SnapshotTrie.ScanPrefix | crates/minimal-mpt/src/incremental.rs:236-248 | The nibble range lists exactly the keys under a byte prefix, in order, with their values |
| Snapshots.SnapshotTrie.ToCanonicalMap | crates/minimal-mpt/src/incremental.rs:250-278 | The nibble entries convert back to exactly the byte-keyed map |
| KeyCodec.CanonicalRoundTrip | crates/minimal-mpt/src/key_codec.rs:80-117 | Every well-formed key is recovered from its canonical encoding |
| KeyCodec.DeltaRoundTrip | crates/minimal-mpt/src/key_codec.rs:119-228 | Every well-formed key is recovered from its delta encoding, for any padding |
| KeyCodec.RejectedExactlyWhen | crates/minimal-mpt/src/key_codec.rs:286-292 | Encoders fail exactly on a bad address |
| KeyCodec.RecoveredExactlyWhen | crates/minimal-mpt/src/key_codec.rs:80-283 | Of the keys that encode, exactly the well-formed ones are recovered by both decoders |
| KeyCodec.RekeyIsCanonical | crates/minimal-mpt/src/state/rotation.rs:38-42 | Re-keying a delta key gives the canonical key of the same logical key |
| KeyCodec.EncodedRekeys | crates/minimal-mpt/src/state/rotation.rs:38-42 | Whatever key is written, well-formed or not, what is stored can be re-keyed |
| KeyCodec.RekeyedDecodes | crates/minimal-mpt/src/state/rotation.rs:38-42 | Whatever raw key is re-keyed, the canonical key decodes |
| KeyCodec.EncodingsInjective | crates/minimal-mpt/src/key_codec.rs:80-172 | Each encoding is injective on well-formed keys |
| KeyCodec.PlainPrefixAgrees | crates/minimal-mpt/src/key_codec.rs:119-172 | Apart from Storage prefixes, delta and canonical encodings select the same keys |
| KeyCodec.StoragePrefixAgrees | crates/minimal-mpt/src/key_codec.rs:131-146 | A Storage prefix in delta form selects, of the keys under it, exactly those with the same storage padding |
| KeyFormat.DeltaBytes | crates/minimal-mpt/src/key_codec.rs:119-172 | Every well-formed delta key, byte by byte: twelve bytes of the hash of padding then address, the address, the space marker, the bytes of the kind, for Storage the hash of padding and storage key from byte 4 on and the storage key |
| KeyFormat.CanonicalBytes | crates/minimal-mpt/src/key_codec.rs:80-117 | Every well-formed canonical key, byte by byte: address, space marker, the bytes of the kind |
| KeyFormat.PartialKeyBytes | crates/minimal-mpt/src/key_codec.rs:80-172 | Short Account, AddressPrefix and Empty keys encode as what there is of an address, prefixes in delta form as nothing |
| KeyFormat.PaddingBytes | crates/minimal-mpt/src/key_codec.rs:52-65 | The padding is the hash of the two roots, snapshot first; the first padding hashes twice the hash of nothing |
| KeyFormat.FirstPaddings | crates/minimal-mpt/src/state/mod.rs:93-211 | A new state has the first padding below the delta and the hash of its roots on the delta; a checkpoint without a period gets 2000 |
| KeyCodec.AccountKeyCache.NewAccountKey | crates/minimal-mpt/src/key_codec.rs:331-362 | The account part is twelve bytes of the hash of padding then address, and the address, cached or not; another padding empties the cache |
| KeyCodec.AccountKeyCache.ToDeltaMptKeyBytes | crates/minimal-mpt/src/key_codec.rs:119-172 | The encoding through the cache is the uncached encoding, whose bytes `KeyFormat.DeltaBytes` gives |
| StateLaws.GetAnswersFlat | crates/minimal-mpt/src/state/mod.rs:253-269 | `get` of a well-formed key never fails and answers as the flat map |
| StateLaws.SetActsOnFlat | crates/minimal-mpt/src/state/mod.rs:271-284 | `set` writes one key of the flat map, an empty value removes it; the invariant is kept |
| StateLaws.RejectedSet | crates/minimal-mpt/src/state/mod.rs:271-275 | A key with a bad address makes `set` fail with the key error |
| StateLaws.SetKeepsInvExactlyWhen | crates/minimal-mpt/src/state/mod.rs:271-284 | A write keeps the invariant exactly if its key is well-formed, rejected, or a Code key without a hash; only a bad address is rejected |
| StateLaws.MergedAnswersBelow | crates/minimal-mpt/src/state/rotation.rs:38-43 | The merged snapshot answers every key as intermediate over snapshot did |
| StateLaws.CommitKeepsFlat | crates/minimal-mpt/src/state/rotation.rs:24-75 | A commit, rotating or not, changes no visible value and keeps the invariant |
| StateLaws.CommitFailsExactlyWhen | crates/minimal-mpt/src/state/rotation.rs:24-43 | On any state a commit fails exactly at a period boundary with an intermediate raw key that cannot be re-keyed, and then that layer is lost |
| StateLaws.PutRawKeepsSoundExactlyWhen | crates/minimal-mpt/src/state/mod.rs:236-241 | A raw entry put below the delta leaves every key re-keyable exactly if it can be re-keyed itself |
| StateLaws.FreshStateHolds | crates/minimal-mpt/src/state/mod.rs:100-110 | A state from a snapshot satisfies the invariant and shows exactly the snapshot |
| StateLaws.RestartIsUnobservable | crates/minimal-mpt/src/state/mod.rs:112-234 | Restoring a checkpoint gives the same state, stored roots and paddings included |
| PrefixLaws.CompleteAgrees | crates/minimal-mpt/src/state/prefix.rs:17-57 | For a complete prefix the scan of each padded layer picks exactly the keys under it |
| PrefixLaws.StorageScanAgreesExactlyWhen | crates/minimal-mpt/src/state/prefix.rs:17-57 | A Storage prefix scans a layer exactly when every stored key under it has its padding |
| PrefixLaws.AddressPrefixAgrees | crates/minimal-mpt/src/state/prefix.rs:141-146 | For an address prefix the whole layer is scanned and the canonical filter picks |
| PrefixLaws.CanonicalsDistinct | crates/minimal-mpt/src/state/prefix.rs:43-47 | Distinct raw keys of one well-keyed layer never share a canonical key, so `seen` hides only higher layers |
| PrefixLaws.TopIsLayer | crates/minimal-mpt/src/state/prefix.rs:24-36 | The delta pass, which does not look at what was seen, decides as the lower passes do if the layer is well-keyed |
| PrefixLaws.PrefixFailsExactlyWhen | crates/minimal-mpt/src/state/prefix.rs:17-130 | While every stored key can be re-keyed or decoded, reads and deletions fail exactly for a bad address in the prefix, and change nothing then |
| PrefixLaws.ReadCompletePrefix | crates/minimal-mpt/src/state/prefix.rs:17-57 | The list has each visible key under the prefix once, with the value of `get`, and nothing else |
| PrefixLaws.ReadAddressPrefix | crates/minimal-mpt/src/state/prefix.rs:17-57 | The same for an address prefix |
| PrefixOrder.ListIsInOrder | crates/minimal-mpt/src/state/prefix.rs:17-130 | The list of a read and that of a deletion, by any prefix: first what the delta decides, then the intermediate layer, then the snapshot, each in the order of the keys of its layer |
| PrefixLaws.DeleteKeepsInv | crates/minimal-mpt/src/state/prefix.rs:59-130 | A deletion by any prefix keeps the invariant |
| PrefixLaws.DeleteCompleteAt | crates/minimal-mpt/src/state/prefix.rs:59-130 | After a complete deletion each key is absent if selected and as before if not |
| PrefixLaws.DeleteCompletePrefix | crates/minimal-mpt/src/state/prefix.rs:59-130 | The flat map loses exactly the keys under the prefix, and the list is the one a read gives |
| PrefixLaws.DeleteAddressPrefix | crates/minimal-mpt/src/state/prefix.rs:59-130 | Matching keys become absent; every other key falls back to its value below the delta |
| StateRuns.StepKeepsInv | crates/minimal-mpt/src/state/mod.rs:252-341 | Exactly the admissible operations, all but writes to keys outside `KeyCodec.Writable`, keep the invariant |
| StateRuns.StepKeepsSound | crates/minimal-mpt/src/state/mod.rs:252-341 | Every operation, writes of any keys included, leaves roots, paddings and re-keyable keys as they should be, and fails exactly for a bad address |
| StateRuns.FailsExactlyWhen | crates/minimal-mpt/src/state/mod.rs:252-341 | In every run of any operations an operation fails exactly if its key or prefix has a bad address; no commit fails |
| StateRuns.StepIsFlat | crates/minimal-mpt/src/state/mod.rs:252-341 | One operation answers and acts as on one flat map |
| StateRuns.RunIsFlat | crates/minimal-mpt/src/state/mod.rs:252-341 | On every run of writes, reads, commits, complete deletions and restarts the answers are those of one flat map |
| StateRuns.CommitsAnswerStatelessRoots | crates/minimal-mpt/src/state/mod.rs:299-341 | In every run of any operations each commit answers the stateless roots of the layers that the operations before it left, their hash, and the padding the lower two give |
| StateRuns.RootsFromSnapshot | crates/minimal-mpt/src/state/mod.rs:100-341 | The same for every run from every snapshot whose keys decode |
| StateRuns.HistoriesCommitAlike | crates/minimal-mpt/src/state/mod.rs:299-341 | Two histories of any operations, from any two sound states, that end in equal layers commit the same root next |
| StateRuns.RestartsCannotBeObserved | crates/minimal-mpt/src/state/mod.rs:112-234 | Dropping the restarts from a run of any operations changes no other answer and no final state |
| StateRuns.RotationCount | crates/minimal-mpt/src/state/rotation.rs:24-27 | Rotations in a run of any operations are as many as the periods its heights complete |
| StateRuns.RotationsFromStart | crates/minimal-mpt/src/state/rotation.rs:24-27 | From height 0, h commits of period n rotate exactly floor(h/n) times |
| StateRuns.SnapshotLagsOnePeriod | crates/minimal-mpt/src/state/rotation.rs:24-67 | Right after a rotation the snapshot is the whole logical state of the rotation before; after the first, what lay below the delta |
| StateRuns.FirstSnapshotIsInitialState | crates/minimal-mpt/src/state/rotation.rs:24-67 | With an empty delta at the start, the first snapshot is the initial state |
| TwoMaps.StepIsTold | crates/minimal-mpt/src/state/mod.rs:252-341 | One operation, a deletion by an address prefix included, answers and acts as on two flat maps: the visible one and the one below the delta |
| TwoMaps.RunIsTwoMaps | crates/minimal-mpt/src/state/mod.rs:252-341 | On every run, deletions by complete and by address prefixes, rejected keys, hashless Code keys and rotations included, answers and final maps are those of the two flat maps |
| States.ScanPrefix | crates/minimal-mpt/src/state/prefix.rs:133-139 | From the first key not below the prefix, while it matches: exactly the keys under the prefix, in order |
| States.CollectTop | crates/minimal-mpt/src/state/prefix.rs:24-36 | The delta pass lists live matches and marks every match; the first raw key that cannot be re-keyed is the error |
| States.CollectBelow | crates/minimal-mpt/src/state/prefix.rs:38-48 | A lower pass adds only keys no higher layer named, with the same error |
| States.CollectSnapshot | crates/minimal-mpt/src/state/prefix.rs:50-54 | The snapshot pass adds only keys no layer named |
| States.State.WithSnapshotEpochCount | crates/minimal-mpt/src/state/mod.rs:93-98 | An empty state with period at least one |
| States.State.FromSnapshot | crates/minimal-mpt/src/state/mod.rs:100-110 | The layers, roots and padding of a state over any snapshot; the invariant holds if its keys are canonical |
| States.State.FromPersisted | crates/minimal-mpt/src/state/mod.rs:112-211 | All roots and caches are rebuilt to match the layers of any checkpoint |
| States.State.Persisted | crates/minimal-mpt/src/state/mod.rs:213-234 | The checkpoint holds exactly the layers, paddings and counters |
| States.State.Get | crates/minimal-mpt/src/state/mod.rs:253-269 | Answers as the layered specification; only account caches change |
| States.State.Set | crates/minimal-mpt/src/state/mod.rs:271-284 | For any key, delta and cached trie change together; on an error nothing changes |
| States.State.Commit | crates/minimal-mpt/src/state/mod.rs:299-341 | On any state: the stored roots and the delta root, then the advance as specified; after a failed rotation root and height are recorded all the same |
| States.State.AdvanceAfterCommit | crates/minimal-mpt/src/state/rotation.rs:24-75 | On any state: at a period boundary exactly the layer shift, or the error with the intermediate layer taken; else nothing |
| States.State.AbsorbUpdates | crates/minimal-mpt/src/state/rotation.rs:43-46 | The snapshot absorbs the updates and its stored root is the stateless one |
| States.State.ShiftLayers | crates/minimal-mpt/src/state/rotation.rs:62-67 | Delta becomes intermediate, the delta trie is emptied, roots and paddings follow |
| States.State.RotateAccountCaches | crates/minimal-mpt/src/state/rotation.rs:68-73 | The old delta cache stays valid as the intermediate cache |
| States.State.PutIntermediateRaw | crates/minimal-mpt/src/state/mod.rs:236-241 | A raw entry below the delta, the root and the delta padding following, the cached delta trie untouched |
| States.State.RekeyIntermediate | crates/minimal-mpt/src/state/rotation.rs:38-42 | Takes the layer; the updates are its entries under canonical keys in raw key order, or the error of the first that cannot be re-keyed |
| States.RekeyEntries | crates/minimal-mpt/src/state/rotation.rs:38-42 | The loop that re-keys a layer in raw key order, with its error |
| States.State.ReadPrefix | crates/minimal-mpt/src/state/prefix.rs:17-57 | On any state three passes return exactly the specified list or error; `PrefixOrder.ListIsInOrder` gives its order |
| States.State.DeletePrefix | crates/minimal-mpt/src/state/prefix.rs:59-130 | On any state the deletion leaves exactly the specified delta, also when it fails half-way, and returns the list a read would have returned, in that order |
| States.State.DropDelta | crates/minimal-mpt/src/state/prefix.rs:69-78 | Every delta entry under the raw prefix leaves the map and the cached trie |
| States.State.HideIntermediateMatches | crates/minimal-mpt/src/state/prefix.rs:102-119 | Tombstones over the live intermediate matches up to the first that cannot be re-keyed, and nothing else written |
| States.State.HideSnapshotMatches | crates/minimal-mpt/src/state/prefix.rs:121-127 | Tombstones over the snapshot matches up to the first that cannot be decoded, and nothing else written |
| StateDriver.Restart | crates/minimal-mpt/src/state/mod.rs:112-234 | Checkpoint and restore give an object with the restored layers, which are the same layers if they are sound |
| StateDriver.Perform | crates/minimal-mpt/src/state/mod.rs:252-341 | Any operation on any state is one step of the specification |
| StateDriver.Execute | crates/minimal-mpt/src/state/mod.rs:252-341 | Any history on any state answers and ends as the specification, as the two flat maps where that is promised, and sound if it began sound |
| Codec.LittleEndianRoundTrip | crates/cfxpack/src/codec.rs:4-20 | A value below 256^n is recovered from its n low bytes |
| Codec.PutUleb128 | crates/cfxpack/src/codec.rs:22-34 | The loop appends the seven-bit groups of the value |
| Codec.Uleb128Len | crates/cfxpack/src/codec.rs:130-137 | The loop counts exactly the bytes written |
| Codec.ReadUleb128 | crates/cfxpack/src/codec.rs:49-63 | The loop is the reader, with its bounds and overflow errors |
| Codec.UlebRoundTrip | crates/cfxpack/src/codec.rs:22-63 | Every 64-bit value reads back and the cursor passes exactly its bytes |
| Codec.ZigzagIsBijective | crates/cfxpack/src/codec.rs:40-47 | Zigzag is a bijection of signed and unsigned 64-bit integers |
| Codec.EpochOffsetRoundTrip | crates/cfxpack/src/packet/encode.rs:409-410 | The wrapping signed offset recovers every pair of 64-bit heights |
| CodecFormat.LittleEndianDigit | crates/cfxpack/src/codec.rs:4-20 | Byte i of a little-endian word is worth 256^i |
| CodecFormat.BigEndianGrows | crates/cfxpack/src/codec.rs:209-211 | A big-endian number grows by a factor of 256 with each byte behind it |
| CodecFormat.UlebDigit | crates/cfxpack/src/codec.rs:22-34 | Byte i of a ULEB128 number holds seven bits worth 2^(7i), the high bit set on every byte but the last |
| CodecFormat.UlebLength | crates/cfxpack/src/codec.rs:22-34 | It has no more bytes than the value needs |
| CodecFormat.UlebReads | crates/cfxpack/src/codec.rs:49-63 | Any data reads as a number exactly if one of the first ten bytes has a clear high bit, and the reader passes the first such byte |
| CodecFormat.ZigzagNumber | crates/cfxpack/src/codec.rs:40-43 | Zigzag gives twice a value that is not negative and one less than twice the size of one that is |
| WideCodec.CompactIsValue | crates/cfxpack/src/codec.rs:140-142 | Dropping leading zeros keeps the big-endian value |
| WideCodec.BitLenFits | crates/cfxpack/src/codec.rs:213-219 | The bit length is at most n exactly when the value is below 2^n |
| WideCodec.PayloadRoundTrip | crates/cfxpack/src/codec.rs:146-153 | A value with two bits to spare is written with its mode and reads back |
| WideCodec.Qc8RoundTrip | crates/cfxpack/src/codec.rs:65-80 | qc8 writes exactly the values below 2^86 and reads them back past exactly the bytes written |
| WideCodec.Qc5eReadsBack | crates/cfxpack/src/codec.rs:82-101 | qc5e gives back the index or the integer it was given, for integers below 2^54 |
| WideCodec.GasLimitRoundTrip | crates/cfxpack/src/codec.rs:110-117 | Enum table and integers together recover every gas limit below 2^54 |
| WideCodec.BasePriceRoundTrip | crates/cfxpack/src/codec.rs:119-127 | The same for base prices in both spaces |
| CodecFormat.Qc8Bytes | crates/cfxpack/src/codec.rs:139-157 | Below 2^86 a qc8 number takes eight bytes, one more and the next mode from 2^62, 2^70 and 2^78 on, the mode in the top two bits over the big-endian value |
| CodecFormat.Qc5eBytes | crates/cfxpack/src/codec.rs:159-180 | A named value is its index in one byte; others take five, six or seven bytes up to 2^38, 2^46 and 2^54, with modes 1 to 3 |
| CodecFormat.NamedValues | crates/cfxpack/src/codec.rs:182-207 | Gas limits 0, 30000000 and 60000000 and base prices 0 and one or twenty billion are named, and no others |
| Container.ParseDirectory | crates/cfxpack/src/container.rs:63-84 | The loop is the reader of the directory, with its errors |
| Container.ContainerRoundTrip | crates/cfxpack/src/container.rs:63-84 | Parsing a written container gives its groups in order, and every payload slice is its packet |
| Container.SlicesArePackets | crates/cfxpack/src/container.rs:63-84 | The payload slices of a written container are its packets, in order |
| ContainerFormat.HeaderLayout | crates/replay-data-extractor/src/extract/pack.rs:206-210 | The file begins with CFXPACK1, version 1, the number of groups, the epochs of a shard and a zero |
| ContainerFormat.ContainerLayout | crates/replay-data-extractor/src/extract/pack.rs:200-226 | Entry g stands at 24 + 32g with start epoch, epoch count, packet start and length; the packets follow the directory without gaps to the end of the file |
| ContainerFormat.GroupsRead | crates/cfxpack/src/container.rs:63-84 | Entry by entry, what the reader takes from where |
| ContainerFormat.ParsedExactlyWhen | crates/cfxpack/src/container.rs:63-84 | The reader accepts exactly the files with the magic and as many whole entries as they say, all payloads inside |
| Packing.BuildPackTasks | crates/replay-data-extractor/src/extract/pack.rs:91-105 | Tasks numbered in order, none empty, all but the last a whole shard, each starting where the one before ends, covering exactly the requested epochs |
| Packing.ContainersPartition | crates/replay-data-extractor/src/extract/pack.rs:159-183 | Containers hold every packet once in order; each but the last reaches the target, only with its last packet |
| Packing.ArrivalOrderIsInvisible | crates/replay-data-extractor/src/extract/pack.rs:159-167 | What is emitted does not depend on the arrival order |
| Packing.RunEndsAtFirstGap | crates/replay-data-extractor/src/extract/pack.rs:159-167 | All groups are emitted if all arrive, else exactly those before the first gap |
| Packing.PackedEpochsAreContiguous | crates/replay-data-extractor/src/extract/pack.rs:91-185 | The containers hold consecutive epochs from the start, all of them once every group has arrived |
| PackWriter.ContainerBuilder.Push | crates/replay-data-extractor/src/extract/pack.rs:267-283 | One more packet; entries, payloads and totals follow |
| PackWriter.ContainerBuilder.Layout | crates/replay-data-extractor/src/extract/pack.rs:200-223 | The bytes written are header, directory and payloads of the packets held |
| PackWriter.PackSummary.FlushContainer | crates/replay-data-extractor/src/extract/pack.rs:187-248 | The file is the layout of the builder, the totals stay those of all packets written, the builder starts afresh |
| PackWriter.ArrivalIsBuffered | crates/replay-data-extractor/src/extract/pack.rs:160-160 | An arrival waits under its group and displaces nothing |
| PackWriter.NextIsEmitted | crates/replay-data-extractor/src/extract/pack.rs:161-163 | Taking the next group extends the run and keeps the buffer consistent |
| PackWriter.WriteContainers | crates/replay-data-extractor/src/extract/pack.rs:145-185 | For any arrival order the files are the containers of the groups in task order up to the first gap, named by the epochs they hold; parsed, their payload slices are those packets in order |
| PackWriter.FilesHoldPackets | crates/replay-data-extractor/src/extract/pack.rs:187-248 | Parsing every file and joining the payload slices gives all packets in order |
| PackWriter.FilesNameEpochs | crates/replay-data-extractor/src/extract/pack.rs:187-198 | Each file is named by the first epoch of its packets and by the epoch before their end |
| BlockRecord.PeekTxOffsetUnits | crates/cfxpack/src/decode/mod.rs:235-247 | The skipping loops find the transaction offset |
| BlockRecord.FieldsReadBack | crates/cfxpack/src/decode/mod.rs:155-212 | The variable-length fields read back in order as the values written |
| BlockRecord.RecordRoundTrip | crates/cfxpack/src/packet/encode.rs:233-296 | A record decodes to everything it keeps of its block, whatever follows it, and shows its offset to the peek |
| PacketFormat.RecordLayout | crates/cfxpack/src/packet/encode.rs:233-296 | What stands where in a record: hash, four bytes of each root, flags at 44, then author and difficulty by table index, times and heights as distances from the header, prices, amounts and the view |
| PacketFormat.RecordReads | crates/cfxpack/src/decode/mod.rs:155-212 | Of any record the decoder takes a view exactly from the enable height on, author and difficulty from the tables, hash and flags from their places |
| BlockBody.PackBlockBody | crates/cfxpack/src/packet/encode.rs:109-129 | One loop lays prefixes, tails and bitmap |
| BlockBody.BitmapMarksOverflow | crates/cfxpack/src/packet/encode.rs:115-117 | Bit j of the bitmap says whether record j overflows |
| BlockBody.DecodeBlockRecords | crates/cfxpack/src/decode/mod.rs:114-153 | The loop is the reader of the block area, with its errors |
| BlockBody.TailReadsBack | crates/cfxpack/src/decode/mod.rs:137-145 | Prefix and tail together give the record back |
| BlockBody.BodyRoundTrip | crates/cfxpack/src/decode/mod.rs:114-153 | For any lengths and prefix size every record comes back behind at most its zero filling |
| PacketFormat.BodyLayout | crates/cfxpack/src/packet/encode.rs:109-129 | Byte j of prefix i is byte j of record i or zero behind its end; behind all prefixes stand the tails |
| PacketFormat.TailsLayout | crates/cfxpack/src/packet/encode.rs:118-128 | The tails are those of the long records in order, each a length and the bytes the prefix lacks |
| Sections.ChunksUndoConcat | crates/cfxpack/src/decode/mod.rs:249-269 | Cutting a table into rows recovers the rows |
| Sections.AddressesReadBack | crates/cfxpack/src/decode/mod.rs:249-252 | The address table reads back |
| Sections.PosEntriesReadBack | crates/cfxpack/src/decode/mod.rs:254-263 | The PoS table reads back |
| Sections.WideTableReadsBack | crates/cfxpack/src/decode/mod.rs:265-269 | A 256-bit table reads back with any zero padding behind it |
| Sections.DecodeSenderBaseNonces | crates/cfxpack/src/decode/mod.rs:271-281 | The loop is the reader of the nonce table |
| Sections.NoncesReadBack | crates/cfxpack/src/decode/mod.rs:271-281 | The nonce table reads back |
| Sections.PaddingFits | crates/cfxpack/src/codec.rs:221-224 | The padding brings a length to a multiple of the alignment |
| Assembly.AssemblePacket | crates/cfxpack/src/packet/encode.rs:133-194 | Step-by-step assembly and backfilling give header, offset table and sections, or fail when an offset exceeds 32 bits |
| Assembly.BackfillOffsets | crates/cfxpack/src/packet/encode.rs:188-192 | The offsets are written over their reserved bytes and nothing else changes |
| Assembly.ReadOffsets | crates/cfxpack/src/decode/mod.rs:336-342 | The loop reads the eight offsets |
| Assembly.EnsureOffsets | crates/cfxpack/src/decode/mod.rs:344-352 | The loop accepts exactly the ordered offsets inside the data |
| Assembly.SectionsRoundTrip | crates/cfxpack/src/decode/mod.rs:35-42 | The offset table of an assembled packet is valid and leads to each section |
| PacketFormat.HeaderLayout | crates/cfxpack/src/packet/encode.rs:133-150 | The fixed header: two roots, three numbers of eight bytes, one of four, the prefix size |
| PacketFormat.SectionLayout | crates/cfxpack/src/packet/encode.rs:133-194 | Every section stands at its computed start, gas prices, bitmap and body rounded up, and offset i at 93 + 4i says so |
| PacketFormat.RowLayout | crates/cfxpack/src/packet/encode.rs:151-175 | Row i of each fixed-width table stands at i times its width |
| PacketFormat.NonceLayout | crates/cfxpack/src/packet/encode.rs:160-168 | The nonce table is sender index and base nonce, row behind row |
| TxItems.PriceRoundTrip | crates/cfxpack/src/packet/encode.rs:465-475 | An interned or inline price decodes to the price |
| TxItems.ActionRoundTrip | crates/cfxpack/src/packet/encode.rs:443-463 | An encoded action decodes to the action |
| TxItems.NonceRoundTrip | crates/cfxpack/src/packet/encode.rs:386-390 | The saturated distance from the base gives the nonce back exactly when it is a word not below the base |
| TxItems.TxRoundTrip | crates/cfxpack/src/decode/tx.rs:127-301 | A transaction comes back, up to chain id and signature, exactly when nonce and gas survive |
| TxItems.StrippedEncodesAlike | crates/cfxpack/src/packet/encode.rs:375-441 | Chain id and signature are not encoded |
| PacketFormat.BodyMeans | crates/cfxpack/src/packet/encode.rs:375-475 | Every field of a written transaction in terms of the transaction: last table index or value, low word of the gas, lists exactly for the kinds that have them |
| PacketFormat.NonceMeans | crates/cfxpack/src/packet/encode.rs:386-390 | The written nonce is the distance from the base of the last row of the sender, or the nonce if there is none |
| PacketFormat.EpochMeans | crates/cfxpack/src/packet/encode.rs:409-410 | The epoch height is written as twice its distance from the epoch of the block, one less if it lies below |
| PacketFormat.DecodedMeans | crates/cfxpack/src/decode/tx.rs:127-322 | What a decoder makes of any transaction item it accepts, whoever wrote it |
| TxPayload.EncodeTxPayload | crates/cfxpack/src/packet/encode.rs:298-350 | The loop writes references or items, which `FirstPlaces.PayloadNamesFirst` tells apart, and updates the seen places |
| TxPayload.DecodeTxPayload | crates/cfxpack/src/decode/tx.rs:24-91 | The loop collects transactions, references, rewards and unlocks, with its errors |
| BackRefs.SeenIsEarlier | crates/cfxpack/src/packet/encode.rs:316-333 | Every known place lies in an earlier block and holds a transaction with that hash |
| BackRefs.BlockResolves | crates/cfxpack/src/packet/encode.rs:316-333 | References resolve to earlier blocks if every repeated hash is old |
| BackRefs.ContentsReadBack | crates/cfxpack/src/decode/tx.rs:61-90 | When everything resolves, transactions, references, rewards and unlocks come back |
| BackRefs.FreshRepeatFails | crates/cfxpack/src/decode/tx.rs:64-74 | A reference of a block into itself cannot be decoded |
| BackRefs.BlockDecodesExactlyWhen | crates/cfxpack/src/decode/tx.rs:61-90 | A payload decodes to what was written exactly when every hash the block repeats is old |
| FirstPlaces.PayloadNamesFirst | crates/cfxpack/src/packet/encode.rs:311-333 | Item i of a block that comes without references refers to the first place of its hash among all blocks, if that lies before, and is the transaction itself otherwise |
| FirstPlaces.PayloadAsGiven | crates/cfxpack/src/packet/encode.rs:311-333 | A block that comes with references is written with exactly those |
| FirstPlaces.DecodedNamesFirst | crates/cfxpack/src/decode/tx.rs:61-90 | The decoded references name the first places too |
| BackRefs.ItemsFit | crates/cfxpack/src/packet/encode.rs:298-350 | Whatever a storable block writes into its payload fits the machine words of the list codec |
| RepeatedHash.EncodesButCannotBeDecoded | crates/cfxpack/src/packet/encode.rs:298-350 | One storable packet, a pivot block with one transaction twice, encodes without an error under every codec that round-trips, and its bytes do not decode |
| TxSegment.WrittenFlags | crates/cfxpack/src/packet/encode.rs:75-89 | The two transaction bits say what the payload is; every other bit is kept |
| TxSegment.PayloadStands | crates/cfxpack/src/packet/encode.rs:74-93 | A payload is in the finished segment where its units say |
| PacketFormat.SegmentLayout | crates/cfxpack/src/packet/encode.rs:74-93 | At four times its units a payload stands behind its length, compressed exactly above 512 bytes |
| PacketFormat.SegmentSpacing | crates/cfxpack/src/packet/encode.rs:74-93 | It starts at the next multiple of four behind the payload before, over zeros |
| PacketFormat.FlagLayout | crates/cfxpack/src/packet/encode.rs:75-89 | Bit 3 of the written flags says that there is a payload, bit 4 that it is compressed, the other six are as they were |
| TxSegment.PayloadReadsBack | crates/cfxpack/src/decode/tx.rs:40-55 | Reading at the units with the written flags gives the payload back |
| Epochs.FindPivot | crates/cfxpack/src/decode/mod.rs:217-224 | The search finds the first pivot of the group |
| Epochs.ValidateInput | crates/cfxpack/src/packet/encode.rs:196-231 | Accepts exactly sequential blocks in pivot-ended groups whose epoch is the pivot height |
| PacketFormat.ValidExactlyWhen | crates/cfxpack/src/packet/encode.rs:196-231 | What is accepted, with bit numbers and limits written out |
| Epochs.AssignEpochFromPivots | crates/cfxpack/src/decode/mod.rs:214-233 | In place, every block gets the height of its group pivot, or no pivot is reported |
| PrefixSize.ChoosePrefixSize | crates/cfxpack/src/packet/encode.rs:477-490 | The loop finds the first size enough records fit |
| PrefixSize.ChosenIsLeast | crates/cfxpack/src/packet/encode.rs:477-490 | The chosen size is the only candidate that fits enough with every smaller one failing |
| PacketFormat.PrefixSizeIs | crates/cfxpack/src/packet/encode.rs:477-490 | The first of 64, 72, 80, 88 and 96 that nine tenths fit, below 80, seven tenths, below 96, or any number |
| PacketCodec.EncodeBlocks | crates/cfxpack/src/packet/encode.rs:53-104 | Two loops give records and segment |
| PacketCodec.EncodePacket | crates/cfxpack/src/packet/encode.rs:20-49 | The encoder is the specified encoding, errors included; the layout lemmas of `PacketFormat` give its bytes |
| PacketCodec.DecodeTransactions | crates/cfxpack/src/decode/mod.rs:64-83 | In place, each block is filled from its payload and the blocks before it |
| PacketCodec.DecodePacketExt | crates/cfxpack/src/decode/mod.rs:21-99 | The decoder is the specified decoding, errors included |
| PacketLaws.HeaderReadsBack | crates/cfxpack/src/decode/mod.rs:23-29 | The fixed header reads back |
| PacketLaws.TablesReadBack | crates/cfxpack/src/decode/mod.rs:38-42 | All five tables read back through the offsets |
| PacketLaws.RecordsReadBack | crates/cfxpack/src/decode/mod.rs:44-45 | The records read from an encoded packet are the ones written |
| PacketLaws.EpochsReadBack | crates/cfxpack/src/decode/mod.rs:62-62 | The epochs rebuilt from pivots are the validated ones |
| PacketLaws.BlockFinishes | crates/cfxpack/src/decode/mod.rs:64-83 | A block comes back whole if its repeats are old, and fails otherwise |
| PacketLaws.PacketRoundTrip | crates/cfxpack/src/decode/mod.rs:21-99 | Decoding an encoded packet gives it back, roots cut to four bytes and two flags recomputed, exactly when no block repeats a fresh hash |
| PacketFormat.DecodedKeeps | crates/cfxpack/src/decode/mod.rs:21-99 | Field by field what a decoded block shares with the block encoded, each transaction up to chain id and signature |
| PacketFormat.DecodedNeeds | crates/cfxpack/src/decode/mod.rs:21-42 | Whatever decodes has a whole header, a known prefix size, ordered offsets inside the data and whole table rows |
| Reencode.NormalEncodesAlike | crates/cfxpack/src/packet/encode.rs:20-49 | The encoder cannot tell a packet from what comes back for it |
| Reencode.DecodeThenEncode | crates/cfxpack/src/packet/encode.rs:20-49 | Decoding and encoding again reproduces the bytes |
| Reencode.ReferencesPointBack | crates/cfxpack/src/decode/tx.rs:61-90 | Every decoded reference points to the same transaction in a strictly earlier block |
| FlagPatch.BlockFlagSites | crates/cfxpack/src/decode/mod.rs:307-334 | The loop reports place and hash of every block, with its errors |
| FlagPatch.PatchOrderIsInvisible | crates/replay-data-extractor/src/extract/flagpatch.rs:148-157 | Any order of the same places gives the same bytes |
| FlagPatch.EncodedFlag | crates/cfxpack/src/packet/encode.rs:109-129 | One flag set in the packet is one byte changed in the encoding, and no place moves |
| FlagPatch.SitesReadBack | crates/cfxpack/src/decode/mod.rs:307-334 | The sites of an encoded packet are exactly its blocks, in order |
| FlagPatch.PatchCommutesWithEncoding | crates/replay-data-extractor/src/extract/flagpatch.rs:82-159 | Patching the bytes gives the encoding of the packet with those flags set |
| FlagPatch.PatchChangesOnlyFlags | crates/replay-data-extractor/src/extract/flagpatch.rs:82-159 | Decoding the patched bytes gives the same packet with only those flags changed |
| ContainerPatch.CollectFlips | crates/replay-data-extractor/src/extract/flagpatch.rs:104-143 | Look-ups in any order report exactly the places of the blocks whose reward reads as zero, as many as there are, or fail if a reward cannot be read |
| ContainerPatch.PatchInNumbers | crates/replay-data-extractor/src/extract/flagpatch.rs:104-157 | In numbers: a byte gains 64 exactly if it lacks it and is the flags byte of a block whose reward is found to be zero; no byte changes otherwise |
| FlagPatch.FlaggedInNumbers | crates/replay-data-extractor/src/extract/flagpatch.rs:148-157 | Setting the flag adds 64 unless it is there |
| Bits.BitInNumbers | crates/cfxpack/src/decode/mod.rs:307-334 | A bit is the parity after k halvings, and setting or clearing it adds or takes 2^k |
| ContainerPatch.SetFlags | crates/replay-data-extractor/src/extract/flagpatch.rs:148-157 | The loop sets the flag at each place and reports whether a byte changed |
| ContainerPatch.PatchContainerBytes | crates/replay-data-extractor/src/extract/flagpatch.rs:82-159 | In place, bit 6 is set exactly where it was or where a block with a zero reward has its flags, no other bit changes, and the count is that of those blocks; on an error nothing is written |
| ContainerPatch.PatchCommutesWithPacking | crates/replay-data-extractor/src/extract/flagpatch.rs:90-97 | Patching a container gives the container of its patched packets |
| ContainerPatch.PatchFlagsPackets | crates/replay-data-extractor/src/extract/flagpatch.rs:82-159 | Encoding, packing and patching packets gives the container of the encodings of the packets with those flags set |

## Left out

- The LMDB snapshot backend, RocksDB readers, BCS decoding, the file and memory stores and `StateManager`: foreign
  calls and I/O.
- Keccak itself, snappy and RLP bytes, transaction signing and `fake_sign_rpc`: parameters or a fixed placeholder.
- Worker threads and rayon: replaced by arbitrary order; the parallel depth stays a parameter of the rebuild.
- Timing switches, progress lines, file names, directory scans and the frequency-sorted extraction tables.
- `verify_packet` and `validate_replay_input`: further readers of the same layout.
- The 64-bit block height and the 32-bit period as machine words: both are unbounded here; the sums `offset + length`
  in directory entries are not wrapped either.
- Short Account keys, Empty or AddressPrefix as stored keys and empty Storage suffixes: documented exceptions. What the
  code does with them is modelled; flat answers are promised for the other keys only, and
  `StateLaws.SetKeepsInvExactlyWhen` and `KeyCodec.RecoveredExactlyWhen` show where the line runs.
- TwoMaps.RunIsTwoMaps: a prefix of a Storage key is promised where no stored key strictly extends it;
  `PrefixLaws.StorageScanAgreesExactlyWhen` says what a layer's scan picks beyond that.
- PackWriter.WriteContainers: that the files parse is promised for packets that fit the directory's words, which the
  packer itself does not check.
- `get_all_by_prefix` and `delete_all_by_prefix` turn an empty list into no list; the model returns the list.
- Compression failing on inputs beyond the compressor's limit: the compressor is total here.
- Offsets that a 64-bit cursor would overflow: positions are unbounded, and an encoded packet is taken to be shorter
  than 2^64 bytes where that matters.
- Trie.ChildRanges: serves the stateless walk and the cold rebuild alike; the source has the same loop in both files.
- StateRuns.RunIsFlat: runs with deletions by address prefix are those of `TwoMaps.RunIsTwoMaps`, since such a deletion
  is not what one flat map would do.
- PacketLaws.PacketRoundTrip: asks that transactions survive (`TxItems.TxRoundTrip` says exactly when), that each sender
  has one base nonce, that equal hashes mean equal transactions, and that a view is stored exactly from the enable
  height on and not below the header minimum.
- TxItems.TxRoundTrip: access and authorization lists are lists of opaque encoded entries.
