# Verified model of litewallet-core

This project models the parts of the litewallet-core SPV wallet library whose correctness is an
algorithmic matter, and proves what they are meant to do. `dafny verify dfyconfig.toml` checks all
of it.

The model keeps the form of the source. What the source updates in place is a class or an array
here, its loops are loops with invariants, and each method is proved against a function on plain
values. The properties are then lemmas about those functions: round trips, invariants over whole
runs, refinement of a simple definition, conservation.

| files | what they model |
|---|---|
| `HashSet` | the linear-probed hash table, as a refinement of a finite set of pairwise unequal items |
| `Words`, `Bytes` | and, or, xor and shifts on natural numbers; little-endian byte strings |
| `Poly1305`, `Aead` | the five-limb authenticator and the authenticated cipher of RFC 7539 |
| `PolyAnswer`, `ChaChaAnswer`, `WordBits`, `Bech32Answer` | published answers of both and of BIP 173, derived from the definitions |
| `Merkle`, `BlockValidity` | the partial merkle tree decoder of BIP 37, and block validity |
| `Aes`, `Sbox` | AES-256 with its key schedule computed on the fly, of FIPS 197, and what its substitution table holds |
| `Ledger`, `WalletOrder`, `WalletSteps`, `Wallet` | balance recomputation, the order of the transaction list, registering, updating, unconfirming and removing transactions |
| `Chain`, `Pruning`, `PeerStart`, `PeerSave` | block chains and what is freed of them, starting from saved blocks, saving them |
| `Reorg`, `Relaying`, `PeerChain` | relayed blocks, orphans, forks and re-orgs, and what they do to the heights in the wallet |
| `CatchUp` | blocks that arrive in any order |
| `Session` | runs of wallet and peer manager from the start |
| `Spending`, `Rebuilding` | coin selection, fees and change, and building again for less |
| `Radix`, `RadixRoom`, `Base58` | positional notation, the sizes of the conversion buffers, Base58 and Base58Check |
| `Bech32Sum`, `Regroup`, `Bech32` | the checksum, the regrouping of bits, and the address format of BIP 173 |
| `Der` | strict and lax DER signatures (sections 8.1.3 and 8.3 of X.690) |
| `TxCodec` | variable-length integers and transaction serialisation |
| `BitStrings`, `Mnemonic`, `Phrase` | BIP 39 mnemonics |
| `PeerMessages` | how a peer collects the transactions of a merkleblock |

Hash functions are parameters: any total function, with the hypotheses a lemma needs written in its
`requires`. Clock readings, random draws, whether an array moved when it grew, the difficulty test
and the test whether a script pays an address are parameters too.

The classes start from constructors that establish their invariants. `Session.StartAndRun` builds a
wallet and a peer manager and runs any sequence of events over them; `Session.SaveAndRestart` saves the
blocks of one manager and starts another from them.

Twelve places where the source does not do what its own comments, its format or its callers rely on
are stated as such, each with inputs that show it and with the condition under which it does not
happen.

- With change, the fee can fall short of the fee for the final size, because the room kept for a
  change output does not count the longer output count. `Spending.FeeSuffices` says exactly when it
  suffices; `Spending.FeeFallsShort` constructs wallets where it does not, and
  `Spending.BuildShortOfFee` builds the transaction.
- A transaction that would be too large is built again for less, and that need not end:
  `Rebuilding.RebuildingEndsIff` says when it does, `Rebuilding.RebuildsOn` gives a wallet for which it does not.
- The Bech32 decoder does not test the padding bits, so it accepts strings that the encoder would
  not write. `Bech32.EncodeUndoesDecode` says exactly which; `Bech32.DirtyPaddingAccepted` gives some.
- The Bech32 encoder tests the length in bytes instead of symbols, so its text can be longer than
  its buffer: `Bech32.AcceptedButTooLong`, and the exact bound in `Bech32.FitsIfSymbolsCounted`.
- BIP 39 decoding accepts one trailing space: `Phrase.AcceptedIsEncoded`.
- Serialising into a buffer that is too small need not return 0, because the parts that do not fit
  are not counted. `TxCodec.ReturnedIsLength` says when the count can be trusted;
  `TxCodec.ShortBufferUnnoticed` gives inputs where it misleads.
- Parsing adds a script length to an offset in 64 bits, so for a length near 2^64 the test whether
  the script is there can pass although it is not: `TxCodec.ParseInput` and `TxCodec.ParseOutput` report
  exactly when, `TxCodec.StraysIff` says it in numbers, `TxCodec.WrappedLength` gives inputs, and
  `TxCodec.WholeStraysNowhere` shows that it takes a transaction that is cut short.
- A merkle block with the true root can report a hash that is not in the tree, because nothing looks
  at the hash index after the root walk has set it to SIZE_MAX. `Merkle.GuardForgotten` constructs such
  blocks. `Merkle.Soundness` holds for blocks where the index is below SIZE_MAX at the end, which a
  caller could test; `Merkle.SoundnessIff` says for which numbers of transactions it holds of all blocks.
- A higher fork that shares no stored block with the current chain makes the source read the height
  of a null block. `PeerChain.PeerManager.Fork` says exactly when, `Session.ForkBesideCheckpoint` gets
  there from a start with one relayed block.
- A stored block that is relayed again makes the source compare with a null block when it lies below
  the end of the stored current chain. `PeerChain.PeerManager.Repeat` says exactly when,
  `Session.RepeatBelowSaved` gets there from a start with two.
- Removing a transaction is meant to remove what depends on it, but a spender lower in the list than
  what it spends is overlooked: `WalletSteps.SpenderOverlooked`, and the exact condition in
  `WalletOrder.FoundAllIff`.
- The loop of the ceiling logarithm does not end for a negative int, which a totalTx of 2^31 or more
  becomes: `Merkle.LoopEndsIfNotNegative`.

## Model

| member | source | states |
|---|---|---|
| HashSet.LoadLeavesRoom | LWSet.c:12-17 | For every size the constructor can pick (a table entry of at least 3) the load limit is below the size, so an empty slot remains; for every size but the last, one item more still fits the next table |
| HashSet.SizesAscend | LWSet.c:12-17 | The table sizes ascend by at least 2, and by at least 4 after the first: growing always finds a strictly larger table |
| HashSet.LWSet.constructor | LWSet.c:29-63 | A new set is well formed and empty, and its size exceeds the requested capacity |
| HashSet.LWSet.Probe | LWSet.c:84-91 | The probe loop ends, at the first slot from the home slot on that is empty or holds an equal item |
| HashSet.ProbeMiss | LWSet.c:182-187 | A probe that stops at an empty slot proves that no equal item is stored anywhere in the table |
| HashSet.LWSet.Get | LWSet.c:173-188 | Returns a stored item equal to the argument if there is one, and nothing exactly if there is none |
| HashSet.LWSet.Contains | LWSet.c:150-153 | True if and only if an equal item is in the set |
| HashSet.StoreAtProbe | LWSet.c:88-94 | Storing at the probed slot keeps every item reachable and pairwise unequal, replaces exactly the equal item, and counts one more exactly if there was none |
| HashSet.LWSet.Add | LWSet.c:79-97 | The abstract set gains the item, an equal one is replaced and returned, `itemCount` is exact, and no growth happens below the load limit |
| HashSet.LWSet.Grow | LWSet.c:66-76 | Growing changes the table and not the set: same contents, same count, strictly larger size |
| HashSet.CleanupStarts | LWSet.c:114-118 | Emptying the hole establishes the clean-up invariant, stated relative to the first empty slot after the hole |
| HashSet.ReinsertSlot | LWSet.c:120-126 | A re-inserted item lands in its old slot or in the part of the cluster already cleaned, never past the cluster |
| HashSet.CleanupStep | LWSet.c:120-126 | One step (empty a slot, probe, store) keeps the clean-up invariant: nothing lost, nothing out of reach, wrap-around included |
| HashSet.CleanupEnds | LWSet.c:120-126 | When the loop reaches the empty slot, the whole table is well formed |
| HashSet.LWSet.Reinsert | LWSet.c:121-125 | The step as the code takes it: through `Add`, which never grows here, with the count restored |
| HashSet.LWSet.CleanUp | LWSet.c:120-126 | The loop ends, loses no item, and does not touch the slots before the hole |
| HashSet.LWSet.Remove | LWSet.c:100-130 | Exactly the equal item goes, and is returned; the size and the table stay; slots before the hole keep their contents; nothing happens if there is no equal item |
| HashSet.LWSet.Clear | LWSet.c:133-139 | The set becomes empty; its size and table stay |
| HashSet.CountIsCardinality | LWSet.c:142-147 | The slot count is the cardinality of the abstract set |
| HashSet.LWSet.Intersects | LWSet.c:156-170 | True if and only if some item of the other set has an equal in this one |
| HashSet.AddAllStep | LWSet.c:257-260 | Adding the items slot by slot computes the union up to equality |
| HashSet.LWSet.Union | LWSet.c:249-261 | The contents become those of both sets, the other set winning between equals |
| HashSet.WithoutStep | LWSet.c:272-275 | Removing items one by one computes the difference up to equality |
| HashSet.LWSet.Minus | LWSet.c:264-276 | What remains is exactly what has no equal in the other set |
| HashSet.IntersectRemoves | LWSet.c:287-294 | Removing while scanning is safe: what the removal moves into the scanned slots has been kept already, so the scan misses nothing |
| HashSet.LWSet.Intersect | LWSet.c:279-295 | What remains is exactly what has an equal in the other set; the scan that does not advance after a removal still ends |
| Poly1305.Authenticate | LWCrypto.c:724-735 | The tag is ((sum of padded blocks times powers of the clamped r) mod 2^130-5, plus s) mod 2^128, as section 2.5 of RFC 7539 defines it, for every key and message |
| Poly1305.LimbsOfWords | LWCrypto.c:675-678 | The shifts and masks cut four 32-bit words into five limbs of the same total value |
| Poly1305.ClampedIsR | LWCrypto.c:660-664 | The five masked limbs of r have the value of the key masked with 0x0ffffffc0ffffffc0ffffffc0fffffff, and fit 26 and 20 bits |
| Poly1305.AddBlock | LWCrypto.c:666-678 | Adding a block adds its number, plus 2^128 for a full one, with no 32-bit overflow |
| Poly1305.FoldedIsProduct | LWCrypto.c:680-685 | The five sums with the factors of five are congruent to the product of both numbers mod 2^130-5 |
| Poly1305.FoldedBounds | LWCrypto.c:681-685 | None of the five sums reaches 2^58, so 64 bits suffice |
| Poly1305.Reduce | LWCrypto.c:687-690 | The partial reduction keeps the residue; no carry is lost in the 32-bit casts, and the last unmasked carry stays within bounds |
| Poly1305.MultiplyReduce | LWCrypto.c:680-690 | Multiplying and reducing in place is multiplication mod 2^130-5 |
| Poly1305.Absorb | LWCrypto.c:666-691 | One round of the loop is one step of the RFC accumulator, for full and partial blocks |
| Poly1305.CarryFully | LWCrypto.c:694-696 | After the full carry every limb fits 26 bits and the residue is unchanged |
| Poly1305.MinusModulus | LWCrypto.c:698-703 | The borrow bit of h + -p says exactly whether h is below p |
| Poly1305.SelectLimbs | LWCrypto.c:702-704 | The constant-time select takes h or h + -p, whole |
| Poly1305.SubtractModulus | LWCrypto.c:698-704 | Afterwards h is fully reduced |
| Poly1305.Pack | LWCrypto.c:706-708 | The four packed words are h mod 2^128 |
| Poly1305.AddPad | LWCrypto.c:710-714 | The four words become the sum with s mod 2^128 |
| Poly1305.Compress | LWCrypto.c:655-720 | A non-final call absorbs its data; a final one also leaves the tag |
| Poly1305.AccSplit | LWCrypto.c:805-815 | Absorbing a message in pieces of whole blocks gives the same accumulator as absorbing it in one pass |
| PolyAnswer.ModulusIs | LWCrypto.c:700-701 | The modulus is 2^130 - 5 |
| PolyAnswer.ClampIs | LWCrypto.c:660-664 | Clamping clears the upper four bits of bytes 3, 7, 11 and 15 and the lower two bits of bytes 4, 8 and 12, as section 2.5 of RFC 7539 says, and nothing else |
| Aead.SetupIsBlockState | LWCrypto.c:753-758 | The initial state is the RFC 7539 state: constant, key, counter and nonce words |
| Aead.NextCounter | LWCrypto.c:775-776 | Incrementing one word, and the next one when it wraps, is adding one to the 64-bit counter |
| Aead.NextBlock | LWCrypto.c:761-777 | Each 64-byte block is the block of the current counter, and the state moves to the next counter |
| Aead.ChaCha20 | LWCrypto.c:742-785 | Byte i of the output is byte i of the data xor a keystream byte that depends only on key, iv and counter + i/64; the rest of the buffer stays |
| Aead.StreamTwice | LWCrypto.c:760-780 | Applying the stream twice gives back the data |
| Aead.CounterIsNonce | LWCrypto.c:803-808 | Putting the first nonce word in the upper counter half makes the 64-bit stream the 96-bit-nonce block function of section 2.3 of RFC 7539 |
| Aead.StreamIsCipher | LWCrypto.c:808 | Hence the data is encrypted as section 2.4 of RFC 7539 has it, starting at counter 1 |
| Aead.MakeMacKey | LWCrypto.c:803-804 | The MAC key is the first half of block 0 (section 2.6 of RFC 7539) |
| Aead.AbsorbPadded | LWCrypto.c:805-807 | Two calls, whole blocks and the zero-padded rest, absorb the padded data |
| Aead.MakeTag | LWCrypto.c:805-815 | The split calls give the Poly1305 tag of ad, padding, text, padding and both lengths |
| Aead.MacDataInjective | LWCrypto.c:805-815 | Different associated data or texts never give the same data to authenticate |
| Aead.MacDataIs | LWCrypto.c:805-815 | That data is: the associated data, zeros up to a multiple of 16, the text, zeros likewise, and both lengths in eight bytes each |
| Aead.Encrypt | LWCrypto.c:788-819 | Writes exactly the RFC 7539 section 2.8 sealed message, or reports the length needed, or writes nothing and returns 0 |
| Aead.XorsDiffer | LWCrypto.c:851 | The or of the four word xors is zero exactly if the tags agree |
| Aead.Decrypt | LWCrypto.c:821-854 | Writes the plaintext exactly if the tag is right; otherwise returns 0 and writes nothing |
| Aead.CipherTwice | LWCrypto.c:808-852 | The cipher is its own inverse |
| Aead.OpenExactlySealed | LWCrypto.c:788-854 | Opening succeeds with m if and only if the input is the seal of m: decrypt undoes encrypt for every key, nonce, message and ad, and accepts nothing else |
| ChaChaAnswer.QuarterRoundExample | LWCrypto.c:737-739 | The quarter round gives the result in section 2.1.1 of RFC 7539 |
| ChaChaAnswer.QuarterRoundIs | LWCrypto.c:737-739 | The quarter round on naturals is the quarter round on 32-bit vectors, with additions mod 2^32, exclusive ors and left rotations by 16, 12, 8 and 7 |
| ChaChaAnswer.DoubleRoundIs | LWCrypto.c:764-767 | So is a double round: four columns, then four diagonals |
| ChaChaAnswer.ZeroKeyBlock | LWCrypto.c:764-773 | Ten double rounds give, for the zero key, nonce and counter, the 64 bytes test.c names |
| ChaChaAnswer.ZeroKeyStream | test.c:877-889 | The cipher text of 64 zero bytes under the zero key and iv is the one named there |
| PolyAnswer.TagsOfOneBlock | test.c:658-699 | The tags of three messages of one block are those named there: one that wraps past 2^130 - 5, one where adding s wraps past 2^128, and one just below both |
| PolyAnswer.TagOfThreeBlocks | test.c:674-681 | And the tag of a message of three blocks |
| Bech32Answer.AddressAnswer | test.c:305-317 | Encoding the program named there gives the address named there, character by character |
| Merkle.CeilLog2IsLeast | LWMerkleBlock.c:17-23 | The ceiling is the least r with x <= 2^r |
| Merkle.CeilFromFloor | LWMerkleBlock.c:17-23 | Floor of the logarithm, plus one exactly if x and x-1 share a bit, is the ceiling |
| Merkle.ComputeCeilLog2 | LWMerkleBlock.c:17-23 | The loop computes the ceiling for every non-negative 31-bit input |
| Merkle.LoopEndsIfNotNegative | LWMerkleBlock.c:17-23 | Shifted right often enough an int becomes zero if and only if it is not negative, so from a totalTx of 2^31 on, which becomes a negative int, the loop does not end |
| Merkle.TreeRootIsRowRoot | LWMerkleBlock.c:25-32 | The tree of fixed height that the decoder walks has the root the row-by-row definition gives |
| Merkle.LockStep | LWMerkleBlock.c:166-245 | Unless the guard of line 239 was hit, the root walk and the extraction walk end with the same two indices at every node |
| Merkle.GuardSticks | LWMerkleBlock.c:227-239 | Once the guard has set the hash index to SIZE_MAX, no later node moves it |
| Merkle.ZeroMeansExhausted | LWMerkleBlock.c:231-243 | A zero result means the input ran out at that node, and then the extraction walk reports nothing there |
| Merkle.MatchesAreLeaves | LWMerkleBlock.c:166-245 | If a node decodes to the root of a list of leaves, everything extracted below it is one of these leaves |
| Merkle.Soundness | LWMerkleBlock.c:166-245 | If the decoded root is the true root of a transaction list of length totalTx, every reported hash is in the list (pair hash injective and never zero, no supplied hash zero, and the hash index below SIZE_MAX after the root walk, which a caller could test) |
| Merkle.GuardForgotten | LWMerkleBlock.c:231-263 | That condition is needed: for every list of transactions one of whose rows above the leaves and below the root has an odd length, and any nonzero hash, there is a block with the true root that reports this hash as matched, because a guard hit in a right subtree is taken for a missing child |
| Merkle.SoundnessIff | LWMerkleBlock.c:231-263 | For a given list of transactions, every block with its root reports only members of the list, guard hit or not, if and only if all rows above the leaves and below the root have an even length |
| Merkle.EvenRowsSound | LWMerkleBlock.c:166-263 | With all such rows even, no block with the true root hits the guard |
| Merkle.DecodeForged | LWMerkleBlock.c:166-245 | Both walks over the true tree with a fake right sibling at a gap: the root walk gives the true hash and parks the hash index, the extraction walk reports the fake leaves |
| Merkle.TrueIsUnparked | LWMerkleBlock.c:231-243 | In a tree without gaps a node that decodes to its true hash has hit no guard |
| Merkle.GapIsOddRow | LWMerkleBlock.c:25-32 | A node without right sibling on a level is a row of odd length there |
| Merkle.DecodeInner | LWMerkleBlock.c:227-240 | An inner node of the encoding decodes as its two children; a missing right child is noticed because the hashes have run out |
| Merkle.DecodeNode | LWMerkleBlock.c:166-245 | At every node of the encoding, root, matches and cursor come out right |
| Merkle.Completeness | LWMerkleBlock.c:166-245 | For every non-empty list and match set, decoding the BIP 37 encoding yields the true root and exactly the matched hashes in order, and does not hit the guard (node hashes nonzero, no two real siblings equal) |
| Merkle.BuiltDecodes | LWMerkleBlock.c:166-245 | Packed into flag bytes and listed as hashes, the encoding of any transaction list and match set is a block that decodes to root and matches |
| Merkle.PackedFlag | LWMerkleBlock.c:172-228 | Reading flag i of the packed bytes gives bit i |
| Merkle.NoMoreHashesThanLeaves | LWMerkleBlock.c:17-23 | An encoding holds at most one hash per transaction |
| Merkle.TestFlag | LWMerkleBlock.c:172-228 | The byte test reads the flag bit at the index |
| Merkle.AndBit | LWMerkleBlock.c:172-228 | Masking with one bit is nonzero exactly if that bit is set |
| Merkle.TreeReader.Root | LWMerkleBlock.c:222-245 | The recursion that advances the two indices computes the specified root walk |
| Merkle.TreeReader.TxHashes | LWMerkleBlock.c:166-190 | The recursion appends the matches to the buffer up to its capacity and advances the indices as specified |
| Merkle.MatchedTxHashes | LWMerkleBlock.c:194-201 | Without a buffer the number of matches is returned; with one, the first matches that fit are written and counted |
| Merkle.MatchCount | LWMerkleBlock.c:194-201 | There are never more matches than hashes consumed |
| BlockValidity.TargetBytes | LWMerkleBlock.c:271-272 | The 32 bytes written are the little-endian number that the compact target stands for, for size bytes up to 31 |
| BlockValidity.PutWord | LWMerkleBlock.c:271 | A word stored at an offset of a zero buffer is that word shifted by the offset |
| BlockValidity.LexIsNumeric | LWMerkleBlock.c:274-277 | Comparing from the most significant byte decides the numeric order |
| BlockValidity.AtMost | LWMerkleBlock.c:274-277 | The comparison loop decides whether the hash is at most the target, as numbers |
| BlockValidity.IsValid | LWMerkleBlock.c:250-280 | True if and only if the root matches (or there are no transactions), the time is not too far ahead in 32-bit arithmetic, the target is in range, and the hash is at most the target |
| Aes.InverseCipherCipher | LWBIP38Key.c:71-154 | Decrypt undoes encrypt for every 32-byte key and 16-byte block |
| Sbox.SubIsFips | LWBIP38Key.c:31-48 | For every byte, `sbox` is the affine transformation (with 0x63) of the inverse in GF(2^8), 0 going to 0, as section 5.1.1 of FIPS 197 has it; the multiplication is built from the doubling the code uses, and the table is not named |
| Sbox.InverseIsUnique | LWBIP38Key.c:31-48 | A byte has at most one inverse, so that says what the entry is |
| Sbox.TimesCommute | LWBIP38Key.c:69 | Multiplications in GF(2^8) can be exchanged, as that takes |
| Sbox.UnsubSub | LWBIP38Key.c:31-67 | `sboxi` inverts `sbox` at all 256 bytes |
| Aes.MixedIsFips | LWBIP38Key.c:89-92 | The column mixing with one shared xor is the matrix of section 5.1.3 of FIPS 197 |
| Aes.UnmixedIsFips | LWBIP38Key.c:128-132 | The column unmixing with shared terms is the inverse matrix of section 5.3.3 of FIPS 197 |
| Aes.UnmixMix | LWBIP38Key.c:89-132 | Unmixing undoes mixing, as the code computes both |
| Aes.UnmixMixFips | LWBIP38Key.c:89-132 | The two matrices of FIPS 197 are inverse to each other |
| Aes.MixExample | LWBIP38Key.c:89-132 | The column db 13 53 45 is mixed to 8e 4d a1 bc, and back |
| Aes.ShiftIsFips | LWBIP38Key.c:85-136 | Row r moves r places to the left, and back |
| Aes.ConstantsAre | LWBIP38Key.c:95 | The round constants are 01, 02, 04, 08, 10, 20 and 40 |
| Aes.RotWordIs | LWBIP38Key.c:95 | The word is rotated by one byte to the left |
| Aes.UnmixMixColumns | LWBIP38Key.c:89-132 | Unmixing all four columns undoes mixing them |
| Aes.UnshiftShift | LWBIP38Key.c:85-136 | The two byte cycles of the unshift undo those of the shift |
| Aes.UnsubSubBytes | LWBIP38Key.c:83-138 | Substitution is undone on the whole block |
| Aes.UnexpandExpand | LWBIP38Key.c:94-145 | The backward key step, its words in reverse order, undoes the forward step |
| Aes.KeyAtIsSchedule | LWBIP38Key.c:94-123 | After n forward steps the key buffer holds words 8n to 8n+7 of the key expansion of section 5.2 of FIPS 197 |
| Aes.RoundKeyIsSchedule | LWBIP38Key.c:80-82 | Each half of the buffer used in round i is round key i of FIPS 197 |
| Aes.RoundsUndone | LWBIP38Key.c:125-147 | After n inverse rounds the block is what encryption had after 14 - n rounds |
| Aes.AddKeyInPlace | LWBIP38Key.c:81 | The round key is added to the whole block |
| Aes.SubInPlace | LWBIP38Key.c:83 | Every byte is substituted |
| Aes.UnsubInPlace | LWBIP38Key.c:138 | Every byte is substituted back |
| Aes.ShiftInPlace | LWBIP38Key.c:85-87 | The byte swaps are the row shift of FIPS 197 |
| Aes.UnshiftInPlace | LWBIP38Key.c:134-136 | The byte swaps are the inverse row shift |
| Aes.MixInPlace | LWBIP38Key.c:89-92 | All four columns are mixed |
| Aes.UnmixInPlace | LWBIP38Key.c:128-132 | All four columns are unmixed |
| Aes.ExpandInPlace | LWBIP38Key.c:95-98 | The 32 key bytes advance by one expansion step |
| Aes.UnexpandInPlace | LWBIP38Key.c:141-145 | The 32 key bytes go back by one expansion step |
| Aes.Encrypt | LWBIP38Key.c:71-107 | The buffer becomes the FIPS 197 cipher of its contents, with the key expanded on the fly |
| Aes.DecryptRound | LWBIP38Key.c:125-147 | One inverse round uses round key 14 - i, and leaves key and round constant of the round before |
| Aes.Decrypt | LWBIP38Key.c:109-154 | Seven forward key steps and the inverse rounds make the buffer the inverse cipher of its contents |
| Ledger.StepCases | LWWallet.c:148-221 | A conflicting unconfirmed transaction only becomes invalid, a postponed one only spends its inputs and becomes pending, any other one settles; a confirmed one always settles |
| Ledger.BalanceIsListedSum | LWWallet.c:198-224 | After every prefix the balance is the sum of the listed outputs (in 64-bit arithmetic) and the history has one entry per transaction, each the balance after that transaction |
| Ledger.ReceivedMinusSent | LWWallet.c:217-220 | Total received less total sent is the balance, in 64-bit arithmetic |
| Ledger.TotalsAreRisesAndFalls | LWWallet.c:217-220 | Total received is the sum of all rises of the recorded balance history and total sent the sum of all falls, in 64-bit arithmetic, and the balance is its last entry |
| Ledger.WhoConflicts | LWWallet.c:150-162 | A transaction is invalid exactly if it is unconfirmed and an input of it is spent by an accepted transaction before it or spends one that is invalid |
| Ledger.ConflictIs | LWWallet.c:152-156 | The same for one input |
| Ledger.WhoWaits | LWWallet.c:170-185 | A transaction is pending exactly if it is unconfirmed and too large, or has an output below 546, a replaceable input, a lock time not yet reached with an input that heeds it, or an input from a pending one |
| Ledger.RecordedAre | LWWallet.c:148-190 | The hashes recorded as invalid and as pending are those of the transactions before that were set aside and that wait |
| Ledger.ListedInOrder | LWWallet.c:198-207 | The listed outputs keep the order of their transactions in the list, and of their positions within one |
| Ledger.UsedAre | LWWallet.c:198-204 | The addresses recorded as used are exactly those that the transactions which settled pay |
| Ledger.ExactWhenTotalFits | LWWallet.c:198-224 | When all owned amounts together fit 64 bits, balance and totals are the exact numbers |
| Ledger.ListedOutputs | LWWallet.c:148-221 | A listed output is an owned output of a settled transaction; it is listed if no accepted transaction spends it; if an accepted one does, that one is pending |
| Ledger.ListedOnce | LWWallet.c:198-216 | No output is listed twice |
| Ledger.ConfirmedListIsOutputsMinusInputs | LWWallet.c:131-225 | If every transaction is confirmed, the list is exactly the owned outputs less all inputs |
| Ledger.OrderDoesNotMatter | LWWallet.c:131-225 | If every transaction is confirmed, the listed set and the balance are the same for every ordering |
| Ledger.ListedAreStored | LWWallet.c:212-213 | A listed output is an owned output of a stored transaction, so the look-up in the purge never fails |
| Ledger.OwnedIffMine | LWWallet.c:198-207 | The outputs added are exactly those paying a wallet address |
| Ledger.UnspentIff | LWWallet.c:210-215 | The purge keeps exactly the outputs no input has spent |
| Ledger.SumIsOfTheSet | LWWallet.c:204-213 | The sum depends on the set of listed outputs, not on their order |
| Ledger.OneMoreOutput | LWWallet.c:198-207 | One round of the output loop, balance included |
| Ledger.PurgeOne | LWWallet.c:210-215 | One round of the purge from the end: an output goes exactly if spent, and its amount with it |
| Ledger.SettledTotals | LWWallet.c:217-220 | Settling a transaction keeps received less sent equal to the balance; `Ledger.TotalsAreRisesAndFalls` says what each of them is |
| WalletState.Wallet.HasConflict | LWWallet.c:152-156 | The loop with its early exit finds whether an input is spent already or spends an invalid transaction |
| WalletState.Wallet.MarkSpent | LWWallet.c:165-168 | Exactly the inputs join the spent outputs |
| WalletState.Wallet.IsPostponed | LWWallet.c:170-185 | The three loops decide whether the transaction must wait: too large, dust, replaceable, locked, or spending a pending one |
| WalletState.Wallet.AddOutputs | LWWallet.c:198-207 | The owned outputs are appended in order, the balance follows, used addresses are noted |
| WalletState.Wallet.Purge | LWWallet.c:210-215 | Removing while scanning backwards leaves exactly the unspent outputs, and the balance follows |
| WalletState.Wallet.SettleTx | LWWallet.c:194-220 | Outputs, purge and totals together are the settling step of the ledger, whose totals `Ledger.TotalsAreRisesAndFalls` determines |
| WalletState.Wallet.Record | LWWallet.c:148-221 | One round of the loop is one step of the ledger |
| WalletState.Wallet.UpdateBalance | LWWallet.c:131-225 | The fields become exactly the ledger of the listed transactions, whatever they held before: balance the listed sum, total received the rises of the balance history and total sent its falls |
| WalletState.Wallet.constructor | LWWallet.c:228-264 | From nothing, a wallet holding exactly the signed saved transactions, the first of each hash, sorted, with the books of what it holds; the wallet invariant holds if and only if each of them concerns the wallet |
| WalletState.NewWallet | LWWallet.c:228-271 | No wallet is returned exactly if the first saved transaction does not concern it |
| WalletState.Wallet.Load | LWWallet.c:251-260 | A saved transaction is stored and listed in order, unless it is not signed or its hash is stored already |
| WalletState.Wallet.LoadAll | LWWallet.c:251-260 | The loop over the saved transactions stores exactly the signed ones, the first of each hash |
| WalletState.Wallet.Open | LWWallet.c:262-264 | With the addresses known, the books are computed, and the wallet invariant holds if everything stored concerns the wallet |
| WalletSteps.LoadedIsFirst | LWWallet.c:253-254 | Under each hash the first signed saved transaction with it is stored, and nothing else |
| WalletOrder.CompareFollowsHeight | LWWallet.c:52-84 | A lower block height always compares below a higher one, whatever the ancestor and address tie-breaks return |
| WalletOrder.AscendingIffBuildsOn | LWWallet.c:32-49 | For stored transactions of equal height, none of which is below one it spends, the recursion says that one ascends from another exactly if it spends it directly or through others |
| WalletOrder.BuildsOnLower | LWWallet.c:32-49 | And then it is no lower, and later in every order that puts spenders after what they spend |
| WalletOrder.SpentComparesBelow | LWWallet.c:52-84 | A transaction compares below any that spends it and is no lower |
| WalletOrder.InsertedAfterSpent | LWWallet.c:87-99 | So what a transaction spends and is listed no higher comes before it once it is inserted |
| WalletOrder.InsertSorted | LWWallet.c:87-99 | Inserting between a neighbour no higher and one no lower keeps the list sorted by height |
| WalletOrder.RemoveSorted | LWWallet.c:935-936 | Removing keeps it sorted |
| WalletState.Wallet.InsertTx | LWWallet.c:87-99 | The insertion loop puts the transaction where the scan from the end stops, what follows comparing above it and the entry before not, and keeps the list sorted by height |
| WalletSteps.ContainsGrows | LWWallet.c:102-118 | A transaction relevant to the wallet stays relevant when another is stored |
| WalletSteps.AddedToStore | LWWallet.c:703-716 | Storing a transaction keeps the list in order and its members relevant |
| WalletState.Wallet.RegisterTransaction | LWWallet.c:693-734 | A relevant new transaction is stored, inserted in order and the books recomputed; an unconfirmed irrelevant one is only stored; a known one changes nothing; the result says which |
| WalletSteps.SameContains | LWWallet.c:102-118 | Relevance does not depend on heights and timestamps |
| WalletSteps.HeightenOneMore | LWWallet.c:926-947 | One round of the update loop, including a hash named twice |
| WalletSteps.HeightenedPayments | LWWallet.c:926-947 | The update changes no input, no output and no stored relevant transaction |
| WalletState.Wallet.PlaceOf | LWWallet.c:933-934 | The backward scan finds the transaction if it is listed |
| WalletState.Wallet.Relocate | LWWallet.c:929-946 | Rewriting a height and re-inserting keeps the list sorted and complete; a confirmed irrelevant transaction is dropped instead |
| WalletState.Wallet.UpdateTransactions | LWWallet.c:913-955 | Every named stored transaction gets the height and time (or is dropped if irrelevant and confirmed), the list stays sorted with the same members, and the books are recomputed exactly if a changed one was pending or invalid |
| WalletSteps.TailIsAbove | LWWallet.c:965-966 | In a sorted list the scanned tail is exactly what lies above the height |
| WalletSteps.UnconfirmedStep | LWWallet.c:971-974 | Unconfirming the tail keeps list and books consistent |
| WalletSteps.UnconfirmedList | LWWallet.c:971-974 | The list stays sorted when everything above a height becomes unconfirmed |
| WalletState.Wallet.FirstAbove | LWWallet.c:965-967 | The scan from the end stops at the first transaction above the height |
| WalletState.Wallet.MarkUnconfirmed | LWWallet.c:971-974 | Exactly the tail becomes unconfirmed |
| WalletState.Wallet.SetTxUnconfirmedAfter | LWWallet.c:958-982 | Exactly the transactions above the height become unconfirmed, the rest stay, and the books are recomputed exactly if there were any |
| WalletOrder.FoundRank | LWWallet.c:751-771 | What the scans find from a transaction is later in every order that puts spenders after what they spend |
| WalletOrder.FoundThroughSpender | LWWallet.c:751-771 | What is found from x is found from a spender the scan for x finds |
| WalletOrder.FoundTransitive | LWWallet.c:751-771 | What is found from something found from x is found from x |
| WalletOrder.FoundAfterRemoval | LWWallet.c:766-770 | Removing a set that contains what is found from its members changes nothing about what is found among the rest |
| WalletOrder.FoundFromClosed | LWWallet.c:766-770 | What is found from a transaction is such a set |
| WalletOrder.FoundAllIff | LWWallet.c:751-771 | What the scans find is everything that depends on the transaction if and only if each listed transaction that spends something found, and is lower than it, is found otherwise |
| WalletSteps.SpenderOverlooked | LWWallet.c:753 | If all listed spenders of a transaction are lower than it, removing it leaves them behind |
| WalletSteps.RemainsContained | LWWallet.c:737-804 | If no listed spender of what was removed is left, what remains concerns the wallet |
| WalletSteps.SpendersAreInTail | LWWallet.c:751-761 | What the scan has found when it exits early is exactly the listed spenders that are no lower than what they spend |
| WalletSteps.OneMoreSpender | LWWallet.c:756-760 | One round of the scan |
| WalletSteps.NothingFound | LWWallet.c:763-772 | If the scan finds no spender only the transaction itself goes |
| WalletSteps.FoundOfSpenders | LWWallet.c:766-768 | What is found from a spender is among what is found from the spent transaction, without it |
| WalletSteps.RemoveNext | LWWallet.c:766-768 | Removing one spender after another removes the union of what is found from them |
| WalletSteps.RemoveSpender | LWWallet.c:766-770 | One round of the recursion over the spenders, with the measure that makes it end |
| WalletState.Wallet.DirectSpenders | LWWallet.c:751-761 | The scan, with its early exit, collects exactly the listed direct spenders that are no lower |
| WalletState.Wallet.RemoveSpenders | LWWallet.c:766-768 | Removing the direct spenders from the last to the first, where one may already be gone with another, removes a part of what is found from it, with everything found from its members |
| WalletState.Wallet.Forget | LWWallet.c:773-781 | A transaction leaves store and list, and the books are recomputed |
| WalletState.Wallet.RemoveTransaction | LWWallet.c:737-804 | For every list: removal ends, and deletes exactly the transaction and what the scans find from it, transitively, from store and list; the books are those of what remains |
| WalletOrder.BooksBalance | LWWallet.c:131-225 | On an ordered list the recomputed books satisfy the wallet invariant: balance equal to the listed sum, history as long as the list |
| Chain.ReachesBetween | LWPeerManager.c:1303-1309 | Of two ancestors of a block the lower is an ancestor of the higher |
| Chain.ReachesStill | LWPeerManager.c:1300 | Storing one more block keeps every chain |
| Chain.StepDown | LWPeerManager.c:1306-1309 | Stepping the higher of two different blocks to its predecessor loses no common ancestor |
| Chain.MetAtJoin | LWPeerManager.c:1306-1309 | Where the two pointers meet is the highest common ancestor |
| Chain.FindJoin | LWPeerManager.c:1303-1309 | The two-pointer walk ends, at the highest common ancestor; if it runs off the stored chain there is no common ancestor at all |
| Chain.JoinIsHighest | LWPeerManager.c:1303-1309 | The join found through stored blocks is the highest common ancestor in the chains the hashes commit to, stored or not |
| Chain.ReachesAbove | LWPeerManager.c:1303-1309 | An ancestor no lower than one reached through stored blocks is itself stored and reached |
| Chain.AncestorLower | LWPeerManager.c:228-235 | The n-th predecessor is n blocks lower |
| Chain.StepBack | LWPeerManager.c:232-234 | The inner loop finds the predecessor that many steps back, or runs off the chain |
| Chain.OffsetStep | LWPeerManager.c:229-230 | The offsets grow by one ten times and then by doubling steps |
| Chain.OneMoreLocated | LWPeerManager.c:227-236 | One round of the locator loop, whether or not there is room in the buffer |
| Chain.BlockLocators | LWPeerManager.c:221-239 | The locators are the blocks at offsets 0 to 9, 11, 15, 23 and so on below the last block, all on its chain, then genesis; the count is right with and without a buffer |
| PeerChain.PeerManager.RelayedBlock | LWPeerManager.c:1151-1374 | The new state is that of the relay and of every orphan it connects, one after the other. Over any genuine block: if it is heeded, verified and follows the last block, the new last block descends from it; the last block is otherwise unchanged, or strictly higher and a descendant of the block; every orphan still waits, is stored, gave way to another one, or was relayed and refused by a named condition, and none waits for the last block; every wallet height stays justified by the chain the last block commits to; the only blocks lost lie an interval or more below it and not at a transition; the recursion ends, or leaves one of the two states the source does not handle |
| PeerChain.PeerManager.RelayOne | LWPeerManager.c:1151-1374 | One block: new state, wallet heights and the orphan it connects, as specified |
| PeerChain.PeerManager.Accept | LWPeerManager.c:1162-1341 | Which branch a block takes, and what each branch stores, sets aside, makes the last block and writes to the wallet; pruning included |
| PeerChain.PeerManager.Check | LWPeerManager.c:1235-1341 | Verification with its pruning, and then the branch; a block that follows the last one is never refused for missing history |
| PeerChain.PeerManager.Connect | LWPeerManager.c:1243-1341 | The branches for a verified block whose parent is stored |
| PeerChain.PeerManager.Extend | LWPeerManager.c:1243-1264 | The block becomes the last block, one higher, its wallet transactions get its height, and they leave the publish list |
| PeerChain.PeerManager.OnMainChain | LWPeerManager.c:1270-1273 | The walk down from the last block decides whether a stored block is on the current chain, and runs off if and only if no block of the stored chain is as low as the block |
| PeerChain.PeerManager.Repeat | LWPeerManager.c:1265-1285 | A known block writes heights exactly if it is on the current chain; the step is undefined if and only if the walk runs off |
| PeerChain.PeerManager.Fork | LWPeerManager.c:1298-1341 | A fork is stored, and taken over if it is higher; the step is undefined if and only if it is higher and shares no stored block with the current chain |
| PeerChain.PeerManager.UnconfirmAbove | LWPeerManager.c:1313 | Exactly the wallet heights above the join are withdrawn |
| PeerChain.PeerManager.Reorganize | LWPeerManager.c:1302-1334 | After a re-org every wallet transaction has the height of the new-branch block that lists it, or keeps its height at or below the join, or is unconfirmed, and all heights are justified by the new chain; there is no join if and only if the chains share no stored block |
| PeerChain.PeerManager.TakeOrphan | LWPeerManager.c:1345-1351 | The estimated height rises, and the orphan waiting for the block is taken out |
| PeerChain.PeerManager.VerifyBlock | LWPeerManager.c:1098-1149 | The verdict: right parent and height, an interval of known blocks at a difficulty transition, the difficulty test, the checkpoint; and, whatever the verdict, exactly which blocks are pruned |
| PeerChain.PeerManager.Prune | LWPeerManager.c:1117-1126 | The loop ends, and removes everything below the block one interval back on its stored chain but the transitions |
| PeerChain.PeerManager.UpdateTx | LWPeerManager.c:429-452 | Heights and times are written for the listed wallet transactions; once confirmed they leave the publish list |
| PeerChain.PeerManager.Unpublish | LWPeerManager.c:434-441 | The backward loop removes every copy from the publish list and nothing else |
| PeerChain.PeerManager.WritePlaces | LWPeerManager.c:451 | Exactly the named wallet transactions get the height and time |
| PeerChain.PeerManager.RelayedTx | LWPeerManager.c:954-957 | A relayed transaction is registered unless syncing hides it, comes into the list unconfirmed, and every height stays justified |
| PeerChain.PeerManager.RegisterTx | LWPeerManager.c:955 | The listed heights gain at most the transaction, unconfirmed |
| PeerChain.PeerManager.SetFilter | LWPeerManager.c:316-384 | The filter flag is set and nothing else changes |
| PeerChain.PeerManager.constructor | LWPeerManager.c:1507-1569 | A new manager is valid, its last block is the one the saved blocks lead to, and heights from before the floor are justified: the invariants hold initially |
| Relaying.VerdictIs | LWPeerManager.c:1199-1341 | Each of the ten outcomes by its exact condition, in numbers: ignored, set aside, invalid, extending, repeated, postponed, older than the last checkpoint, side chain, re-org, or undefined |
| Relaying.RelayDescends | LWPeerManager.c:1243-1374 | The last block stays or descends from the relayed one, and it descends from every block of the relay that extended the chain or took it over |
| Relaying.OrphanFate | LWPeerManager.c:1343-1374 | Over a whole relay every orphan still waits, was connected and stored, unless pruned since, or was connected and refused (ignored, invalid, or not above the last checkpoint), or gave way to a block set aside for the same predecessor; one whose parent has been stored by the relay no longer waits |
| Relaying.StoredOrRefused | LWPeerManager.c:1199-1341 | A block that was relayed is stored, is set aside, or was refused: ignored, not verified, or a fork at or below the last checkpoint |
| Relaying.WaiterIsNext | LWPeerManager.c:1343-1374 | In a relay, each block whose successor waits is followed by that one, and the relay goes on until none waits |
| Relaying.NoneWaitsForLast | LWPeerManager.c:1343-1374 | If no orphan waited for the last block before, none does afterwards |
| Relaying.RelayDoes | LWPeerManager.c:1151-1374 | All that together, for the relay of any genuine block |
| Relaying.EstimateIs | LWPeerManager.c:1345-1346 | Over a relay the estimated height becomes the greatest of the one before and the heights of the blocks stored or set aside |
| Relaying.PublishedAre | LWPeerManager.c:429-452 | Over a relay exactly the transactions of blocks that extend the chain, or are on it already, leave the publish list |
| Relaying.RelayKeeps | LWPeerManager.c:1151-1374 | The relay keeps the stored blocks known by their true heights, the last block linked to a transition, and every orphan waiting for its predecessor |
| Relaying.AfterOneKeeps | LWPeerManager.c:1151-1341 | The same for one block |
| Relaying.JoinOfIs | LWPeerManager.c:1302-1311 | Two blocks that share a stored ancestor have just one highest one |
| Relaying.OldBlocksFreed | LWPeerManager.c:1108-1126 | When a transition block extends the chain, what is left of the chain more than an interval below it are transitions |
| Relaying.FewerOrphans | LWPeerManager.c:1348-1350 | Each orphan taken out has strictly fewer waiting above it, which is why the recursion ends |
| Relaying.CheckedKeeps | LWPeerManager.c:1104-1126 | Pruning leaves the last block, its chain back to a transition, the parent and the block itself as they were |
| CatchUp.AnyOrder | LWPeerManager.c:1151-1374 | Verified recent blocks that form a line from the last block, relayed in any order at all, end with the top of the line as last block, with no more orphans than before, and with every block's height written to the wallet as if they had come in their own order |
| CatchUp.TheRest | LWPeerManager.c:1151-1374 | From any point midway: some of the line on the chain, some waiting |
| CatchUp.Due | LWPeerManager.c:1343-1374 | The block that is due is stored together with all that wait behind it |
| CatchUp.Early | LWPeerManager.c:1210-1233 | A block that comes too early waits, and writes nothing |
| PeerChain.PeerManager.RemoveTx | LWWallet.c:737-804 | Exactly what the scans find leaves the listed heights, the rest keep theirs and stay justified; the wallet invariant is kept if no listed spender of what went is left, and otherwise the result says that a listed transaction no longer concerns the wallet |
| Pruning.PassedAll | LWPeerManager.c:1108-1126 | The walk that starts below the block one interval back frees exactly the blocks of that chain more than an interval below the verified block, except the transitions |
| Pruning.PassedNext | LWPeerManager.c:1118-1124 | One round of that walk |
| Pruning.PrunedKeeps | LWPeerManager.c:1117-1126 | Pruning keeps the last block and its chain back to a transition; what it removes lies an interval or more below the last block and not at a transition |
| Pruning.NextIsAnchored | LWPeerManager.c:1108-1115 | After any pruning, a block at a transition that follows the last block still finds the block one interval back |
| Pruning.RootedAcross | LWPeerManager.c:1302-1334 | Switching to a joined higher chain keeps the new last block linked to a transition |
| Reorg.PlacedOneLower | LWPeerManager.c:1317-1331 | Walking down, a lower block that lists a transaction overrides a higher one |
| Reorg.PlacedIsIncluded | LWPeerManager.c:1317-1331 | A height written by the walk is that of a new-branch block listing the transaction; nothing is written exactly if none lists it |
| Reorg.PlacedNext | LWPeerManager.c:1317-1332 | One round of the walk |
| Reorg.PlacedDone | LWPeerManager.c:1313-1332 | The whole re-org rewrites the heights as specified, and they are justified |
| Reorg.RewrittenToItsBlock | LWPeerManager.c:1313-1332 | A transaction listed by just one new-branch block ends up with that height |
| Reorg.RewrittenIsJustified | LWPeerManager.c:1313-1332 | Every rewritten height is justified by the new chain: no other transaction stays confirmed above the join |
| Reorg.JustifiedAfterBlock | LWPeerManager.c:1248-1250 | Extending the chain and writing the heights of its new block keeps every height justified |
| PeerStart.SavedChainIsRestored | LWPeerManager.c:1545-1560 | If the saved blocks are one chain with a difficulty transition in it, all of them from the highest transition up are on the chain of the new last block, which is their top |
| PeerStart.StoreCheckpoints | LWPeerManager.c:1532-1541 | Every checkpoint is stored, and the last one a week older than the wallet, or the first, becomes the last block |
| PeerStart.SetAside | LWPeerManager.c:1545-1551 | Every saved block waits, or one with the same predecessor does, and the highest difficulty transition is found |
| PeerStart.Relink | LWPeerManager.c:1553-1560 | The loop ends; the chain from the transition up is stored, only its last block can have had a waiting successor and has none, and every block taken out is on it |
| PeerStart.StoreBlocks | LWPeerManager.c:1532-1560 | Both together, for any checkpoints and saved blocks with true heights |
| PeerStart.LinkNext | LWPeerManager.c:1554-1559 | One round of that loop |
| PeerStart.ReachesBelow | LWPeerManager.c:1554 | Storing a block changes no chain that starts below it |
| PeerSave.RestartAtSameBlock | LWPeerManager.c:1353-1560 | Saving the chain of a block and starting from what was saved leads back to that block |
| PeerSave.BlocksToSave | LWPeerManager.c:1353-1366 | What is saved is a stored chain from the block down that ends at a transition, as the source asserts, and is not empty when enough blocks are asked for |
| PeerSave.Collect | LWPeerManager.c:1355-1360 | The loop collects the stored chain from the block down, as far as it goes or is asked for |
| PeerSave.SaveLength | LWPeerManager.c:1362-1364 | The arithmetic keeps exactly the longest part that ends at a transition |
| Session.StartAndRun | LWPeerManager.c:951-1374 | From a new wallet and a new manager, with nothing assumed of any object: after any sequence of relayed blocks and transactions, removed transactions and filter changes every listed height is justified by the chain the last block commits to, the balance is the sum of the listed outputs, the totals are the rises and falls of the balance history, every checkpoint is stored, and no saved transaction is lost that was not removed |
| Session.Run | LWPeerManager.c:951-1374 | Over any such sequence: blocks, last block and orphans are those of the events handled, one after the other; the state stays consistent, listed transactions are lost only by removal, blocks only when old and not at a transition, and the last block is only ever exchanged for a higher one; the run stops only in a state the source does not handle |
| Session.PlayedOneMore | LWPeerManager.c:951-1374 | The state after a run is that of its events one after the other |
| Session.RunInAnyOrder | LWPeerManager.c:1151-1374 | A run that relays the blocks of a line in any order ends at the top of the line |
| Session.SecondComesFirst | LWPeerManager.c:1210-1374 | Relaying the second block and then the first ends at the second |
| Session.RelayLine | LWPeerManager.c:1151-1374 | The same of manager and wallet: the last block is the top of the line, the orphans are those of before, and the wallet has every block's heights |
| Session.Handle | LWPeerManager.c:951-1374 | One event: the new blocks, last block and orphans are those of the relay, and for a block so are the heights in the wallet |
| Session.SaveAndRestart | LWPeerManager.c:1353-1560 | What a manager saves of its chain leads a new manager to the same last block |
| Session.ForkBesideCheckpoint | LWPeerManager.c:1298-1313 | From a start with a second checkpoint above the last block, one relayed block is a higher fork that meets no stored part of the current chain: the source then reads the height of a null block |
| Session.StoreBelowSaved | LWPeerManager.c:1298-1300 | From a start with one saved block, an old block after the checkpoint is stored as a side chain |
| Session.RepeatBelowSaved | LWPeerManager.c:1269-1273 | Relayed again, that block lies below the end of the stored chain: the source then compares with a null block |
| Spending.CreateTxForOutputs | LWWallet.c:546-636 | A built transaction spends the shortest prefix of the spendable outputs that covers outputs and fee exactly or with a margin for change, or all of them, and pays outputs and fee, either with the remainder left to the miner or with one change output; failure means that no number of coins would do; and a transaction that becomes too large first is rebuilt for less exactly if the wallet could pay for all its outputs |
| Rebuilding.AnswerIsDetermined | LWWallet.c:546-636 | But for the order of the outputs, that contract admits one answer only |
| Spending.BuildSmaller | LWWallet.c:578-602 | What is built instead: the last output reduced by what the coins that fit fall short, or left out |
| Rebuilding.Create | LWWallet.c:546-602 | The builder with its recursion, as often as given: the answer is that for the last request, and the request one that the rebuilds lead to |
| Rebuilding.RebuildIs | LWWallet.c:590-599 | A changed last output keeps a worthwhile amount, and the request is what the coins that fit pay for after the fee |
| Rebuilding.RebuiltPays | LWWallet.c:590-599 | However often rebuilt, every output but the last that is kept is paid in full |
| Rebuilding.RebuildingEndsIff | LWWallet.c:578-602 | When the wallet could pay by far, but not in one transaction, and the last coin that fits is worth more than the fee, the recursion ends if and only if what the wallet holds beyond the coins that fit is a multiple of 100 |
| Rebuilding.EndsAfterOne | LWWallet.c:578-602 | It then ends after one rebuild, with a transaction that spends just the coins that fit |
| Rebuilding.NeverFinal | LWWallet.c:590-615 | Otherwise every request is followed by another one, because each only changes how the fee is rounded |
| Rebuilding.LaterLimit | LWWallet.c:612-618 | The coins that fit are enough for a later request exactly if the rounding of its fee comes out as it did before |
| Rebuilding.AlwaysSmaller | LWWallet.c:578-602 | So after any number of rebuilds the answer is yet another request |
| Rebuilding.RebuildsOn | LWWallet.c:578-602 | For a wallet of 677 coins of 200001 and a request for the worth of 675 of them less 50 that happens, however often it is rebuilt |
| Spending.FeeIsLeast | LWWallet.c:32-38 | The fee is the least multiple of 100 not below 1000 for every started 1000 bytes nor below the rate times the size |
| Spending.FeeSuffices | LWWallet.c:565-631 | Without change the fee is at least that of the final size; with change it is if and only if the bytes by which one more output lengthens the output count do not raise the fee; it is never more than the fee asked for plus the least output amount |
| Spending.SufficesForMostCounts | LWWallet.c:565-631 | So the fee suffices for every built transaction unless the requested outputs number 252, 65535 or 2^32 - 1 |
| Spending.FeeFallsShort | LWWallet.c:572-631 | For any 252 outputs there is a wallet with rate 100000 for which nothing prevents a transaction, and every one that can be built has change and a fee below that of its final size |
| Spending.BuildShortOfFee | LWWallet.c:546-636 | Called for that wallet, the builder returns a transaction whose fee is below that of its final size, as far as the outputs fit the largest transaction |
| Spending.NothingPrevents | LWWallet.c:556-622 | For that wallet the funds suffice, the amounts are moderate and the size is within the limit |
| Spending.KeptIsRound | LWWallet.c:614-615 | With change, what the wallet keeps is a multiple of 100 |
| Spending.RoundedWithin | LWWallet.c:614-615 | Rounding the fee up never asks for more than the balance and adds less than 100 |
| Spending.FeeGrows | LWWallet.c:32-38 | A larger size never has a smaller fee |
| Spending.NothingWraps | LWWallet.c:32-38 | For rates below 2^32 and sizes below 2^31 no product or sum reaches 2^64 |
| Spending.SpendableDistinct | LWWallet.c:571-576 | The inputs spend distinct listed outputs, each with its stored amount |
| Spending.SpendableSum | LWWallet.c:1131-1136 | Together they are worth the sum of the list |
| Spending.SpendablePrefix | LWWallet.c:571-618 | What a shorter scan collected is a prefix, and worth no more |
| Spending.FeeWith | LWWallet.c:612-615 | The fee asked for after each input, within 64 bits |
| Spending.AddChange | LWWallet.c:626-633 | A remainder above the least output amount becomes a change output, a smaller one goes to the miner |
| Spending.MaxOutputAmount | LWWallet.c:1121-1149 | All spendable funds less the fee of a transaction with two outputs, or 0 |
| Spending.LeastAmountIs | LWWallet.c:1109-1118 | The least output amount is 546, or as much more as the rate is above 5236 per 1000 bytes |
| Spending.AffordableUpToMax | LWWallet.c:1121-1149 | Every amount up to a positive maximum is affordable with all inputs, for a script of at most 25 bytes |
| Spending.FeeForTxAmount | LWWallet.c:1085-1106 | With a positive maximum and room for all inputs, the fee reported is that of a transaction that can be built |
| Spending.Shuffle | LWTransaction.c:455-469 | Whatever the random draws, the outputs are permuted |
| Spending.SumOfMultiset | LWTransaction.c:455-494 | Sum and size of the outputs do not depend on their order |
| Spending.Uncounted | LWTransaction.c:472-494 | One more output takes more count bytes exactly at 252, 65535 and 2^32-1 outputs |
| Spending.SizeIsReported | LWTransaction.c:472-494 | For unsigned inputs the size counted while selecting coins is the one reported for the transaction |
| Radix.MulAdd | LWBase58.c:30-34 | The carry loop multiplies the number in a digit buffer by a factor and adds, exactly, when the result fits the buffer |
| Radix.ValueOfDigits | LWBase58.c:28-40 | The digits of a number are proper, have its value, and do not start with zero |
| Radix.DigitsOfValue | LWBase58.c:28-40 | They are the only such digits |
| Radix.StrippedAreDigits | LWBase58.c:40-45 | A buffer stripped of leading zeros holds exactly the digits of its value |
| RadixRoom.EncodeRoom | LWBase58.c:23 | 256^n <= 58^(138n/100 + 1) for every n: the encode buffer drops no carry |
| RadixRoom.DecodeRoom | LWBase58.c:61 | 58^n <= 256^(733n/1000 + 1) for every n: the decode buffer drops no carry |
| Base58.DecodeUndoesEncode | LWBase58.c:15-121 | Decode undoes encode for every byte string |
| Base58.EncodeUndoesDecode | LWBase58.c:15-121 | Encode undoes decode for every string of base-58 digits |
| Base58.CharOfDigit | LWBase58.c:17-99 | The switch gives each alphabet character its own position back |
| Base58.DigitOfChar | LWBase58.c:17-99 | A character the switch accepts is the alphabet character at that position |
| Base58.AlphabetIs | LWBase58.c:17-99 | The digits are the figures and letters in their usual order without 0, O, I and l, from 1 to z |
| Base58.CountZeros | LWBase58.c:21 | Counts the leading zero bytes |
| Base58.FillDigits | LWBase58.c:27-37 | The nested loop fills the buffer with base-58 digits of the same value |
| Base58.Encode | LWBase58.c:15-51 | Writes the encoding if it fits, returns its length with the terminator, or 0 |
| Base58.CountOnes | LWBase58.c:59 | Counts the leading ones |
| Base58.FillBytes | LWBase58.c:65-109 | The nested loop fills the buffer with bytes of the same value, up to the first invalid character |
| Base58.Decode | LWBase58.c:54-121 | Writes the decoding of the longest valid prefix if it fits, returns its length, or 0 |
| Base58.CheckEncode | LWBase58.c:124-141 | Appends four hash bytes and encodes |
| Base58.CheckDecode | LWBase58.c:144-164 | Strips and verifies the four hash bytes; the temporary buffer always suffices |
| Base58.CheckDecodeUndoesCheckEncode | LWBase58.c:124-164 | Checked decode undoes checked encode |
| Base58.CheckEncodeUndoesCheckDecode | LWBase58.c:124-164 | A valid string decodes to non-empty data if and only if it is the checked encoding of that data |
| Base58.DecodedIsShorter | LWBase58.c:146-151 | The decoding is no longer than the string |
| Bech32.DecodeUndoesEncode | LWBech32.c:16-123 | Decode undoes encode for every lower-case prefix and every program of 2 to 40 bytes whose encoding fits 90 characters |
| Bech32.EncodeUndoesDecode | LWBech32.c:16-123 | An accepted string re-encodes to its lower-case form if and only if its padding is short and zero, which the decoder does not test |
| Bech32.AnyGroupsAccepted | LWBech32.c:45-74 | Any symbols after the version, sealed with their checksum, are accepted, whatever the bits beyond the last whole byte are |
| Bech32.DirtyPaddingAccepted | LWBech32.c:45-74 | Hence a string with four symbols and nonzero padding is accepted, and re-encodes to a different one |
| Bech32.ScriptComesBack | LWBech32.c:21-123 | From a script to its address and back gives the script |
| Bech32.AcceptedButTooLong | LWBech32.c:92-123 | The length test counts bytes and not symbols: a prefix of 41 characters with a program of 40 bytes passes it, and its text has 113 characters |
| Bech32.FitsIfSymbolsCounted | LWBech32.c:92-123 | Of what passes the test, the text fits 90 characters if and only if prefix and symbols together are at most 82 |
| Bech32Sum.PolymodLinear | LWBech32.c:16-18 | The checksum step is linear over xor |
| Bech32Sum.FeedIsAffine | LWBech32.c:58 | Feeding up to six symbols is a fixed shift of the state xor the packed symbols |
| Bech32Sum.ChecksumIsUnique | LWBech32.c:117-119 | Exactly one choice of six symbols forces the state to 1, the one the encoder appends |
| Bech32Sum.SealDecides | LWBech32.c:67 | The decoder accepts a checksum if and only if it is the one the encoder would write |
| Regroup.EightsUndoFives | LWBech32.c:45-115 | Regrouping bytes to 5 bits and back is the identity |
| Regroup.FivesUndoEights | LWBech32.c:45-115 | Regrouping 5-bit symbols to bytes and back is the identity if and only if fewer than five bits are left over and all are zero |
| Regroup.FirstIs | LWBech32.c:109-111 | The first symbol taken at a byte joins the bits left from the byte before with the top bits of this one |
| Regroup.SecondIs | LWBech32.c:113 | The second symbol is the next five bits |
| Regroup.ReadByte | LWBech32.c:108-115 | One byte of the encode loop keeps the accounting of bits written |
| Regroup.ReadEnd | LWBech32.c:108-115 | The extra round at the end pads with zeros |
| Regroup.TopIs | LWBech32.c:61-62 | The byte gets the upper bits of the symbol |
| Regroup.TakeGroup | LWBech32.c:61-63 | One symbol of the decode loop keeps the accounting of bits read, including a symbol that spans two bytes |
| Bech32.SymbolOfChar | LWBech32.c:46-56 | The switch gives each alphabet character its position |
| Bech32.CharOfSymbol | LWBech32.c:46-56 | A character the switch accepts is the alphabet character at that position |
| Bech32Answer.AllSymbolsRead | LWBech32.c:46-56 | The 32 characters of the alphabet, in the order BIP 173 gives them, are read as the symbols 0 to 31 |
| Bech32Answer.AllSymbolsCheck | LWBech32.c:16-67 | An example of BIP 173 that uses every symbol once has a right checksum |
| Bech32.HrpState | LWBech32.c:92-99 | The two loops over the prefix compute the checksum state of its expansion |
| Bech32.EmitProgram | LWBech32.c:108-115 | The loop writes the regrouped program and feeds it to the checksum |
| Bech32.EmitChecksum | LWBech32.c:117-119 | The six characters written are the sealing checksum |
| Bech32.Encode | LWBech32.c:80-123 | Accepts exactly what the format allows, writes its text and returns the length with the terminator, or 0 |
| Bech32.FindSeparator | LWBech32.c:37-38 | Finds the last separator |
| Bech32.CheckChars | LWBech32.c:31-35 | Decides whether all characters are printable and whether cases mix |
| Bech32.TakeSymbol | LWBech32.c:61-63 | The bits of a symbol land in the right one or two bytes of the buffer |
| Bech32.ReadSymbols | LWBech32.c:45-64 | The loop stops at an invalid character; otherwise checksum, version and buffer come out right |
| Bech32.Decode | LWBech32.c:21-76 | Returns prefix and script of exactly the strings the format accepts, and 0 for all others |
| Der.ParseUndoesSerialize | secp256k1/src/ecdsa_impl.h:145-199 | Parse undoes serialise for all r and s below the order |
| Der.ParseIsCanonical | secp256k1/src/ecdsa_impl.h:145-199 | Bytes parse to r and s in range if and only if they are exactly what serialise prints for them |
| Der.MinBytesAre | secp256k1/src/ecdsa_impl.h:181-184 | The minimal bytes of a number are minimal, have its value, and number at most 33 below the order |
| Der.MinimalIsUnique | secp256k1/src/ecdsa_impl.h:114-121 | No other byte string without padding has that value |
| Der.ReadLength | secp256k1/src/ecdsa_impl.h:49-97 | Reads a definite, shortest-form length that fits the input, or fails, without overflow |
| Der.ParseInteger | secp256k1/src/ecdsa_impl.h:99-143 | Reads one integer; padding is refused; a negative, too long or too large one reads as zero |
| Der.IntegerIsCanonical | secp256k1/src/ecdsa_impl.h:99-143 | An integer read in range was written in its minimal form |
| Der.Parse | secp256k1/src/ecdsa_impl.h:145-175 | Accepts exactly one sequence of two integers with nothing left over |
| Der.Trimmed | secp256k1/src/ecdsa_impl.h:181-183 | The trimming loop leaves the minimal bytes |
| Der.Serialize | secp256k1/src/ecdsa_impl.h:177-199 | Writes the serialisation if it fits, and always reports the size |
| Der.Examples | secp256k1/src/ecdsa_impl.h:177-199 | Two signatures byte by byte: small scalars, and scalars whose top bit would look like a sign |
| Der.LaxAgrees | secp256k1/contrib/lax_der_parsing.c:12-149 | Whatever the strict parser accepts with both integers in range, the lax parser accepts with the same r and s |
| Der.ReadLaxInteger | secp256k1/contrib/lax_der_parsing.c:41-77 | Reads tag and length, with leading zeros in the length allowed and an oversized one refused |
| Der.SkipLeading | secp256k1/contrib/lax_der_parsing.c:117-121 | Skips exactly the leading zeros |
| Der.Align | secp256k1/contrib/lax_der_parsing.c:117-139 | The bytes are right-aligned in 32 bytes with the same value, or the value is beyond the order |
| Der.LaxParse | secp256k1/contrib/lax_der_parsing.c:12-149 | Computes the lax reading; an out-of-range signature reads as zero |
| Der.LaxReads | secp256k1/contrib/lax_der_parsing.c:12-149 | Two integers of any form below 128 bytes are read with their values, whatever the length of the sequence says and whatever follows |
| TxCodec.VarIntBack | LWAddress.c:19-84 | Reading a variable-length integer undoes writing it, at any position of a buffer |
| TxCodec.ReadVarInt | LWAddress.c:19-47 | Value and length as specified; past the end of the buffer the length still counts |
| TxCodec.PutVarInt | LWAddress.c:50-84 | Writes the integer if it fits and returns its length, or 0 and nothing written; without a buffer, the length |
| TxCodec.ParseUndoesSerialize | LWTransaction.c:235-409 | Parse undoes serialise for every transaction with an input whose scriptSigs are not recognised as scriptPubKeys, and unsigned inputs whose script is; signed inputs come back without the script and amount they spend, which are not written; trailing bytes are left alone |
| TxCodec.NothingHidden | LWTransaction.c:249-265 | Inputs whose script and amount are already absent when signed come back as they were |
| TxCodec.RightUnlessWrapped | LWTransaction.c:369-394 | The 64-bit test that a script ends inside the buffer is right if and only if the sum does not wrap around into the buffer |
| TxCodec.StraysIff | LWTransaction.c:369-379 | A script that is cut short passes its test, or makes the next one pass, if and only if the sum of its offset and length lies between 2^64 - 4 and 2^64 plus the buffer length |
| TxCodec.WrappedLength | LWTransaction.c:369-376 | That happens for a script length of 2^64 - 45 at offset 45 in any input: the sum is 0, which passes, though no buffer holds the script |
| TxCodec.Size | LWTransaction.c:472-494 | For a fully signed transaction the size is the number of bytes serialise writes |
| TxCodec.Serialize | LWTransaction.c:235-302 | Returns the specified count for every buffer, and with room enough writes exactly the serialised bytes at its start |
| TxCodec.ReturnedIsLength | LWTransaction.c:235-302 | The count returned is the serialised length if and only if there is no buffer or one that can hold it |
| TxCodec.ShortBufferUnnoticed | LWTransaction.c:235-302 | A buffer that is too small is not always reported by 0: with ten bytes, serialising any transaction with few inputs and outputs returns 10 |
| TxCodec.InputsEndIs | LWTransaction.c:249-265 | With room enough the offset moves by the bytes of all inputs |
| TxCodec.OutputsOffsetIs | LWTransaction.c:153-160 | With room enough the offset moves by the bytes of all outputs; it never moves back |
| TxCodec.ScriptTooLong | LWTransaction.c:100-110 | Where the length of a script does not fit, the input does not fit either, so an input is counted whole or not at all |
| TxCodec.AppendInput | LWTransaction.c:92-112 | Writes and counts one input, whole or not at all |
| TxCodec.AppendInputs | LWTransaction.c:249-265 | Counts the inputs that fit, and writes all of them if there is room |
| TxCodec.AppendOutput | LWTransaction.c:154-159 | Writes one output, its script length counted only if it fits |
| TxCodec.AppendOutputs | LWTransaction.c:148-163 | Writes and counts all outputs, or counts none |
| TxCodec.InputsLength | LWTransaction.c:480-487 | The bytes of the signed inputs are as many as their sizes say |
| TxCodec.InputBack | LWTransaction.c:364-382 | Reading an input undoes writing it, signed or not |
| TxCodec.InputsBack | LWTransaction.c:363-383 | Reading all inputs undoes writing them |
| TxCodec.OutputBack | LWTransaction.c:390-396 | Reading an output undoes writing it |
| TxCodec.OutputsBack | LWTransaction.c:389-397 | Reading all outputs undoes writing them |
| TxCodec.ParseInput | LWTransaction.c:364-382 | Reads one input, or moves past the end exactly if it is not all there; reports exactly the inputs whose script strays, for which the source copies what is not there |
| TxCodec.ParseScript | LWTransaction.c:369-379 | The script, recognised or not, and what follows it, with 64-bit positions |
| TxCodec.ParseInputs | LWTransaction.c:363-383 | Reads all inputs, stopping once past the end or where one strays |
| TxCodec.ParseOutput | LWTransaction.c:390-396 | Reads one output, or moves past the end exactly if it is not all there; reports exactly the outputs whose script strays |
| TxCodec.ParseOutputs | LWTransaction.c:389-397 | Reads all outputs, stopping once past the end or where one strays |
| TxCodec.Parse | LWTransaction.c:346-409 | Returns the transaction exactly if it is all there and has an input; the bytes hashed are those read, and only if every input is signed; reports exactly the buffers in which a script strays |
| TxCodec.WholeStraysNowhere | LWTransaction.c:346-409 | In a buffer that holds the whole transaction no script strays |
| TxCodec.Example | LWTransaction.c:92-302 | A transaction of one signed input and one output, byte by byte |
| Phrase.DecodeUndoesEncode | LWBIP39Mnemonic.c:13-92 | Decode undoes encode for every entropy of 4 to 32 bytes in steps of 4 and every list of 2048 distinct non-empty words without spaces |
| Phrase.AcceptedIsEncoded | LWBIP39Mnemonic.c:13-92 | A phrase decodes to non-empty data if and only if it is the encoding of that data, or that and one trailing space |
| Mnemonic.WordsOfData | LWBIP39Mnemonic.c:68-80 | The checksum test succeeds if and only if the word indices are those the encoder derives from the decoded data |
| Mnemonic.DataOfWords | LWBIP39Mnemonic.c:28-80 | The indices derived from data decode to that data and pass the checksum test |
| BitStrings.Window | LWBIP39Mnemonic.c:30 | Shifting and masking a word selects a window of its bits |
| BitStrings.KeepLow | LWBIP39Mnemonic.c:30 | Reducing modulo a power of two keeps the low bits |
| BitStrings.AllBitsInjective | LWBIP39Mnemonic.c:28-76 | A sequence of groups is determined by its bits |
| Mnemonic.IndexBits | LWBIP39Mnemonic.c:29-30 | Index i is bits 11i to 11i+10 of the data and its hash |
| Mnemonic.IndicesBits | LWBIP39Mnemonic.c:28-31 | All indices together are the leading bits of data and hash |
| Mnemonic.ByteBits | LWBIP39Mnemonic.c:72-74 | Byte i reassembled from two neighbouring words is bits 8i to 8i+7 of the index bits |
| Mnemonic.BytesBits | LWBIP39Mnemonic.c:71-76 | All bytes together are the leading index bits |
| Mnemonic.SameTop | LWBIP39Mnemonic.c:80 | Comparing shifted bytes compares the leading bits |
| Phrase.FindWord | LWBIP39Mnemonic.c:55-60 | A word followed by a space or the end is found at its own index and at no other |
| Phrase.JoinAppend | LWBIP39Mnemonic.c:31-34 | Appending a word appends a space and the word |
| Phrase.ScanJoin | LWBIP39Mnemonic.c:54-66 | Scanning a joined phrase gives the indices back |
| Phrase.JoinScan | LWBIP39Mnemonic.c:54-66 | A phrase scanned to its end is the join of its words, up to one trailing space |
| Phrase.Encode | LWBIP39Mnemonic.c:13-41 | Writes the phrase if it fits, returns its length with the terminator, or 0 |
| Phrase.FindIndex | LWBIP39Mnemonic.c:55-60 | The search returns the first matching word |
| Phrase.FindSpace | LWBIP39Mnemonic.c:64 | Finds the next space |
| Phrase.ReadWords | LWBIP39Mnemonic.c:54-66 | The loop scans at most 24 words and stops at an unknown one |
| Phrase.ReadBytes | LWBIP39Mnemonic.c:71-76 | The loop reassembles the bytes and leaves the checksum byte in the running variable |
| Phrase.Decode | LWBIP39Mnemonic.c:44-92 | Writes the data if the phrase is accepted and it fits, returns its length, or 0 |
| PeerMessages.HandedOverComplete | LWPeer.c:378-801 | Over every run: when a merkleblock is handed on, it was received earlier, only tx messages were received since, and every matched transaction not known then has arrived |
| PeerMessages.Collecting | LWPeer.c:378-801 | Over every run: while a merkleblock is being collected, what is awaited is what it matched, was not known and has not arrived since |
| PeerMessages.CollectingIsAwaiting | LWPeer.c:378-801 | Over every run: a merkleblock is being collected exactly while transactions are awaited, and only after a filter or getdata was sent |
| PeerMessages.CollectingStep | LWPeer.c:378-801 | One action keeps that account; a non-tx message ends the collection |
| PeerMessages.HandOverStep | LWPeer.c:410-415 | A merkleblock is handed on by its own message if nothing is missing, or by the tx message that brings the last missing one |
| PeerMessages.HandedOverAtOnce | LWPeer.c:683-713 | With data asked for and nothing collected, a merkleblock that matches only known transactions, or none, is handed over at once |
| PeerMessages.HandedOverByLast | LWPeer.c:404-414 | While a block is collected and one transaction awaited, that transaction's message hands it over |
| PeerMessages.GatheringStep | LWPeer.c:378-420 | While transactions arrive, the block is handed over by exactly the one that completes it |
| PeerMessages.GatheringSince | LWPeer.c:378-801 | Over every run: after a merkleblock is accepted and while only tx messages arrive, it is collected exactly until all its unknown matches have arrived |
| PeerMessages.HandedOverWhenComplete | LWPeer.c:378-801 | Over every run: a merkleblock accepted while nothing is collected is handed over by the very action with which the last of its unknown matches has arrived, and by no other |
| PeerMessages.WithoutLastIs | LWPeer.c:404-408 | The backward search removes one occurrence of the arrived hash |
| PeerMessages.Peer.AddKnownTxHashes | LWPeer.c:119-137 | New hashes are appended once, in order; list and set agree whether or not the array moved |
| PeerMessages.Peer.RebuildKnown | LWPeer.c:129-133 | After the array has moved, the set is rebuilt from the list |
| PeerMessages.Peer.SendInv | LWPeer.c:1407-1430 | Announces exactly the hashes not known before, and knows them afterwards |
| PeerMessages.Peer.AcceptTx | LWPeer.c:378-420 | The tx handler is the specified step: refused before a filter, otherwise it may complete the collected block |
| PeerMessages.Peer.AcceptMerkleblock | LWPeer.c:667-719 | The merkleblock handler is the specified step: hands on at once what misses nothing, starts collecting, or refuses |
| PeerMessages.Peer.AcceptMessage | LWPeer.c:790-801 | The dispatcher is the specified step: a non-tx message drops an incomplete block |
| PeerMessages.Peer.constructor | LWPeer.c:1027-1058 | A new peer collects nothing and knows nothing |

## Left out

- TxCodec.Serialize: for a buffer that is too small, the count returned is specified and the contents are not. Lengths do not wrap at 2^64.
- TxCodec.ParseInput: what the source does after the test for a stray script has passed is not modelled: it copies what is not in the buffer. Buffers of 2^64 - 64 bytes and more are excluded.
- TxCodec.Parse: the signature hash modes, the address fields and the witness data are not modelled, and whether a script is recognised as paying an address is a parameter.
- Bech32.Encode: requires that what passes the source's test fits 90 characters; `Bech32.FitsIfSymbolsCounted` says exactly when it does, `Bech32.AcceptedButTooLong` gives inputs where it does not. What happens past the end of the buffer is not modelled.
- Der.Parse: inputs of 2^31 bytes and more are not modelled, because the length reader returns an int.
- Phrase.Encode: entropy longer than 32 bytes is not modelled: the decoder has room for 24 words.
- Aead.Encrypt: input and output buffers do not overlap in the model; the same holds for the decryption.
- HashSet.LWSet.constructor: capacities above 2609407319, for which the source picks no table, are not modelled.
- HashSet.LWSet.Add: more items than the largest table can hold are not modelled. Union, Minus and Intersect assume that the other set is a different object. Iteration over a set is left out: it would only add easy members.
- BlockValidity.IsValid: target size bytes above 31 are not modelled, since the write would leave the 32-byte buffer.
- Merkle.Soundness: assumes an injective pair hash that is never zero and no supplied zero hash. Its condition on a single block, that the hash index is below SIZE_MAX after the root walk, is sufficient and not necessary: a block that hits the guard can also report true matches only. The condition on the number of transactions in `Merkle.SoundnessIff` is both, for lists without equal sibling nodes.
- Merkle.ComputeCeilLog2: a totalTx of 2^31 or more is a negative int there, for which the source's loop does not end (`Merkle.LoopEndsIfNotNegative`); such blocks are excluded here, in TreeReader and in BlockValidity.IsValid.
- PeerChain.PeerManager.VerifyBlock: the difficulty test is a parameter, given the block and the stored blocks (on the main network it always returns 1).
- PeerChain.PeerManager.Fork: where the source reads through a null pointer, the outcome is NoJoin and nothing is promised of the run after it. The same holds for Repeat and the outcome RanOff.
- PeerChain.PeerManager.Repeat: that a stored block object could also be waiting as an orphan, which the source tests by pointer, is not modelled: blocks are values.
- PeerChain.PeerManager.constructor: saved peers are left out, saved blocks are assumed to have their true heights, and checkpoints to lie at difficulty transitions, as `LWChainParams.h` demands. Wallet heights from before the start are not justified by blocks but by a floor given to the constructor.
- PeerChain.PeerManager.SetFilter: of the bloom filter only whether there is one is modelled; when it is replaced is up to the caller.
- PeerChain.PeerManager.RelayedTx: only the registration in the wallet is modelled, not the publish list, the relay counts or the download time-outs.
- PeerChain.PeerManager.UpdateTx: relay counts are left out, and so is when the manager saves blocks while it runs; what it saves is in PeerSave.
- Session.Run: a run stops after an event that leaves a state the source does not handle, or a listed transaction that no longer concerns the wallet, which a later update could free while it is listed. `LWPeerManagerRescan`, which lowers the last block, is not among the events.
- PeerChain.PeerManager.RelayedBlock: blocks are assumed genuine: a block's hash determines its predecessor and its height, and the transactions it lists are among those its hash commits to. For blocks whose hash index stays below SIZE_MAX that is `Merkle.Soundness`; `Merkle.GuardForgotten` breaks it. Heights stay below 2^31 - 1.
- False-positive rates, the request for missing blocks that follows an orphan, `LWPeerManagerRescan`, callbacks, locks, sockets, logging and, but for the pruning of blocks, memory management are left out.
- WalletState.Wallet.constructor: whether a transaction is signed is a parameter, and so are the addresses, instead of being derived from the master key.
- WalletState.Wallet.RegisterTransaction: that the transaction is signed is an assertion in the source and not checked in the model; generating new addresses is left out, so the wallet's addresses are fixed.
- WalletState.Wallet.RemoveTransaction: assumes that spending is acyclic, as hashes ensure; the advice to notify the user or rescan is left out.
- Spending.FeeForTxAmount: says nothing when no transaction can be built, or none before a rebuild.
- Spending.CreateTxForOutputs: amounts, fee rate, output sizes and the number of listed outputs are moderate enough that no 64-bit product wraps.
- Rebuilding.Create: the source's recursion has no bound; here the caller gives one, since the recursion need not end. A request for no outputs, which the source refuses by an assertion, is handed back.
- Rebuilding.RebuildingEndsIff: states the exact condition for wallets whose last coin that fits is worth more than the fee and whose last output can bear what is missing; with smaller coins, fewer of them can become enough on the way.
- Spending.FeeSuffices: weaker than "at least the fee of the final size", because that is false at 252 outputs with change; it states exactly when it holds.
- PeerMessages.Peer.AcceptMessage: of the messages that are neither tx nor merkleblock, only their effect on the collected block, the known hashes and the flags is modelled; blocks named by inv messages are left out.
- Script parsing and the conversion between scripts and addresses, which compose codecs modelled here, would add easy members.
- The rest of BIP 38, the payment protocol, bloom filters, BIP 32, and the arithmetic and signing of secp256k1 are left out.
