# Eacpay core, verified in Dafny

A model of the byte-level C core of the eacpay wallet (`Modules/eacpay-core`) and of the PIN lock-out in
`eacpay/WalletManager+Auth.swift`, with proofs of what that code is for. `dafny verify dfyconfig.toml` checks it.

| files | what they model |
|---|---|
| Merkle, MerkleProofs | the two walks over a BIP 37 partial Merkle tree; completeness, lock-step, soundness |
| AuxPow, BlockCodec | the aux-PoW skipper, serializing and parsing a Merkle block, a message of headers |
| MerkleBlock | from the bytes of a message to the walks |
| Poly1305, Poly1305Spec, Aead | Poly1305 in 26-bit limbs and as a polynomial, ChaCha20-Poly1305 |
| Scrypt | scryptBlockMix and scryptROMix in place |
| Hashing | block loop and padding of SHA-1 and SHA-2 |
| Xors, Aes, AesTables, AesExample, Bip38 | AES-256 in place, its tables, the example of FIPS 197, BIP 38 keys |
| Bech32Alphabet, Bech32Bits, Bech32Checksum, Bech32Generator, Bech32, Bech32Example | Bech32 addresses, error detection, the checksum over GF(32), a published address |
| Radix, Base58 | positional numerals, Base58 and Base58Check |
| BitStream, Bip39 | bit strings, BIP 39 mnemonics |
| Bip32 | private and public key derivation |
| VarInts, Script, Address | variable-length integers, scripts, addresses |
| PinLock | the PIN lock-out as a state machine over whole runs |
| Common, Words, ByteBits | bytes, words, powers, bitwise operations |

Loops, in-place updates and shared cursors are methods over arrays and class fields, each proved against a function; the
theorems are lemmas about those functions. What a function and a method write alike is also stated in other words: by bytes
and positions, against a definition made another way, or by a published value. Numbers are unbounded; the casts, masks and wrap-arounds of the source are
written out, and where a fixed width or buffer is too small for an input that the source accepts, a condition on the
input says exactly when. Two kinds of byte are used: numbers below 256 where the code does arithmetic, `bv8` where
it does bit operations; `ByteBits` converts.

Foreign or constant-table code is a parameter of the functions that use it: compression functions, stream cipher cores,
HMAC and scrypt, secp256k1, the pair hash of the Merkle tree. Where a proof needs a law of such a function, the lemma
requires it. In a few places a function that the proof must not look into is passed as a parameter together with a
predicate that says which function it is (`Bip38.IsAes`, `Address.IsBech32`, `AuxPow.Peeks`, `Scrypt.IsTurn`).

## What the code does differently from its documentation

- BRBech32Encode limits the length of an address by counting program bytes, not symbols
  (`Modules/eacpay-core/BRBech32.c:125`). It therefore accepts input whose address does not fit in its `addr[91]`: 42
  characters and 40 bytes make it write 115 (`Bech32.AcceptedTooLong`). All its writes are inside the buffer exactly
  when the address has at most 90 characters (`Bech32.Encode`); no address that the wallet itself makes is longer
  (`Address.WriteWitness`). It also accepts an empty human-readable part, which BRBech32Decode refuses
  (`Bech32.EncodeThenDecode`).
- The table of BRScrypt is allocated with a size computed in 32 bits (`Modules/eacpay-core/BRCrypto.c:959`), and its
  first loop stores two rows a turn. All rows stored lie inside exactly when 128*r*n is below 2^32 and n is even
  (`Scrypt.TableHolds`); for n = 2^22 and r = 8 the size wraps to 0, and for n = 1 the second row lies behind the
  table (`Scrypt.TableWraps`). All calls in the repository stay below (`Scrypt.CallersFit`).
- The Merkle walks are bounded by the counts of a block, not by its arrays, and BRMerkleBlockParse leaves an array out
  when it does not lie within the message, or makes it too short when the size of the hashes wraps
  (`Modules/eacpay-core/BRMerkleBlock.c:207-216`). The walks read inside the arrays of every block whose arrays are as
  long as its counts say (`Merkle.RunRootIs`, `Merkle.RunTxIs`), and parsing gives such a block exactly when the size
  of the hashes does not wrap and hashes and flags lie within the message (`MerkleBlock.ParsedBacked`).
  `MerkleBlock.FlagsMissingRead` and `MerkleBlock.CountWrapsRead` are messages of 118 and 127 bytes for which both
  walks read outside.
- _ceil_log2 takes an int, so totalTx from 2^31 on arrives negative and its shift loop never ends
  (`Modules/eacpay-core/BRMerkleBlock.c:40-46`); it ends exactly below 2^31 (`Merkle.LoopEndsIff`). The walks call it
  behind every set flag: with that many transactions they return exactly when they meet none, and never otherwise
  (`Merkle.RunRootIs`, `Merkle.RunTxIs`).
- BRBIP39Encode reads past its buffer for more than 968 bytes of entropy (`Modules/eacpay-core/BRBIP39Mnemonic.c:48`);
  see `Bip39.ReadsInside` and `Bip39.LastReadOutside`.
- BRMerkleBlockSerialize reports a length that includes aux-PoW data even when the version does not announce it and it
  is not written (`Modules/eacpay-core/BRMerkleBlock.c:238-239,256-260`); see `BlockCodec.ImageLength` and
  `BlockCodec.ReportsTooMuch`.
- The mnemonic of more than 32 bytes of entropy can be written but not read back
  (`Modules/eacpay-core/BRBIP39Mnemonic.c:73`); see `Bip39.DecodeEncode`.
- The length field of SHA-384 and SHA-512 has a zero upper half (`Modules/eacpay-core/BRCrypto.c:270,296`), which is
  right exactly below 2^61 bytes; see `Hashing.Field64Is` and `Hashing.LengthTooLong`.
- The 24+ hours before a wipe are counted from the whole second of the third failure, because the fail time is stored
  without its fraction (`eacpay/WalletManager+Auth.swift:205-207`). No continuation wipes earlier than 93300 seconds
  after the third failure exactly when that failure falls on a whole second or not after the stored fail time
  (`PinLock.ThirdFailure`); `PinLock.HalfASecondEarly` is a run that fails it.
- The time until which the wallet is disabled is an interval since 1970, not since the reference date as its comment
  says (`eacpay/WalletManager+Auth.swift:150-156`).
- The fail count and the list of failed PINs disagree after a restart and after a wipe
  (`eacpay/WalletManager+Auth.swift:39`); see `PinLock.StepInSync`.

## Model

| member | source | states |
|---|---|---|
| Merkle.CeilLog2 | Modules/eacpay-core/BRMerkleBlock.c:40-46 | below 2^31 the shift loop on the converted int returns the height of a Merkle tree over that many leaves |
| Merkle.LoopEndsIff | Modules/eacpay-core/BRMerkleBlock.c:40-46 | the loop `while ((x >>= 1) != 0)` on the signed value ends exactly for fewer than 2^31 transactions |
| Merkle.LoopNeverEnds | Modules/eacpay-core/BRMerkleBlock.c:40-46 | with 2^31 transactions it never ends: from the 31st shift on the value is -1 |
| Merkle.CeilLog2Formula | Modules/eacpay-core/BRMerkleBlock.c:40-46 | height of a tree = number of halvings, plus one unless the count is a power of two (`x & (x-1)`) |
| Merkle.TreeHeightBounds | Modules/eacpay-core/BRMerkleBlock.c:40-46 | that height is the least d with count <= 2^d |
| Merkle.NodeIsMerkleRoot | Modules/eacpay-core/BRMerkleBlock.c:107-113 | the recursive node over any list of leaves equals the row-by-row root with odd rows duplicated |
| Merkle.RunRootIs | Modules/eacpay-core/BRMerkleBlock.c:334-357 | on every block whose arrays are as long as its counts say, the root walk reads inside them; it returns exactly when it meets no set flag with 2^31 transactions or more, and otherwise never ends |
| Merkle.RunTxIs | Modules/eacpay-core/BRMerkleBlock.c:278-302 | the same for the id walk, with or without a buffer |
| Merkle.Walker.RootR | Modules/eacpay-core/BRMerkleBlock.c:334-357 | on any stored block, its arrays null, short or long: the recursive root walk with shared cursors returns what the functional walk returns (hash, both cursors, poison value), or reads outside an array, or is caught in the loop of _ceil_log2, exactly as that walk says |
| Merkle.Walker.TxHashesR | Modules/eacpay-core/BRMerkleBlock.c:278-302 | the same for the second walk, with its own three cursors and a caller buffer of limited size |
| Merkle.TxHashes | Modules/eacpay-core/BRMerkleBlock.c:306-313 | the same from the start: a null buffer counts and a real one receives the first ids up to its size |
| Merkle.MerkleRootOf | Modules/eacpay-core/BRMerkleBlock.c:371 | the root walk as block validation starts it, on any stored block |
| MerkleProofs.BlockTreeDigest | Modules/eacpay-core/BRMerkleBlock.c:107-113 | the tree of transactions that the encoder walks has the row-by-row Merkle root as its digest |
| MerkleProofs.FilteredBlockReturns | Modules/eacpay-core/BRMerkleBlock.c:278-357 | on the block that BIP 37's encoding produces both walks return exactly when it has fewer than 2^31 transactions or no match, and otherwise neither ends |
| MerkleProofs.Completeness | Modules/eacpay-core/BRMerkleBlock.c:278-357 | for every non-empty list of distinct non-zero ids and every subset of matches, on the block that BIP 37's depth-first encoding produces the root walk gives the Merkle root of the whole list and the id walk gives exactly the matched ids in order, both using up every hash |
| MerkleProofs.ThreeTransactions | Modules/eacpay-core/BRMerkleBlock.c:121-130 | the example of the comment: of three transactions the second is matched; the root is h(h(1,2), h(3,3)), the hashes are tx1, tx2 and m2 and the flag byte is 00001011 |
| MerkleProofs.LockStep | Modules/eacpay-core/BRMerkleBlock.c:278-302 | on arbitrary flags and hashes the two separately written walks stop at the same hash and flag, as long as the root walk has not poisoned its cursor |
| MerkleProofs.PoisonStays | Modules/eacpay-core/BRMerkleBlock.c:337-347 | once the hash cursor is SIZE_MAX every later walk returns zero and leaves it there |
| MerkleProofs.ZeroMeansExhausted | Modules/eacpay-core/BRMerkleBlock.c:347-351 | with no zero hash supplied, an unpoisoned zero result only comes from a branch that is not there |
| MerkleProofs.Soundness | Modules/eacpay-core/BRMerkleBlock.c:278-313 | on arbitrary flags and hashes without a zero hash: if the root walk gives the Merkle root of some list of totalTx ids unpoisoned, the reported ids are a subsequence of that list |
| MerkleProofs.LimitOnlyCuts | Modules/eacpay-core/BRMerkleBlock.c:278-313 | the sizing pass announces what the writing pass delivers, cut to the buffer |
| MerkleBlock.ParsedBacked | Modules/eacpay-core/BRMerkleBlock.c:203-217 | for every parsed message: its arrays are as long as its counts say exactly when the size of the hashes does not wrap and hashes and flags lie within the message (or their count is 0) |
| MerkleBlock.WholeIsWalked | Modules/eacpay-core/BRMerkleBlock.c:171-357 | on every such message both walks are the functional walks of the theorems, or, behind a set flag with 2^31 transactions or more, never end |
| MerkleBlock.ZeroHash | Modules/eacpay-core/BRMerkleBlock.c:337-351 | of the strings of 32 bytes exactly the zeros are the hash that the root walk treats as missing |
| MerkleBlock.FlagsMissingRead | Modules/eacpay-core/BRMerkleBlock.c:214-215 | a message of 118 bytes is parsed into a block with five flag bytes and no flags; both walks read outside |
| MerkleBlock.CountWrapsRead | Modules/eacpay-core/BRMerkleBlock.c:207-210 | a message of 127 bytes is parsed into a block with 2^59 + 1 hashes of which one is there; both walks read outside |
| AuxPow.SkipRecordBytes | Modules/eacpay-core/BRMerkleBlock.c:55-102 | for every well-formed record (any inputs, outputs, witness stacks, branch hashes, a message from version 2 on), wherever it lies and whatever follows it, the skipper stops exactly at its end |
| AuxPow.RecordLayout | Modules/eacpay-core/BRMerkleBlock.c:60-100 | a well-formed record from front to back: version, marker 00 01 with witness, inputs, outputs, stacks, lock time, a message from version 2 on, coinbase branch, blockchain branch, parent header |
| AuxPow.FieldSizes | Modules/eacpay-core/BRMerkleBlock.c:68-100 | the sizes of its fields in bytes: 36 and 4 around an input script, 8 before an output script, 32 before and 4 behind the branches of 32-byte hashes, 4 for the lock time, 80 for the parent |
| AuxPow.SkipFrontBytes | Modules/eacpay-core/BRMerkleBlock.c:60-79 | version, marker 00 01, counted inputs and outputs: the skipper sees the right version, input count and witness flag and stops after the outputs; an input count never looks like a marker |
| AuxPow.SkipStacksBytes | Modules/eacpay-core/BRMerkleBlock.c:80-89 | one counted witness stack per input is skipped exactly |
| AuxPow.SkipBackBytes | Modules/eacpay-core/BRMerkleBlock.c:90-100 | message, hash of the block, both branches and the parent header are skipped exactly |
| AuxPow.CalcAuxpowSize | Modules/eacpay-core/BRMerkleBlock.c:55-102 | the loops, whose offsets wrap like the size_t they are, compute that end, or report a read past the buffer |
| AuxPow.DistanceBack | Modules/eacpay-core/BRMerkleBlock.c:101 | the difference returned leads from the start to the end again, modulo 2^64 |
| BlockCodec.ParseImage | Modules/eacpay-core/BRMerkleBlock.c:171-276 | parsing the serialization restores every field, with or without aux-PoW data, whatever memory lies behind it; the block hash is the double hash of the header and the proof-of-work hash its scrypt hash; null arrays with a count of 0 come back as empty ones |
| BlockCodec.ParsedHashes | Modules/eacpay-core/BRMerkleBlock.c:219-220 | every parsed message, well-formed or not: its block hash is the double hash and its proof-of-work hash the scrypt hash of the first 80 bytes |
| BlockCodec.ImageLayout | Modules/eacpay-core/BRMerkleBlock.c:241-273 | a serialization from front to back: six header fields, aux-PoW data when bit 8 of the version is set, and with transactions their number, hashes and flags |
| BlockCodec.AuxpowBit | Modules/eacpay-core/BRMerkleBlock.c:49-52 | a version announces aux-PoW data exactly when its bit 8 is set |
| BlockCodec.ParseTailBack | Modules/eacpay-core/BRMerkleBlock.c:203-217 | transaction count, hashes and flags come back from their serialization |
| BlockCodec.ImageLength | Modules/eacpay-core/BRMerkleBlock.c:231-258 | the reported length equals the bytes covered exactly when aux-PoW data is absent, empty or announced by the version; where all arrays are there, nothing of the old buffer is left among them |
| BlockCodec.ReportsTooMuch | Modules/eacpay-core/BRMerkleBlock.c:238-239 | a block for which 81 bytes are reported and 80 written |
| BlockCodec.Serialize | Modules/eacpay-core/BRMerkleBlock.c:227-276 | writes the image and nothing behind it, leaving gaps for arrays that are missing, or nothing at all when the buffer is too small; returns the reported length |
| BlockCodec.ParseBlock | Modules/eacpay-core/BRMerkleBlock.c:171-224 | the parser, with its wrapping offsets, the declared length of 81 and its extension, is the function that ParseImage is about; the block hash is the double hash and the proof-of-work hash the scrypt hash of the first 80 bytes |
| BlockCodec.HeadersBack | Modules/eacpay-core/BRPeer.c:464-470 | for every list of headers with or without aux-PoW data and any count bytes: parsing each at declared length 81 and going on 81 bytes and its aux-PoW data further restores all of them, each with the double hash of its header as block hash and the scrypt hash as proof-of-work hash |
| BlockCodec.ReadHeaders | Modules/eacpay-core/BRPeer.c:464-470 | the loop over the message returns those headers, or stops at a read past the message |
| Poly1305.ProcessBlock | Modules/eacpay-core/BRCrypto.c:694-710 | one turn of the limb loop: from any reduced state it computes (h + block) * r modulo 2^130 - 5 and leaves a reduced state, with no uint32_t or uint64_t step overflowing |
| Poly1305.Multiply | Modules/eacpay-core/BRCrypto.c:700-705 | the five column sums fit 64 bits and are the product modulo 2^130 - 5 |
| Poly1305.Carry | Modules/eacpay-core/BRCrypto.c:707-710 | the partial reduction loses no bits in its casts and restores the limb bounds |
| Poly1305.FullCarry | Modules/eacpay-core/BRCrypto.c:714-716 | the full carry brings every limb below 2^26 without changing the residue |
| Poly1305.MinusP | Modules/eacpay-core/BRCrypto.c:718-720 | the top word of h - p wraps exactly when h < p |
| Poly1305.Reduce | Modules/eacpay-core/BRCrypto.c:718-724 | the masked select subtracts p exactly when h >= p |
| Poly1305.Finish | Modules/eacpay-core/BRCrypto.c:713-734 | the four words are (h mod p + s) mod 2^128 |
| Poly1305.LoadBlock | Modules/eacpay-core/BRCrypto.c:686-698 | a full block carries its high bit in the fifth limb, a short one its 01 byte: both are the block value of section 2.5 of RFC 7539 |
| Poly1305.ClampedValue | Modules/eacpay-core/BRCrypto.c:680-684 | the masked limbs of r are the clamped r of RFC 7539 |
| Poly1305.AccumulateConcat | Modules/eacpay-core/BRCrypto.c:675-740 | feeding 16-byte-aligned pieces over several calls equals feeding them at once |
| Poly1305.Compress | Modules/eacpay-core/BRCrypto.c:675-740 | the whole function: block loop and, for the last call, the tag words |
| Poly1305.Poly1305 | Modules/eacpay-core/BRCrypto.c:744-755 | for every key and message the sixteen bytes are the Mac of section 2.5 of RFC 7539 |
| Poly1305Spec.ClampBytes | Modules/eacpay-core/BRCrypto.c:680-684 | the multiplier is the first half of the key with the top four bits of bytes 3, 7, 11, 15 and the low two bits of bytes 4, 8, 12 cleared |
| Poly1305Spec.MacIsPolynomial | Modules/eacpay-core/BRCrypto.c:675-755 | the Mac is the polynomial whose coefficients are the blocks (first block, highest power), at the clamped half of the key, modulo 2^130 - 5, plus the other half, modulo 2^128 |
| Poly1305Spec.Published | Modules/eacpay-core/BRCrypto.c:675-755 | the example of section 2.5.2 of RFC 7539: key, message and tag |
| Aead.Chacha20 | Modules/eacpay-core/BRCrypto.c:762-805 | every byte is XORed with the key stream of the 64-bit counter, which carries from word 12 into word 13; the output may be the data itself |
| Aead.CryptIsRfc | Modules/eacpay-core/BRCrypto.c:823-828 | with the first nonce word in the counter's upper half the stream is the one of section 2.4 of RFC 7539 |
| Aead.ShortIs | Modules/eacpay-core/BRCrypto.c:816 | the length limit is 2^38 - 64 bytes, below which the RFC block counter of the last block fits in 32 bits |
| Aead.RoomWraps | Modules/eacpay-core/BRCrypto.c:841-850 | the room computed from outLen is outLen + 16 modulo 2^64 |
| Aead.Tag | Modules/eacpay-core/BRCrypto.c:825-835 | the up to five compress calls compute the Poly1305 of ad, padding, ciphertext, padding and both lengths |
| Aead.MacDataLayout | Modules/eacpay-core/BRCrypto.c:825-835 | what is authenticated, by position: ad, zeros up to a multiple of 16, ciphertext, zeros up to a multiple of 16, both lengths in eight bytes each, low byte first |
| Aead.TagMatches | Modules/eacpay-core/BRCrypto.c:870-871 | four word comparisons accept exactly the tag whose 128 bits agree |
| Aead.OpenSeal | Modules/eacpay-core/BRCrypto.c:808-874 | opening undoes sealing for every core, key, nonce, associated data and plaintext within the length limit |
| Aead.SealBytes | Modules/eacpay-core/BRCrypto.c:818-839 | a seal byte by byte: data XORed with key stream block 1 + i/64, then the tag of the ciphertext under the first 32 bytes of block 0 |
| Aead.OpenOnlySealed | Modules/eacpay-core/BRCrypto.c:841-874 | a box opens exactly when it is the seal of some plaintext |
| Aead.Encrypt | Modules/eacpay-core/BRCrypto.c:808-839 | writes the seal, also over the data itself, or nothing when the buffer or the length limit does not allow it |
| Aead.Decrypt | Modules/eacpay-core/BRCrypto.c:841-874 | writes the opened plaintext and returns its length exactly when the tag agrees and there is room (outLen + 16 wraps like a size_t); otherwise returns 0 and writes nothing |
| Scrypt.BlockMixSalsa8 | Modules/eacpay-core/BRCrypto.c:941-953 | even and odd outputs land interleaved: the result is scryptBlockMix of section 4 of RFC 7914 for every r >= 1 whose buffers of 16*r words have a 32-bit size |
| Scrypt.BlockMixOfTwo | Modules/eacpay-core/BRCrypto.c:941-953 | r = 2 spelled out: the four chained hashes Y0, Y1, Y2, Y3 are output as Y0, Y2, Y1, Y3 |
| Scrypt.MaskIsIntegerify | Modules/eacpay-core/BRCrypto.c:983-986 | for a power of two n, masking the first word of the last block is Integerify modulo n and a valid row of v |
| Scrypt.IntegerifyIs | Modules/eacpay-core/BRCrypto.c:983-986 | Integerify is the number that all eight words of the last block spell, the first one lowest |
| Scrypt.TableHolds | Modules/eacpay-core/BRCrypto.c:959-980 | with the 32-bit products of the source, all rows that the first loop stores lie inside the table exactly when 128*r*n is below 2^32 and n is even |
| Scrypt.TableWraps | Modules/eacpay-core/BRCrypto.c:959-980 | with n = 2^22 and r = 8 the table gets no bytes and its first row lies outside; with n = 1 and r = 1 the second row does |
| Scrypt.Fill | Modules/eacpay-core/BRCrypto.c:975-980 | when the table fits, the twice-unrolled first loop leaves V[0..n-1] in the table, at indices that do not wrap in 32 bits, and V[n] in x |
| Scrypt.Mix | Modules/eacpay-core/BRCrypto.c:982-989 | when the table fits, the twice-unrolled second loop applies the mixing step n times, reading only rows that exist |
| Scrypt.ROMixInPlace | Modules/eacpay-core/BRCrypto.c:957-989 | allocation and both loops between two buffers are scryptROMix of section 5 of RFC 7914 for every r >= 1 and every power of two n >= 2 with 128*r*n below 2^32 |
| Scrypt.ROMixOfTwo | Modules/eacpay-core/BRCrypto.c:975-989 | n = 2 spelled out: two mixes, then twice the choice of a row by the lowest bit of the last block, the XOR and the mix |
| Hashing.GapIsSmallest | Modules/eacpay-core/BRCrypto.c:89-91 | the number of zero bytes is the least solution of the congruence in section 5.1 of FIPS 180-4 |
| Hashing.PaddedLength | Modules/eacpay-core/BRCrypto.c:89-93 | a padded message is a whole number of blocks |
| Hashing.Field32Is | Modules/eacpay-core/BRCrypto.c:92 | the two 32-bit halves are the 64-bit length in bits |
| Hashing.Field64Is | Modules/eacpay-core/BRCrypto.c:270 | the length field with its zero upper word is the 128-bit length in bits exactly below 2^61 bytes |
| Hashing.LengthTooLong | Modules/eacpay-core/BRCrypto.c:270 | for 2^61 bytes the length field says 0 |
| Hashing.Blocks | Modules/eacpay-core/BRCrypto.c:83-87 | the loop compresses each whole block once, in order, and leaves the rest at the start of the buffer |
| Hashing.Hash | Modules/eacpay-core/BRCrypto.c:83-93 | for every message, whatever was in the buffer and whatever the compression function leaves there, the result is the compression function folded over the padded message |
| Hashing.TwoBlocks | Modules/eacpay-core/BRCrypto.c:83-87 | two blocks are compressed first to last |
| Hashing.DigestWords | Modules/eacpay-core/BRCrypto.c:162-188 | word i of the state lies at its place in the digest, high byte first |
| Hashing.PaddedAbc | Modules/eacpay-core/BRCrypto.c:89-93 | the padded "abc" of both block sizes byte for byte |
| Hashing.Hash32 | Modules/eacpay-core/BRCrypto.c:143-192 | SHA-1, SHA-224 and SHA-256: the digest is the first words, high byte first, of the state after all blocks of the message padded as in section 5.1.1 |
| Hashing.Hash64 | Modules/eacpay-core/BRCrypto.c:252-302 | SHA-384 and SHA-512: the same with the padding of section 5.1.2 for messages below 2^61 bytes |
| Aes.UnmixMix | Modules/eacpay-core/BRBIP38Key.c:147-151 | the unmix column code undoes MixColumns on every column |
| Aes.MixColumnIsFips | Modules/eacpay-core/BRBIP38Key.c:108-111 | the shared-sum column code is the matrix 02 03 01 01 of FIPS 197 |
| Aes.UnmixColumnIsFips | Modules/eacpay-core/BRBIP38Key.c:147-151 | the unmix code is the matrix 0e 0b 0d 09 of section 5.3.3 of FIPS 197 |
| Aes.ExpandKey | Modules/eacpay-core/BRBIP38Key.c:113-118 | in place, eight words of the key schedule become the next eight; in bytes: k[0..3] are XORed with the substituted k[29], k[30], k[31], k[28] and the round constant, k[16..19] with the substituted k[12..15], all others with the byte four places before |
| Aes.UnexpandKey | Modules/eacpay-core/BRBIP38Key.c:159-165 | in place, eight words become the previous eight, the round constant included: one expansion in bytes leads back |
| Aes.FirstWordBytes | Modules/eacpay-core/BRBIP38Key.c:114 | for every row of the schedule: the four bytes of its first word from the first and the last word of the row before |
| Aes.ShiftRows | Modules/eacpay-core/BRBIP38Key.c:104-106 | the chained byte moves shift row t by t |
| Aes.UnshiftRows | Modules/eacpay-core/BRBIP38Key.c:153-155 | and back |
| Aes.EncryptBlock | Modules/eacpay-core/BRBIP38Key.c:90-126 | for every key and block the fourteen rounds with the schedule expanded on the way are the Cipher of section 5.1 of FIPS 197 over the key expansion of section 5.2 |
| Aes.DecryptBlock | Modules/eacpay-core/BRBIP38Key.c:128-173 | running the schedule forward seven times and back in place gives the inverse cipher of section 5.3 of FIPS 197 with round keys 14 down to 0 |
| Aes.InverseCipher | Modules/eacpay-core/BRBIP38Key.c:90-173 | the inverse cipher undoes the cipher for every key and state, for any pair of tables of which one undoes the other |
| Aes.DecryptEncrypt | Modules/eacpay-core/BRBIP38Key.c:90-173 | the same on sixteen-byte blocks and 32-byte keys |
| AesExample.FirstExpanded | Modules/eacpay-core/BRBIP38Key.c:114 | the first word expanded from the key 00 01 .. 1f is a573c29f |
| AesExample.KeySchedule | Modules/eacpay-core/BRBIP38Key.c:113-118 | all fifteen round keys of the example in appendix C.3 of FIPS 197 |
| AesExample.Published | Modules/eacpay-core/BRBIP38Key.c:90-126 | the example in appendix C.3 of FIPS 197: this key takes the block 00 11 .. ff to 8ea2b7ca516745bfeafc49904b496089 |
| AesTables.XtReduces | Modules/eacpay-core/BRBIP38Key.c:88 | the macro shifts and reduces by x^8 + x^4 + x^3 + x + 1 |
| AesTables.SboxIsFips | Modules/eacpay-core/BRBIP38Key.c:50-67 | every entry of the table is the affine transformation of section 5.1.1 of FIPS 197 applied to the inverse in GF(2^8), with 0 for the inverse of 0 |
| AesTables.SboxiSbox | Modules/eacpay-core/BRBIP38Key.c:50-86 | the second substitution table undoes the first |
| Bip38.UnlockedLocked | Modules/eacpay-core/BRBIP38Key.c:262-268 | the two masked and encrypted halves of a secret decrypt to it, for any block cipher that decrypts what it encrypts |
| Bip38.PayloadBytes | Modules/eacpay-core/BRBIP38Key.c:361-391 | a payload byte for byte: 01 42, c0 or e0, four bytes of the address hash, each half of the secret XORed with its quarter of the derived key and encrypted under the other half |
| Bip38.ValidFlags | Modules/eacpay-core/BRBIP38Key.c:211-230 | valid are exactly payloads of 39 bytes that start with 01 42 and c0 or e0, or 01 43 and one of 00, 04, 20, 24 |
| Bip38.ReadPayload | Modules/eacpay-core/BRBIP38Key.c:253-271 | the payload made from a secret, flag and passphrase opens to that secret and flag; the address hash matches exactly when the key has an address |
| Bip38.RoundTrip | Modules/eacpay-core/BRBIP38Key.c:345-392 | the same through Base58Check, and every string produced is a valid BIP 38 key |
| Bip38.RoundTripWithTables | Modules/eacpay-core/BRBIP38Key.c:345-392 | the same for AES-256 with the source's tables |
| Bip38.KeyStringLength | Modules/eacpay-core/BRBIP38Key.c:356 | the size reported for a null buffer always suffices |
| Bip38.Key.Bip38Key | Modules/eacpay-core/BRBIP38Key.c:345-392 | writes that string with its NUL, or returns 0 |
| Bip38.Key.SetBip38Key | Modules/eacpay-core/BRBIP38Key.c:234-312 | sets secret and flag from the payload and returns 1 exactly when the address hash agrees; a payload of another length changes nothing |
| Bech32Checksum.PolymodLinear | Modules/eacpay-core/BRBech32.c:37-39 | the polymod macro is linear over GF(2) |
| Bech32Checksum.PolymodNonsingular | Modules/eacpay-core/BRBech32.c:37-39 | no non-zero 30-bit state steps to zero |
| Bech32Generator.Feedback | Modules/eacpay-core/BRBech32.c:37-39 | for every 5-bit c, polymod of c in the top symbol is c times 29, 22, 20, 21, 29, 18 in GF(32) with x^5 = x^3 + 1 |
| Bech32Generator.StepIsTimesX | Modules/eacpay-core/BRBech32.c:37-39 | for every register, one step is multiplication by x modulo the generator of BIP 173 |
| Bech32Generator.FeedIsHorner | Modules/eacpay-core/BRBech32.c:61-77 | after any word the register is the word as a polynomial over GF(32) modulo that generator |
| Bech32Checksum.BurstDetected | Modules/eacpay-core/BRBech32.c:37-39 | two words that differ only within six consecutive symbols have different checksums, however many symbols follow |
| Bech32Checksum.ChecksumWorks | Modules/eacpay-core/BRBech32.c:138-140 | the six emitted symbols drive the checksum to 1 |
| Bech32Bits.To8To5 | Modules/eacpay-core/BRBech32.c:81-87 | regrouping bytes to symbols, with the last one filled up, and back restores every byte string |
| Bech32Bits.Regrouped | Modules/eacpay-core/BRBech32.c:129-136 | every five bytes make eight symbols, high bits first, given shift by shift |
| Bech32Bits.Emit | Modules/eacpay-core/BRBech32.c:129-136 | in each of the five positions the encoder's shifts pick the next five or ten bits of the byte string |
| Bech32Bits.PlaceIs | Modules/eacpay-core/BRBech32.c:81-85 | in each of the eight positions the decoder's two ORs put a symbol where its bits belong and touch nothing else |
| Bech32.RoundTrip | Modules/eacpay-core/BRBech32.c:42-144 | for a lower-case human-readable part and a witness program, decoding undoes encoding exactly when the part is not empty and the address has at most 90 characters |
| Bech32Example.Published | Modules/eacpay-core/BRBech32.c:42-144 | the published address bc1qw508d6qejxtdg4y5r3zarvary0c5xw7kv8f3t4 is the encoding of its program, and decodes to it |
| Bech32.AcceptedIff | Modules/eacpay-core/BRBech32.c:60-88 | a lower-case string is accepted exactly with at most 90 characters, a version of at most 16, a program of 2 to 40 bytes and a register that ends at 1 |
| Bech32.CaseIgnored | Modules/eacpay-core/BRBech32.c:53-64 | a lower-case string means the same in upper case |
| Bech32.MixedRefused | Modules/eacpay-core/BRBech32.c:60 | a string with letters of both cases is refused |
| Bech32Alphabet.CharsAre | Modules/eacpay-core/BRBech32.c:103 | the digits are the characters of qpzry9x8gf2tvdw0s3jn54khce6mua7l |
| Bech32.EncodeThenDecode | Modules/eacpay-core/BRBech32.c:101-144 | what BRBech32Encode accepts and writes inside its buffer comes back exactly when the human-readable part is not empty |
| Bech32.ErrorDetected | Modules/eacpay-core/BRBech32.c:61-88 | replacing up to six consecutive characters of the data part of an accepted address by other digits makes decoding fail |
| Bech32.SubstitutionDetected | Modules/eacpay-core/BRBech32.c:61-88 | in particular replacing any one character by a digit of another value |
| Bech32.Regroup | Modules/eacpay-core/BRBech32.c:129-136 | the loop writes exactly the symbols of the witness program and feeds each to the checksum |
| Bech32.ReadData | Modules/eacpay-core/BRBech32.c:64-85 | the loop fails exactly on a non-digit and otherwise leaves version, checksum and packed bytes |
| Bech32.Encode | Modules/eacpay-core/BRBech32.c:101-144 | refuses case by case; for every accepted input all writes are inside addr[91] exactly when the address has at most 90 characters, and then addr91 gets the address of BIP 173 and its NUL |
| Bech32.RefusedSizes | Modules/eacpay-core/BRBech32.c:122-125 | a lower-case part is accepted exactly with OP_0 or OP_1 to OP_16, 2 to 40 bytes, and at most 82 characters and bytes together |
| Bech32.AcceptedTooLong | Modules/eacpay-core/BRBech32.c:125 | 42 characters and 40 bytes are accepted and need 115 bytes |
| Bech32.Decode | Modules/eacpay-core/BRBech32.c:42-97 | returns what the string means, or 0 when it means nothing; padding bits are not looked at |
| Base58.DecodeEncode | Modules/eacpay-core/BRBase58.c:36-142 | decode(encode(d)) = d for every byte string, leading zeros included |
| Base58.EncodeDecode | Modules/eacpay-core/BRBase58.c:121 | encode(decode(s)) is s up to its first character outside the alphabet |
| Base58.Bijection | Modules/eacpay-core/BRBase58.c:36-142 | encode(decode(s)) = s exactly for the strings over the alphabet |
| Base58.CharsAre | Modules/eacpay-core/BRBase58.c:38 | the digits are the characters of the alphabet |
| Base58.EncodedBbb | Modules/eacpay-core/BRBase58.c:36-72 | two zero bytes and "bbb" are "11a3gV" |
| Base58.EncodeFits | Modules/eacpay-core/BRBase58.c:44 | n*138/100 + 1 base-58 digits hold every n-byte number |
| Base58.DecodeFits | Modules/eacpay-core/BRBase58.c:82 | n*733/1000 + 1 bytes hold every n-digit number |
| Base58.MulAddInPlace | Modules/eacpay-core/BRBase58.c:51-55 | the carry loop multiplies and adds in place; what it carries out stays below the multiplier |
| Base58.TakeDigit | Modules/eacpay-core/BRBase58.c:48-58 | when the number fits, nothing is carried out of the buffer |
| Base58.Base58Encode | Modules/eacpay-core/BRBase58.c:36-72 | writes the encoding and its NUL, or nothing; returns the length or the size needed |
| Base58.Base58Decode | Modules/eacpay-core/BRBase58.c:75-142 | writes the decoding, or nothing; returns the length or the size needed |
| Base58.CheckRoundTrip | Modules/eacpay-core/BRBase58.c:145-185 | decoding a Base58Check string gives the payload back |
| Base58.CheckEncodedIs | Modules/eacpay-core/BRBase58.c:145-162 | what is encoded is the payload and the first four bytes of its hash |
| Base58.CheckDecodedIs | Modules/eacpay-core/BRBase58.c:165-185 | of a string that decodes to data and four bytes, the data exactly when the four bytes are the first of its hash |
| Base58.CheckReencodes | Modules/eacpay-core/BRBase58.c:145-185 | a string that decodes to a payload is its encoding exactly when it is over the alphabet |
| Base58.DecodedLength | Modules/eacpay-core/BRBase58.c:165-171 | the buffer of strlen bytes always suffices |
| Base58.EncodedLength | Modules/eacpay-core/BRBase58.c:44 | the encoding of n bytes has at most n*138/100 + 1 characters |
| Base58.Base58CheckEncode | Modules/eacpay-core/BRBase58.c:145-162 | payload plus four checksum bytes, encoded |
| Base58.Base58CheckDecode | Modules/eacpay-core/BRBase58.c:165-185 | payload of a correct checksum, or 0 bytes |
| Bip39.EntropyOfIndices | Modules/eacpay-core/BRBIP39Mnemonic.c:32-60 | entropy and the first k bits of its hash, split in groups of 11 bits, give the entropy and a correct checksum back |
| Bip39.IndicesOfEntropy | Modules/eacpay-core/BRBIP39Mnemonic.c:87-102 | indices with a correct checksum are the ones that their entropy spells |
| Bip39.IndicesAreDigits | Modules/eacpay-core/BRBIP39Mnemonic.c:44-49 | the word indices are the base-2048 digits, highest first, of the number that the entropy, high byte first, and the first k bits of its hash spell |
| Bip39.ReadPhrase | Modules/eacpay-core/BRBIP39Mnemonic.c:73-85 | reading a phrase over a duplicate-free list of non-empty space-free words finds its indices, up to 24 of them |
| Bip39.PhraseOfRead | Modules/eacpay-core/BRBIP39Mnemonic.c:73-85 | over every list of space-free words, whatever is read to its end is the phrase of its indices, up to one trailing space |
| Bip39.DecodeEncode | Modules/eacpay-core/BRBIP39Mnemonic.c:32-111 | decoding a mnemonic gives back the entropy exactly when there are at most 32 bytes of it |
| Bip39.EncodeDecode | Modules/eacpay-core/BRBIP39Mnemonic.c:63-111 | over every list of space-free words, every accepted phrase is the mnemonic of what it decodes to, up to one trailing space |
| Bip39.ReadWord | Modules/eacpay-core/BRBIP39Mnemonic.c:48-49 | the 32-bit window read picks bits 11i to 11i+10 of data and hash |
| Bip39.ReadsInside | Modules/eacpay-core/BRBIP39Mnemonic.c:48 | the 32 bits read for each word lie within data and hash exactly up to 968 bytes of entropy |
| Bip39.LastReadOutside | Modules/eacpay-core/BRBIP39Mnemonic.c:48 | with 972 bytes the last word is read behind data and hash |
| Bip39.PackByte | Modules/eacpay-core/BRBIP39Mnemonic.c:91-94 | the 22-bit window picks bits 8i to 8i+7 of the words |
| Bip39.SameTopBits | Modules/eacpay-core/BRBIP39Mnemonic.c:99 | comparing the shifted bytes compares the first k bits |
| Bip39.Encode | Modules/eacpay-core/BRBIP39Mnemonic.c:32-60 | for every word list, all reads are inside data and hash exactly up to 968 bytes; then it writes the phrase and its NUL, or returns 0; with a null buffer it returns the size; entropy of no whole number of words is refused |
| Bip39.Decode | Modules/eacpay-core/BRBIP39Mnemonic.c:63-111 | for every word list, the first word that the phrase begins with included, writes the decoded entropy, or nothing |
| Bip32.Commute | Modules/eacpay-core/BRBIP32Sequence.c:52-105 | one normal step: public derivation from the point equals the point of the private derivation |
| Bip32.FailTogether | Modules/eacpay-core/BRBIP32Sequence.c:72-105 | both derivations refuse the same steps, and their chain codes always agree |
| Bip32.CommutePath | Modules/eacpay-core/BRBIP32Sequence.c:52-105 | the same for every path of normal steps |
| Bip32.PublicMatchesPrivate | Modules/eacpay-core/BRBIP32Sequence.c:108-155 | the public key from the master public key is the point of the private key at m/0H/chain/index, when no derivation on the path fails |
| Bip32.HardData | Modules/eacpay-core/BRBIP32Sequence.c:57-63 | for every key below 2^256 and hardened index the authenticated message is the only one of 37 bytes whose first byte is 0, whose next 32, read high byte first, are the key, and whose last four are the index |
| Bip32.NormalData | Modules/eacpay-core/BRBIP32Sequence.c:61-63 | for a normal index it is the point followed by the index |
| Bip32.HardChild | Modules/eacpay-core/BRBIP32Sequence.c:57-68 | a hardened child is (IL + k) mod n and IR of the HMAC of that message |
| Bip32.HardIsNeverNormal | Modules/eacpay-core/BRBIP32Sequence.c:57-61 | when points start with 2 or 3, no hardened message is a normal one, so no public derivation computes its HMAC |
| Bip32.PublicChild | Modules/eacpay-core/BRBIP32Sequence.c:88-105 | a public child is made from the HMAC of the point and the index; when IL is not below the order or the sum is infinite the point stays and only the chain code changes; a hardened index changes nothing |
| Bip32.HardBit | Modules/eacpay-core/BRBIP32Sequence.c:57 | an index is hardened exactly when its bit 31 is set |
| Bip32.MasterIs | Modules/eacpay-core/BRBIP32Sequence.c:118 | the first HMAC has "Bitcoin seed" as its key and the seed as its message |
| Bip32.MasterFingerPrint | Modules/eacpay-core/BRBIP32Sequence.c:123-124 | the fingerprint is that of the key of m |
| Bip32.NoPublicKey | Modules/eacpay-core/BRBIP32Sequence.c:110 | a secret of 0 or from the order of the curve on gives no public key and no fingerprint |
| Bip32.Secret.Derive | Modules/eacpay-core/BRBIP32Sequence.c:52-72 | overwrites secret and chain code with CKDpriv: for a hardened index from the HMAC of the one message of 37 bytes that is 0, the secret and the index, high byte first; for a normal one from that of the point and the index |
| Bip32.Public.Derive | Modules/eacpay-core/BRBIP32Sequence.c:88-105 | overwrites point and chain code with CKDpub, or leaves them alone for a hardened index |
| Bip32.BRBIP32MasterPubKey | Modules/eacpay-core/BRBIP32Sequence.c:108-136 | fingerprint of m, chain code and point of m/0H |
| Bip32.BRBIP32PubKey | Modules/eacpay-core/BRBIP32Sequence.c:140-155 | two public steps from the master public key, written to the buffer; a null buffer asks for the size, a short one gets nothing |
| Bip32.BRBIP32vPrivKeyPath | Modules/eacpay-core/BRBIP32Sequence.c:207-229 | the loop derives the key of the path |
| Bip32.BRBIP32PrivKeyList | Modules/eacpay-core/BRBIP32Sequence.c:164-192 | every entry is the key of the path m/0H/chain/index, though the first two steps are shared |
| VarInts.ReadVarInt | Modules/eacpay-core/BRAddress.c:39-67 | every number is read back from its encoding, whatever follows |
| VarInts.VarIntForms | Modules/eacpay-core/BRAddress.c:70-104 | the four forms: one byte below 253, and 2, 4 or 8 bytes, low byte first, behind 253, 254 and 255 |
| VarInts.BRVarInt | Modules/eacpay-core/BRAddress.c:39-67 | too few bytes read as 0 and the length still follows the first byte |
| VarInts.BRVarIntSet | Modules/eacpay-core/BRAddress.c:70-104 | writes the encoding when there is room; the null pass returns the same length |
| Script.ParsePushes | Modules/eacpay-core/BRAddress.c:114-230 | parsing the concatenated pushes of any list of byte strings below 2^32 finds exactly that many elements, each right after the one before, and the data of each is the string pushed |
| Script.PushForms | Modules/eacpay-core/BRAddress.c:192-230 | the four forms of a push, with their boundaries 76, 255 and 65535 |
| Script.ElementForms | Modules/eacpay-core/BRAddress.c:121-146 | where an element ends, for each opcode |
| Script.CountIsTiled | Modules/eacpay-core/BRAddress.c:114-153 | the count is not 0 exactly when there is a script and its elements tile it |
| Script.BRScriptElements | Modules/eacpay-core/BRAddress.c:114-153 | the loop, its stale length included, returns that count and writes the offsets; the null pass returns the same count |
| Script.BRScriptData | Modules/eacpay-core/BRAddress.c:156-188 | returns the data of an element, or a null pointer for an element without data |
| Script.BRScriptPushData | Modules/eacpay-core/BRAddress.c:192-230 | writes the push when there is room; the null pass returns the same length |
| Address.HashScriptsBack | Modules/eacpay-core/BRAddress.c:239-388 | every pay-to-pubkey-hash and pay-to-script-hash script comes back from its address unchanged |
| Address.PubKeyScriptsBack | Modules/eacpay-core/BRAddress.c:268-277 | the script [n] key OP_CHECKSIG with a key of n = 33 or 65 bytes has the address of the hash of its key, and comes back as the pay-to-pubkey-hash script of that hash |
| Address.WitnessScriptsBack | Modules/eacpay-core/BRAddress.c:278-287 | a pay-to-witness script comes back unchanged exactly when its address is not also Base58Check for 21 bytes |
| Address.AddressBack | Modules/eacpay-core/BRAddress.c:340-388 | a Base58Check address that has a script is the address of that script, exactly when it is over the alphabet |
| Address.PubKeyHashForm | Modules/eacpay-core/BRAddress.c:249-258 | a script is recognized as paying to h exactly when it is 76 a9 14 h 88 ac with 20 bytes h |
| Address.ScriptHashForm | Modules/eacpay-core/BRAddress.c:259-267 | a script is recognized as paying to script hash h exactly when it is a9 14 h 87 with 20 bytes h |
| Address.PubKeyForm | Modules/eacpay-core/BRAddress.c:268-277 | a script is recognized as paying to a key exactly when it is the push of that key of 33 or 65 bytes and ac |
| Address.WitnessForm | Modules/eacpay-core/BRAddress.c:278-279 | a script is recognized as paying to a witness program exactly when it is OP_0 and a push of 20 or 32 bytes, or OP_1 to OP_16 and a push of 2 to 40 bytes |
| Address.HashAddresses | Modules/eacpay-core/BRAddress.c:249-267 | their addresses: Base58Check of the hash behind the version byte 93 or 33 |
| Address.WitnessAddress | Modules/eacpay-core/BRAddress.c:278-287 | its address: Bech32 under "eac" with the version that the opcode stands for |
| Address.HashScript | Modules/eacpay-core/BRAddress.c:355-377 | Base58Check for 21 bytes has a script exactly for the version bytes 93 and 33 |
| Address.WitnessScript | Modules/eacpay-core/BRAddress.c:378-386 | a Bech32 address under "eac" has the script of its program, unless it is a version 0 program of neither 20 nor 32 bytes; one under another name has none |
| Address.AddressFromScriptPubKey | Modules/eacpay-core/BRAddress.c:239-290 | writes the address of the script and its NUL, or returns 0 |
| Address.AddressScriptPubKey | Modules/eacpay-core/BRAddress.c:340-388 | writes the script of the address, or returns 0 |
| Address.AddressIsValid | Modules/eacpay-core/BRAddress.c:391-415 | an address is valid exactly when it has a script |
| PinLock.WipeIsLate | eacpay/WalletManager+Auth.swift:177-216 | over every run, whatever the clock shows and however often the app restarts, the wipe comes at least 93300 seconds after the whole second of the third counted failure since the last reset: after the failure itself when that falls on a whole second, otherwise more than 93299 seconds after it |
| PinLock.BoundIsMet | eacpay/WalletManager+Auth.swift:177-216 | from every third failure on, wrong PINs tried whenever a lock-out ends wipe exactly 93300 seconds after the stored fail time |
| PinLock.ThirdFailure | eacpay/WalletManager+Auth.swift:177-216 | right after every reachable third failure: no continuation wipes earlier than 93300 seconds after it exactly when the stored fail time is not before it, that is when it falls on a whole second or not after the fail time stored before |
| PinLock.CountingIs | eacpay/WalletManager+Auth.swift:177-216 | the continuations meant are those after each of whose events the count is 3 or more |
| PinLock.HalfASecondEarly | eacpay/WalletManager+Auth.swift:205-207 | a third failure at 10.5 seconds, from which a continuation wipes too early |
| PinLock.RunIsLate | eacpay/WalletManager+Auth.swift:177-216 | the invariant behind it: the stored fail time is never earlier than the third failure plus all lock-outs served |
| PinLock.OnlyTheStoredPin | eacpay/WalletManager+Auth.swift:177-216 | an attempt returns true exactly when there is no lock-out and the PIN is the stored one; a locked-out attempt changes nothing |
| PinLock.FailureLocks | eacpay/WalletManager+Auth.swift:181-208 | a wrong PIN that has not failed before counts, and from the third on locks authentication out from the whole second of the clock for the time of the new count |
| PinLock.SixTimesLonger | eacpay/WalletManager+Auth.swift:156 | the lock-outs: 60 seconds after the third failure and six times as long after each further one |
| PinLock.PinAfter | eacpay/WalletManager+Auth.swift:177-387 | the PIN changes only by a success of changePin or forceSetPin and by a wipe; an attempt wipes exactly when a wrong, new PIN is counted as the eighth |
| PinLock.DisabledUntilIsLocked | eacpay/WalletManager+Auth.swift:150-160 | the time shown to the user is the one that authentication goes by |
| PinLock.StepInSync | eacpay/WalletManager+Auth.swift:190-200 | the fail count stays the number of distinct failed PINs through every event except, exactly, a restart while failures are counted and a wipe that leaves PINs remembered |
| PinLock.InSyncCounts | eacpay/WalletManager+Auth.swift:190-200 | being in sync means that no PIN is listed twice and the count is the number of PINs listed |
| PinLock.RunInSync | eacpay/WalletManager+Auth.swift:190-200 | the same over every run without restart or wipe |
| PinLock.SuccessInSync | eacpay/WalletManager+Auth.swift:236-248 | a success or a new PIN brings count and list back together at zero |
| PinLock.WalletManager.AuthenticatePin | eacpay/WalletManager+Auth.swift:177-216 | the method, which counts before it checks, is the transition of the state machine |
| PinLock.WalletManager.ChangePin | eacpay/WalletManager+Auth.swift:355-362 | sets the new PIN only after a successful attempt |
| PinLock.WalletManager.ForceSetPin | eacpay/WalletManager+Auth.swift:366-387 | sets the new PIN with the right phrase or when there is none; without a phrase a stored PIN is only tried |

## Left out

- Compression functions of the hashes, the Salsa20/8 and ChaCha20 cores, HMAC, PBKDF2, scrypt's outer loop over its p lanes and secp256k1 are parameters or not part of this model.
- SHA-1 expands its message schedule in an 80-word buffer; the model's block buffer is the first 16 words.
- Hash collisions: the Merkle theorems take a log of hashed pairs in which no two different pairs collide and no digest is zero, instead of a hash that is injective everywhere.
- BIP 38 keys with EC multiplication: there is no encrypting counterpart; `other` stands for the secret that this branch computes.
- Bip38.Key.SetBip38Key: a prefix that is neither 0142 nor 0143 leaves the secret uninitialized in the source; here it is the same parameter `other`.
- Aead.Chacha20: output and data are the same buffer or do not overlap; a partial overlap is not modelled.
- The output buffers `hrp84` and `data42` of BRBech32Decode are sequences; that they are large enough is the bound on both lengths in its contract.
- What the source does after a write or read outside a buffer, or inside a loop that never ends, is not defined or not modelled; conditions say when it happens.
- Reading past a buffer: the aux-PoW skipper and the parser report it as an outcome of its own, the source does not notice it.
- Offsets in the script walk do not wrap: they grow by at most 2^32 + 5 past the end of a script.
- BlockCodec.Serialize: arrays that are missing although their counts make the length exceed 2^64, and arrays of another size than their counts say, are outside its precondition.
- size_t arithmetic on message lengths (`dataLen*138`, `strlen*733`) is unbounded here.
- The rest of the headers message: its length test, the time stamps and the requests that follow from them.
- BRAddressFromScriptSig, BRAddressHash160, BRMerkleBlockIsValid beyond its root walk, difficulty retargeting, Bloom filters, RIPEMD, SHA-3, MD5, Murmur and the DRBG would only add similar or simpler members.
- Test-net prefixes: only the main-net constants are modelled.
- Keychain errors, the rest of what wipeWallet deletes, spending limits, biometrics and the recovery phrase check of the Swift class; `phraseOk` says whether the phrase was right.
- Doubles: clock readings and lock-out times are real numbers.
- Memory wiping, allocation failure and constant-time behaviour.
