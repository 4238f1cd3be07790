# Verified models of CYFS

A Dafny model of the parts of CYFS whose behaviour is hardest to see from the code, with proofs.
`dafny verify dfyconfig.toml` checks all of it.

## What is modelled

**The contract ABI codec** (`AbiTypes`, `AbiSpec`, `AbiEncoder`, `AbiDecoder`, `AbiReader`, `AbiStatic`,
`AbiWide`). `AbiSpec` is the recursive definition in
the section "Formal Specification of the Encoding" of the Solidity Contract ABI Specification, with one change the
repository makes: an address is a full 32-byte object id. The encoder is the repository's: tokens become a tree of
mediates, and the tree becomes words with relative offsets. It is proved to write the specified bytes. The decoder is
proved to read them back inside any surrounding bytes. `AbiReader` says of arbitrary bytes, without the decoder, what
they hold, and the decoder is proved to answer exactly that.

**SHA-2** (`Sha256Bits`, `Sha256Block`, `Sha256Engine`, the same for 512, `ShaConstants` and `BlockStream`). The vector-shaped block
functions are proved equal to the rounds of FIPS 180-4, and the streaming engines to the digest of the whole message. The word
functions are characterised bit by bit, and the constants as roots of primes.

**The derived binary codec** (`VarSize`, `RawCodec`). The generator is modelled as interpreters over a datatype of type
shapes: fields, option flags, skipped fields, enum tags.

**Group updates** (`GroupUpdate`). Acceptance of a new version of a group by the people who administer the last one, and
what follows for whole histories seen by different verifiers.

**The multi-disk chunk cache** (`ChunkPlacement`, `ChunkHistory`, `ChunkCache`, `ChunkRescan`). Weighted rendezvous placement, the
hash-linked history of disk lists, lazy migration and weight hysteresis, as a class over maps. What it must agree with is
simple: a get succeeds for exactly those chunks whose file is where some list of the history places it, on a disk that is
mounted.

**The service registry** (`ServiceRegistry`). Every lock section of a concurrent caller is one step, and any caller may
take the next step.

**Ranges, files and sequence numbers** (`RangeReader`, `FileAssembly`, `TempSeq`).

Where the source updates things in place the model does too: classes and array-updating methods whose `ensures` tie
result and new state to a specification function, about which the theorems are proved.

## What the code turns out to do

Some laws hold only under conditions, and the model states them exactly:

- The documentation of `Token` allows `bytes64` and `bytes1024`. The decoder always moves on by one word, so only `bytes1`
  to `bytes32` survive before another value (`FixedBytesExactly`, and `StaticExactly` for every list of static types). `type_check` is looser than the round trip needs (`TypeCheckIsTooWeak`).
- An empty fixed array of a dynamic type is encoded as nothing and decoded through an offset (`EmptyFixedArrayExactly`),
  and a dynamic fixed array is sliced without a bounds check (`PanicsExactly`).
- A derived newtype struct over an `Option` writes a flag and a presence byte and reads only one
  (`NewtypeOptionExactly`). A skipped option field has a bit when writing and none when reading
  (`SkippedOptionsExactly`), and an enum variant whose named fields are all skipped is written without the flag that is
  read for it (`AllSkippedVariantLost`).
- A group whose admins include no person can be updated without any admin's signature (`ForksExactly`).
- An existence check on the chunk cache takes any file at the target for a copy (`ExistsLosesExactly`).
- A range that ends past the chunk is never finished: the range reader answers zero bytes although later ranges are
  left (`ExhaustsExactly`).
- The counter of SHA-512 loses bits of pieces of 2^61 bytes and more (`AddBitsExactly`).

## Model

| member | source | states |
|---|---|---|
| `AbiTypes.DynamicAgrees` | src/3rd/ethabi/src/token/token.rs:216-224 | on canonical types the encoder (which asks the token) and the decoder (which asks the type) agree on what is dynamic |
| `AbiEncoder.PadFixedBytes` | src/3rd/ethabi/src/encoder.rs:13-37 | the in-place padding loop yields the zero-padded words, and joined they are the bytes followed by the fewest zeros to a multiple of 32 |
| `AbiEncoder.PadU32Wraps` | src/3rd/ethabi/src/util.rs:14-18 | a count or offset word is the 32-byte number of its lower 32 bits |
| `AbiEncoder.LayoutExact` | src/3rd/ethabi/src/encoder.rs:51-103 | for every mediate tree and offset, the words written for head and tail number exactly `head_len` and `tail_len` over 32 |
| `AbiEncoder.OffsetsPointAtTails` | src/3rd/ethabi/src/encoder.rs:105-121 | in the block of any mediate list, the i-th head and the i-th tail stand where the running lengths say, and a prefixed head is the byte offset of its own tail in that block |
| `AbiEncoder.SizeExact` | src/3rd/ethabi/src/encoder.rs:130-174 | a token is encoded as prefixed exactly when it is dynamic, and its head and tail lengths are those of the Solidity specification |
| `AbiEncoder.EncodeSize` | src/3rd/ethabi/src/encoder.rs:124-128 | the number of bytes is the specified one even where 32-bit counts and offsets wrap |
| `AbiEncoder.EncodeMeetsSpec` | src/3rd/ethabi/src/encoder.rs:124-174 | the encoder writes the bytes of the recursive definition in "Formal Specification of the Encoding"; where offsets are written, whenever they number less than 2^32 |
| `AbiDecoder.Peek` | src/3rd/ethabi/src/decoder.rs:66-88 | a peek never slices out of bounds, and succeeds if and only if the bytes are there, with just those bytes |
| `AbiDecoder.AsUsizeExactly` | src/3rd/ethabi/src/decoder.rs:20-31 | a word is read as the number it is if and only if that is below 2^32 |
| `AbiDecoder.Decode` | src/3rd/ethabi/src/decoder.rs:42-64 | the decoding loop with its empty-input gate computes the recursive reader `Decoded`, which `AbiReader.DecodedExactly` characterises on every input |
| `AbiDecoder.DecodeParam` | src/3rd/ethabi/src/decoder.rs:90-216 | the recursive walk with its offset loops computes the reader `DecodedParam`, error and panic cases included; what that is on every input, `AbiReader.ParamExactly` and `ParamBreaksExactly` say |
| `AbiDecoder.DecodedParamShape` | src/3rd/ethabi/src/decoder.rs:90-216 | on arbitrary bytes: a result has the type asked for, the new offset is the old one plus a size that depends only on the type, and types without dynamic fixed arrays never slice out of bounds |
| `AbiDecoder.DecodeAnyBytes` | src/3rd/ethabi/src/decoder.rs:42-216 | the same for whole parameter lists |
| `AbiDecoder.FixedArrayPanicsExactly` | src/3rd/ethabi/src/decoder.rs:161-181 | some input makes the unguarded slice of one fixed array, canonical or not, panic if and only if its element type is dynamic |
| `AbiDecoder.PanicsExactly` | src/3rd/ethabi/src/decoder.rs:90-216 | for every list of canonical types: some input makes the decoder slice out of bounds if and only if a dynamic fixed array occurs anywhere in the types, however deep |
| `AbiDecoder.DecodedParamAt` | src/3rd/ethabi/src/decoder.rs:90-216 | the frame: a token whose head stands at the offset and whose tail stands where the head says is read back whatever all other bytes are |
| `AbiDecoder.DecodedParamsAt` | src/3rd/ethabi/src/decoder.rs:54-63 | the same for a run of heads with their tails, for any bases of the two |
| `AbiDecoder.RoundTrip` | src/3rd/ethabi/src/encoder.rs:124-174 | for canonical types, any nesting and any suffix, decoding the encoding gives the tokens back if and only if they are values of the types and the empty-input gate lets the bytes through |
| `AbiDecoder.EncodeInjective` | src/3rd/ethabi/src/encoder.rs:124-174 | two token lists of one type list with equal encodings are equal |
| `AbiStatic.StaticExactly` | src/3rd/ethabi/src/decoder.rs:90-216 | for every list of static types, nested or not, canonical or not: all values survive with any suffix if and only if every leaf is read inside the encoding and where it was written, and the gate lets an empty encoding through |
| `AbiStatic.FixedBytesExactly` | src/3rd/ethabi/src/decoder.rs:113-119 | so a number after `bytesN` survives for all values if and only if 1 <= N <= 32, although `Token` documents larger sizes |
| `AbiWide.WideExactly` | src/3rd/ethabi/src/decoder.rs:90-216 | one fixed-bytes type of more than 32 bytes in any list of otherwise canonical types, dynamic ones included: all values survive with any suffix if and only if nothing is read after it |
| `AbiWide.EmptyArrayAfterBytes` | src/3rd/ethabi/src/decoder.rs:161-181 | an empty fixed array of a dynamic type, lost when alone, survives after one byte string, whose length word is read as its offset |
| `AbiDecoder.EmptyFixedArrayExactly` | src/3rd/ethabi/src/decoder.rs:161-181 | an empty fixed array survives exactly when its element type is static |
| `AbiDecoder.TypeCheckIsTooWeak` | src/3rd/ethabi/src/token/token.rs:93-133 | `type_check` accepts a short fixed-bytes value that does not come back |
| `AbiDecoder.TypeCheckExactly` | src/3rd/ethabi/src/token/token.rs:93-133 | a token is a value of the type, as the round trip asks, if and only if it passes `type_check` and no fixed bytes or tuple in it is short |
| `AbiReader.BoolExactly` | src/3rd/ethabi/src/decoder.rs:33-39 | a word is a flag if and only if its first 31 bytes are zero, and true if and only if its last is 1 |
| `AbiReader.StringExactly` | src/3rd/ethabi/src/decoder.rs:120-142 | for every input: a byte string is read if and only if the word at the offset is a number p below 2^32, the word at p a number n below 2^32 and n bytes follow it, padded or not; it is those bytes |
| `AbiReader.ParamExactly` | src/3rd/ethabi/src/decoder.rs:90-216 | for every type, input and offset: the decoder answers a token, and moves on by the size of the type, if and only if the bytes hold it there, said of the bytes alone (`Reads`) |
| `AbiReader.ParamBreaksExactly` | src/3rd/ethabi/src/decoder.rs:90-216 | it panics if and only if, before anything unreadable, a fixed array of a dynamic type points past the end (`Breaks`); every other refusal is InvalidData |
| `AbiReader.DecodedExactly` | src/3rd/ethabi/src/decoder.rs:42-64 | the same for whole inputs, with the empty-input gate: which of the four answers, and which tokens |
| `Sha256Bits.ChooseIsCh` | src/3rd/cyfs-sha2/src/sha256_utils.rs:69-71 | the three-operation selector is the Ch function of FIPS 180-4 |
| `Sha256Bits.ShiftsAreRotations` | src/3rd/cyfs-sha2/src/sha256_utils.rs:25-30 | the shift form of sigma0 is the rotation form of FIPS 180-4 |
| `Sha256Bits.ChExactly` | src/3rd/cyfs-sha2/src/sha256_utils.rs:69-71 | bit by bit: Ch takes the second word where the first has a one and the third elsewhere |
| `Sha256Bits.MajExactly` | src/3rd/cyfs-sha2/src/sha256_utils.rs:72-74 | bit by bit: Maj is the majority |
| `Sha256Bits.BigSigma0Exactly` | src/3rd/cyfs-sha2/src/sha256_utils.rs:63-65 | bit i is the parity of bits i+2, i+13 and i+22, modulo 32 |
| `Sha256Bits.BigSigma1Exactly` | src/3rd/cyfs-sha2/src/sha256_utils.rs:66-68 | bit i is the parity of bits i+6, i+11 and i+25 |
| `Sha256Bits.Sigma0Exactly` | src/3rd/cyfs-sha2/src/sha256_utils.rs:25-30 | bit i is the parity of bits i+7 and i+18 and, where there is one, bit i+3 |
| `Sha256Bits.Sigma1Exactly` | src/3rd/cyfs-sha2/src/sha256_utils.rs:38-40 | bit i is the parity of bits i+17 and i+19 and, where there is one, bit i+10 |
| `Sha256Block.ScheduleStep` | src/3rd/cyfs-sha2/src/sha256_utils.rs:21-58 | one step on lane-reversed vectors yields the next four words of the message schedule |
| `Sha256Block.TwoRounds` | src/3rd/cyfs-sha2/src/sha256_utils.rs:61-99 | one call of the two-round function does two rounds of section 6.2.2 and trades the register pairs |
| `Sha256Block.FourRounds` | src/3rd/cyfs-sha2/src/sha256_utils.rs:111-120 | with the lane-reversed constants of K32X4 the macro does rounds 4i to 4i+3 |
| `Sha256Block.DigestBlock` | src/3rd/cyfs-sha2/src/sha256_utils.rs:102-168 | for every state and block, the unrolled code with five rotating registers leaves in the state array the compression function of section 6.2.2, whose word functions and constants `Sha256Bits` and `ShaConstants` characterise |
| `Sha512Bits.ChooseIsCh` | src/3rd/cyfs-sha2/src/sha512_utils.rs:51-53 | the selector is the Ch function |
| `Sha512Bits.ShiftsAreRotations` | src/3rd/cyfs-sha2/src/sha512_utils.rs:18-27 | the shift forms of sigma0 and sigma1 are the rotation forms |
| `Sha512Bits.ChExactly` | src/3rd/cyfs-sha2/src/sha512_utils.rs:51-53 | Ch bit by bit |
| `Sha512Bits.MajExactly` | src/3rd/cyfs-sha2/src/sha512_utils.rs:54-56 | Maj bit by bit |
| `Sha512Bits.BigSigma0Exactly` | src/3rd/cyfs-sha2/src/sha512_utils.rs:45-47 | bit i is the parity of bits i+28, i+34 and i+39, modulo 64 |
| `Sha512Bits.BigSigma1Exactly` | src/3rd/cyfs-sha2/src/sha512_utils.rs:48-50 | bit i is the parity of bits i+14, i+18 and i+41 |
| `Sha512Bits.Sigma0Exactly` | src/3rd/cyfs-sha2/src/sha512_utils.rs:17-20 | bit i is the parity of bits i+1 and i+8 and, where there is one, bit i+7 |
| `Sha512Bits.Sigma1Exactly` | src/3rd/cyfs-sha2/src/sha512_utils.rs:22-25 | bit i is the parity of bits i+19 and i+61 and, where there is one, bit i+6 |
| `ShaConstants.PrimesExactly` | src/3rd/cyfs-sha2/src/consts.rs:11-124 | the table of primes that the constants are taken from has exactly the primes up to 409, in order |
| `ShaConstants.RootsUnique` | src/3rd/cyfs-sha2/src/consts.rs:11-124 | the roots below are unique, so the constants can have no other values |
| `ShaConstants.K32IsCubeRoot` | src/3rd/cyfs-sha2/src/consts.rs:11-24 | constant t is the first 32 bits of the fractional part of the cube root of prime t |
| `ShaConstants.K64IsCubeRoot` | src/3rd/cyfs-sha2/src/consts.rs:43-123 | constant t is the first 64 bits of the fractional part of the cube root of prime t |
| `ShaConstants.H256IsSquareRoot` | src/3rd/cyfs-sha2/src/consts.rs:170-172 | the first 32 bits of the fractional parts of the square roots of the first eight primes |
| `ShaConstants.H224IsSquareRoot` | src/3rd/cyfs-sha2/src/consts.rs:166-168 | the second 32 bits of those of the ninth to sixteenth primes |
| `ShaConstants.H512IsSquareRoot` | src/3rd/cyfs-sha2/src/consts.rs:179-182 | the first 64 bits of those of the first eight primes |
| `ShaConstants.H384IsSquareRoot` | src/3rd/cyfs-sha2/src/consts.rs:174-177 | the first 64 bits of those of the ninth to sixteenth primes |
| `Sha512Block.ScheduleStep` | src/3rd/cyfs-sha2/src/sha512_utils.rs:14-38 | one step yields the next two words of the schedule |
| `Sha512Block.OneRound` | src/3rd/cyfs-sha2/src/sha512_utils.rs:41-73 | the round function on register pairs is one round of section 6.4.2, and the other three pairs only move |
| `Sha512Block.DigestBlock` | src/3rd/cyfs-sha2/src/sha512_utils.rs:76-185 | for every state and block, the unrolled code with ten rotating registers leaves the compression function of section 6.4.2, whose word functions and constants `Sha512Bits` and `ShaConstants` characterise |
| `BlockStream.PadWhole` | src/3rd/cyfs-sha2/src/sha256.rs:76-80 | the padded message is a whole number of blocks, with the fewest zeros possible (section 5.1) |
| `BlockStream.AbsorbSplit` | src/3rd/cyfs-sha2/src/sha256.rs:69-74 | absorbing what is pending followed by new data is absorbing the whole message, for any compression function and block size |
| `BlockStream.AbsorbPadded` | src/3rd/cyfs-sha2/src/sha256.rs:76-80 | closing with one or two blocks, as the room for the length decides, absorbs exactly the padded message |
| `Sha256Engine.Engine256.Input` | src/3rd/cyfs-sha2/src/sha256.rs:69-74 | an engine that stands for a message (counter, buffer and hash) stands after input for the message extended by the data; less than a block is left pending in any case |
| `Sha256Engine.Engine256.Finish` | src/3rd/cyfs-sha2/src/sha256.rs:76-80 | finishing leaves the hash of the message the engine stands for, as in sections 5.1.1 and 6.2.2 |
| `Sha256Engine.Engine256.From` | src/3rd/cyfs-sha2/src/sha256.rs:94-101 | a resumed engine stands for the message read so far if and only if its counter and hash are right and that message is a whole number of blocks |
| `Sha256Engine.HashPieces` | src/3rd/cyfs-sha2/src/sha256.rs:133-185 | any way of cutting a message into pieces gives the SHA-256 or SHA-224 digest of their concatenation |
| `Sha256Engine.HashResumed` | src/3rd/cyfs-sha2/src/sha256.rs:88-127 | saving at a 64-byte boundary and resuming does not change the digest |
| `Sha512Engine.AddBitsExactly` | src/3rd/cyfs-sha2/src/sha512.rs:51-57 | the two-word counter moves by the number of bits modulo 2^128 if and only if the piece is below 2^61 bytes |
| `Sha512Engine.CounterBytes` | src/3rd/cyfs-sha2/src/sha512.rs:59-63 | the two words written one after the other are the 128-bit number of section 5.1.2 |
| `Sha512Engine.Engine512.Input` | src/3rd/cyfs-sha2/src/sha512.rs:51-57 | input of any slice absorbs it, and keeps the two-word counter right if and only if the slice is below 2^61 bytes |
| `Sha512Engine.Engine512.Finish` | src/3rd/cyfs-sha2/src/sha512.rs:59-63 | finishing leaves the hash of the whole message padded with the counter, which is the hash of sections 5.1.2 and 6.4.2 when the counter is right |
| `Sha512Engine.FixedResult` | src/3rd/cyfs-sha2/src/sha512.rs:93-225 | the words written out, and for SHA-512/224 the upper half of one more, are the leftmost bytes of the hash value |
| `Sha512Engine.HashPieces` | src/3rd/cyfs-sha2/src/sha512.rs:80-225 | any way of cutting a message into pieces below 2^61 bytes gives its SHA-512, SHA-384, SHA-512/256 or SHA-512/224 digest |
| `VarSize.SizeRoundTrip` | src/component/cyfs-base/src/codec/raw/raw_types.rs:363-448 | every size below the limit is read back with any bytes after it |
| `VarSize.SizeWidth` | src/component/cyfs-base/src/codec/raw/raw_types.rs:371-424 | a size takes the measured number of bytes, the least of 1, 2, 4 and 8 that has room beside two tag bits, and the top bits of its first byte say which: 00, 01, 11, 10 |
| `VarSize.SizeReadExactly` | src/component/cyfs-base/src/codec/raw/raw_types.rs:426-455 | for every buffer: a size is read if and only if the bytes announced by the first are there, as their number without the tag, and the rest is left |
| `RawCodec.SetFlag` | src/component/cyfs-base-derive/src/en.rs:590-691 | the generated statements build the number whose bit i is the presence of option i |
| `RawCodec.FlagBit` | src/component/cyfs-base-derive/src/en.rs:783-871 | bit i of that number is read back as the presence of option i |
| `RawCodec.FlagFits` | src/component/cyfs-base-derive/src/en.rs:647-681 | up to 128 options fit the integer type the generator picks |
| `RawCodec.FlagWidthLeast` | src/component/cyfs-base-derive/src/en.rs:647-681 | there is no flag without options, and else it is the narrowest of the six integer types with a bit for every one |
| `RawCodec.OptionReadExactly` | src/component/cyfs-base/src/codec/raw/raw_types.rs:2011-2024 | for every buffer: a tag byte of 1 is followed by the value, and any other byte is an absent one |
| `RawCodec.BlobReadExactly` | src/component/cyfs-base-derive/src/de.rs:219-236 | for every buffer: a byte vector is read if and only if its size is there and as many bytes as that says |
| `RawCodec.ListReadExactly` | src/component/cyfs-base/src/codec/raw/raw_types.rs:713-735 | for every buffer: a list is read if and only if its size is there, below 2^32, and as many items follow |
| `RawCodec.EnumReadExactly` | src/component/cyfs-base-derive/src/de.rs:379-568 | for every buffer: an enum is read if and only if the index of one of its variants is there and the fields of that variant follow |
| `RawCodec.MeasureExact` | src/component/cyfs-base-derive/src/en.rs:196-1003 | for every shape and value, the measured size is the number of bytes written, variants without a field to write included |
| `RawCodec.RoundTrip` | src/component/cyfs-base-derive/src/en.rs:196-1003 | for every lawful shape, value and suffix, decoding the encoding gives the value with its skipped fields reset, and exactly the suffix |
| `RawCodec.StructLayout` | src/component/cyfs-base-derive/src/en.rs:196-691 | the flag stands first, with a bit for every option in order, and each field where the measured sizes of those before it say |
| `RawCodec.NeverConfused` | src/component/cyfs-base-derive/src/de.rs:379-568 | no encoding is a prefix of another value's, so enum variants are never confused |
| `RawCodec.NewtypeOptionExactly` | src/component/cyfs-base-derive/src/en.rs:169-194 | a newtype struct over an Option is read back for all values if and only if option optimisation is off |
| `RawCodec.DecodedBits` | src/component/cyfs-base-derive/src/de.rs:267-377 | whatever bytes are decoded, the options that are not skipped are present as the flag says, in order |
| `RawCodec.BodyExactly` | src/component/cyfs-base-derive/src/de.rs:294-377 | for every value, the fields are read back if and only if the bits the decoder looks at are the first ones the encoder wrote |
| `RawCodec.SkippedOptionsExactly` | src/component/cyfs-base-derive/src/en.rs:873-1003 | all values of a struct with named fields are read back, with any suffix, if and only if no skipped option field stands before one that is not skipped |
| `RawCodec.AllSkippedVariantLost` | src/component/cyfs-base-derive/src/en.rs:538-588 | an enum variant whose named fields are all skipped, optimised options among them, is never read back, whatever follows: it is written without a flag and read with one |
| `RawCodec.NamedVariantExactly` | src/component/cyfs-base-derive/src/de.rs:477-553 | for every enum and every variant of it with named fields: all its values are read back, with any suffix, if and only if no skipped option field stands before one that is not, and some field is not skipped if there are options |
| `GroupUpdate.AcceptedExactly` | src/component/cyfs-base-meta/src/group.rs:82-237 | an update is accepted if and only if link, quorum, disjointness of additions and signatures of the added hold, where signed is what `SignedExactly` says |
| `GroupUpdate.AcceptedFirstExactly` | src/component/cyfs-base-meta/src/group.rs:134-155 | a first version is accepted if and only if it names no predecessor, has admins, among them the founder if there is one, and all its people signed it, nobody in both roles |
| `GroupUpdate.RefusedExactly` | src/component/cyfs-base-meta/src/group.rs:82-237 | which error a refused update gets: Unmatch if and only if it does not follow the latest version, InvalidSignature if and only if it does and signatures are missing |
| `GroupUpdate.VerifySignatureExactly` | src/component/cyfs-base-meta/src/group.rs:10-38 | a list of signatures vouches for a person if and only if the first one that names them passes the check; it is NotFound if and only if none names them |
| `GroupUpdate.SignedExactly` | src/component/cyfs-base-meta/src/group.rs:40-63 | a person has signed if and only if they can be looked up and, of the description and of the body, the first signature that names them passes with their key on the hash |
| `GroupUpdate.HalfSilentRefused` | src/component/cyfs-base-meta/src/group.rs:203-212 | if no signature passes under the keys of half of the last admins, no successor is accepted |
| `GroupUpdate.LinksHold` | src/component/cyfs-base-meta/src/group.rs:107-115 | along every accepted history versions rise by one (modulo 2^64), the group id stays and each version names its predecessor's shell |
| `GroupUpdate.QuorumsMeet` | src/component/cyfs-base-meta/src/group.rs:203-212 | two strict majorities of one set of admins share a member |
| `GroupUpdate.SameSuccessor` | src/component/cyfs-base-meta/src/group.rs:203-212 | two accepted successors of one version have the same content, if no admin of it signs two |
| `GroupUpdate.Agreement` | src/component/cyfs-base-meta/src/group.rs:82-237 | if no admin signs two successors of one version and every version has a person as admin, two verifiers that accept histories from one first version hold histories of which one is a prefix of the other |
| `GroupUpdate.ForksExactly` | src/component/cyfs-base-meta/src/group.rs:203-212 | a version, simple group or organisation, has two different accepted successors that no admin of it signed both of, if and only if no person is among its admins |
| `GroupUpdate.StayBegan` | src/component/cyfs-base-meta/src/group.rs:162-176 | the version where the current unbroken stay of a person in a role began |
| `GroupUpdate.Consent` | src/component/cyfs-base-meta/src/group.rs:162-237 | in every accepted history, every person in a role signed (`SignedExactly`) the version where their current stay began |
| `ChunkPlacement.SelectDisk` | src/component/cyfs-chunk-cache/src/local_chunk_cache.rs:329-376 | the search of alloc and get, with its shortcut for one disk, yields the placement `Place`; both calls are this search, so they agree |
| `ChunkPlacement.SelectRecorded` | src/component/cyfs-chunk-cache/src/local_chunk_cache.rs:384-398 | the search over a recorded list yields the same placement without the shortcut |
| `ChunkPlacement.PlaceExactly` | src/component/cyfs-chunk-cache/src/local_chunk_cache.rs:329-352 | without ties the placement is the one disk that scores higher than every other |
| `ChunkPlacement.ScoreExactly` | src/component/cyfs-chunk-cache/src/local_chunk_cache.rs:335-342 | a disk scores higher than another if and only if its logarithm times the other weight is greater than the other way round |
| `ChunkPlacement.PlaceAnyOrder` | src/component/cyfs-chunk-cache/src/local_chunk_cache.rs:354-376 | the order of the list does not matter |
| `ChunkPlacement.AddingMovesOnlyOntoIt` | src/component/cyfs-chunk-cache/src/local_chunk_cache.rs:329-376 | after adding a disk anywhere in the list, a chunk is on that disk or where it was |
| `ChunkPlacement.RemovingMovesOnlyItsChunks` | src/component/cyfs-chunk-cache/src/local_chunk_cache.rs:329-376 | after removing a disk only its chunks move |
| `ChunkPlacement.RaisingMovesOnlyOntoIt` | src/component/cyfs-chunk-cache/src/local_chunk_cache.rs:329-376 | after raising one weight, a chunk is on that disk or where it was, and the chunks of that disk stay |
| `ChunkHistory.CheckSame` | src/component/cyfs-chunk-cache/src/local_chunk_cache.rs:31-50 | the nested loops decide: equal lengths, and every recorded disk with its weight in the new list |
| `ChunkHistory.IsSameExactly` | src/component/cyfs-chunk-cache/src/local_chunk_cache.rs:31-50 | with distinct paths that is equality up to order |
| `ChunkHistory.GetWeight` | src/component/cyfs-chunk-cache/src/local_chunk_cache.rs:52-59 | the first weight recorded for a path |
| `ChunkHistory.AddRecordOk` | src/component/cyfs-chunk-cache/src/local_chunk_cache.rs:72-78 | a new record keeps the history linked by hash and weighted |
| `ChunkHistory.WeighDisks` | src/component/cyfs-chunk-cache/src/local_chunk_cache.rs:257-300 | the second pass of a rescan gives every listed disk the weight `Weigh` of the recorded weights |
| `ChunkHistory.WeighRecorded` | src/component/cyfs-chunk-cache/src/local_chunk_cache.rs:259-298 | the branches of the hysteresis compute `Reweigh` |
| `ChunkHistory.ReweighExactly` | src/component/cyfs-chunk-cache/src/local_chunk_cache.rs:259-298 | in whole numbers: the recorded weight is kept, or replaced by what the disk holds in all, exactly when that has moved by the stated shares and amounts |
| `ChunkHistory.ReweighTwice` | src/component/cyfs-chunk-cache/src/local_chunk_cache.rs:259-298 | weighing again against the weight just given keeps it |
| `ChunkHistory.WeighedTwice` | src/component/cyfs-chunk-cache/src/local_chunk_cache.rs:256-300 | the same for a whole list |
| `ChunkHistory.WeighedOk` | src/component/cyfs-chunk-cache/src/local_chunk_cache.rs:222-300 | the new list has distinct paths and weights of at least 2 |
| `ChunkCache.ScanDisks` | src/component/cyfs-chunk-cache/src/local_chunk_cache.rs:222-254 | the first pass finds the metadata and the disks that `ChunkRescan.RefreshedList` describes |
| `ChunkCache.LocalChunkCache.constructor` | src/component/cyfs-chunk-cache/src/local_chunk_cache.rs:195-208 | a new cache is an empty one rescanned |
| `ChunkCache.LocalChunkCache.RefreshCache` | src/component/cyfs-chunk-cache/src/local_chunk_cache.rs:222-320 | a rescan takes the state to `Refreshed`, which `RefreshedList` and `RefreshedRecord` describe; from then on the scanned disks are the ones that can be read |
| `ChunkCache.LocalChunkCache.PutFile` | src/component/cyfs-chunk-cache/src/local_chunk_cache.rs:811-874 | writing piece by piece, verifying and removing on failure stores all of the bytes or nothing |
| `ChunkCache.LocalChunkCache.FindFromPrev` | src/component/cyfs-chunk-cache/src/local_chunk_cache.rs:378-409 | the loop back through the history takes the files to `Migrated`, reading mounted disks only |
| `ChunkCache.LocalChunkCache.GetChunk` | src/component/cyfs-chunk-cache/src/local_chunk_cache.rs:443-460 | a get takes result and state to `Get` |
| `ChunkCache.LocalChunkCache.IsExist` | src/component/cyfs-chunk-cache/src/local_chunk_cache.rs:485-498 | an existence check takes result and state to `Exists` |
| `ChunkCache.LocalChunkCache.PutChunk` | src/component/cyfs-chunk-cache/src/local_chunk_cache.rs:480-483 | a put takes result and state to `Put` |
| `ChunkCache.MigratedExactly` | src/component/cyfs-chunk-cache/src/local_chunk_cache.rs:378-409 | if the files of this chunk match, a migration succeeds if and only if some earlier record places the chunk on a mounted disk that has it; then the target has it |
| `ChunkCache.FoundNewest` | src/component/cyfs-chunk-cache/src/local_chunk_cache.rs:378-409 | the file found is the one of the newest record that places the chunk on a mounted disk that has it |
| `ChunkCache.MigratedMoves` | src/component/cyfs-chunk-cache/src/local_chunk_cache.rs:378-409 | whatever the files hold, a migration that succeeds removes the file it found and no other, and adds at most the target, with the bytes found; one that fails changes nothing |
| `ChunkCache.MigratedOthers` | src/component/cyfs-chunk-cache/src/local_chunk_cache.rs:378-409 | whatever the files hold, a migration leaves those of other chunks alone |
| `ChunkCache.GetExactly` | src/component/cyfs-chunk-cache/src/local_chunk_cache.rs:443-460 | if the files of this chunk match, a get succeeds if and only if some record places it on a mounted disk that has it, with bytes matching its id; a failed get changes nothing |
| `ChunkCache.ExistsExactly` | src/component/cyfs-chunk-cache/src/local_chunk_cache.rs:485-498 | an existence check answers true if and only if some record places the chunk on a mounted disk that has it; a false answer changes nothing |
| `ChunkCache.PutExactly` | src/component/cyfs-chunk-cache/src/local_chunk_cache.rs:811-912 | a put succeeds if and only if the length is right and the bytes match or a file is there already; no file is changed or removed |
| `ChunkCache.ExistsLosesExactly` | src/component/cyfs-chunk-cache/src/local_chunk_cache.rs:485-498 | whatever the files hold, an existence check removes a copy without leaving the right bytes at the placement if and only if the placement holds a file of the wrong length and the newest earlier record that finds one finds it on another disk with the right length |
| `ChunkCache.GetLosesNothing` | src/component/cyfs-chunk-cache/src/local_chunk_cache.rs:443-460 | whatever the files hold, a get never does that |
| `ChunkCache.NoDisk` | src/component/cyfs-chunk-cache/src/local_chunk_cache.rs:329-376 | without a disk nothing is found, nothing can be put and nothing changes |
| `ChunkCache.ApplyKeeps` | src/component/cyfs-chunk-cache/src/local_chunk_cache.rs:222-498 | no operation, on this chunk or another, takes the chunk off the disks the cache has listed |
| `ChunkCache.RunKeeps` | src/component/cyfs-chunk-cache/src/local_chunk_cache.rs:222-498 | over every allowed run the chunk stays on the disks the run lists, every record is linked to its predecessor's hash and every weight is at least 2 |
| `ChunkCache.NoChunkLost` | src/component/cyfs-chunk-cache/src/local_chunk_cache.rs:378-498 | after a successful put and any allowed run, with disks leaving and coming back, a disk listed since then holds bytes matching the id; when it is mounted a get returns such bytes and an existence check answers true |
| `ChunkCache.MountedHistoryExtends` | src/component/cyfs-chunk-cache/src/local_chunk_cache.rs:240-245 | a rescan extends the history when a disk that holds all of it is mounted and none knows more |
| `ChunkCache.FullDisksRemembered` | src/component/cyfs-chunk-cache/src/local_chunk_cache.rs:249-312 | after a rescan in which no disk had room, whose empty record is written nowhere, a rescan that reads the same history again forgets nothing |
| `ChunkCache.RefreshedInv` | src/component/cyfs-chunk-cache/src/local_chunk_cache.rs:222-320 | after a rescan the list is mounted and is the last record up to order |
| `ChunkCache.RefreshTwice` | src/component/cyfs-chunk-cache/src/local_chunk_cache.rs:222-320 | a second rescan of unchanged disks changes nothing: no record, no weight, no metadata file |
| `ChunkRescan.HasRoomExactly` | src/component/cyfs-chunk-cache/src/local_chunk_cache.rs:243-252 | a disk has more than one whole GiB free if and only if it has two |
| `ChunkRescan.RefreshedList` | src/component/cyfs-chunk-cache/src/local_chunk_cache.rs:222-300 | after a rescan the list has, in scan order, exactly the disks with two GiB or more free; one that the last record of the first longest metadata does not list weighs its free GiB, another what `Reweigh` gives for its recorded weight |
| `ChunkRescan.RefreshedRecord` | src/component/cyfs-chunk-cache/src/local_chunk_cache.rs:302-318 | a record is added if and only if the list is not the last recorded one up to order, and then every listed disk has the new history and every other its old one; no chunk file changes |
| `ChunkRescan.RefreshedNothing` | src/component/cyfs-chunk-cache/src/local_chunk_cache.rs:222-318 | a rescan that finds no disk leaves history and metadata |
| `ChunkRescan.PutAfterRescan` | src/component/cyfs-chunk-cache/src/local_chunk_cache.rs:222-352 | after a rescan, bytes that match a chunk can be put if and only if a disk with two GiB free was found |
| `ServiceRegistry.EntryOrInsert` | src/component/cyfs-group-lib/src/group_manager.rs:144-160 | the three-level entry inserts only where nothing was, returns what is there, and leaves every other path alone |
| `ServiceRegistry.RunInv` | src/component/cyfs-group-lib/src/group_manager.rs:124-162 | the invariant of the registry in every state of every interleaving |
| `ServiceRegistry.RunExtends` | src/component/cyfs-group-lib/src/group_manager.rs:124-162 | what is registered, answered or started stays so for the rest of the run |
| `ServiceRegistry.OneServicePerPath` | src/component/cyfs-group-lib/src/group_manager.rs:372-447 | under every interleaving, all callers of one path hold the same service, the one registered at the end |
| `ServiceRegistry.ServicesNotShared` | src/component/cyfs-group-lib/src/group_manager.rs:372-447 | callers of different paths never hold the same service |
| `ServiceRegistry.StartedOnce` | src/component/cyfs-group-lib/src/group_manager.rs:440-443 | no service is started twice by the manager |
| `ServiceRegistry.StartedByWinner` | src/component/cyfs-group-lib/src/group_manager.rs:404-443 | a start is called only by the find_or_restart_service whose insertion registered the service under a path that had none |
| `ServiceRegistry.WinnerPays` | src/component/cyfs-group-lib/src/group_manager.rs:430-443 | in every later state, the caller whose insertion registered a service owes its start or has made it and returned the service |
| `ServiceRegistry.StartedExactlyOnce` | src/component/cyfs-group-lib/src/group_manager.rs:404-443 | so by the time it returns the service has been started, by it and exactly once |
| `ServiceRegistry.RegisteredBySomeone` | src/component/cyfs-group-lib/src/group_manager.rs:124-162 | every registered service was inserted by one step of a find_or_restart_service, which owes its start, or of a start_rpath_service |
| `ServiceRegistry.HandedNeverStarted` | src/component/cyfs-group-lib/src/group_manager.rs:124-162 | a service that start_rpath_service registered is never started by the manager |
| `ServiceRegistry.AnswersMeant` | src/component/cyfs-group-lib/src/group_manager.rs:372-447 | in every state of every run, InvalidParam, NotFound, Reject and DelegateFailed are answered only to the calls they are meant for, and a call for another application gets InvalidParam |
| `ServiceRegistry.OwnApplicationOnly` | src/component/cyfs-group-lib/src/group_manager.rs:380-388 | no service of another application is ever registered |
| `ServiceRegistry.RegisteredIsFound` | src/component/cyfs-group-lib/src/group_manager.rs:390-400 | a call that begins after its path has a service answers that service |
| `ServiceRegistry.NotFoundMeant` | src/component/cyfs-group-lib/src/group_manager.rs:164-185 | a call that answers NotFound was made while its path had none |
| `ServiceRegistry.DelegateExactly` | src/component/cyfs-group-lib/src/group_manager.rs:402-446 | a call gets past the factory if and only if there is one and it hands out a delegate |
| `ServiceRegistry.StepProgress` | src/component/cyfs-group-lib/src/group_manager.rs:372-447 | every step of a call brings it closer to its answer, and moves no other call |
| `RangeReader.ChunkReadWithRanges.PollRead` | src/component/cyfs-chunk-lib/src/chunk.rs:155-234 | one poll yields the answer, the ranges left and the bytes of `Polled`, and leaves the rest of the buffer alone |
| `RangeReader.PollExactly` | src/component/cyfs-chunk-lib/src/chunk.rs:155-234 | for every poll: Pending, Failed or Ready, from the first nonempty range and what the reader does; a Ready one has as many bytes as reader, buffer, range and chunk all allow, and its range then starts that much later |
| `RangeReader.PolledBytes` | src/component/cyfs-chunk-lib/src/chunk.rs:155-234 | what a poll delivers is taken off the front of what was left, whatever the reader answers |
| `RangeReader.DeliversInOrder` | src/component/cyfs-chunk-lib/src/chunk.rs:142-234 | over any polls, delivered bytes followed by the bytes of the ranges left are the bytes of the original ranges |
| `RangeReader.DeliversReach` | src/component/cyfs-chunk-lib/src/chunk.rs:142-234 | for any ranges and any polls, what is delivered is a prefix of the bytes of the ranges up to the first that ends past the chunk, and all of it once as many polls have progressed, whatever came in between |
| `RangeReader.ReachExactly` | src/component/cyfs-chunk-lib/src/chunk.rs:161-225 | that is all bytes if and only if no range that ends past the chunk stands before one that has bytes |
| `RangeReader.NothingExactly` | src/component/cyfs-chunk-lib/src/chunk.rs:161-225 | a progressing poll delivers nothing if and only if no range is left or the first one starts past the end |
| `RangeReader.ExhaustsExactly` | src/component/cyfs-chunk-lib/src/chunk.rs:142-234 | enough progressing polls deliver the bytes of all ranges if and only if no nonempty range that ends past the chunk stands before a range that has bytes |
| `FileAssembly.BuildChunkMap` | src/component/cyfs-chunk-cache/src/local_file.rs:271-282 | the loop maps exactly the chunks of the list, each to all its places in order |
| `FileAssembly.ExtentsPartition` | src/component/cyfs-chunk-cache/src/local_file.rs:271-282 | a byte position is in the file if and only if an extent covers it, and then one extent of one chunk, repeated chunks included |
| `FileAssembly.LocalFile.PutChunk` | src/component/cyfs-chunk-cache/src/local_file.rs:331-349 | a chunk that is not in the file changes nothing; another is written over each of its extents |
| `FileAssembly.WrittenAt` | src/component/cyfs-chunk-cache/src/local_file.rs:331-349 | putting a chunk sets the bytes of its occurrences and no others |
| `FileAssembly.AnyOrderAssembles` | src/component/cyfs-chunk-cache/src/local_file.rs:331-349 | putting each chunk at least once, in any order, over any old contents, leaves the concatenation of the chunks |
| `FileAssembly.ChunkByPos` | src/component/cyfs-chunk-cache/src/cached_file.rs:29-42 | the chunk that holds the position, or an error if and only if it is past the end |
| `FileAssembly.ReadSizeExactly` | src/component/cyfs-chunk-cache/src/cached_file.rs:68-99 | a read gives as many bytes as fit the buffer and are in the file |
| `FileAssembly.CachedFile.GetChunkByPos` | src/component/cyfs-chunk-cache/src/cached_file.rs:59-66 | the chunk is taken out of the map, or fetched; an error is a position past the end or a chunk not to be had |
| `FileAssembly.CachedFile.Read` | src/component/cyfs-chunk-cache/src/cached_file.rs:68-99 | from any position, the buffer gets exactly the flat slice as far as buffer and file go; an error leaves the bytes read before it, and comes only from a missing chunk |
| `TempSeq.WindowOrder` | src/component/cyfs-bdt/src/types.rs:108-123 | on nonzero numbers within half the range of a base, the comparison is that of the distances from the base, across the wrap too |
| `TempSeq.WindowTransitive` | src/component/cyfs-bdt/src/types.rs:108-123 | it is transitive there |
| `TempSeq.LaterIsGreaterExactly` | src/component/cyfs-bdt/src/types.rs:108-123 | for any counter distance below 2^32, generation order is seen if and only if the distance is below 2^31, or is 2^31 and crosses the wrap |
| `TempSeq.CompareExactly` | src/component/cyfs-bdt/src/types.rs:108-123 | for all pairs: which are equal, less and greater, zero included |
| `TempSeq.TransitiveExactly` | src/component/cyfs-bdt/src/types.rs:108-123 | of three numbers rising one after the other, the first compares as less than the third if and only if the steps together are below 2^31, or are 2^31 and cross the wrap; otherwise as greater |
| `TempSeq.TempSeqGenerator.Generate` | src/component/cyfs-bdt/src/types.rs:191-198 | a call returns the value of the next nonzero ticket of the counter |
| `TempSeq.InterleavedNonzero` | src/component/cyfs-bdt/src/types.rs:191-198 | with fewer than 2^32 calls, no interleaving of their increments returns zero |
| `TempSeq.ZeroReturned` | src/component/cyfs-bdt/src/types.rs:191-198 | that bound is exact: some interleaving of 2^32 calls does |
| `TempSeq.InterleavedOrder` | src/component/cyfs-bdt/src/types.rs:108-198 | of fewer than 2^32 interleaved calls, any two returned values within half the range are nonzero and compare in the order of the increments that returned them |
| `TempSeq.GenerationOrder` | src/component/cyfs-bdt/src/types.rs:183-199 | the numbers of any run of calls are nonzero, and any two within half the range compare in the order they were generated |
| `TempSeq.TicketsComplete` | src/component/cyfs-bdt/src/types.rs:191-198 | no number but zero is left out |

## Left out

- UTF-8: ABI strings are byte sequences, and lossy decoding is not modelled.
- Input and output: files, mapped memory, disk scanning, locks and the asynchronous runtime are maps, byte arrays,
  parameters and atomic steps. Failures of the disk itself are not modelled.
- RSA, Keccak, HMAC and signatures: arbitrary functions. The initial values of SHA-512/224 and SHA-512/256 are transcribed, not
  derived; all other constants of SHA-2 are proved to be the roots they stand for.
- The block buffer of the SHA-2 engines is modelled by its contract (pending bytes shorter than a block).
- Sha512Engine.HashPieces: promises the digest for pieces below 2^61 bytes, where the counter is right (`AddBitsExactly`).
- The optimised block functions for particular processors.
- AbiDecoder.RoundTrip: asks for canonical types and, where an offset is written, an encoding below 2^32 bytes, because
  offsets and counts are written in 32 bits. Outside canonical types the exact condition is stated for every list of
  static types, for one wide fixed-bytes type among canonical types, and for one empty dynamic fixed array alone; for
  other mixes it is not. Alignment does not decide them: `EmptyArrayAfterBytes` survives although a word is read that
  was not written for it.
- AbiWide.WideExactly: the small values that show a loss must themselves be in the range of 32-bit offsets.
- AbiDecoder.Peek: the sum of offset and length does not wrap, as it would in 64 bits for fixed bytes of nearly 2^64 bytes.
- AbiDecoder.PanicsExactly: the bytes that lead to the slice number less than 2^32 - 1, because an offset is 32 bits.
- AbiTypes.TypeCheck: refuses a tuple token with more items than its type, where the code panics on the index.
- RawCodec.RoundTrip: leaf codecs are fixed-width big-endian numbers and byte vectors; running out of buffer while
  encoding, custom attributes other than skip and option optimisation, and maps and sets are not modelled.
  Lists have at most 2^32 - 1 items, which is what the decoder accepts, and byte vectors fewer than 2^62 bytes, which is
  what a size can say. Some shapes are given the meaning of their templates although the generated code does not compile,
  such as a struct whose named fields are all skipped. A newtype struct over a byte vector is covered: both sides write
  its length and its bytes. A byte vector whose length is past the end of the buffer is an error here, where the code
  panics.
- GroupUpdate.LinksHold: versions are 64-bit and rise modulo 2^64.
- ChunkPlacement.Place: scores are reals, ties are excluded where order matters, and a hash of zero is excluded;
  rounding of 64-bit floats is not modelled.
- ChunkHistory.Reweigh: the ratios are reals; sums and differences wrap at 32 bits as without overflow checks.
- ChunkHistory.WeighedOk: asks for less than two EiB free and stored on a disk, so that no GiB count is cut to 32 bits.
- ChunkCache.NoChunkLost: rescans read a history that has the records in use, which is when a disk that holds them is
  mounted; ties are excluded for the chunk itself. A disk is taken away or comes back with a rescan, not between two of
  them. Deleting chunks and creating writable chunks (`delete_chunk`, `new_chunk`) are not modelled.
- ServiceRegistry: the nested maps are values in a state, not objects behind a lock; stopping a service and client
  registration are not modelled.
- FileAssembly.CachedFile.Read: the length of the file is the sum of its chunks, and a chunk that is fetched has the
  length its id names. Files whose chunk list is stored in another file are not modelled.
- FileAssembly.LocalFile.PutChunk: the chunk has at least the length its id names, as the raw copy needs.
- TempSeq.TempSeqGenerator.Generate: one call at a time; interleaved calls are `Interleaved`. The derived `Ord` of
  `TempSeq`, which is the plain order, is not modelled.
- MemChunk and LocalFileChunkMut writes, block links, response status bytes: they would only add easy members.
- Networking, bindings, ABI files in JSON, the contract executor and plain data definitions.
