# A verified model of ez: cryptography, HTTP heads and bodies, hashes, Base64

This project models four parts of the ez library in Dafny and proves what they are for: for all inputs, all
splits of the input into calls and all reachable states.

**Authenticated encryption** (`Poly1305*.dfy`, `ByteNumbers.dfy`, `ChaCha20*.dfy`, `CounterStream.dfy`, `Aead.dfy`). `Poly1305Spec`
defines the accumulator modulo 2^130 - 5 and the tag of section 2.5 of RFC 8439 on numbers; the class `Poly1305`
holds 32-bit limbs in 64-bit words (subset types `u32` and `u64`, so that every sum and product is proved to fit) and
is proved to compute it, whatever pieces the message comes in. `ChaCha20` is proved to produce the key stream of
consecutive counters over any sequence of calls, with the carry from word 12 to word 13. `ChaCha20Poly1305` composes
the two as section 2.8 of RFC 8439 does: layout at every position, round trip, and exactly which tags are accepted. The
functions that specify all this are themselves tied to RFC 8439 by its examples, computed step by step in `Poly1305Vector`
and `ChaCha20Vector`.

**HTTP/1.1** (`Chunked*.dfy`, `Hexadecimal.dfy`, `Http*.dfy`). The chunked decoder is a step per byte (`ChunkedSpec.Run`); the method
`Decode`, which rewrites its buffer in place and keeps its state between calls, is proved to be that fold, from which
independence of fragmentation and the round trip of the coding follow; `ChunkedGrammar` says without steps which bytes are
a message and which are refused. The head parser is specified a byte at a time
(`HttpSyntax`), and its loops that skip 16 or 8 bytes are proved to agree. `HttpGrammar` says, without scanning, which
bytes are a head: parsing succeeds with given slices and length if and only if they have that form; `HttpRefusal` says which
are refused, and `HttpDecision` that a buffer with the end of a head in it is decided. On top of it stand
stability under more input, the completeness check, reading piece by piece, and the inverse of the printer. The sender is a state machine
over whatever the channel takes.

**Hashes** (`BlockHash.dfy`, `Window.dfy`, `Sha*.dfy`, `WordMemory.dfy`, `Hmac.dfy`). SHA-1 and SHA-256 fold their
compression over the message padded as in section 5.1.1 of FIPS 180-4; the rolling schedule of 16 words is the full one of 80 or 64.
HMAC is the nested hash of section 2 of RFC 2104. The digests of "abc" are computed from the specification in `Sha1Vector`,
`Sha2Vector` and `ShaVector`.

**Base64** (`Base64*.dfy`). The loops are proved against recursive functions, and these against the two alphabets and against
each other: padded, unpadded and in the URL alphabet, decoded after encoding and encoded after decoding.

How the source is read:

- Bytes are `bv8` (or numbers below 256 in Base64), text is `string`; the parser asks for characters below 256 where its scanning does.
- In Poly1305 and Base64 `& 0xFFFFFFFF`, `>> 32` and the like are `%` and `/`; the final selection by a mask is a conditional.
- Words of the cipher and the hashes are `bv32`. Their round functions and loops are written over any type of word, with the
  operations as a parameter, and instantiated for `bv32`.
- The host is little-endian, as source/chacha20.cpp:159 and source/chacha20.cpp:222-223 take it to be.
- Exceptions of `set_key`, `set_iv` and `set_rounds` are results `ok == false`.
- `update` and `complete` have the same text in source/sha1.cpp and source/sha2.cpp; the class `Hasher` models both, with the algorithm as a field.
- The decoder's labels `Exit` and `Complete` and its falling through cases are values of type `Signal`.
- The SSE instruction is known by its documented result only; with `sse == false` the code without it is meant.
- A channel is known by the number of bytes it takes; that number is a parameter.
- `set_key` and `set_iv` do not touch the position in the current block, so statements about fresh streams are made for a cipher
  at a block boundary (`Unused(c.pos) == 0`), which a new object is at.

Four things the code does not do, stated as what it does: a head whose end is in the buffer is still waited for
when fewer than nine bytes are there from its version on (`RequestUndecidedExactly`, `ResponseUndecidedExactly`), `phr_parse_headers` on a lone empty line may fail the completeness check
(`HeadersPreCheck` says for which bytes), a status code without three digits is printed but not read (`ResponseReadExactly`), and an HMAC object whose
hash has been used hashes a long key together with what the hash was given before, `complete` not resetting it (`SetKey`, `BlockKeyOfUsed`).

## Model

| member | source | states |
|---|---|---|
| `Poly1305Spec.ModIsRemainder` | source/poly1305.cpp:210-251 | the residue used throughout is the remainder modulo 2^130 - 5 |
| `Poly1305Spec.AccumulateIsPolynomial` | source/poly1305.cpp:145-186 | absorbing a message block by block evaluates, modulo 2^130 - 5, the polynomial in r whose coefficients are the blocks with their added bit |
| `Poly1305Spec.TagValue` | source/poly1305.cpp:271-312 | the tag, read as a little-endian number, is that polynomial modulo 2^130 - 5, plus the second half of the key, modulo 2^128 |
| `Poly1305Vector.TagVector` | source/poly1305.cpp:77-333 | the specification gives the tag of the example of section 2.5.2 of RFC 8439, from the bytes of its key and text |
| `Poly1305Spec.LeNumOfLeBytes` | include/ez/common.hpp:123-128 | the little-endian bytes of a number stand for it modulo 256^n |
| `Poly1305Spec.BufferedBlock` | source/poly1305.cpp:118-122 | a full buffer becomes one step of the accumulator, the bytes fed staying the same |
| `Poly1305Spec.BufferedEnd` | source/poly1305.cpp:262-263 | what is left in the buffer is the last, short block, if there is one |
| `Poly1305Limbs.Columns` | source/poly1305.cpp:178-186 | the column sums of the schoolbook product are below 2^62 and together are the product |
| `Poly1305Limbs.FirstPass` | source/poly1305.cpp:197-218 | the first pass turns low + 2^130 * high into low + 5 * high, below 2^130 + 2^128 |
| `Poly1305Limbs.SecondPass` | source/poly1305.cpp:226-238 | the second pass does the same once more and leaves less than 2^130 |
| `Poly1305Limbs.FoldResidue` | source/poly1305.cpp:210-238 | low + 5 * high has the residue of low + 2^130 * high |
| `Poly1305Limbs.FinalSubtraction` | source/poly1305.cpp:271-288 | bit 130 of a + 5 tells whether the low limbs of a + 5 or of a are the residue |
| `Poly1305Limbs.SumModulo128` | source/poly1305.cpp:290-306 | carrying the sum with s leaves it modulo 2^128, nothing else being lost |
| `Poly1305Mac.KeyRWords` | source/poly1305.cpp:79-91 | masking the four words is clamping the sixteen bytes of section 2.5.1 of RFC 8439 |
| `Poly1305Mac.PaddedBlock` | source/poly1305.cpp:134-150 | the padded buffer stands for the number of the block plus 2^(8n), n being its size |
| `Poly1305Mac.Poly1305.PadBuffer` | source/poly1305.cpp:132-143 | the data, a one byte, and zeros up to 17 bytes |
| `Poly1305Mac.Poly1305.AddBlock` | source/poly1305.cpp:152-170 | the five limbs are the sum of accumulator and block; no carry is lost and the top limb is at most 5 |
| `Poly1305Mac.Poly1305.MultiplyAndReduce` | source/poly1305.cpp:172-252 | the limbs become a number below 2^130 with the residue of the product with r, so the last masks lose nothing |
| `Poly1305Mac.Poly1305.Transform` | source/poly1305.cpp:128-253 | one block step on limbs is (acc + block + 2^(8n)) * r modulo 2^130 - 5 |
| `Poly1305Mac.Poly1305.SetKey` | source/poly1305.cpp:77-102 | clamped r, s, a zero accumulator, an empty buffer |
| `Poly1305Mac.Poly1305.Update` | source/poly1305.cpp:106-124 | the bytes fed grow by the data, whatever is in the buffer; the key stays |
| `Poly1305Mac.Poly1305.Complete` | source/poly1305.cpp:257-333 | the digest is, as a little-endian number, the message polynomial of all bytes fed at r modulo 2^130 - 5, plus s, modulo 2^128; r and s are cleared |
| `ChaCha20Spec.QuarterRoundVector` | source/chacha20.cpp:183-197 | the quarter round gives the values of section 2.1.1 of RFC 8439 |
| `ChaCha20Vector.BlockVector` | source/chacha20.cpp:75-136 | key bytes, a 12-byte nonce and the counter 1 give the block of section 2.3.2 of RFC 8439 |
| `ChaCha20Vector.ShortKeyVector` | source/chacha20.cpp:82-92 | a 16-byte key, an 8-byte nonce and 8 rounds give the first block of test case TC8 of draft-strombergson-chacha-test-vectors |
| `ChaCha20Vector.DoubleRoundIs` | source/chacha20.cpp:206-217 | a double round is made of its four columns and then its four diagonals, each word going back to its place |
| `ChaCha20Spec.Rotations` | include/ez/common.hpp:6-6 | the shifts of the quarter round are rotations |
| `ChaCha20Spec.ConstantsAreAscii` | source/chacha20.cpp:82-102 | the literal words spell the constants of the cipher |
| `ChaCha20Spec.CounterNext` | source/chacha20.cpp:147-150 | words 12 and 13 count as one number modulo 2^64 |
| `ChaCha20Spec.CounterLater` | source/chacha20.cpp:142-153 | the n-th block has counter c + n modulo 2^64 |
| `ChaCha20Spec.NonceKept` | source/chacha20.cpp:147-150 | word 13, part of a 12-byte nonce, keeps its value until word 12 overflows |
| `ChaCha20Rounds.QuarterRoundAt` | source/chacha20.cpp:183-197 | the macro on four words of the array is the quarter round on these words; the others stay |
| `ChaCha20Rounds.ComputeBlock` | source/chacha20.cpp:199-224 | copying, mixing in place and adding gives the block function of the state; its values are those of `BlockVector` |
| `CounterStream.KeyAfter` | source/chacha20.cpp:140-179 | after i bytes the key stream goes on with byte i |
| `CounterStream.CombinedMore` | source/chacha20.cpp:140-179 | two calls produce what one call on both pieces produces and leave the same position, state and block |
| `ChaCha20Cipher.StreamByte` | source/chacha20.cpp:155-174 | byte i of the stream is combined with byte i % 64 of block i / 64 |
| `ChaCha20Cipher.StreamWords` | source/chacha20.cpp:155-174 | the key stream, read as little-endian words, is the block of the state |
| `ChaCha20Cipher.BlockCounter` | source/chacha20.cpp:144-153 | block n differs from the first in nothing but the counter, which is c + n |
| `ChaCha20Cipher.CryptMore` | source/chacha20.cpp:140-179 | the same for the cipher: any split equals one call |
| `ChaCha20Cipher.CryptTwice` | source/chacha20.cpp:63-71 | crypt from an equal start undoes crypt |
| `ChaCha20Cipher.OnlyStateMatters` | source/chacha20.cpp:75-136 | objects at a block boundary with equal states behave alike, whatever their old blocks |
| `ChaCha20Cipher.ChaCha20.NextBlock` | source/chacha20.cpp:144-153 | a used-up block is replaced by that of the state, which then counts on |
| `ChaCha20Cipher.ChaCha20.Turn` | source/chacha20.cpp:142-178 | one turn of the loop produces the next bytes of the stream, and leaves the rest of input and output |
| `ChaCha20Cipher.ChaCha20.Crypt` | source/chacha20.cpp:140-179 | the output is the input combined with the next bytes of the stream, or these alone without input; without output they are skipped; the object has moved on by as many bytes |
| `ChaCha20Cipher.ChaCha20.SetRounds` | source/chacha20.cpp:55-61 | 8, 12 and 20 rounds are accepted and nothing else |
| `ChaCha20Cipher.ChaCha20.SetKey` | source/chacha20.cpp:75-113 | keys of 16 and 32 bytes are accepted and fill words 0 to 11; the other words stay |
| `ChaCha20Cipher.ChaCha20.SetIv` | source/chacha20.cpp:117-136 | nonces of 8 and 12 bytes are accepted and fill words 12 to 15 after a zero counter; the other words stay |
| `Aead.Layout` | source/chacha20_poly1305.cpp:89-91 | the one-time key is the first half of the current block and the text is encrypted from the next block on |
| `Aead.MacInputLayout` | source/chacha20_poly1305.cpp:94-116 | what is authenticated, by position: the data, zeros to a multiple of 16, the text, zeros to one, the length of the data and then that of the text, as numbers of 64 bits |
| `Aead.LayoutUnique` | source/chacha20_poly1305.cpp:94-116 | this layout leaves no byte open |
| `Aead.MacInputInjective` | source/chacha20_poly1305.cpp:94-116 | below 2^64 bytes, different data or text are never authenticated as the same bytes |
| `Aead.MacIsTag` | source/chacha20_poly1305.cpp:93-118 | the authenticator is, as a number, the polynomial of whatever has that layout, under the one-time key |
| `Aead.BodyTwice` | source/chacha20_poly1305.cpp:91-91 | decrypting from the same state gives the text back |
| `Aead.SealThenOpen` | source/chacha20_poly1305.cpp:85-169 | two ciphers in the same state: the text is given back, and a tag is accepted if and only if it is a non-empty prefix of the one computed when encrypting |
| `Aead.MaskIsZero` | source/chacha20_poly1305.cpp:160-168 | the collected differences are zero if and only if the bytes agree |
| `Aead.StoreLength` | include/ez/common.hpp:155-163 | eight bytes of a length, lowest first |
| `Aead.ChaCha20Poly1305.constructor` | source/chacha20_poly1305.cpp:28-31 | 20 rounds, no associated data, no tag, at a block boundary |
| `Aead.ChaCha20Poly1305.UpdateAll` | source/chacha20_poly1305.cpp:94-116 | what is authenticated is the input of the tag, and has the layout of section 2.8 of RFC 8439 byte by byte |
| `Aead.ChaCha20Poly1305.Authenticate` | source/chacha20_poly1305.cpp:93-118 | the tag of that under the one-time key |
| `Aead.ChaCha20Poly1305.Encrypt` | source/chacha20_poly1305.cpp:85-119 | the output is the encrypted text, the MAC is that of the output with the associated data; the cipher has moved on by 64 bytes and the text |
| `Aead.ChaCha20Poly1305.TagMatches` | source/chacha20_poly1305.cpp:160-168 | true if and only if the tag is a prefix of the MAC |
| `Aead.ChaCha20Poly1305.Decrypt` | source/chacha20_poly1305.cpp:123-169 | without a tag false and nothing is done; otherwise the output is the decrypted text and the result tells whether the tag is a prefix of the MAC of the input |
| `Aead.Exchange` | source/chacha20_poly1305.cpp:85-169 | two objects at a block boundary with equal state and associated data: what one encrypts the other gives back, accepting the tag or a part of it |
| `Aead.ExchangeFresh` | source/chacha20_poly1305.cpp:28-169 | the same from new object to new object with equal key, nonce and associated data |
| `ChunkedSpec.SizeFits` | source/picohttpparser.c:552-568 | the size of a chunk stays below 2^64 |
| `ChunkedSpec.StepKeepsReachable` | source/picohttpparser.c:543-656 | what every byte keeps: fewer than 16^hexCount bytes left while reading a size, some left in data, none after it |
| `ChunkedSpec.RunKeepsReachable` | source/picohttpparser.c:543-656 | the same over whole runs from a zero-filled decoder |
| `ChunkedSpec.RunAppend` | source/picohttpparser.c:547-656 | a second call goes on where the first ended, unless the first gave a verdict |
| `ChunkedSpec.FragmentationIndependence` | source/picohttpparser.c:543-656 | any split of the input gives the same output, verdict and leftover as one call |
| `ChunkedSpec.UnderData` | source/picohttpparser.c:591-607 | moving a run of data at once is taking its bytes one by one |
| `ChunkedSpec.InDataExactly` | source/picohttpparser.c:658-661 | within chunk data every next byte is output; in every other phase there is one that is not |
| `ChunkedSpec.HexDigits` | source/picohttpparser.c:530-541 | a byte has the value v if and only if it is digit v of 0123456789abcdef or of 0123456789ABCDEF; no other byte has one |
| `Hexadecimal.HexReads` | source/picohttpparser.c:550-571 | a number written in base 16 by division, in letters of either case, is read back |
| `ChunkedGrammar.DoneExactly` | source/picohttpparser.c:543-656 | the decoder is done after n bytes with an output if and only if these are chunks and an end of a message, for every choice of newlines, extensions and trailers, and the output is the data |
| `ChunkedGrammar.ErrorExactly` | source/picohttpparser.c:543-656 | it refuses byte n if and only if that byte follows whole chunks and is no digit where a size begins, a seventeenth digit, or neither CR nor LF after the data |
| `ChunkedRoundTrip.RoundTrip` | source/picohttpparser.c:543-656 | chunks with 1 to 16 digits and extensions, a zero chunk, and trailers if they are consumed: the output is their data, and what follows is left |
| `ChunkedRoundTrip.SizesRoundTrip` | source/picohttpparser.c:543-656 | a body sent in pieces, each after its size in base 16, is received as it was; no function of the decoder is used to say this |
| `ChunkedRoundTrip.PrefixIsIncomplete` | source/picohttpparser.c:543-656 | every proper prefix of a message leaves the decoder waiting |
| `ChunkedDecoding.Memmove` | source/picohttpparser.c:594-601 | moving bytes down to an overlapping place |
| `ChunkedDecoding.ChunkedDecoder.ReadSize` | source/picohttpparser.c:550-571 | the case of the size: on to the extension, an error, or the end of the buffer, as the bytes say |
| `ChunkedDecoding.ChunkedDecoder.ReadExtension` | source/picohttpparser.c:572-590 | the case of the extension: on to the data, to the trailers, or complete |
| `ChunkedDecoding.ChunkedDecoder.ReadData` | source/picohttpparser.c:591-607 | the case of data: what is there is moved behind the output |
| `ChunkedDecoding.ChunkedDecoder.ReadCrlf` | source/picohttpparser.c:609-622 | the case of the newline after data |
| `ChunkedDecoding.ChunkedDecoder.ReadTrailerHead` | source/picohttpparser.c:623-633 | the case of the start of a trailer line |
| `ChunkedDecoding.ChunkedDecoder.ReadTrailerMiddle` | source/picohttpparser.c:634-644 | the case of the rest of a trailer line |
| `ChunkedDecoding.ChunkedDecoder.Decode` | source/picohttpparser.c:543-656 | the call is the fold of the step over its bytes: the buffer holds the output, then what was not used; the result is -2, -1 or how much that is; the decoder is where the run ended; and the loop ends |
| `ChunkedDecoding.ChunkedDecoder.IsInData` | source/picohttpparser.c:658-661 | true exactly when the next byte, whichever it is, is output as a byte of the body |
| `HttpStability.RequestStable` | source/picohttpparser.c:355-427 | a request that is parsed or refused stays so, with the same slices, on every extension of the buffer |
| `HttpStability.ResponseStable` | source/picohttpparser.c:429-498 | the same for responses |
| `HttpGrammar.RequestExactly` | source/picohttpparser.c:355-398 | parsing succeeds with given slices and length if and only if the bytes have the form of a request with these |
| `HttpGrammar.ResponseExactly` | source/picohttpparser.c:429-471 | the same for responses |
| `HttpGrammar.HeadersExactly` | source/picohttpparser.c:298-353 | the same for headers: names are non-empty tokens, values hold no control characters but HT and end without a blank, at most max of them |
| `HttpRefusal.RequestRefused` | source/picohttpparser.c:355-398 | parsing gives -1 if and only if the bytes show one of the faults listed, in the line or in a header after a line without one, whatever follows |
| `HttpRefusal.ResponseRefused` | source/picohttpparser.c:429-471 | the same for responses |
| `HttpRefusal.HeadersRefused` | source/picohttpparser.c:298-353 | the same for headers: one too many, no name, a byte in a name that is no token character, a control character in a value, a CR without LF |
| `HttpRefusal.TokenRefused` | source/picohttpparser.c:264-273 | a method or a name is refused exactly at its first byte that is neither a token character nor what ends it |
| `HttpRefusal.RefusedEarly` | source/picohttpparser.c:267-269 | two bytes of a method, or three of a name, are refused whatever follows |
| `HttpDecision.RequestUndecidedExactly` | source/picohttpparser.c:355-398 | with the end of a head in the buffer, -2 is given if and only if method and path are there and the version has fewer than nine bytes |
| `HttpDecision.RequestDecided` | source/picohttpparser.c:355-398 | so a buffer with the end of a head in it, and nine bytes from the first of its two newlines on, never gives -2 |
| `HttpDecision.RequestUndecided` | source/picohttpparser.c:279-284 | with eight it may |
| `HttpDecision.ResponseUndecidedExactly` | source/picohttpparser.c:429-455 | for responses, if and only if version or code have too few bytes |
| `HttpDecision.ResponseDecided` | source/picohttpparser.c:429-471 | so is a response |
| `HttpDecision.HeadersWithEndDecided` | source/picohttpparser.c:298-353 | headers alone are decided by two newlines in a row |
| `HttpGrammar.TokenCharacters` | source/picohttpparser.c:96-103 | token characters are those of section 3.2.6 of RFC 7230 and no others |
| `HttpGrammar.HeadersExample` | source/picohttpparser.c:298-353 | a header with blanks around its value, and a line that continues it: the slices, by number |
| `HttpGrammar.HeadersInOrder` | source/picohttpparser.c:298-353 | the slices of the headers lie one after the other, before the end of the head |
| `HttpGrammar.RequestSlicesInOrder` | source/picohttpparser.c:355-427 | verb, path and all header slices of a request lie in order before the returned length |
| `HttpGrammar.ResponseSlicesInOrder` | source/picohttpparser.c:429-498 | the same for the message and the header slices of a response |
| `HttpShape.RequestPreCheck` | source/picohttpparser.c:401-427 | when 0 < last_len < n, the completeness check does not change the answer for a request of length n |
| `HttpShape.ResponsePreCheck` | source/picohttpparser.c:474-498 | the same for responses |
| `HttpShape.HeadersPreCheck` | source/picohttpparser.c:500-518 | for headers alone exactly when last_len is 0, or there is a header, or another newline or later two newlines in a row follow the empty line |
| `HttpShape.HeadersPreCheckFails` | source/picohttpparser.c:500-518 | an empty line alone is parsed but fails the check |
| `HttpShape.CompleteExactly` | source/picohttpparser.c:197-223 | the search succeeds if and only if a newline follows one counted before, or there are two newlines in a row with no stray CR before them |
| `HttpRefusal.CompleteRefused` | source/picohttpparser.c:197-223 | it gives -1 if and only if it meets a CR without LF before that |
| `HttpRefusal.PhrRequestExactly` | source/picohttpparser.c:401-427 | success with given slices and length, and -1, each if and only if on the bytes, the check from three bytes before last_len included |
| `HttpRefusal.PhrResponseExactly` | source/picohttpparser.c:474-498 | the same for responses |
| `HttpRefusal.PhrHeadersExactly` | source/picohttpparser.c:500-518 | the same for headers |
| `HttpIncremental.RequestLocal` | source/picohttpparser.c:355-398 | the answer for a complete request depends on the bytes of its head only |
| `HttpIncremental.ResponseLocal` | source/picohttpparser.c:429-471 | the same for responses |
| `HttpIncremental.RequestResumes` | source/picohttpparser.c:401-427 | when the call on last_len bytes was undecided, the next one with last_len misses no request |
| `HttpIncremental.ResponseResumes` | source/picohttpparser.c:474-498 | the same for responses |
| `HttpIncremental.CallIsPhr` | source/picohttpparser.c:401-498 | the calls of that reader are those of phr_parse_request and phr_parse_response |
| `HttpIncremental.ResumeFinds` | source/picohttpparser.c:401-498 | a reader of requests or responses that calls with growing lengths gets the answer of one call on everything at the first length that covers the head, and -2 before |
| `HttpIncremental.ResumeSound` | source/picohttpparser.c:401-498 | what such a reader accepts is what one call on everything accepts, so a head that is refused is never accepted |
| `HttpIncremental.ResumeRefuses` | source/picohttpparser.c:401-498 | a head refused for some length is refused for all longer ones, and by the reader unless the completeness check still asks for more |
| `HttpParser.TokenRanges` | source/picohttpparser.c:248-257 | the ranges of the fast scan cover every byte that is no token character |
| `HttpParser.LineRanges` | source/picohttpparser.c:138-142 | the ranges are exactly the control characters without HT |
| `HttpParser.PathRanges` | source/picohttpparser.c:74-75 | the ranges are exactly the bytes that end a path |
| `HttpParser.FindCharFast` | source/picohttpparser.c:105-132 | no byte that is skipped lies in a range, and a byte that is found does |
| `HttpParser.SkipEights` | source/picohttpparser.c:148-170 | the loop over eight bytes skips no control character, and stops at one when it says so |
| `HttpParser.ParseToken` | source/picohttpparser.c:245-277 | with or without the fast scan: token, position and error of the scan byte by byte |
| `HttpParser.GetTokenToEol` | source/picohttpparser.c:134-195 | with either fast loop: line, position and error of the scan byte by byte |
| `HttpParser.AdvanceToken` | source/picohttpparser.c:71-93 | the same for the path |
| `HttpParser.IsComplete` | source/picohttpparser.c:197-223 | two newlines in a row are found, or an error or -2 given, as by the search byte by byte |
| `HttpParser.ParseHttpVersion` | source/picohttpparser.c:279-296 | HTTP/1. and a digit, once nine bytes are there |
| `HttpParser.ParseHeader` | source/picohttpparser.c:316-351 | one header, with a name or continuing the one before |
| `HttpParser.ParseHeaders` | source/picohttpparser.c:298-353 | the headers go to the array in order; the result is that of the specification, also for too many |
| `HttpParser.ParseRequestLine` | source/picohttpparser.c:359-396 | an empty line, method, path and version, with the order of the checks |
| `HttpParser.StripMessage` | source/picohttpparser.c:456-469 | the spaces before the message are dropped and its length never falls below zero |
| `HttpParser.ParseStatusLine` | source/picohttpparser.c:429-469 | version, three digits and the message |
| `HttpParser.PhrParseRequest` | source/picohttpparser.c:401-427 | the length of a parsed request, -1 for a refused one and -2 otherwise, and its slices; `PhrRequestExactly` says for which bytes |
| `HttpParser.PhrParseResponse` | source/picohttpparser.c:474-498 | the same for responses |
| `HttpParser.PhrParseHeaders` | source/picohttpparser.c:500-518 | the same for headers |
| `HttpPrinter.PrintRequest` | source/http.cpp:116-144 | the text of a request: fields without a value are left out, and Content-Length is added for a body unless that key is there |
| `HttpPrinter.PrintResponse` | source/http.cpp:568-597 | the text of a response, with all fields |
| `HttpPrinter.DecimalReads` | source/http.cpp:138-138 | the digits that are sent have the value of the number, without leading zeros |
| `HttpPrinter.WithValueExactly` | source/http.cpp:125-134 | the fields with a value are sent as often as they were given, the others not |
| `HttpPrinter.WithValueAppend` | source/http.cpp:125-134 | and in their order |
| `HttpRoundTrip.RequestRoundTrip` | source/http.cpp:116-144 | a printed request, followed by anything, is read as exactly its head: method, path, and the fields in order |
| `HttpRoundTrip.ResponseRoundTrip` | source/http.cpp:568-597 | a printed response is read as exactly its head: code, text less the spaces it begins with, fields in order |
| `HttpRoundTrip.ResponseReadExactly` | source/http.cpp:572-575 | a printed response is read if and only if its code has three digits |
| `HttpRoundTrip.RequestLengthIsRead` | source/http.cpp:136-140 | the reader of a request with a body finds one Content-Length, with the size of the body as its value |
| `HttpRoundTrip.ResponseLengthIsRead` | source/http.cpp:585-589 | the last header of a response with a body is Content-Length, with the size of the body as its value |
| `HttpSender.NothingLost` | source/http.cpp:92-104 | over any series of attempts the channel gets every byte once and in order, and sending is over exactly when nothing is left |
| `HttpSender.OverWhenAllTaken` | source/http.cpp:92-104 | sending is over as soon as the channel has taken as many bytes as there are |
| `HttpSender.RequestDelivered` | source/http.cpp:116-156 | what the channel got when sending is over is parsed as the request, followed by its body |
| `HttpSender.ResponseDelivered` | source/http.cpp:568-606 | the same for responses |
| `HttpSender.Http.SendRequest` | source/http.cpp:116-156 | the message is head and body, and the first attempt is made |
| `HttpSender.Http.SendResponse` | source/http.cpp:568-606 | the same for responses |
| `HttpSender.Http.SendMore` | source/http.cpp:92-104 | one more attempt while sending, nothing otherwise |
| `BlockHash.BlocksAppend` | source/sha2.cpp:168-187 | compressing in two steps is compressing at once |
| `BlockHash.PadIsShortest` | source/sha2.cpp:191-199 | no shorter run of zeros fills whole blocks |
| `BlockHash.PadLayout` | source/sha2.cpp:191-202 | the padding by position: 80, zeros, and 64 bits of length at the end of a block |
| `ShaVector.Abc1` | source/sha1.cpp:77-142 | the specification gives the published digest of "abc" for SHA-1, through 80 rounds |
| `ShaVector.Abc256` | source/sha2.cpp:77-164 | the same for SHA-256, through 64 rounds |
| `BlockHash.BufferedBlock` | source/sha2.cpp:181-185 | a full buffer is compressed, the bytes fed staying the same |
| `Sha2Rounds.Extend` | source/sha2.cpp:140-141 | the word made in place is word t of the full schedule |
| `Sha2Rounds.OneRound` | source/sha2.cpp:138-154 | one turn of the loop is one round with word t of the full schedule |
| `Sha2Rounds.Transform` | source/sha2.cpp:123-164 | the compression of section 6.2.2 of FIPS 180-4, on the swapped words |
| `Sha1Rounds.Extend` | source/sha1.cpp:120-121 | the word made in place is word t of the full schedule |
| `Sha1Rounds.OneRound` | source/sha1.cpp:118-135 | one turn of the loop is one round with word t of the full schedule |
| `Sha1Rounds.Transform` | source/sha1.cpp:106-142 | the compression of section 6.1.2 of FIPS 180-4, on the swapped words |
| `ShaSpec.ChAndMaj` | source/sha2.cpp:78-79 | Ch and Maj written with `or` are those written with exclusive or |
| `ShaSpec.Rotations` | source/sha2.cpp:80-83 | the shifts are the rotations of section 4.1.2 of FIPS 180-4 |
| `WordMemory.BigIsSwapped` | source/sha2.cpp:135-136 | swapping the words in memory reads their bytes highest first |
| `WordMemory.CopyBytes` | source/sha2.cpp:173-174 | bytes copied into words in memory, the others staying |
| `Sha.LengthBytes` | source/sha2.cpp:201-202 | the last two words hold the 64 bits of the length, highest byte first |
| `Sha.Hasher.Transform` | source/sha2.cpp:123-164 | the digest becomes its compression with the bytes of the buffer, for either algorithm |
| `Sha.Hasher.Reset` | source/sha2.cpp:107-119 | the initial digest, and nothing fed |
| `Sha.Hasher.Update` | source/sha2.cpp:168-187 | the bytes fed grow by the data, whatever is in the buffer |
| `Sha.Hasher.UpdatePadding` | source/sha2.cpp:191-199 | the padding fills the buffer up to its last eight bytes, through a second block where it has to |
| `Sha.Hasher.Complete` | source/sha2.cpp:191-208 | of an object that was reset the digest is the hash of all bytes fed; of any other, the compression from the state it was in, with the length it has counted |
| `Hmac.Remask` | include/ez/hmac.hpp:57-58 | changing the mask of the key in place gives the key with the outer mask |
| `Hmac.HmacObject.SetKey` | include/ez/hmac.hpp:28-46 | the key filled with zeros to a block and fed with its inner mask; a longer one is hashed first, by the hash object in whatever state it is |
| `Hmac.BlockKeyOfReset` | include/ez/hmac.hpp:28-40 | for a short key, or an object that was just reset, that is the key of RFC 2104 |
| `Hmac.BlockKeyOfUsed` | include/ez/hmac.hpp:28-40 | for a long key and an object that was fed something, it is the key of RFC 2104 for all of that followed by the key |
| `Hmac.HmacIs` | include/ez/hmac.hpp:28-66 | the authenticator by position: key or its hash, zeros, 36 and 5c written out, inner and outer hash |
| `Hmac.ZeroAfterKey` | include/ez/hmac.hpp:36-40 | a key shorter than a block and the same key with a zero after it have the same authenticators |
| `Hmac.HashedKey` | include/ez/hmac.hpp:30-34 | a key longer than a block and its hash have the same authenticators |
| `Hmac.HmacObject.Update` | include/ez/hmac.hpp:48-51 | the bytes fed grow by the data |
| `Hmac.HmacObject.Complete` | include/ez/hmac.hpp:53-66 | the outer hash of the inner hash |
| `Hmac.Calculate` | include/ez/hmac.hpp:21-66 | from a new object, for every key length and every split: H((K ^ opad) ++ H((K ^ ipad) ++ m)) |
| `Base64Spec.EncodeSize` | source/base64.cpp:19-26 | the encoded text has encoded_size characters |
| `Base64Spec.TableOf` | source/base64.cpp:4-4 | digit x is character x of the alphabet |
| `Base64Spec.ValueOf` | source/base64.cpp:5-15 | a character has the value x if and only if it is character x of one of the two alphabets, or '<' for zero; all others have none |
| `Base64Spec.GroupNumber` | source/base64.cpp:43-56 | four digits stand for the 24 bits of three bytes |
| `Base64Spec.EncodeVectors` | source/base64.cpp:28-61 | the examples "foobar", "fooba" and "foob" of section 10 of RFC 4648 |
| `Base64Spec.DecodeSize` | source/base64.cpp:88-94 | the decoded bytes of any text are at most decoded_size |
| `Base64Spec.DecodeSame` | source/base64.cpp:96-122 | texts whose digits stand for the same values decode alike |
| `Base64Spec.DecodeEncode` | source/base64.cpp:28-122 | decoding what was encoded gives it back |
| `Base64Spec.RoundTrip` | source/base64.cpp:28-122 | also when any of the padding is dropped and any digits are replaced by others of the same value |
| `Base64Spec.RoundTrips` | source/base64.cpp:28-122 | unpadded, in the URL alphabet, and both |
| `Base64Spec.EncodeDecode` | source/base64.cpp:28-122 | encoding what whole groups of digits were decoded to gives them back |
| `Base64.EncodedSizeOf` | source/base64.cpp:19-26 | four characters for every three bytes begun |
| `Base64.DecodedSizeOf` | source/base64.cpp:88-94 | three bytes for every four characters begun |
| `Base64.Encode64` | source/base64.cpp:28-61 | the array holds the encoded text, and what was there after it |
| `Base64.Decode64` | source/base64.cpp:96-122 | for every text, the array holds the decoded bytes, their number is returned, and they fit |
| `Base64.Exchange` | source/base64.cpp:19-122 | from array to array: encoded and decoded again |

## Left out

- `source/socket.cpp`, `source/tls.cpp`, `source/daemon.cpp`, `source/epoll.cpp`, `source/kqueue.cpp`: system calls and foreign libraries.
- The receive loops of `source/http.cpp`: the length of what was read before is local to one call (source/http.cpp:205, source/http.cpp:392), and a partial read moves another buffer than the one read into (source/http.cpp:360, source/http.cpp:532), so a resume theorem does not hold of them; `HttpIncremental` states what the parser offers a reader.
- `source/smp.cpp`: its sending half repeats that of `source/http.cpp`, and its receiving half does not resume a partial read.
- `source/hex.cpp`, `source/url.cpp`, `source/ip.cpp`, `include/ez/spin_lock.hpp`, `include/ez/timer.hpp`: round trips easier than Base64, and small members.
- `source/buffer.cpp`: reference counting and destruction; the send buffer is its bytes and a position.
- `compare_with`: a comparison of memory; the one of poly1305 returns its raw result.
- Cryptographic strength, timing and erasure of secrets, apart from the cleared words of the Poly1305 key.
- Sums in the rounds of SHA-1 are in the order of the code, which differs from that of FIPS 180-4 by commutativity.
- The contents of out-parameters and of the header array after a parse that failed, and the cast of a length to `int`.
- Buffers that overlap without being equal, for the input and output of the cipher.
- HttpParser.PhrParseRequest: `last_len` is at most the length of the buffer; past its end the code reads outside of it.
- Aead.ChaCha20Poly1305.Decrypt: takes a tag of at most 16 bytes; for a longer one the code reads past the MAC.
- Base64.Decode64: takes `char` as unsigned; where it is signed, bytes of 128 and more read outside of the table.
- Sha.Hasher.Complete: does not say which bytes the schedule leaves in the buffer; they count only for an object that is used again without a reset.
- Sizes and counters are unbounded numbers; the length that SHA appends is taken modulo 2^64, as in the code.
