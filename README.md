# addressdb: OpenPGP detection, handler options and batch address checks

This project models, in Dafny, the sequential logic of two parts of the
addressdb service and proves properties of it.

- **`securedata` (module `SecureData`, `securedata.dfy`).**
  - `IsRawEncrypted` decides whether a buffered stream holds raw OpenPGP
    data. It peeks at up to 20 bytes. It masks every peeked byte to its low
    six bits. It answers "encrypted" when one of them is a packet tag from
    section 5 of RFC 9580: 1 (public-key encrypted session key), 2
    (signature), 4 (one-pass signature), 8 (compressed data) or 9
    (symmetrically encrypted data).
  - The input is a `Stream`: the bytes the reader can still deliver, then a
    clean end of file or a read error. `Peek` models the buffered reader's
    `Peek`.
  - `NewPGPSecureHandler` creates a handler bound to the RFC 9580 profile.
    It runs its options in order and stops at the first error. The handler
    is a class whose key fields the option closures write in place. The
    four options are values of `HandlerOption`. `ApplyOption` and
    `ApplyAll` specify one closure and the whole loop.
  - A ghost out-parameter `applied` records which option closures
    `NewPGPSecureHandler` called, next to each call. This is how "no option
    after the first failing one runs" is stated.
- **The example server (module `Server`, `server.dfy`).**
  - `CheckHandler` answers one membership query.
  - `CheckBatchHandler` splits a list of addresses into a found list and a
    not-found list and reports both counts.
  - The filter lookup is a parameter, a function from an address to
    `Lookup(ok, err)`. The outcome of decoding the JSON body is a parameter
    too.
  - A ghost out-parameter `queried` records which lookups a handler made.
    This is how "no lookup happens" is stated. The handler bodies append to
    this log next to each call of the lookup; the lookup itself, a pure
    function, does not enforce it.

`common.dfy` (module `Common`) holds Go's nil-able pointer (`Option`),
`(value, error)` pairs (`Result`) and errors (`Error`, compared by message).

Where the code and its own comments disagree, the model follows the code:
- `IsRawEncrypted` masks every byte, not only packet-header bytes. Section
  4.2 of RFC 9580 reads the tag only from a header byte, and a legacy-format
  header keeps its tag in bits 5 to 2. So plain text can be detected as
  OpenPGP data; `SecureData.CapitalAIsDetected` shows this.
- A comment speaks of peeking "the first 10 bytes"; the code peeks 20.
- `checkHandler` replies to a lookup error with the body "Internal server
  error" but with status 400 (bad request). The model keeps 400.

## Model

| member | source | states |
|---|---|---|
| SecureData.IsRawEncrypted | securedata/openpgp.go:145-179 | equals the declarative `Detect`; the error is set exactly when fewer than 20 bytes are available and the stream ends in a non-EOF read error, and then the answer is false and the error is that read error; with no error the answer is true iff some byte among the first 20 has low six bits in {1, 2, 4, 8, 9} |
| SecureData.OnlyPeekedBytesMatter | securedata/openpgp.go:157 | when at least 20 bytes are available, appending any bytes and changing how the stream ends leaves the answer unchanged |
| SecureData.ShortInputIsScanned | securedata/openpgp.go:158-164 | an input shorter than 20 bytes that ends at EOF gives no error, and all of its bytes are scanned |
| SecureData.EmptyInputIsPlain | securedata/openpgp.go:157-178 | an empty input ending at end of file gives (false, nil) |
| SecureData.ReadErrorIsPassedOn | securedata/openpgp.go:158-161 | a non-EOF error before 20 bytes gives (false, that error), whatever the bytes are |
| SecureData.OnlyLowSixBitsMatter | securedata/openpgp.go:166-176 | two inputs whose peeked bytes agree position by position on their low six bits, and that end the same way when short, get the same answer |
| SecureData.NewFormatHeaderIsDetected | securedata/openpgp.go:146-176 | an input starting with a new-format packet header (bits 7 and 6 set) that carries one of the five tags is detected without error, provided the peek does not fail (20 or more bytes, or a clean end of file) |
| SecureData.CapitalAIsDetected | securedata/openpgp.go:166-176 | an input starting with ASCII 'A' (0x41) is detected without error, because every byte is masked, provided the peek does not fail (20 or more bytes, or a clean end of file) |
| SecureData.ApplyOption | securedata/openpgp.go:15-63 | an option fails exactly when it reports an error (a nil key, or a failed load for a path option), and the error does not depend on the handler; on success it stores a non-nil key in its own field only and leaves the other field unchanged |
| SecureData.OpenPGPSecureHandler.Apply | securedata/openpgp.go:15-63 | running one closure in place returns the option's error; on error the handler's keys are unchanged, otherwise they are what `ApplyOption` gives |
| SecureData.OpenPGPSecureHandler.constructor | securedata/openpgp.go:74-76 | a new handler is bound to the RFC 9580 profile and has no keys |
| SecureData.NewPGPSecureHandler | securedata/openpgp.go:73-83 | if the option loop fails, the result is (nil, the error of the failing option); otherwise it is a fresh RFC 9580 handler holding the keys the loop produced, with a nil error; the closures called are exactly the options up to and including the first failing one, and every option when none fails |
| SecureData.ApplyAllAppend | securedata/openpgp.go:77-81 | running two option lists one after the other is running their concatenation, and a failure in the first list skips the second |
| SecureData.FirstErrorAborts | securedata/openpgp.go:77-81 | if option k is the first to report an error, the loop returns exactly that error, whatever options follow k |
| SecureData.ApplyAllSucceedsIff | securedata/openpgp.go:77-82 | the loop succeeds iff no option reports an error |
| SecureData.ApplyAllKeepsLastKeys | securedata/openpgp.go:77-82 | without errors, each key field holds the key of the last option that writes it, or its starting value if none does |
| Server.CheckHandler | cmd/server/main.go:94-115 | an empty query is a bad request with no lookup; otherwise exactly that one address is looked up; a lookup error gives the internal-error reply with status 400; otherwise the reply is the lookup's answer |
| Server.CheckBatchHandler | cmd/server/main.go:117-164 | an undecodable body or an empty list is a bad request with no lookup; otherwise every address is looked up once, in order, the lists are `Found` and `NotFound` of the input, and the two counts are the lists' lengths |
| Server.PartitionIsPermutation | cmd/server/main.go:136-145 | found followed by not found is a permutation of the input: every address lands in exactly one list |
| Server.PartitionCounts | cmd/server/main.go:136-157 | the found count and the not-found count add up to the number of addresses in the request |
| Server.SelectMembership | cmd/server/main.go:139-145 | an address is in the list selected for `wanted` iff it occurs in the input and its lookup's "found without error" equals `wanted` |
| Server.BatchMembership | cmd/server/main.go:139-145 | an address is in found iff it is in the input and its lookup answers true with no error; it is in not found iff it is in the input and its lookup does not (errors included) |
| Server.SelectPositions | cmd/server/main.go:139-145 | each list is taken from increasing input positions, and those positions are exactly the ones whose lookup result belongs in that list |
| Server.BatchKeepsOrder | cmd/server/main.go:139-145 | found and not found are both subsequences of the input, in input order |

## Left out

- The reload package (file watcher with debounce and reload manager, started at cmd/server/main.go:59-70): concurrency and timing, not sequential logic.
- `Writer`, `Reader`, `VerifiedReader.Read` and `VerifiedReader.VerifySignature`: thin calls into the OpenPGP library, whose behaviour cannot be seen here.
- `WithPublicKeyPath` and `WithPrivateKeyPath`: reading the file and parsing the armored key are I/O and library code. Each option carries the outcome of both steps as a `Result<Key>` parameter. The model covers what the closure does with that outcome.
- Keys are values compared by content. Pointer identity of keys is not modelled.
- A nil `Option` closure in the list, which makes Go panic, is not modelled.
- Options written by callers: `Option` is an exported function type (securedata/openpgp.go:13), so code outside the package may pass its own closures. Such a closure cannot write the key fields, but its error may depend on the handler's state. The model covers only the package's four option constructors, as the closed `HandlerOption`, and `FirstErrorAborts` relies on each option's error depending on the option alone.
- `Peek` assumes the reader's buffer holds at least 20 bytes. A reader built with a smaller buffer returns `ErrBufferFull` from `Peek(20)`, and the detector would pass that error on. This case is not modelled.
- The bytes a peek leaves in the buffer are not modelled. `Peek` does not consume input, so the detector leaves the stream as it found it.
- `main`, routing, the logging and rate-limit middleware, server start-up and graceful shutdown: HTTP plumbing, a rate-limiter library and signal handling.
- JSON decoding and encoding, response headers, and the trailing newline Go's `http.Error` adds. The decoding outcome is a parameter of `CheckBatchHandler`.
- The Bloom filter and `CheckAddress`: abstracted as a function parameter, fixed for the duration of one request. The filter being replaced by a reload while requests run is not modelled.
