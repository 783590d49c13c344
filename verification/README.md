# Verification of the x402-xec payment protocol

A Dafny model of the parts of x402-xec that decide whether a payment is bound to a request, once:
the canonical encodings and hashes, the strict codecs of headers and signatures, the two invoice
stores, settlement verification, the prepaid-credit ledger of the facilitator, the replay cache and
the authorization bridge. `dafny verify dfyconfig.toml` checks everything.

## How the model is laid out

| files | what they model |
|---|---|
| `Texts`, `StableSort`, `Radix`, `Sums` | 16-bit strings and their order, the stable sort by key, radix conversion, sums over sets |
| `Json`, `JsonParser`, `CanonicalText`, `CanonicalForm` | `canonicalize`, a parser that inverts it in front of any delimiter, and its characters one by one |
| `Utf8`, `Base64`, `Base58` | the byte codecs, with Node's permissive decoders and the re-encoding tests that guard them |
| `Resource`, `Invoice`, `Offer`, `Authorization`, `HashedTexts` | what each hash, header and signed message binds, and the very texts under them |
| `InvoiceStore`, `MemoryStore`, `SqlStore`, `StoreSimulation`, `StoreRuns` | the in-memory store (five maps and a counter), the SQL table, their agreement, and what every run of either keeps |
| `Settlement`, `SettlementRuns` | `verifySettlementProof` as a procedure, and any number of verifiers interleaved at their awaits |
| `SqlSettlement` | the same interleavings with every store access on the SQL table |
| `NonceStore`, `Ledger`, `LedgerRuns`, `LedgerAnswers` | the pruned nonce set, one verification on the ledger, runs of verifications, and every answer in the terms of its request |
| `Lock`, `FacilitatorLock` | the promise-chain lock, and concurrent verifications behind it |
| `ReplayCache`, `Bridge`, `ApprovalGrounds` | reservations, any number of `authorizePayment` calls interleaved at their awaits, and what every approval rests on |

Code that updates state in place is a class or a method with a loop (`MemoryStore.InMemoryStore`,
`SqlStore.Database`, `NonceStore.InMemoryNonceStore`, `Ledgers.InMemoryTransactionalLedger`,
`ReplayCache.InMemoryAuthorizationReplayCache`, `Settlement.VerifySettlementProof`,
`Bridge.AuthorizePayment`, `Base58.DecodeBase58`, the prune loops, the output scan). Each is proved
equal to a specification function; the properties are proved of these functions, over all runs.

Where a property and the code share a definition (an order, an encoding, a time bound, an error
code), a lemma spells the definition out in characters, numbers and fields: `CanonicalForm`,
`HashedTexts`, `StoreRuns`, `LedgerAnswers`, the `...Exact` and `...Spelled` lemmas.

## Hypotheses

They appear as `requires` of the theorems that need them, never as axioms.

- SHA-256 is an arbitrary function of the hashed bytes. Theorems that need two hashes to differ say
  which pairs of byte strings must not collide.
- Address derivation is injective where it succeeds (`StoreSimulation.GoodEnv`).
- Invoices enter the stores unpaid, as the middleware issues them. `InvoiceStore.IssueKeepsExactly`
  and `InvoiceStore.AllocationKeepsExactly` prove that this is exactly what the invariant needs.
- The chain shows each txid with one list of outputs (`SettlementRuns.Legal`). The transaction
  source may fail and may answer everything else differently each time.
- The clock does not go back, only where a theorem says `Ordered`. Pruning forgets, so a clock that
  goes back can find a gap: a use that is live again but no longer remembered. For every clock,
  `NonceStore.PruningInvisibleExactly` and `ReplayCache.CacheExact` prove that the pruned stores
  answer as the full histories would if and only if no request falls into a gap.
  `NonceStore.ClockGoingBack` and `ReplayCache.ClockGoingBack` are runs with one.
- `JSON.parse` reads the canonical text of the offer back as the same value
  (`Offers.ReadsBack`). `Offers.ReadAllReadsBack` proves that such a reader exists.

## Where the obvious claim is false

- The two stores do not always agree. `StoreSimulation.StepSimulates` proves that a step keeps them
  in agreement if and only if it is agreeable. Over every run of acceptable issuances, settlements
  and lookups the answers differ only where an unknown invoice is paired with a bound txid
  (`StoreSimulation.StoresAgree`); an allocation or schema failure burns an index in memory only
  (`StoreSimulation.BurntIndex` is a run).
- A verifier that waited can answer TXID_REUSED where an uninterrupted one answers TXID_CONFLICT;
  `SettlementRuns.CommitIsSerial` says exactly when, and that nothing else differs.
- `docs/core-security-model.md` lines 21-23 say that query pairs are sorted by key and value. The
  code keeps the order of the values of a repeated key, and so does the model:
  `Resource.RepeatedKeyOrderMatters`.

## Model

| member | source | states |
|---|---|---|
| CanonicalText.UniquelyDecodable | packages/x402-xec-core/src/canonicalize.ts:10-24 | two JSON values have the same canonical text exactly when they are equal up to object key order and -0 = 0 |
| CanonicalText.ParseCanonical | packages/x402-xec-core/src/canonicalize.ts:10-24 | a parser reads canonical text, in front of any delimiter-led rest, back as the normal form of the value |
| CanonicalText.PrefixFree | packages/x402-xec-core/src/canonicalize.ts:16-22 | inside an array or object no canonical text can be mistaken for a longer or shorter one |
| CanonicalText.NormSame | packages/x402-xec-core/src/canonicalize.ts:10-24 | normal forms are equal exactly for equal values |
| Texts.LessExact | packages/x402-xec-core/src/canonicalize.ts:19 | the comparison that sorts keys is the order by code unit: equal, a proper prefix, or the smaller unit where two keys first differ |
| CanonicalForm.ObjectSpelled | packages/x402-xec-core/src/canonicalize.ts:17-22 | an object prints as exactly its entries, between braces, separated by commas, with the keys in ascending order by code unit |
| CanonicalForm.ArraySpelled | packages/x402-xec-core/src/canonicalize.ts:16 | an array prints as the texts of its items, in order, between brackets, separated by commas |
| CanonicalForm.AtomsSpelled | packages/x402-xec-core/src/canonicalize.ts:11-14 | null, true, false and negative zero print as the literals, a number as its own text |
| CanonicalForm.StringSpelled | packages/x402-xec-core/src/canonicalize.ts:11 | a string prints as its units between quotes, a surrogate pair as it is, any other unit by the escape table |
| CanonicalForm.EscapeTable | packages/x402-xec-core/src/canonicalize.ts:11 | the seven short escapes, four lower-case hexadecimal digits for other control units and lone surrogates, every other unit as it is |
| JsonParser.StringRoundTrip | packages/x402-xec-core/src/canonicalize.ts:11 | a quoted string, lone surrogates and control units included, reads back as itself |
| Utf8.CanonicalBytesInjective | packages/x402-xec-core/src/canonicalize.ts:26 | the hashed bytes determine the value: UTF-8 replacement never merges two canonical texts |
| Utf8.ReencodeTest | packages/x402-xec-express/src/payment-offer-header.ts:134-137 | decode-then-encode gives the bytes back exactly for well-formed UTF-8 |
| Utf8.EncodeDecode | packages/x402-xec-express/src/payment-offer-header.ts:110 | every well-formed text survives encoding and decoding |
| Utf8.PairEncoded | packages/x402-xec-core/src/canonicalize.ts:26 | a surrogate pair is hashed as the four bytes whose six-bit groups make up its code point |
| Utf8.UnitEncoded | packages/x402-xec-core/src/canonicalize.ts:26 | any other unit is hashed as the fewest bytes that make up its number, a lone surrogate as those of U+FFFD |
| Utf8.ValidExact | packages/x402-xec-express/src/payment-offer-header.ts:134-137 | the bytes that pass the re-encoding test are the encodings of well-formed texts |
| Resource.CanonicalHashBinds | packages/x402-xec-core/src/canonicalize.ts:26-27 | equal values hash alike; equal hashes mean equal values or a collision |
| StableSort.SortKernel | packages/x402-xec-core/src/resource.ts:29-34 | two lists sort alike exactly when every key carries the same values in the same order |
| Resource.QueryKernel | packages/x402-xec-core/src/resource.ts:29-34 | the same for query canonicalization |
| Resource.QueryShape | packages/x402-xec-core/src/resource.ts:29-34 | the canonical query is a permutation of the input with its keys in ascending order by code unit, keeps the values of every key in order, and is a fixed point |
| Resource.RepeatedKeyOrderMatters | packages/x402-xec-core/src/resource.ts:32 | swapping two different values of one key changes the canonical query |
| Resource.ResourceBinding | packages/x402-xec-core/src/resource.ts:35-45 | resource hashes are equal exactly when origin, upper-cased method, path, query kernel and body agree |
| Resource.SettlementBodySame | packages/x402-xec-express/src/settlement-middleware.ts:120-149 | sorting entries recursively, in any locale's order, leaves a body the same value |
| Resource.SettlementBodyShape | packages/x402-xec-express/src/settlement-middleware.ts:138-144 | a normalized object has exactly the normalized entries, none before its predecessor in the comparison |
| Resource.ExpressBody | packages/x402-xec-express/src/middleware.ts:245-270 | rebuilding arrays and objects entry by entry returns the body |
| Resource.NormalizersAgree | packages/x402-xec-express/src/settlement-middleware.ts:151-162 | a request hashes alike whichever normalizer its body went through |
| HashedTexts.ResourceHashSpelled | packages/x402-xec-core/src/resource.ts:21-45 | a resource hash exists exactly for an HTTP token and an origin-form path, and is the hash of the named fields, character by character |
| Invoices.InvoiceJsonInjective | packages/x402-xec-core/src/invoice.ts:17 | the canonical JSON of an invoice determines every field |
| Invoices.InvoiceHashBinds | packages/x402-xec-core/src/invoice.ts:17 | invoice ids are equal exactly for equal invoices, barring a collision |
| HashedTexts.InvoiceSpelled | packages/x402-xec-core/src/invoice.ts:17 | an invoice hash is taken of the nine named fields in ascending order, character by character |
| Invoices.InvoiceSchema | packages/x402-xec-core/src/schemas.ts:6-18 | the invoices that the schema accepts, in character ranges, lengths and bounds |
| Radix.DecimalRoundTrip | packages/x402-xec-core/src/schemas.ts:30 | decimal text reads back as its number |
| Radix.DecimalSpelled | packages/x402-xec-core/src/invoice-store.ts:228 | the last decimal digit is the remainder, the text in front of it that of the quotient |
| Radix.AmountIsDecimal | packages/x402-xec-core/src/schemas.ts:8 | an accepted amount is the one decimal spelling of a positive number |
| Offers.ParseOfferExact | packages/x402-xec-express/src/payment-offer-header.ts:45-104 | the parser accepts a value as offer o exactly when o is valid and the value is its JSON |
| Offers.EncodeHeaderExact | packages/x402-xec-express/src/payment-offer-header.ts:107-117 | a valid offer is encoded exactly when its canonical bytes fit 4096 characters |
| Offers.EncodeAnyExact | packages/x402-xec-express/src/payment-offer-header.ts:107-117 | only the JSON of a valid offer is encoded, in whatever order its entries come, and as that offer |
| HashedTexts.HeaderSpelled | packages/x402-xec-express/src/payment-offer-header.ts:107-117 | the header is the url encoding of the named fields of offer, invoice and accept entry, character by character |
| Offers.HeaderRoundTrip | packages/x402-xec-express/src/payment-offer-header.ts:107-150 | decoding what encoding produced gives the offer back |
| Offers.DecodeExact | packages/x402-xec-express/src/payment-offer-header.ts:120-150 | a header decodes to o exactly when it is the encoding of the valid offer o |
| Offers.HeaderInjective | packages/x402-xec-express/src/payment-offer-header.ts:107-117 | different offers never share a header, whatever reads the JSON |
| Offers.ReadAllReadsBack | packages/x402-xec-express/src/payment-offer-header.ts:139-144 | a reader that satisfies the hypothesis on JSON.parse exists |
| Base64.DecodeEncode | packages/x402-xec-express/src/payment-offer-header.ts:110-134 | decoding inverts both base64 encoders on all byte strings |
| Base64.ReencodeTest | packages/x402-xec-express/src/payment-offer-header.ts:121-133 | the re-encoding test holds exactly when the length is not 1 mod 4 and the unused low bits are zero |
| Base64.HeaderBound | packages/x402-xec-express/src/payment-offer-header.ts:111-115 | an encoding fits 4096 characters exactly when the bytes number at most 3072 |
| Base64.AlphabetsInOrder | packages/x402-xec-express/src/payment-offer-header.ts:110 | the 64 symbols of both alphabets, in the order of their values |
| Base64.DigitsSpelled | packages/x402-xec-express/src/payment-offer-header.ts:110 | three bytes are the four digits of the same 24-bit number; one or two bytes at the end are followed by zero bits |
| Base64.EncodingsSpelled | packages/x402-xec-express/src/settlement-middleware.ts:214-233 | both encodings are the symbols of these digits, the standard one filled up with equals signs to a multiple of four |
| Base64.ProofHeaderExact | packages/x402-xec-express/src/settlement-middleware.ts:206-236 | a proof header is read as bytes b exactly when it is the url or the standard encoding of non-empty b |
| Base64.RawJsonExact | packages/x402-xec-express/src/settlement-middleware.ts:206-212 | a proof header is read as JSON text exactly when its trimmed text starts with a brace |
| Base64.TrimExact | packages/x402-xec-express/src/settlement-middleware.ts:207 | what is trimmed off is blank, and what is left neither starts nor ends with a blank |
| Base64.FormsAgree | packages/x402-xec-express/src/settlement-middleware.ts:214-233 | a standard encoding over the url alphabet is the url encoding: the branches never disagree |
| Base64.SignatureOnto | packages/x402-xec-facilitator/src/ecash-message-signature.ts:30-45 | every 65-byte signature has an accepted 87-character spelling, translated to its standard form |
| Base64.SignatureInjective | packages/x402-xec-facilitator/src/ecash-message-signature.ts:30-45 | every accepted spelling is the one spelling of 65 bytes |
| Radix.RecodeMeaning | examples/manual-payment-cli/src/cli.ts:350-368 | conversion keeps the number of leading zeros and the number |
| Radix.RecodeInverse | examples/manual-payment-cli/src/cli.ts:350-368 | conversion to another radix and back is the identity |
| Base58.DecodeBase58 | examples/manual-payment-cli/src/cli.ts:350-368 | the loop, the hex detour and the padding compute the radix conversion |
| Base58.Base58Bijection | examples/manual-payment-cli/src/cli.ts:350-368 | non-empty Base58 strings and non-empty byte strings are in bijection |
| Base58.Base58Meaning | examples/manual-payment-cli/src/cli.ts:359-367 | leading '1's match leading zero bytes, the rest carries the same number in radix 58 and 256 |
| Base58.LettersInOrder | examples/manual-payment-cli/src/cli.ts:350-358 | the 58 letters in the order of their values |
| Base58.IsBase58Exact | examples/manual-payment-cli/src/cli.ts:350-358 | the texts that are decoded are the non-empty ones of these letters |
| MemoryStore.InMemoryStore.Issue | packages/x402-xec-core/src/invoice-store.ts:162-199 | the method on the five maps and the counter computes the issue operation |
| MemoryStore.InMemoryStore.IssueWithAllocation | packages/x402-xec-core/src/invoice-store.ts:201-265 | the same for issuance with allocation, burnt index included; the record repeats the terms it was given and is filed under their hash |
| MemoryStore.InMemoryStore.CommitPaid | packages/x402-xec-core/src/invoice-store.ts:298-360 | the same for settlement |
| MemoryStore.InMemoryStore.GetBySettledTxid | packages/x402-xec-core/src/invoice-store.ts:274-281 | the same for the lookup by txid |
| SqlStore.Database.IssueWithAllocation | packages/x402-xec-core/src/sqlite-invoice-store.ts:192-296 | the transaction computes the table operation; the record repeats the terms it was given under their hash, a failure leaves the table unchanged |
| SqlStore.Database.CommitPaid | packages/x402-xec-core/src/sqlite-invoice-store.ts:332-416 | the same for settlement |
| SqlStore.NextIndex | packages/x402-xec-core/src/sqlite-invoice-store.ts:323-330 | the next index is one above the largest recorded one |
| InvoiceStore.IssueKeeps | packages/x402-xec-core/src/invoice-store.ts:162-199 | issuing keeps the one-to-one correspondences and every recorded invoice |
| InvoiceStore.IssueKeepsExactly | packages/x402-xec-core/src/invoice-store.ts:162-199 | it does so exactly for records that are not settled |
| InvoiceStore.IssueWithAllocationKeeps | packages/x402-xec-core/src/invoice-store.ts:201-265 | the same for issuance with allocation, failures included |
| InvoiceStore.AllocationKeepsExactly | packages/x402-xec-core/src/invoice-store.ts:201-265 | an issued record keeps the correspondence exactly if it is not issued as PAID |
| InvoiceStore.CommitPaidKeeps | packages/x402-xec-core/src/invoice-store.ts:298-360 | settling keeps the correspondences, changes no paid record and no terms |
| InvoiceStore.CommitBinds | packages/x402-xec-core/src/invoice-store.ts:298-360 | a commit binds invoice and txid for good: in every later store a repeat is idempotent, any other pairing of either is refused |
| InvoiceStore.IssuedTerms | packages/x402-xec-core/src/invoice-store.ts:201-265 | an issued record repeats the terms it was given, with the next index and its address, under the hash of the invoice they make |
| InvoiceStore.IssueRefusal | packages/x402-xec-core/src/invoice-store.ts:206-242 | which of several obstacles an issuance reports, and that all but a taken nonce burn the index |
| InvoiceStore.IssueExact | packages/x402-xec-core/src/invoice-store.ts:162-199 | what issuing a finished record files, and which clash refuses it |
| InvoiceStore.CommitExact | packages/x402-xec-core/src/invoice-store.ts:298-360 | what a settlement writes, and which refusal it gives |
| InvoiceStore.LookupsExact | packages/x402-xec-core/src/invoice-store.ts:267-290 | which record the three lookups find |
| SqlStore.SqlIssuedTerms | packages/x402-xec-core/src/sqlite-invoice-store.ts:192-296 | an issuance appends one row with the terms it was given, under the hash of the invoice they make |
| SqlStore.SqlIssueRefusal | packages/x402-xec-core/src/sqlite-invoice-store.ts:192-296 | which of several obstacles it reports |
| SqlStore.InsertExact | packages/x402-xec-core/src/sqlite-invoice-store.ts:88-105 | an insertion is refused exactly if it would repeat a value in a UNIQUE column |
| SqlStore.SqlCommitExact | packages/x402-xec-core/src/sqlite-invoice-store.ts:332-416 | a settlement writes the three settlement columns of one row, and looks at the txid first |
| StoreRuns.FiledUnderTerms | packages/x402-xec-core/src/invoice-store.ts:223-261 | after every run, whatever its operations, each record and each row is filed under the hash of the invoice with its own terms |
| StoreRuns.IssuedFound | packages/x402-xec-core/src/sqlite-invoice-store.ts:298-305 | the hash that a client computes of the invoice it was issued finds its record, in either store |
| StoreRuns.ColumnsUnique | packages/x402-xec-core/src/sqlite-invoice-store.ts:88-105 | after every run no UNIQUE column repeats a value, so the UPDATE that settles an invoice never fails |
| StoreSimulation.IssueSimulates | packages/x402-xec-core/src/sqlite-invoice-store.ts:192-296 | the stores answer an issuance alike, and stay related, exactly under the stated conditions |
| StoreSimulation.CommitSimulates | packages/x402-xec-core/src/sqlite-invoice-store.ts:332-416 | settlement keeps them related; the answers differ exactly for an unknown invoice with a bound txid |
| StoreSimulation.StepSimulates | packages/x402-xec-core/src/invoice-store.ts:201-360 | any operation keeps the stores in agreement if and only if it is agreeable |
| StoreSimulation.StoresAgree | packages/x402-xec-core/src/sqlite-invoice-store.ts:88-105 | over every run of schema-valid issuances, settlements and lookups, maps and table answer alike at every position, except INVOICE_NOT_FOUND against TXID_REUSED for an unknown invoice with a bound txid, and stay related |
| StoreSimulation.BurntIndex | packages/x402-xec-core/src/invoice-store.ts:213 | a run after which only one store has lost an index |
| Settlement.ScanOutputs | packages/x402-xec-core/src/settlement-verifier.ts:379-437 | the loop returns the least token-free output with exact script and amount, or the refusal that the kinds of matching output determine; it never reaches OUTPUT_NOT_FOUND |
| Settlement.InspectExact | packages/x402-xec-core/src/settlement-verifier.ts:257-437 | inspection accepts index i exactly for a good payment at i, first seen or else mined at most ten seconds before the invoice, and none before it |
| Settlement.VerifySettlementProof | packages/x402-xec-core/src/settlement-verifier.ts:131-480 | the procedure on the store object computes the specified new state and outcome; an UNLOCKED outcome rests on a good payment in time |
| Settlement.UnlockExact | packages/x402-xec-core/src/settlement-verifier.ts:131-480 | an uninterrupted run unlocks exactly a known invoice in its window, for its resource, with a good payment inside the temporal fence by a txid that settles no other invoice |
| Settlement.UnlockAnswer | packages/x402-xec-core/src/settlement-verifier.ts:439-479 | what an UNLOCKED answer says and writes: the least paying output, and the record settled now or earlier by this txid |
| Settlement.RefusalExact | packages/x402-xec-core/src/settlement-verifier.ts:131-480 | which of several faults is reported, code by code |
| Settlement.RefusalTouchesNothing | packages/x402-xec-core/src/settlement-verifier.ts:439-479 | a refusal or a repeated settlement leaves the store as it was |
| SettlementRuns.RunKeeps | packages/x402-xec-core/src/settlement-verifier.ts:132-479 | however verifiers interleave, the invariant holds and no PAID record changes again |
| SettlementRuns.UnlockedForever | packages/x402-xec-core/src/settlement-verifier.ts:439-479 | an UNLOCKED answer names the record and txid that the store holds from then on, and rests on a good payment, inside the temporal fence, in a transaction that the source answered with during the run |
| SettlementRuns.SettledInWindow | packages/x402-xec-core/src/settlement-verifier.ts:174-204 | every paid invoice has issuedAt <= settledAt < expiresAt, and nothing later moves settledAt |
| SettlementRuns.PaidOneToOne | packages/x402-xec-core/src/invoice-store.ts:315-352 | in every reachable state paid invoices and bound txids correspond one to one |
| SettlementRuns.MoneyConserved | packages/x402-xec-core/src/settlement-verifier.ts:276-403 | paid amounts add up to the value of as many distinct outpoints, each paying one of these invoices in a transaction that the source answered with during the run, confirmed or final, first seen or else mined at most ten seconds before the invoice |
| SettlementRuns.PaidInvoiceBacked | packages/x402-xec-core/src/settlement-verifier.ts:318-346 | the same for every single paid invoice of a run |
| SettlementRuns.CommitIsSerial | packages/x402-xec-core/src/settlement-verifier.ts:439-479 | an interleaved verifier acts as if run alone at its commit, except for one refusal code, exactly characterized |
| SettlementRuns.SerialIsRun | packages/x402-xec-core/src/settlement-verifier.ts:131-480 | the steps of one verifier, uninterrupted, are the sequential procedure |
| SqlSettlement.TableAnswersAlike | packages/x402-xec-core/src/sqlite-invoice-store.ts:298-416 | over every legal interleaving the verifiers on the table are where the verifiers on the maps are, with the same answers |
| SqlSettlement.TableUnlockedForever | packages/x402-xec-core/src/settlement-verifier.ts:439-479 | an UNLOCKED answer over the table names the row found by invoice and by txid from then on |
| SqlSettlement.TableSettledInWindow | packages/x402-xec-core/src/sqlite-invoice-store.ts:332-416 | every paid row was settled inside its window by a txid of its own, and stays unchanged |
| Locks.Serialisable | packages/x402-xec-facilitator/src/ledger.ts:50-86 | at most one operation is inside, entry is in call order, state and results are those of the serial run, throws included |
| Locks.EveryoneLeaves | packages/x402-xec-core/src/invoice-store.ts:151-160 | with terminating operations no schedule outlasts the remaining work, and one that cannot go on has served every waiter |
| Locks.Progress | packages/x402-xec-core/src/invoice-store.ts:154-160 | while somebody waits, the caller whose turn it is can move |
| NonceStore.InMemoryNonceStore.Consume | packages/x402-xec-core/src/nonce-store.ts:7-12 | the method with its prune loop computes the consumption |
| NonceStore.DeleteExpired | packages/x402-xec-core/src/nonce-store.ts:8 | the loop leaves exactly the entries that expire after now |
| NonceStore.PruningInvisible | packages/x402-xec-core/src/nonce-store.ts:5-13 | with a clock that never goes back the pruned map answers as the full history would |
| NonceStore.PruningInvisibleExactly | packages/x402-xec-core/src/nonce-store.ts:7-12 | for every clock the pruned map answers as the full history would if and only if no request names a nonce whose live uses have all been forgotten |
| NonceStore.OrderedSafe | packages/x402-xec-core/src/nonce-store.ts:8 | a clock that never goes back leaves no such gap |
| NonceStore.LaterUseStands | packages/x402-xec-core/src/nonce-store.ts:8-10 | a forgotten live use alone is no gap: a later use of the nonce still refuses |
| NonceStore.ClockGoingBack | packages/x402-xec-core/src/nonce-store.ts:5-13 | a run in which a clock that goes back gets a live nonce accepted twice |
| Authorizations.SigningMessageBinds | packages/x402-xec-core/src/authorization.ts:10-14 | two authorizations have one signed message exactly when they differ in the signature only |
| Authorizations.AuthorizationDigestBinds | packages/x402-xec-facilitator/src/facilitator.ts:82 | digests are equal exactly for equal authorizations, barring a collision |
| Authorizations.RequestDigestBinds | packages/x402-xec-facilitator/src/facilitator.ts:82-84 | request digests are equal exactly when authorization, invoice and resource hash are |
| HashedTexts.AuthorizationSpelled | packages/x402-xec-core/src/authorization.ts:10-14 | the signed text, and the text under the authorization digest, character by character |
| HashedTexts.RequestDigestSpelled | packages/x402-xec-facilitator/src/facilitator.ts:82-84 | the request digest is taken of authorization digest, invoice id and resource hash, character by character |
| Authorizations.AuthorizationSchema | packages/x402-xec-core/src/schemas.ts:6-27 | the authorizations that the schema accepts, in character ranges, lengths and bounds |
| Authorizations.CheckBindingExact | packages/x402-xec-core/src/authorization.ts:23-34 | the checks pass exactly in the time window and for an authorization that repeats the terms of the invoice |
| Authorizations.OneInvoicePerMessage | packages/x402-xec-core/src/authorization.ts:30-35 | one signed message can authorize one invoice only |
| Ledgers.InspectFundingExact | packages/x402-xec-core/src/chronik.ts:138-180 | funding is accepted exactly for a settled token-free output of the outpoint with at least the amount |
| Ledgers.OutpointKeyInjective | packages/x402-xec-facilitator/src/ledger.ts:96 | the text key of an outpoint determines the outpoint |
| Ledgers.InMemoryTransactionalLedger.Consume | packages/x402-xec-facilitator/src/ledger.ts:59-66 | consumption prunes the shared map and only stages the use |
| Ledgers.InMemoryTransactionalLedger.Commit | packages/x402-xec-facilitator/src/ledger.ts:70-78 | commit adds staged nonces, account, entry and stored response, and nothing else |
| Ledgers.VerifyOnLedger | packages/x402-xec-facilitator/src/facilitator.ts:69-105 | the procedure on the ledger object computes the specified new ledger and answer |
| Ledgers.DebitOnLedger | packages/x402-xec-facilitator/src/facilitator.ts:107-175 | the same for the debit |
| LedgerRuns.DebitStep | packages/x402-xec-facilitator/src/facilitator.ts:86-175 | under the stated conditions a verification debits the account and answers with the balance left |
| LedgerRuns.OtherStep | packages/x402-xec-facilitator/src/facilitator.ts:86-145 | under any other conditions it changes at most expired nonces, and succeeds only as a replay |
| LedgerRuns.FailureTouchesNothing | packages/x402-xec-facilitator/src/facilitator.ts:101-144 | a failed verification leaves accounts, entries and stored responses untouched |
| LedgerAnswers.DebitExact | packages/x402-xec-facilitator/src/facilitator.ts:86-175 | a verification under a new key succeeds exactly if every condition on request, signature, nonce, output and account holds; then exactly one account, entry, response and nonce are written |
| LedgerAnswers.FailureExact | packages/x402-xec-facilitator/src/facilitator.ts:69-144 | which of several faults is reported, code by code |
| LedgerAnswers.ForgetsExact | packages/x402-xec-facilitator/src/ledger.ts:59-66 | without a debit expired nonces are forgotten exactly if the call gets as far as the nonce check |
| LedgerRuns.CreditConserved | packages/x402-xec-facilitator/src/facilitator.ts:128-175 | after every run each outpoint's funding is its remaining balance plus the sum of its debits |
| LedgerRuns.EntriesRecordBalances | packages/x402-xec-facilitator/src/facilitator.ts:146-175 | each entry records the running balance, and all entries of an outpoint share payer and value |
| LedgerRuns.OneDebitPerInvoice | packages/x402-xec-facilitator/src/ledger.ts:56-79 | with a clock that never goes back no invoice is debited twice, although nonces are pruned |
| LedgerRuns.NonceCheckExact | packages/x402-xec-facilitator/src/ledger.ts:59-66 | the nonce passes exactly when no recorded debit with it expires after now |
| LedgerRuns.KeysBijective | packages/x402-xec-facilitator/src/ledger.ts:70-78 | entries and idempotency keys correspond one to one, each stored response tells its entry |
| LedgerRuns.IdempotentForever | packages/x402-xec-facilitator/src/facilitator.ts:82-91 | after a success, every later call with the key is a no-op: the same response if it repeats authorization, invoice and resource, a conflict otherwise |
| FacilitatorLock.VerifyTerminates | packages/x402-xec-facilitator/src/facilitator.ts:86-104 | a verification ends after three awaits at most |
| FacilitatorLock.LeftIsVerify | packages/x402-xec-facilitator/src/facilitator.ts:86-104 | its stretches between awaits amount to the sequential procedure |
| FacilitatorLock.EveryInterleaving | packages/x402-xec-facilitator/src/ledger.ts:50-86 | under every interleaving the books are those of the sequential run in call order, and so are the answers |
| FacilitatorLock.OneDebitConcurrently | packages/x402-xec-facilitator/src/ledger.ts:56-79 | with a clock that never goes back no invoice is debited twice under any interleaving of callers |
| FacilitatorLock.NonceCheckConcurrently | packages/x402-xec-facilitator/src/ledger.ts:59-66 | under any interleaving, at every moment, the nonce passes exactly when no debit so far with it expires after now |
| ReplayCache.InMemoryAuthorizationReplayCache.TryReserve | packages/x402-xec-agent-bridge/src/replay-cache.ts:37-82 | the method computes the reservation |
| ReplayCache.InMemoryAuthorizationReplayCache.CommitReservation | packages/x402-xec-agent-bridge/src/replay-cache.ts:87-94 | the method computes the commit |
| ReplayCache.InMemoryAuthorizationReplayCache.RollbackReservation | packages/x402-xec-agent-bridge/src/replay-cache.ts:99-102 | the method computes the rollback |
| ReplayCache.InMemoryAuthorizationReplayCache.PruneExpired | packages/x402-xec-agent-bridge/src/replay-cache.ts:107-124 | the two loops drop exactly the expired entries and count the dropped invoices |
| ReplayCache.ReserveRollback | packages/x402-xec-agent-bridge/src/replay-cache.ts:80-102 | rolling a fresh reservation back undoes it |
| ReplayCache.CacheExact | packages/x402-xec-agent-bridge/src/replay-cache.ts:37-124 | for every clock, over runs of reservations, commits and rollbacks, the cache answers as the full history would if and only if no reservation falls into a gap |
| ReplayCache.ClockGoingBack | packages/x402-xec-agent-bridge/src/replay-cache.ts:104-124 | a run in which a clock that goes back reserves a valid committed invoice again |
| Bridge.AuthorizePayment | packages/x402-xec-agent-bridge/src/bridge.ts:110-486 | the procedure with its catch block computes the specified cache and result; it approves exactly if every condition holds |
| Bridge.SerialIsRun | packages/x402-xec-agent-bridge/src/bridge.ts:110-486 | the steps of one authorization, uninterrupted, are that procedure |
| Bridge.ApprovalExact | packages/x402-xec-agent-bridge/src/bridge.ts:110-443 | a payment is approved exactly if every admission, intent, policy and wallet condition holds and nothing unexpired stands in the way of its reservation; the later clock and the recorded approval lie before the expiry of invoice, intent and decision |
| Bridge.ResultExact | packages/x402-xec-agent-bridge/src/bridge.ts:110-485 | which of several faults is reported, code by code |
| ApprovalGrounds.EveryApprovalGrounded | packages/x402-xec-agent-bridge/src/bridge.ts:187-443 | in every run, however authorizations interleave, each approval rests on a demand, a decision and a human approval of one authorization, in this order, recorded before invoice, intent and decision expire |
| Bridge.OnlyApprovalStays | packages/x402-xec-agent-bridge/src/bridge.ts:286-485 | an authorization that is not approved leaves no trace but pruned expired entries; an approved one adds exactly its entry |
| Bridge.InFlightExact | packages/x402-xec-agent-bridge/src/bridge.ts:174-182 | in every run the in-flight sets are exactly what unfinished authorizations hold; none are left when all have finished |
| Bridge.StepKeeps | packages/x402-xec-agent-bridge/src/replay-cache.ts:45-101 | every step keeps the held pairs disjoint in both coordinates and equal to the in-flight sets |
| Bridge.OthersKeepTheirs | packages/x402-xec-agent-bridge/src/bridge.ts:415-485 | no failure or rollback, doubled ones included, frees what another authorization holds |
| Bridge.ApprovedOnce | packages/x402-xec-agent-bridge/src/bridge.ts:415-443 | with a clock that never goes back each invoice is approved at most once |
| Bridge.ApprovedOnceSafely | packages/x402-xec-agent-bridge/src/bridge.ts:415-443 | for every clock, the same unless a reservation attempt fell into a gap |
| Bridge.ReservationExact | packages/x402-xec-agent-bridge/src/replay-cache.ts:43-82 | in every run, whatever the clock, a reservation is answered as by a cache that forgets nothing if and only if the grant that should refuse it has not been forgotten |
| Bridge.ReservationOrdered | packages/x402-xec-agent-bridge/src/replay-cache.ts:43-82 | with a clock that never goes back every reservation is answered so |

## Left out

- HTTP, Express and Axios plumbing, CORS, routes, status codes of responses and error texts: only the codes are kept.
- SHA-256, CashAddr, address derivation and signature checks: functions or answers given as parameters.
- URL parsing inside `normalizeServerOrigin`: the normalized origin is an input.
- Shape checks of untyped input (missing fields, wrong types, NaN, `undefined` values in a body): the model starts from typed values that satisfy the schemas.
- Network, scheme and version comparisons after the schemas, which admit one literal each.
- Case mapping outside ASCII: `toLowerCase` and `toUpperCase` are modelled on the texts the code applies them to, hexadecimal and HTTP tokens.
- Floating-point arithmetic: a JSON number is its ECMAScript text, and numbers are equal when their texts are, with -0 read as 0.
- SQLite durability, WAL, restart and busy handling; SQLite `issue` without an index, which reads the next index before its transaction begins.
- Which of several violated UNIQUE columns SQLite reports: the declared order is taken. With an injective allocator and no hash collision only the nonce can clash, so no theorem depends on it.
- The reservations are sets of texts that only the authorizations of one process share; other processes are not part of this model.
- `dailyLimitSats` is modelled as the code uses it, as a bound on each payment; there is no running total to prove anything about.
- The schemas of intents, policy decisions, wallet requests and human approvals belong to tonalli-core, which is not part of this model: their verdicts are inputs.
- Chronik clients, transaction construction and broadcasting, the demo servers and the other command-line options.
