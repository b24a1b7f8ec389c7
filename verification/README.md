# Verified model of the Epic wallet module

This project models four parts of the Epic wallet module and proves what they promise:

- **Base58, Base58Check and epicbox addresses.** The encoder and decoder are modelled as the in-place
  big-number loops they are, on arrays, and proved to compute a function given independently of them
  (`Base58.Encode`, `Base58.Decode`, defined by the canonical digits of a number). About these functions
  it is proved that they undo each other, which texts are refused and why, that keys always have 52
  characters, and that addresses parse back from what is displayed.
- **The slate protocol.** N participants, two rounds, one aggregated signature and one kernel offset.
  Scalars are integers modulo a group order, points are formal pairs (blind, value), the challenge hash
  is a parameter. `Slates` says what each operation computes, `SlateObject.Slate` carries it out on a
  mutable object, `SlateProtocol` and `SlateBalance` prove what every run keeps and when finalizing
  succeeds, `SlateVersions` has the version 3 conversions, and `SlateExamples` concrete slates.
- **The hand-written JSON scanner and escaper** of the light wallet. The scanner is proved to find the
  end of any value and the first member of any name in every text printed from a JSON tree.
- **Wallet state machines**: the restore-scan marker, the max-send loop, sending with rollback, balance
  totals and spent flags, and the encrypted owner session under interleaved requests.

Where the code does not do what one would wish, the code is kept, an example shows it, and the exact
condition under which it does is proved:

- The Base58 decoder aborts on data of more than 132 bytes that its limbs can still hold
  (`Base58RoundTrip.DecodeEncode`, `Base58RoundTrip.DecodeValidText`; example `Base58RoundTrip.DecoderAborts`).
- Parsing an address aborts when its port is empty or above 65535 (`EpicboxAddresses.FromStrAbortsIff`;
  example `EpicboxAddresses.EmptyPortExample`).
- A first round 1 that fails for a degenerate key leaves an offset in the slate that was split out of
  no key, so that trying again with the same inputs and outputs never balances
  (`SlateBalance.FailedRound1KeepsOffset`, `SlateBalance.RetryNeverBalances`,
  `SlateBalance.RetryWithOthersIff`; example `SlateExamples.FailedRound1Example`).
- A participant who joins after somebody has signed invalidates that signature, and nobody can sign any
  more (`SlateBalance.LateChallenge`, `SlateBalance.LateJoiner`; example `SlateExamples.LateJoinerExample`).
- The restore-scan marker can claim heights that were never scanned: when the first recent scan comes too
  late (`RestoreScan.FirstRecentScanIff`; example `RestoreScan.GapExample`), or when the restore scan runs
  while the chain is below its start (`RestoreScan.RestoreClaimIff`, `RestoreScan.ClaimsAreTrue`; example
  `RestoreScan.EarlyRestoreExample`).
- A published slate is rolled back when the reply is lost (`SendTransaction.RolledBackIff`,
  `SendTransaction.PublishedRolledBackIff`; example `SendTransaction.LostReplyExample`).
- A re-keying of the owner session whose answer cannot be encrypted leaves the two keys apart, and so does
  one inside a batch of calls, where nothing fails (`OwnerSession.KeysAgreeIff`; examples
  `OwnerSession.LostRekeying`, `OwnerSession.BatchedRekeying`).
- An init that succeeds can leave the handler with another client's key (`OwnerSession.PublishedKeyIff`;
  example `OwnerSession.CrossedInits`).
- The two halves of a surrogate pair are decoded one by one, in keys and in texts
  (`JsonMeaning.DecodesMeaningIff`, `JsonMeaning.LookupMeaningIff`; examples
  `JsonMeaning.SurrogatePairExample`, `JsonMeaning.PairLookupExample`).

The documentation of `cancel_tx` says that inputs go from Locked to Spent; the code sets them to Unspent,
and so does the model (upstream/epic-wallet/libwallet/src/internal/updater.rs:300-309).

## Conventions

Text is a sequence of bytes in the Base58 and address modules and a string of one character per byte in
the JSON and marker modules. Unsigned integers are natural numbers; where their width decides something
(carries, masks, saturation, the i64 cast of the fee, parsed numbers) it is written out. Foreign
functions (SHA-256, the curve library, the challenge hash, the wallet's fee estimate, chain validation)
are parameters with only the laws stated where they are used. Failures of calls that are not modelled
are parameters too. `Panics`, `Abort`, `Aborted` and `panicked` stand for a panic of the program.

## Model

| member | source | states |
|---|---|---|
| Base58Alphabet.GlyphsAndDigits | upstream/epic-wallet/libwallet/src/base58.rs:4-14 | the 128-entry digit table inverts the alphabet in both directions |
| Base58.BufferFits | upstream/epic-wallet/libwallet/src/base58.rs:32 | 256^n fits n*138/100+1 base-58 cells, and 256^(n-1) fits one cell less, for every n |
| Base58.FirstCellZero | upstream/epic-wallet/libwallet/src/base58.rs:46-50 | while bytes remain to be consumed the first cell is zero, so stopping the index at 0 skips nothing |
| Base58.NoFinalCarry | upstream/epic-wallet/libwallet/src/base58.rs:41-51 | once all cells have been visited the carry is zero, so the inner loop ends and the buffer is never too small |
| Base58.PushByte | upstream/epic-wallet/libwallet/src/base58.rs:38-54 | one outer turn makes the number in the buffer 256 times itself plus the byte, and the cells that the next turn may skip hold zero |
| Base58.ToBase58 | upstream/epic-wallet/libwallet/src/base58.rs:30-70 | the in-place encoder returns one '1' for each leading zero byte followed by the canonical base-58 digits of the number |
| Base58.MaskKeepsCarry | upstream/epic-wallet/libwallet/src/base58.rs:112 | the carry mask drops no bit of any carry that can arise |
| Base58.PushDigit | upstream/epic-wallet/libwallet/src/base58.rs:107-119 | one outer turn makes the number in the limbs 58 times itself plus the digit, and a carry is left exactly when that reaches 2^1056 |
| Base58.Unpack | upstream/epic-wallet/libwallet/src/base58.rs:127-149 | the bytes written out hold the same number as the limbs |
| Base58.FromBase58 | upstream/epic-wallet/libwallet/src/base58.rs:81-154 | the limb decoder returns what reading the digits one by one yields: the first error, or the zero bytes and the canonical bytes of the number |
| Base58RoundTrip.DecodeErrors | upstream/epic-wallet/libwallet/src/base58.rs:94-122 | exactly which bad character is reported at which index, and that a bad length is reported exactly when some prefix of valid digits reaches 2^1056 |
| Base58RoundTrip.DecodeValidText | upstream/epic-wallet/libwallet/src/base58.rs:94-153 | for text of valid digits, exactly when decoding succeeds, reports a bad length or aborts, and the value on success |
| Base58RoundTrip.EncodeShape | upstream/epic-wallet/libwallet/src/base58.rs:57-69 | encoded text has as many leading '1's as the data has leading zero bytes, valid digits only, and writes the data's number |
| Base58RoundTrip.DecodeEncode | upstream/epic-wallet/libwallet/src/base58.rs:30-154 | decoding the encoding gives the data back exactly for data of at most 132 bytes, and what happens beyond |
| Base58RoundTrip.DecoderAborts | upstream/epic-wallet/libwallet/src/base58.rs:150-153 | 133 zero bytes, whose encoding makes the decoder abort |
| Base58RoundTrip.EncodeDecode | upstream/epic-wallet/libwallet/src/base58.rs:30-154 | every text that decodes is the encoding of what it decodes to |
| Base58Check.ToBase58Check | upstream/epic-wallet/libwallet/src/base58.rs:72-77 | encodes version, data and the first four bytes of the hash of their hash |
| Base58Check.CheckedText | upstream/epic-wallet/libwallet/src/base58.rs:72-77 | the text decodes to version, data and the first four bytes of their double hash exactly when they are at most 128 bytes |
| Base58Check.FromBase58Check | upstream/epic-wallet/libwallet/src/base58.rs:156-171 | the method computes the outcome that the next row characterises |
| Base58Check.DecodeCheckIff | upstream/epic-wallet/libwallet/src/base58.rs:156-182 | of the texts that decode, exactly those pass that have a payload and end in the first four bytes of its double hash; they are split after the version or abort, the others have a wrong checksum |
| Base58Check.DecodeCheckPasses | upstream/epic-wallet/libwallet/src/base58.rs:157 | the errors and the abort of decoding are passed on |
| Base58Check.DecodeEncodeCheck | upstream/epic-wallet/libwallet/src/base58.rs:72-77 | version and data come back exactly when they are together 1 to 128 bytes |
| Base58Check.EncodeDecodeCheck | upstream/epic-wallet/libwallet/src/base58.rs:156-171 | text that passes the check is the checked encoding of what it yields |
| EpicboxAddresses.KeyTextLength | upstream/epic-wallet/libwallet/src/epicbox_address.rs:22-25 | for both networks, every compressed key and every hash, the text has exactly 52 Base58 characters |
| EpicboxAddresses.KeyTextIs | upstream/epic-wallet/libwallet/src/epicbox_address.rs:22-23 | a key's text encodes the version bytes of the network, the key, and four bytes of their double hash |
| EpicboxAddresses.KeyRoundTrip | upstream/epic-wallet/libwallet/src/epicbox_address.rs:116-130 | a key is read back from its text |
| EpicboxAddresses.KeyErrorsIff | upstream/epic-wallet/libwallet/src/epicbox_address.rs:116-130 | exactly when a key text has a wrong checksum, the version of the other network, or no key in it, and the key it yields otherwise |
| EpicboxAddresses.MatchWritten | upstream/epic-wallet/libwallet/src/epicbox_address.rs:25 | the match accepts every string of the address grammar and recovers its parts |
| EpicboxAddresses.MatchSound | upstream/epic-wallet/libwallet/src/epicbox_address.rs:25 | the match accepts no other string |
| EpicboxAddresses.DomainByteIff | upstream/epic-wallet/libwallet/src/epicbox_address.rs:25 | domains consist of letters, digits and dots |
| EpicboxAddresses.FromStrAbortsIff | upstream/epic-wallet/libwallet/src/epicbox_address.rs:70-87 | parsing aborts exactly when the string matches with a port that is empty or above 65535; no key text makes it abort |
| EpicboxAddresses.FromStrErrorsIff | upstream/epic-wallet/libwallet/src/epicbox_address.rs:70-87 | a string is refused exactly when it does not match, or with the error of its key |
| EpicboxAddresses.FromStrReads | upstream/epic-wallet/libwallet/src/epicbox_address.rs:57-87 | what is parsed: the key, the domain or the default one, and the port's value |
| EpicboxAddresses.DisplayIs | upstream/epic-wallet/libwallet/src/epicbox_address.rs:98-109 | key, at sign, domain, and the port unless it is 443 |
| EpicboxAddresses.ParseDisplay | upstream/epic-wallet/libwallet/src/epicbox_address.rs:70-110 | a displayed address parses back to itself, with an explicit default port dropped, exactly when its domain is one the grammar admits |
| EpicboxAddresses.ParseStable | upstream/epic-wallet/libwallet/src/epicbox_address.rs:70-110 | whatever string an address was parsed from, displaying and parsing it again gives the same address, with an explicit default port 443 dropped |
| SlateObject.Slate.AddElements | upstream/epic-wallet/libwallet/src/slate.rs:274-298 | replaces the kernel by one of the slate's fee and lock height and adds the elements one by one; the result is the sum of their blinding factors |
| SlateObject.Slate.FillFirstRound | upstream/epic-wallet/libwallet/src/slate.rs:302-328 | splits the offset out of the key if there is none yet, then records the participant; failures leave what was done before them |
| SlateObject.Slate.AddParticipant | upstream/epic-wallet/libwallet/src/slate.rs:441-498 | appends the public data of the key and nonce, with no signature, or fails without a change |
| SlateObject.Slate.CheckPartSigs | upstream/epic-wallet/libwallet/src/slate.rs:581-596 | the loop returns true exactly when every signature present verifies under the current sums |
| SlateObject.Slate.FillSecondRound | upstream/epic-wallet/libwallet/src/slate.rs:352-380 | fee check, signature check, partial signature, and the search for the caller's entry, with its abort past the end |
| SlateObject.Slate.SumSignatures | upstream/epic-wallet/libwallet/src/slate.rs:657-681 | checks, adds and verifies the signatures, and aborts when one is missing |
| SlateObject.Slate.Complete | upstream/epic-wallet/libwallet/src/slate.rs:703-734 | puts excess and signature into the one kernel and keeps the transaction only if kernel and transaction are valid |
| SlateObject.Slate.FinalizeSlate | upstream/epic-wallet/libwallet/src/slate.rs:384-391 | aggregates, then completes; this is the operation that the balance results below are about |
| SlateProtocol.NextKeeps | upstream/epic-wallet/libwallet/src/slate.rs:302-380 | every allowed step keeps the invariant: honest public data and signatures, the kernel's features, and the blinding balance |
| SlateProtocol.PartSigsAlwaysVerify | upstream/epic-wallet/libwallet/src/slate.rs:581-596 | in every state of every run the partial signatures collected so far verify |
| SlateProtocol.Round2Succeeds | upstream/epic-wallet/libwallet/src/slate.rs:352-380 | in a reachable state round 2 succeeds exactly when the fees are in order and the sums are not degenerate |
| SlateProtocol.Round2FailsIff | upstream/epic-wallet/libwallet/src/slate.rs:352-380 | in a reachable state round 2 fails exactly when the fee does not pay 100000 a unit of weight or a sum of secrets is zero |
| SlateProtocol.CheckFeesIff | upstream/epic-wallet/libwallet/src/slate.rs:550-578 | for any slate, the fee check in terms of the kernels' capped fees, amount plus fee, and the weight |
| SlateProtocol.SetPartSigOutcome | upstream/epic-wallet/libwallet/src/slate.rs:373-378 | for any slate, whose entry gets the signature, when it is dropped, and when the search aborts |
| SlateProtocol.AnyOrderSigns | upstream/epic-wallet/libwallet/src/slate.rs:352-380 | after round 1 participants can sign in any order; every call succeeds and exactly those have signed |
| SlateProtocol.SetPartSigKeepsChallenge | upstream/epic-wallet/libwallet/src/slate.rs:373-378 | setting a signature leaves nonce sum, key sum and message alone |
| SlateProtocol.FinalSignatureVerifies | upstream/epic-wallet/libwallet/src/slate.rs:657-681 | once all have signed, finalizing yields the signature of the summed keys and nonces, and it verifies under the summed public key |
| SlateProtocol.KernelAgreement | upstream/epic-wallet/libwallet/src/slate.rs:284-349 | in every state the one kernel is plain with the original fee, or locked with the original fee and height if there is one, and every challenge is made for exactly these features |
| SlateProtocol.NextFixes | upstream/epic-wallet/libwallet/src/slate.rs:314-317 | no step changes amount, fee or lock height, nor the offset once there is one |
| SlateProtocol.TransmitAnywhere | upstream/epic-wallet/libwallet/src/slate.rs:793-1181 | a conversion to version 3 and back between any two steps changes no later result |
| SlateVersions.RoundTrip | upstream/epic-wallet/libwallet/src/slate.rs:831-1181 | a slate survives the conversion to version 3 and back, with features and range proofs of inputs and outputs, kernels and participants |
| SlateVersions.RoundTripV3 | upstream/epic-wallet/libwallet/src/slate.rs:997-1181 | a version 3 slate survives the way back exactly when the kernel fields its features do not use are zero |
| SlateVersions.TravelsAs | upstream/epic-wallet/libwallet/src/slate.rs:831-1015 | every field travels under its own name |
| SlateProtocol.Round1KeepsBalance | upstream/epic-wallet/libwallet/src/slate.rs:523-546 | keys plus the one offset stay equal to output minus input blinding factors |
| SlateBalance.ExcessIsKeySum | upstream/epic-wallet/libwallet/src/slate.rs:684-700 | the computed excess is the sum of the public keys plus the value gap, and when there is an error instead: at a fee of 2^63, or when the commitments cancel out |
| SlateBalance.FinalKernelVerifiesIff | upstream/epic-wallet/libwallet/src/slate.rs:720-726 | the final kernel verifies exactly when the challenge fits the excess and annihilates the value gap |
| SlateBalance.BalancedFinalizes | upstream/epic-wallet/libwallet/src/slate.rs:384-391 | if inputs equal outputs plus fee, the kernel verifies and finalizing succeeds exactly when the fee check and the chain's validation pass; at a fee of 2^63, whose cast has no absolute value, it fails |
| SlateExamples.SoloFinalizes | upstream/epic-wallet/libwallet/src/slate.rs:384-391 | a concrete balanced slate, from its first step to the final kernel, plain and locked to a height |
| SlateBalance.UnbalancedFails | upstream/epic-wallet/libwallet/src/slate.rs:724-726 | if they do not, or there is no excess, finalizing fails and changes nothing, unless the challenge annihilates the gap |
| SlateBalance.VerifiesIff | upstream/epic-wallet/libwallet/src/slate.rs:643-655 | exactly when a signature made for one challenge verifies under another challenge and any point |
| SlateBalance.EarlySigning | upstream/epic-wallet/libwallet/src/slate.rs:352-380 | round 2 does not wait for all to have joined; who is there signs honestly |
| SlateBalance.LateChallenge | upstream/epic-wallet/libwallet/src/slate.rs:302-328 | after somebody joins late, an earlier signature still verifies exactly when the change of the challenge annihilates the signer's key |
| SlateBalance.LateJoiner | upstream/epic-wallet/libwallet/src/slate.rs:352-391 | the slate's signatures verify after a late round 1 exactly when each of them does; otherwise every round 2 and finalizing fail and change nothing |
| SlateExamples.LateJoinerExample | upstream/epic-wallet/libwallet/src/slate.rs:352-380 | a concrete slate of two participants in which the first signs too early and the second cannot sign |
| SlateBalance.FailedRound1KeepsOffset | upstream/epic-wallet/libwallet/src/slate.rs:538-546 | exactly when the first round 1 fails, and that the offset is set all the same |
| SlateBalance.IsNewIff | upstream/epic/core/src/core/transaction.rs:604-618 | an input or output is new exactly when none of its features has its commitment |
| SlateBalance.NewIsAdded | upstream/epic/core/src/libtx/build.rs:52-140 | what is new is added, inputs with the features of what they spend, outputs plain and with their range proof |
| SlateBalance.NothingNew | upstream/epic/core/src/core/transaction.rs:604-618 | inputs and outputs that are there already are not added again |
| SlateBalance.RetryNeverBalances | upstream/epic-wallet/libwallet/src/slate.rs:302-328 | after a failed first round 1, every retry with the same inputs and outputs leaves keys and offset off the blinding factors by the offset |
| SlateBalance.RetryWithOthersIff | upstream/epic-wallet/libwallet/src/slate.rs:302-328 | every retry with new ones instead balances exactly when it was the key that failed |
| SlateExamples.FailedRound1Example | upstream/epic-wallet/libwallet/src/slate.rs:538-546 | a blinding factor equal to the random offset: round 1 fails, and the retry goes through out of balance |
| JsonReader.JsonEscape | native/epic_light_wallet_impl.cpp:47-71 | the loop concatenates the escapes that the next row characterises |
| JsonMeaning.EscapeWrites | native/epic_light_wallet_impl.cpp:47-71 | quote, backslash and five control characters are written as their two-character escapes, other control characters as four-digit ones, the rest as it is; by section 7 of RFC 8259 this means the string |
| JsonMeaning.EscapeHidesControls | native/epic_light_wallet_impl.cpp:47-71 | no character below 0x20 stands in escaped text |
| JsonReader.Utf8Means | native/epic_light_wallet_impl.cpp:73-84 | the bytes of a code point mean it by the UTF-8 table, in the fewest bytes |
| JsonReader.StringEnd | native/epic_light_wallet_impl.cpp:127-140 | the loop stops just past the first unescaped quote or at the end |
| JsonReader.ValueEnd | native/epic_light_wallet_impl.cpp:142-169 | the loops compute the end by kind of value: string, bracket counting, or trimmed scalar |
| JsonReader.ValueRange | native/epic_light_wallet_impl.cpp:171-194 | the member loop returns the first range whose key decodes to the wanted one |
| JsonReader.DecodeString | native/epic_light_wallet_impl.cpp:196-235 | the loop decodes each character and escape in turn, dropping bad or cut-off ones as the source does |
| JsonReader.MalformedEscapes | native/epic_light_wallet_impl.cpp:196-235 | what becomes of escapes that are cut off or have bad digits |
| JsonReader.SimpleEscapeIs | native/epic_light_wallet_impl.cpp:208-231 | five letters after a backslash stand for control characters, everything else for itself |
| JsonReader.HexValueIs | native/epic_light_wallet_impl.cpp:216-225 | the sixteen digits in either case and their values |
| JsonReader.NotAMember | native/epic_light_wallet_impl.cpp:171-194 | the search ends without a result where no key begins or a key has no colon |
| JsonReader.NotAnObject | native/epic_light_wallet_impl.cpp:171-175 | a text that does not begin with a brace yields nothing |
| JsonReader.SpacesAre | native/epic_light_wallet_impl.cpp:123-125 | which characters are skipped as white space |
| JsonReader.String | native/epic_light_wallet_impl.cpp:90-94 | range, then decoding, or nothing |
| JsonLayout.ValueSkips | native/epic_light_wallet_impl.cpp:150-162 | scanning any nested value keeps the bracket depth, whichever kind of bracket is counted |
| JsonLayout.ValueEnds | native/epic_light_wallet_impl.cpp:142-169 | the end found for any value of any JSON tree is the position after it, whatever follows a string, array or object, and before the space, comma or brace that ends another scalar |
| JsonLookup.DecodeInvertsEscape | native/epic_light_wallet_impl.cpp:47-235 | decoding inverts escaping on every byte string |
| JsonLookup.EscapeValid | native/epic_light_wallet_impl.cpp:47-71 | escaped text never closes the string it is put in |
| JsonLookup.UnicodeEscape | native/epic_light_wallet_impl.cpp:216-229 | a complete four-digit escape, in upper, lower or mixed case, decodes to the UTF-8 bytes of its number |
| JsonMeaning.DecodesMeaningIff | native/epic_light_wallet_impl.cpp:196-235 | for every body of plain characters, simple escapes and four-digit escapes, decoding gives what the body means by section 7 of RFC 8259 exactly when no high surrogate is directly followed by a low one |
| JsonMeaning.LookupMeaningIff | native/epic_light_wallet_impl.cpp:90-94 | in a printed object, a string field is found under what its key means and comes back as what it means exactly when neither holds a surrogate pair |
| JsonMeaning.Utf8FourMeans | native/epic_light_wallet_impl.cpp:73-84 | the four bytes that a pair should become carry its code point by the UTF-8 table |
| JsonMeaning.SurrogatePairExample | native/epic_light_wallet_impl.cpp:73-84 | one surrogate pair, which decodes to six bytes instead of four |
| JsonLookup.FindsFirst | native/epic_light_wallet_impl.cpp:171-194 | in every printed object, a name finds exactly the text of the first member whose key decodes to it, or nothing |
| JsonLookup.LooksUpFirst | native/epic_light_wallet_impl.cpp:90-94 | the string returned is that member's decoded text if it is a string, else nothing |
| JsonLookup.LookupRoundTrip | native/epic_light_wallet_impl.cpp:90-94 | with escaped keys and strings, the original bytes of the first member of a name come back; missing or other members give nothing |
| RestoreScan.Scanner.EnsureRestoreScan | rust/epic_core/src/lib.rs:751-784 | the branches on marker, scan, status and write, with what each failure leaves behind |
| RestoreScan.Scanner.EnsureRecentRestoreScan | rust/epic_core/src/lib.rs:786-827 | the same for the recent scan, with the height it begins at |
| RestoreScan.FirstScan | rust/epic_core/src/lib.rs:751-784 | where a wallet's first scan begins, 3540000 if no height above 0 is requested, and what it claims |
| RestoreScan.RestoreAgain | rust/epic_core/src/lib.rs:751-784 | when a wallet with a claim is scanned again, and what every failure leaves of the claim |
| RestoreScan.RecentScans | rust/epic_core/src/lib.rs:786-827 | when a recent scan is left out, its height, written out, and the claim after it |
| RestoreScan.ClaimsAreGrounded | rust/epic_core/src/lib.rs:751-827 | in every run a marker exists only after a successful scan from its start and ends no earlier than it starts |
| RestoreScan.ClaimsGrow | rust/epic_core/src/lib.rs:806-812 | while its start is kept, the scanned height never decreases |
| RestoreScan.RecentScanCoverage | rust/epic_core/src/lib.rs:814-825 | a recent scan begins 30 blocks back or at the start, overlaps the old claim, and makes the new one true exactly when everything before it had been scanned |
| RestoreScan.FirstRecentScanIff | rust/epic_core/src/lib.rs:782-825 | if no scan so far went beyond the restore scan, the first recent scan makes the claim true exactly when its tip is at most 31 above the restore scan's, or 30 above the start |
| RestoreScan.GapExample | rust/epic_core/src/lib.rs:814-825 | a concrete run of two snapshots from a new wallet after which a claimed height was never scanned |
| RestoreScan.RestoreClaimIff | rust/epic_core/src/lib.rs:776-782 | right after a restore scan the claim is true exactly when the chain's tip was at its start or beyond, or the start had been scanned before |
| RestoreScan.ClaimsAreTrue | rust/epic_core/src/lib.rs:829-851 | over whole runs of snapshots with any failures in which no first recent scan comes too late: the claim is true exactly when a merely restored wallet has its start scanned, and always if no restore scan runs with the chain below its start |
| RestoreScan.EarlyRestoreExample | rust/epic_core/src/lib.rs:776-782 | a concrete run in which the restore scan runs too early and its start is claimed unscanned |
| RestoreMarkerFile.MarkerRoundTrip | rust/epic_core/src/lib.rs:704-730 | both heights of a written marker are read back, for all unsigned 64-bit numbers |
| RestoreMarkerFile.PaddedField | rust/epic_core/src/lib.rs:704-710 | a height is read from the first line of its key, with white space around it or not |
| RestoreMarkerFile.OtherEnds | rust/epic_core/src/lib.rs:707 | lines may end in a carriage return and line feed, the last one in nothing |
| RestoreMarkerFile.BlanksAre | rust/epic_core/src/lib.rs:709 | which characters trimming removes |
| Decimal.ParsePrinted | rust/epic_core/src/lib.rs:709 | a printed number parses back exactly when it is within the type's range |
| Decimal.ParsesIff | rust/epic_core/src/lib.rs:709 | exactly which texts parse as which number |
| MaxSend.EstimateMaxSend | rust/epic_core/src/lib.rs:994-1030 | the loop returns what the rounds yield, without underflow or overflow |
| MaxSend.SucceedsIff | rust/epic_core/src/lib.rs:1001-1029 | exactly when the search succeeds and with what: a positive amount that exhausts the balance with the wallet's own fee for it |
| MaxSend.EighthRound | rust/epic_core/src/lib.rs:1001-1029 | a search that settles in the eighth round succeeds, and one that does not gives up then |
| MaxSend.RoundFails | rust/epic_core/src/lib.rs:1001-1025 | exactly how a round fails or asks for another |
| MaxSend.SteadyFeeSucceeds | rust/epic_core/src/lib.rs:1010-1016 | with a steady fee below the balance two rounds are enough |
| MaxSend.DeficitSettles | rust/epic_core/src/lib.rs:1017-1025 | a reported deficit is folded in exactly |
| Outputs.OutputCell.Lock | upstream/epic-wallet/libwallet/src/types.rs:553-555 | only the status changes, and the output is no longer eligible at any height |
| Outputs.SpendingTakesOutOnce | upstream/epic-wallet/libwallet/src/types.rs:604-610 | marking an output spent takes an unspent one out of both balances, changes neither for any other, and after locking moves no balance a second time |
| Outputs.ConfirmingRaisesSpendable | upstream/epic-wallet/libwallet/src/types.rs:596-601 | marking an output unspent leaves the total and never lowers the spendable balance |
| Outputs.EligibleIff | upstream/epic-wallet/libwallet/src/types.rs:562-593 | exactly when an output may be spent, in terms of heights |
| Outputs.ConfirmationsAre | upstream/epic-wallet/libwallet/src/types.rs:562-573 | how many confirmations an output has |
| Outputs.BalancesIff | rust/epic_core/src/lib.rs:438-453 | which outputs make up the total and the spendable balance |
| Outputs.OutputTotals | rust/epic_core/src/lib.rs:436-454 | adding with saturation at each step yields the capped sums |
| Outputs.SpendableWithinTotal | rust/epic_core/src/lib.rs:436-454 | spendable never exceeds total |
| Outputs.SpendableGrows | upstream/epic-wallet/libwallet/src/types.rs:577-593 | spendable does not shrink as the height grows |
| Outputs.OrderIrrelevant | rust/epic_core/src/lib.rs:438-453 | the totals do not depend on the order of the outputs |
| Outputs.LockingLowersBoth | rust/epic_core/src/lib.rs:440-450 | locking an eligible output lowers both sums by its value |
| Outputs.SpentOutputsByTx | rust/epic_core/src/lib.rs:457-507 | a transaction has a flag exactly when an output belongs to it, set exactly when all of them are spent or deleted |
| Outputs.SpentIff | rust/epic_core/src/lib.rs:477-481 | locked outputs are not spent, deleted ones are |
| SendTransaction.Wallet.SendWithTransport | rust/epic_core/src/lib.rs:1156-1214 | every early return, the lock, the transport and the rollback, on the wallet's state |
| SendTransaction.CancelTxIff | upstream/epic-wallet/libwallet/src/internal/updater.rs:286-320 | exactly when cancelling succeeds, which kind the entry then has, and that no other entry changes |
| SendTransaction.RolledBackLog | upstream/epic-wallet/libwallet/src/internal/updater.rs:311-318 | after a rollback the log is the old one and the cancelled entry, which cannot be cancelled again |
| SendTransaction.SentLeaves | rust/epic_core/src/lib.rs:1167-1196 | after success: a new entry, the inputs locked under it, the change unconfirmed with its values, all else as before |
| SendTransaction.CancelUndoesLock | upstream/epic-wallet/libwallet/src/internal/updater.rs:286-320 | cancelling gives every output that locking changed its value and status back and deletes the change; the inputs keep naming the cancelled log entry |
| SendTransaction.SendConserves | rust/epic_core/src/lib.rs:1167-1214 | at every failure point an error without rollback failure leaves all outputs with their values and statuses, inputs at most naming the cancelled log entry, by which the spent flag of the transaction that made them can change; success leaves the inputs locked |
| SendTransaction.FailedSendKeepsTotals | rust/epic_core/src/lib.rs:1167-1196 | such a failure changes neither balance, however the outputs are listed |
| SendTransaction.PublishWithListener | rust/epic_core/src/lib.rs:1245-1274 | the attempt loop gives the judgement of the first attempt that is not retried, and its last line is never reached |
| SendTransaction.JudgedIff | rust/epic_core/src/lib.rs:1224-1273 | what an attempt is judged, over all results and message texts |
| SendTransaction.ContainsIff | rust/epic_core/src/lib.rs:1224-1226 | a message contains a part exactly when the part stands somewhere in it |
| SendTransaction.ThreeAttempts | rust/epic_core/src/lib.rs:1245-1274 | the slate goes out exactly when one of three attempts does and those before it found the listener not ready |
| SendTransaction.RolledBackIff | rust/epic_core/src/lib.rs:1156-1214 | over all outcomes, the outputs are as before if and only if nothing was locked, or the send failed and the node was reachable and the cancellation stored |
| SendTransaction.PublishedRolledBackIff | rust/epic_core/src/lib.rs:1180-1196 | a slate judged sent or pending is rolled back if and only if its reply is lost, the node is reachable and the cancellation is stored; otherwise its inputs stay locked |
| SendTransaction.UnpublishedRolledBackIff | rust/epic_core/src/lib.rs:1180-1196 | a slate judged an error is rolled back exactly when cancelling works |
| SendTransaction.LostReplyExample | rust/epic_core/src/lib.rs:1180-1196 | a concrete wallet whose published slate is rolled back |
| OwnerSession.InitThenRequest | upstream/epic-wallet/api/src/owner_rpc_s.rs:2422-2444 | what an init alone, with any of its failures, does to both keys, and that a later request is taken in exactly if it is encrypted with the key that the handler then holds |
| OwnerSession.OwnerHandler.CallApi | upstream/epic-wallet/controller/src/controller.rs:618-682 | a request handled alone, a single call or a batch, moves the keys as its steps do; exactly which of the five answers it gets, and that the handler key changes only with a reply |
| OwnerSession.NeverPanics | upstream/epic-wallet/controller/src/controller.rs:467-501 | no interleaving makes the unwraps in decryption and encryption fail |
| OwnerSession.KeyNeverCleared | upstream/epic-wallet/controller/src/controller.rs:436-445 | once set the handler key is never cleared |
| OwnerSession.DifferingKeysExplained | upstream/epic-wallet/controller/src/controller.rs:647-674 | if the keys differ, a request that agreed on a key, by itself or inside a batch, is under way or was lost |
| OwnerSession.AgreeWhenQuiet | upstream/epic-wallet/controller/src/controller.rs:647-674 | without failures between agreeing and publishing and without inits inside batches, differing keys mean a request is about to publish, and quiet keys agree |
| OwnerSession.KeysAgreeIff | upstream/epic-wallet/controller/src/controller.rs:654-673 | with failures and batches, in every state of every interleaving: the keys agree exactly when every init that wrote a new key, by itself or inside a batch, has been followed by a publication |
| OwnerSession.QuietKeysAgreeIff | upstream/epic-wallet/controller/src/controller.rs:654-673 | with no request under way, that is exactly when no writer has ended unpublished since the last publication |
| OwnerSession.LostRekeying | upstream/epic-wallet/controller/src/controller.rs:654-664 | a concrete re-keying whose answer is lost, after which the keys stay apart |
| OwnerSession.BatchedRekeying | upstream/epic-wallet/controller/src/controller.rs:378-387 | a concrete re-keying inside a batch, after which the keys stay apart |
| OwnerSession.PublishedKeyIff | upstream/epic-wallet/controller/src/controller.rs:665-674 | under any interleaving, a publication gives the handler the key that an init wrote exactly when no other key was written in between |
| OwnerSession.CrossedInits | upstream/epic-wallet/controller/src/controller.rs:665-674 | two concrete inits at once, of which the first succeeds with the key of the second |

## Left out

- Cryptography itself: SHA-256, the curve, range proofs, the encryption of owner requests and random numbers are parameters or outcomes; that a nonce or key is negated inside the library to fit its encoding is not modelled.
- Base58: the decoder's branches for a buffer size that is not a multiple of four are dead, because the size is 132, and are not written out.
- Widths: amount plus fee in the slate's fee check, lengths and positions are not bounded by their machine types; the scanner's bracket depth is not bounded by int.
- Slates.FillRound2: the message of a participant and its signature are carried along, but verify_messages is not modelled.
- Slates: version 2 slates, payment proofs beyond carrying them along, time-to-live checks and coinbase building; making and verifying range proofs, which are only carried along; inputs and outputs are kept in order of arrival instead of sorted by hash, which no sum can tell.
- SlateProtocol: a wallet that keeps using a slate after its own operation failed is not part of a run.
- JsonMeaning: a surrogate that is not part of a pair, to which RFC 8259 gives no meaning, is taken to mean its own three bytes.
- JSON: the reader's number, boolean and array accessors, which take their range from the same search; text that is not printed from a tree is covered by the methods' own contracts only.
- RestoreScan: a marker file that is malformed or cut short by a failed write; a failed write is taken to leave what was there.
- SendTransaction: the refresh from the node that cancelling begins with is only a call that succeeds or fails; the limit of 1000 outputs when listing them.
- SendTransaction.Wallet: selecting inputs and building the slate; the slate is taken as prepared from the wallet's unspent outputs.
- OwnerSession: the keychain mask and the wording of error responses. Dispatching belongs to the JSON-RPC library, which is not part of this model; that it carries out the calls of a batch, one after the other in some order, is taken from section 6 of JSON-RPC 2.0.
- Configuration, command line, display, HTTP, websocket and Tor plumbing, and the delegating RPC methods: no property beyond passing calls on.
