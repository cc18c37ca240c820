# Wallet core: a verified model

This project models the parts of the wallet that decide what gets signed, shown, kept
and forgotten, and proves what a user of them relies on:

- **Clear signing** (`Signatures`, `Paths`, `Units`, `ClearSigning`). Canonicalising a
  function signature, evaluating ERC-7730 field paths with signed byte slices, printing
  amounts, indexing descriptors and rendering an intent. What the rewrite leaves of a
  printed signature is given as a tree, and from it the exact conditions under which the
  result is the type-only form and under which a second pass changes nothing; the amount
  printer is exact and injective up to the width `fmt` allows; the index refines a
  scan of the descriptor list from its end; rendering is all or nothing.
- **Keys and digests** (`SecretSharing`, `SecureSigning`, `PreImages`). XOR shares on
  heap arrays, the signer on top of them, and the EIP-191 and EIP-712 pre-images.
- **Sessions** (`Sessions`, `DevPolicy`, `DevSessions`, `DevInvariant`, `DevRuns`, `DevCalls`, `DevRace`). Session
  tokens and developer sessions as interleaved step systems, one step for each critical
  section, clock reading or unguarded access, beside the sequential managers. What is
  proved holds in every interleaving of any number of threads.
- **Encrypted stores** (`Contacts`, `TxLabels`, `AbiCache`, `Tokens`). Memory against
  file, with saves that may fail.
- **Histories** (`Transfers`, `Approvals`). Merging, deduplicating, sorting and
  truncating transfers; the memoised code probe of the approval list.
- **Approvals on chain** (`Hex`, `Approval`). Two encoders of the ERC-20 `approve` call
  and the hex codec under them.

`Common`, `Text` and `Positional` hold the vocabulary: options and results, ASCII text,
and positional notation, on which the decimal, hex and byte codecs are built. `Calls` and
`Steps` define runs: of calls that may fail, and of systems that move by single actions.

Code that updates state in place is a class or a method over arrays, specified by a
function of the old state about which the theorems are proved. Several members use
`hide` to keep definitions out of a proof that does not need them.

## Assumptions

- Keccak, ECDSA and the cryptography behind a signature are function parameters.
- Random bytes, random tokens and contact ids are inputs; a token or contact id that
  has just been made is new. The clock is an input; in the interleaved systems it never
  runs backwards.
- Addresses, networks and keys are ASCII: lowercasing touches `A` to `Z` only.
- `%0*s` and `%064s` pad strings with zeros; a `*` width above 10^6 is ignored and replaced by
  `%!(BADWIDTH)` in the text.
- Go integers and strings have their 64-bit limits where these show: indices of a byte
  slice, block numbers. A string is at most 2^63 - 1 bytes long.
- Saving a store writes a temporary file and renames it, so it replaces the file or
  leaves it alone. JSON arrives decoded and files arrive decrypted.
- A `range` over a map visits the entries in any order.

## What the code does that its documentation does not say

- `CanonicalSignature` takes an unnamed elementary type after white space for a name:
  `f(address, uint256)` becomes `f(address,)` (`Signatures.UnnamedExample`). White space other
  than blanks before a type or after an unnamed one stays; before a named elementary type
  it makes the rewrite change its own output again (`Signatures.TabExample`,
  `Signatures.CanonicalIffClean`, `Signatures.IdempotentIffNoneFragile`).
- `formatTokenBalance` rounds the whole part of a negative amount down but prints the
  fraction unchanged: -1.5 is shown as -2.5 (`Units.NegativeBalanceExample`); it differs
  from `formatUnits` exactly on negative amounts with a fraction and on amounts with a
  fraction and more than 10^6 decimals, for which `formatUnits` prints a complaint of `fmt` (`Units.PrintersAgree`,
  `Units.FormatUnitsExact`).
- `hexToBytes` accepts some text that is no hex: `1g 2` decodes to 01 02
  (`Hex.LenientExample`, `Hex.AcceptsExactly`).
- The `approve` encoder drops a minus sign, and an amount of 2^256 or more runs over the
  spender; from 2^544 on it panics (`Approval.CalldataDecodesExactly`,
  `Approval.LongAmountExample`, `Approval.PanicsIff`).
- `TouchedTokenStore.AddToken` keeps the token in memory when the save fails, so a retry
  reports success without writing (`Tokens.RetryExample`).
- A validation reads the clock and the session outside the lock: one whose lookup came
  first can succeed after the token was revoked, and `LastUsed` can go back
  (`Sessions.RaceExample`); exactly when is said by `Sessions.RemovedTokenRejected`,
  `Sessions.CommittedEnds` and `Sessions.LastUsedFallsIff`.
- A signer fetched before `EndSession` and used after it dereferences nil
  (`DevRace.SignAfterEndExample`, `DevRuns.NilPanicIff`). A signature whose key was
  reconstructed before the session was erased is still made after it
  (`DevRace.KeyOutlivesErasureExample`, `DevRuns.SignaturesFixedIff`).
- A developer session signs transactions for Goerli and Sepolia only: the adapters of the
  other test networks, BSC testnet and Mumbai of the default trusted list among them, are
  unknown to the adapter service or sign under another id (`DevRace.SignedChainsExactly`).
- `DevSessionManager.CreateSession` loses a signer, which is then never erased, exactly when
  two usable rows of the address book have the same address
  (`DevPolicy.NoSignerLostIffDistinct`).
- A negative `maxCount` makes the truncation of a transfer list panic
  (`Transfers.MergeTransfers`).
- A transaction label on a network with a `:` in its name is listed under another network
  (`TxLabels.ColonNetworkExample`, `TxLabels.NetworksCollide`).

## Model

| member | source | states |
|---|---|---|
| Signatures.MatchLenCorrect | internal/clearsign/descriptor.go:92 | the scanner finds a match of length n at the head of a text exactly when the expression splits that prefix into blanks, identifier, blanks and delimiter |
| Signatures.MatchUnique | internal/clearsign/descriptor.go:92 | the expression is unambiguous: however a prefix is split, the match has that length |
| Signatures.TightenCommasRedundant | internal/clearsign/descriptor.go:101-102 | removing ", " first makes no difference to removing every blank |
| Signatures.CanonicalOfPrint | internal/clearsign/descriptor.go:92-104 | for every signature tree, with any nesting, names and white space, the rewrite prints the tree without its names, its blanks and the unnamed elementary types that stand after white space |
| Signatures.CanonicalIffClean | internal/clearsign/descriptor.go:92-104 | the result is the type-only form if and only if no unnamed elementary type stands after white space and the white space before types and after unnamed ones is only blanks |
| Signatures.CanonicalOfNamed | internal/clearsign/descriptor.go:94-104 | with a name on every parameter, set off and followed by any white space, the result is the type-only form exactly when only blanks stand before the types |
| Signatures.RenamingKeepsSelector | internal/clearsign/descriptor.go:106-112 | renaming parameters, or setting their names off differently, never changes the selector, whatever white space the signature holds |
| Signatures.CleanSelector | internal/clearsign/descriptor.go:106-112 | under the condition of CanonicalIffClean the selector is the hash of the type-only form, so respacing keeps it |
| Signatures.IdempotentIffNoneFragile | internal/clearsign/descriptor.go:94-104 | the rewrite of a printed tree is a fixed point of the rewrite if and only if no named elementary type without dimensions stands after white space other than blanks |
| Signatures.UnnamedExample | internal/clearsign/descriptor.go:92-104 | f(address, uint256) loses its second type |
| Signatures.CanonicalOfCompact | internal/clearsign/descriptor.go:94-104 | text without white space is left alone |
| Signatures.CanonicalIdempotent | internal/clearsign/descriptor.go:94-104 | on text whose only white space is the blank the rewrite is idempotent and leaves no space |
| Signatures.TabExample | internal/clearsign/descriptor.go:94-104 | f(<tab>u v), with its parameter named, becomes f(<tab>u) and then f() |
| Signatures.NameStarts | internal/clearsign/descriptor.go:92 | a single character after the blank is taken for a name exactly when it is one of A-Z, a-z, _ and $ |
| Signatures.NameGoesOn | internal/clearsign/descriptor.go:92 | a name goes on with those and digits, and may be followed by any of five white-space characters, and by nothing else |
| Signatures.NameDelimited | internal/clearsign/descriptor.go:92 | a name is only one in front of a comma or a closing parenthesis |
| Signatures.TransferExample | internal/clearsign/descriptor.go:86-104 | transfer(address _to, uint256 _value) becomes transfer(address,uint256) |
| Units.FormatUnitsExact | internal/clearsign/format.go:109-139 | reading the output as a decimal times 10^decimals gives back the integer, for every sign and size, exactly when there is no fraction or at most 10^6 decimals; past that width fmt complains and nothing can be read back |
| Units.FormatUnitsInjective | internal/clearsign/format.go:109-139 | an amount that can be printed shares its text with no other number |
| Units.FormatUnitsInjectiveIff | internal/clearsign/format.go:109-139 | the printer tells all numbers apart exactly for at most 10^6 decimals |
| Units.FormatUnitsWellFormed | internal/clearsign/format.go:126-138 | a sign exactly for negative amounts, no trailing fractional zero, no "-0" |
| Units.FormatUnitsVerbatim | internal/clearsign/format.go:110-117 | a 0x amount is shown unchanged, never misread as decimal |
| Units.BadWidthText | internal/clearsign/format.go:137-138 | one base unit past the widest fraction is shown as 0.%!(BADWIDTH)1 |
| Units.BalanceReads | internal/provider/alchemy_client.go:319-345 | what a printed balance reads back as: the amount, or for a negative one the amount less twice the remainder |
| Units.PrintersAgree | internal/provider/alchemy_client.go:301-346 | both amount printers agree on a number exactly when it has no fraction, or is non-negative with at most 10^6 decimals |
| Units.HexBalance | internal/provider/alchemy_client.go:306-313 | a 0x or 0X balance prints like the same number in decimal |
| Units.BalanceOfGarbage | internal/provider/alchemy_client.go:306-317 | a balance that is no number, with either prefix or none, is shown as 0 |
| Units.NegativeBalanceExample | internal/provider/alchemy_client.go:323-345 | -1.5 reads back as -2.5 |
| Hex.BytesToHex | internal/lib/exports_swap.go:483-490 | fills the buffer with the lowercase hex of the bytes |
| Text.DigitTable | internal/lib/exports_swap.go:486-487 | the encoder's digits are 0123456789abcdef, and exactly these and the capitals are read as digits |
| Hex.HexToBytes | internal/lib/exports_swap.go:466-480 | decodes pair by pair, left-padding odd lengths, and fails on the first pair that Sscanf refuses |
| Hex.AcceptsExactly | internal/lib/exports_swap.go:473-476 | which texts decode: exactly those of whose pairs each starts with a hex digit, or is a white space and a hex digit |
| Hex.PairDecodes | internal/lib/exports_swap.go:473 | which two characters make a byte, written out |
| Hex.LenientExample | internal/lib/exports_swap.go:473-476 | text that is no hex decodes without an error |
| Hex.DecodeKeepsValue | internal/lib/exports_swap.go:466-480 | decoding keeps the number the digits denote, for odd lengths too |
| Hex.DecodeOfHex | internal/lib/exports_swap.go:466-490 | decoding inverts encoding |
| Hex.HexOfScan | internal/lib/exports_swap.go:466-490 | encoding inverts decoding on even-length hex, up to letter case |
| Hex.ReencodesIffHex | internal/lib/exports_swap.go:466-490 | re-encoding what an even-length text decodes to gives the text back, up to letter case, exactly when the text is hex |
| Approval.BuildCalldata | internal/lib/exports_swap.go:443-448 | the buffer built by three copies: selector, spender, then the amount right-aligned over whatever is there; panics past 68 bytes |
| Approval.CalldataDecodesExactly | internal/lib/exports_swap.go:443-448 | spender and amount decode back exactly when the amount is a uint256 |
| Approval.LongAmountExample | internal/lib/exports_swap.go:447-448 | 2^256 overwrites the last byte of the spender |
| Approval.PanicsIff | internal/lib/exports_swap.go:447-448 | the encoder panics exactly for amounts of magnitude 256^68 = 2^544 or more |
| Approval.GetSwapApproval | internal/lib/exports_swap.go:400-455 | the checks in order, their errors, and the transaction data |
| Approval.SwapApprovalOutcome | internal/lib/exports_swap.go:400-441 | exactly which requests get past the checks, and which check each of the others fails first |
| Approval.ApprovalRoundTrip | internal/lib/exports_swap.go:413-455 | every 20-byte spender and every uint256, given as text, decode back from the transaction data |
| Approval.UnlimitedApproval | internal/lib/exports_swap.go:414-418 | an empty amount approves 2^256 - 1 |
| Approval.EncodersAgree | src/swap/aggregator.go:340-344 | the string-built encoder gives the same calldata up to hex letter case |
| Approval.AmountTextReads | src/swap/aggregator.go:342 | every amount reads back from its hex digits, at least 64 characters, a negative one with its sign |
| PreImages.PersonalMessageInjective | internal/security/secure_signer.go:275-279 | no two messages share an EIP-191 pre-image, although length and message have no separator |
| PreImages.LongerMessageLongerPreImage | internal/security/secure_signer.go:276-277 | the total length is strictly increasing in the message length |
| PreImages.TypedDataInjective | internal/lib/exports_signing.go:386-388 | an EIP-712 pre-image determines both 32-byte hashes |
| PreImages.PreImagesDisjoint | internal/lib/exports_signing.go:386-388 | a signed message is never the pre-image of typed data |
| PreImages.PartsInPlace | internal/security/secure_signer.go:276-277 | where the prefix, the length and the message stand, and for typed data the two hashes in their order |
| PreImages.ScanSeesWhatIsSigned | internal/lib/exports_signing.go:351-400 | what is signed is the pre-image of exactly the scanned bytes; signing is refused exactly for undecodable 0x text |
| PreImages.HexTextIsItsBytes | internal/lib/exports_signing.go:357-363 | every byte string can be given in hex, with either prefix |
| PreImages.SignedAlikeIff | internal/lib/exports_signing.go:351-400 | two texts have the same pre-image exactly when they stand for the same scanned bytes: plain texts when equal, hex texts when equal up to letter case |
| Paths.IsHex | internal/clearsign/path.go:103-111 | the loop decides that every character is a hex digit |
| Paths.SliceHexExact | internal/clearsign/path.go:52-92 | a slice succeeds exactly on 0x hex with a proper range and denotes bytes[from..to) |
| Paths.SliceForms | internal/clearsign/path.go:73-100 | what each form of a segment selects: from a byte on, up to a byte, both, and counted from the end |
| Paths.SliceRefused | internal/clearsign/path.go:88-90 | indices outside the bytes or in the wrong order select nothing |
| Paths.LastBytes | internal/clearsign/path.go:94-100 | [-k:] gives the last k bytes |
| Paths.SliceOfSlice | internal/clearsign/path.go:52-100 | a slice of a slice is the single slice at the shifted positions |
| Paths.SliceSegmentExact | internal/clearsign/path.go:10 | a segment is a slice in one way only |
| Paths.SignedDigitsExactly | internal/clearsign/path.go:10 | a group is an optional minus sign and at least one of the ten digits |
| Paths.StepSlices | internal/clearsign/path.go:32-39 | a slice segment of a path slices the value so far |
| Paths.AtoiExactly | internal/clearsign/path.go:74-86 | an index is read exactly when it fits 64 bits |
| Paths.ResolvePath | internal/clearsign/path.go:22-50 | the loop over segments computes the recursive walk |
| Paths.ResolveConcat | internal/clearsign/path.go:28-50 | a dotted concatenation resolves as its prefix and then its suffix from that value |
| Paths.ResolveField | internal/clearsign/path.go:22-48 | a path without a point that is no slice is a plain field, one with an @ in front is looked up whole |
| ClearSigning.ParseDescriptor | internal/clearsign/descriptor.go:116-134 | lowercases the deployments in place, keeping their chains, and fills signature and selector of every present format, keeping the rest |
| ClearSigning.Registry.constructor | internal/clearsign/registry.go:46-69 | the index agrees with scanning the descriptors from the end, in any iteration order |
| ClearSigning.IndexDetermined | internal/clearsign/registry.go:52-67 | with distinct selectors inside each descriptor the index does not depend on iteration order |
| ClearSigning.KeyForExact | internal/clearsign/registry.go:61-65 | index keys agree exactly for the same chain and, up to case, the same address and selector |
| ClearSigning.Registry.Lookup | internal/clearsign/registry.go:98-108 | succeeds exactly when some descriptor has a deployment with that chain and address and an indexed format with that selector, up to case, and returns such a format of the last such descriptor |
| ClearSigning.Registry.Resolve | internal/clearsign/resolve.go:28-62 | one row per visible field of a format that Lookup would return, in order, with that descriptor's owner and contract; fails exactly when there is none or some visible field fails |
| ClearSigning.RenderRow | internal/clearsign/resolve.go:49-57 | a row is the formatted value at the resolved path |
| ClearSigning.HiddenExactly | internal/clearsign/resolve.go:66-78 | only "never" and false hide a field |
| ClearSigning.VisibleConcat | internal/clearsign/resolve.go:45-48 | the visible fields keep their order and number |
| ClearSigning.FormatKinds | internal/clearsign/format.go:33-65 | what raw, addressName, enum and date show, and exactly which values cannot be formatted |
| ClearSigning.ShortenedShows | internal/clearsign/format.go:69-74 | an address of more than 12 characters shows its first six and last four |
| ClearSigning.NativeAmountExact | internal/clearsign/format.go:42-44 | a native amount reads back exactly with 18 decimals |
| ClearSigning.UnknownToken | internal/clearsign/format.go:86-101 | each way in which the token is not known shows the bare amount as one of an unknown token |
| ClearSigning.TokenAmountExact | internal/clearsign/format.go:76-103 | a known token's amount reads back exactly from the number before the symbol |
| SecretSharing.SecureZero | internal/security/memzero.go:21-37 | every byte becomes zero |
| SecretSharing.SecureCopy | internal/security/memzero.go:96-103 | moves the bytes and erases the source, also onto itself; unequal lengths panic and change nothing |
| SecretSharing.SecureCompare | internal/security/memzero.go:114-125 | the OR of XORs is zero exactly on equal slices |
| SecretSharing.CombinedOfSplit | internal/security/secret_share.go:70-73 | the three shares combine to the secret, whatever the random bytes |
| SecretSharing.RefreshesKeepSecret | internal/security/secret_share.go:168-210 | any run of successful and failed refreshes keeps the secret |
| SecretSharing.TwoSharesFitEverySecret | internal/security/secret_share.go:70-73 | any two shares fit every secret, for exactly one choice of random bytes |
| SecretSharing.SecretShares.SplitSecret | internal/security/secret_share.go:42-83 | fails exactly on an empty secret or a failed random read and leaves the secret; otherwise fresh shares and an erased secret |
| SecretSharing.SecretShares.Reconstruct | internal/security/secret_share.go:94-108 | the combined secret in a fresh array, nil once erased |
| SecretSharing.SecretShares.ReconstructInto | internal/security/secret_share.go:119-134 | the same into a buffer; an error leaves the buffer alone |
| SecretSharing.SecretShares.Refresh | internal/security/secret_share.go:168-210 | success swaps in fresh shares of the same secret and erases the old arrays, failure changes nothing; on every path the reconstructed secret is erased |
| SecretSharing.SecretShares.Zeroize | internal/security/secret_share.go:140-153 | the arrays are all zero and dropped |
| SecretSharing.SecretShares.IsValid | internal/security/secret_share.go:221-224 | true exactly for live shares |
| SecureSigning.SecureSigner.NewSecureSigner | internal/security/secure_signer.go:50-70 | the conditions for success; the caller's key is erased exactly then |
| SecureSigning.SecureSigner.Sign | internal/security/secure_signer.go:89-119 | signs as the plain key would; nil shares are dereferenced unless the address is wrong; on every path no new array still holds anything |
| SecureSigning.SecureSigner.SignHash | internal/security/secure_signer.go:137-157 | as Sign, for EVM chains only, the chain being checked before the shares |
| SecureSigning.SchemeOf | internal/security/secure_signer.go:109-115 | which chains sign with which scheme, for payloads and for hashes, and which with none |
| SecureSigning.AddressChecked | internal/security/secure_signer.go:91-94 | a wrong address is refused, and nothing else is refused for it |
| SecureSigning.SecureSigner.Refresh | internal/security/secure_signer.go:248-250 | never changes the key of a live signer; dereferences nil exactly when the shares are gone |
| SecureSigning.SecureSigner.Zeroize | internal/security/secure_signer.go:256-261 | erases the shares; a second call does nothing |
| SecureSigning.SecureSigner.IsValid | internal/security/secure_signer.go:264-266 | true exactly for a live signer with an address |
| SecureSigning.SecureSigner.SignAfterRefreshes | internal/security/secure_signer.go:89-119 | after any loop of Refresh calls, failed ones among them, Sign gives what the original key gives |
| Contacts.RunStaysInSync | internal/contacts/store.go:107-227 | over any sequence of calls with arbitrary save failures, memory equals the file |
| Contacts.ErrorsInvisible | internal/contacts/store.go:107-227 | calls that returned an error might as well not have been made |
| Contacts.EffectRepresents | internal/contacts/store.go:107-227 | read as a map from ids, a call adds, edits or removes exactly its contact, keeps the creation time of an edited one, and fails for the same reason |
| Contacts.RunRepresents | internal/contacts/store.go:107-227 | over any run, whichever saves fail, the list holds exactly the contacts of that map, each id once |
| Contacts.CheckExact | internal/contacts/store.go:108-122 | exactly which drafts pass, and which check each of the others fails first |
| Contacts.KeepsCreation | internal/contacts/store.go:185-190 | over any run a contact keeps its creation time, however often it is edited, until it is deleted |
| Contacts.LastDraftIsRead | internal/contacts/store.go:106-198 | what is read under an id are the five fields of the last draft saved for it, with the time of that call; a new contact is created then, an edited one keeps its creation time |
| Contacts.DeletedIsGone | internal/contacts/store.go:202-227 | a deleted contact is not found again unless one is added under its id |
| Contacts.ListKeepsCreation | internal/contacts/store.go:107-227 | the same for the list in memory |
| Contacts.ContactStore.constructor | internal/contacts/store.go:55-69 | starts with the file's contacts, or none |
| Contacts.ContactStore.AppendAt | internal/contacts/store.go:217-223 | append onto a prefix of the backing array, in place when the capacity allows |
| Contacts.ContactStore.Add | internal/contacts/store.go:107-148 | succeeds exactly for a good draft that is saved, and then the new contact, with its fields and times, comes last; otherwise nothing changes |
| Contacts.ContactStore.Update | internal/contacts/store.go:151-199 | success replaces the contact in its place by one with the draft's five fields, the old id and creation time and the new update time; otherwise nothing changes |
| Contacts.ContactStore.Delete | internal/contacts/store.go:202-227 | shifts left in place over the contact with the id, and shifts back on the same array when the save fails |
| Contacts.ContactStore.Save | internal/contacts/store.go:262-295 | replaces the file or leaves it alone |
| Contacts.ContactStore.List | internal/contacts/store.go:83-90 | the contacts in order |
| Contacts.ContactStore.GetByID | internal/contacts/store.go:93-104 | the first contact with the id, none exactly when there is none |
| TxLabels.KeySplits | internal/txlabels/store.go:70-72 | cutting a key at the first colon gives back its parts exactly when the network has no colon |
| TxLabels.FlatInjective | internal/txlabels/store.go:70-72 | on plain networks keys are equal exactly for equal pairs |
| TxLabels.NetworksCollide | internal/txlabels/store.go:70-72 | two networks can share a key exactly when one, with its colon, starts the other |
| TxLabels.EffectFlattens | internal/txlabels/store.go:75-157 | one call does the same to the flattened map as to a map keyed by pairs, with the same error |
| TxLabels.RunFlattens | internal/txlabels/store.go:75-157 | so does any run of calls |
| TxLabels.RunKeepsCreation | internal/txlabels/store.go:98-109 | however often it is set again, a label keeps its creation time until it is deleted |
| TxLabels.FirstSetCreates | internal/txlabels/store.go:98-109 | a new label is created at the time of the call that sets it |
| TxLabels.DeletedIsGone | internal/txlabels/store.go:139-157 | a deleted label is not found again until the key is set |
| TxLabels.CheckExact | internal/txlabels/store.go:76-90 | exactly which labels pass, and which check each of the others fails first |
| TxLabels.LastSetIsRead | internal/txlabels/store.go:75-123 | what is read under a key is what was last set there, whatever calls failed or went to other keys since |
| TxLabels.ErrorsInvisible | internal/txlabels/store.go:113-156 | calls that returned an error might as well not have been made |
| TxLabels.ListAllIsPairs | internal/txlabels/store.go:187-204 | with plain networks the full listing is exactly the pairs |
| TxLabels.ListByNetworkIsFilter | internal/txlabels/store.go:167-204 | listing a network is filtering the full listing |
| TxLabels.ColonNetworkExample | internal/txlabels/store.go:187-204 | a label of network "a:b" is listed under "a" |
| TxLabels.TxLabelStore.SetLabel | internal/txlabels/store.go:75-123 | succeeds exactly for a good label that is saved, with the label it stores on its fields; otherwise the map and the file stay |
| TxLabels.TxLabelStore.DeleteLabel | internal/txlabels/store.go:139-157 | the delete; a failed save restores the map |
| TxLabels.TxLabelStore.GetLabel | internal/txlabels/store.go:126-136 | on a plain network, the label that any pair-keyed map the store stands for holds for the pair |
| TxLabels.TxLabelStore.ListByNetwork | internal/txlabels/store.go:167-184 | each label under the prefix once, with the rest of its key |
| TxLabels.TxLabelStore.ListAll | internal/txlabels/store.go:187-204 | each label once, its key cut at the first colon |
| AbiCache.CacheKeyInjective | internal/provider/abi_cache.go:45-47 | keys are equal exactly for the same chain and the same address up to case |
| AbiCache.SetThenGet | internal/provider/abi_cache.go:101-107 | the new entry can be read back unless it was itself among the oldest |
| AbiCache.TrimOfSmall | internal/provider/abi_cache.go:109-112 | a cache that is small enough is left alone |
| AbiCache.SortByAge | internal/provider/abi_cache.go:121 | an ascending arrangement of the same keys |
| AbiCache.AbiCacheStore.Get | internal/provider/abi_cache.go:88-99 | the re-check never rejects a present entry while every entry sits under its own key |
| AbiCache.AbiCacheStore.Set | internal/provider/abi_cache.go:101-107 | at most 500 entries stay, every evicted one no newer than every kept one, each under its own key |
| AbiCache.AbiCacheStore.EvictIfNeeded | internal/provider/abi_cache.go:109-125 | removes just the excess, oldest first |
| AbiCache.AbiCacheStore.Clear | internal/provider/abi_cache.go:158-166 | empties the memory; removing the file can fail |
| Transfers.ParseHexValue | internal/provider/alchemy_client.go:613-619 | hex digits, with or without prefix and sign, are read as their number, or the nearest int64 |
| Transfers.ParseHexSyntax | internal/provider/alchemy_client.go:613-619 | a character that is no digit makes the number 0, unless the digits before it exceed 64 bits already, which gives the bound |
| Transfers.ParseHexEmpty | internal/provider/alchemy_client.go:613-619 | without digits the number is 0 |
| Transfers.Deduplicate | internal/provider/alchemy_client.go:583-595 | the loop computes the first occurrences |
| Transfers.FirstOccurrencesExact | internal/provider/alchemy_client.go:583-595 | distinct ids, and exactly the transfers that come first with their id |
| Transfers.SortTransfersByBlock | internal/provider/alchemy_client.go:599-610 | the exchange sort leaves a permutation in descending block order |
| Transfers.MergeTransfers | internal/provider/alchemy_client.go:498-510 | min(maxCount, distinct) transfers in descending order, no omitted one newer than a kept one; panics exactly for a negative maxCount |
| Transfers.KeptAreFirst | internal/provider/alchemy_client.go:498-510 | the kept transfers have distinct ids and are first occurrences of the merged input |
| Tokens.NormalizeIdempotent | internal/provider/chains.go:184-198 | normalising a network twice is normalising it once |
| Tokens.AliasesExactly | internal/provider/chains.go:184-198 | the four aliases and what they stand for; every other id stands for itself |
| Tokens.MergeTokensForNetwork | internal/provider/common_tokens.go:99-120 | the loop computes the merged list |
| Tokens.ExtendedExact | internal/provider/common_tokens.go:108-119 | curated tokens first and unchanged, extras are touched tokens of the network with addresses not seen before, every touched token is represented |
| Tokens.MergedGrows | internal/provider/common_tokens.go:99-120 | one more touched token only ever adds to the end |
| Tokens.CuratedFirst | internal/provider/common_tokens.go:99-101 | the merged list starts with the curated tokens of the network, under any alias |
| Tokens.TouchedTokenStore.AddToken | internal/provider/touched_tokens.go:91-106 | after success the token is known in memory; on disk exactly if it was new or had been on disk |
| Tokens.KnownTokenIsQueried | internal/provider/touched_tokens.go:91-116 | a known token is in the balance query of every alias of its network |
| Tokens.RetryExample | internal/provider/touched_tokens.go:98-105 | a retry after a failed save reports success without writing |
| Tokens.TouchedTokenStore.SetLastScannedBlock | internal/provider/touched_tokens.go:119-131 | every alias of the network reads the new cursor, every other network its old one; a failed save is not rolled back |
| Tokens.CollectBalanceAddresses | internal/provider/balance_addresses.go:22-42 | the loop computes the grouping of the resolvable pairs |
| Tokens.OrderExact | internal/provider/balance_addresses.go:31-33 | distinct addresses in order of first appearance |
| Tokens.PairsConserved | internal/provider/balance_addresses.go:26-42 | every resolvable (address, network) pair occurs as often as in the input |
| Tokens.ResolvableInOrder | internal/provider/balance_addresses.go:26-30 | the pairs come in the order of the entries, one for each that resolves |
| Tokens.NetworksInOrder | internal/provider/balance_addresses.go:34 | the networks of an address come in the order of the entries |
| Approvals.Enricher.Enrich | internal/provider/alchemy_client.go:966-1005 | the security fields of an approval; only an unknown spender without a memo is probed |
| Approvals.EnrichAll | internal/provider/alchemy_client.go:825-854 | over a query each unknown spender is probed once, others never, with one verdict per spender, and blocklisted or codeless spenders are red |
| Approvals.RiskExactly | internal/provider/approval_risk.go:35-52 | exactly which approvals are green and which red |
| Approvals.EmptyCodeExactly | internal/provider/alchemy_client.go:956-959 | code is empty exactly when it is nothing, 0x or 0x0, in either case and with white space around it |
| Sessions.SessionManager.CreateSession | internal/app/session.go:117-171 | the failures in order, none of which stores anything; otherwise a session created and used now that ends 24 hours later |
| Sessions.SessionManager.ValidateToken | internal/app/session.go:175-206 | on the fields: expired exactly past the end, idle exactly after more than two hours without use, otherwise valid and touched; an overdue token is removed |
| Sessions.AcceptedWhileUsed | internal/app/session.go:175-206 | over any run of calls, a token that nobody revokes and that is validated at least every two hours is accepted every time, up to 24 hours after its creation |
| Sessions.SessionManager.RevokeToken | internal/app/session.go:209-213 | removes the token |
| Sessions.SessionManager.RevokeAllSessions | internal/app/session.go:216-226 | removes exactly the sessions of the drive |
| Sessions.SessionManager.Cleanup | internal/app/session.go:241-249 | removes exactly the sessions past their end |
| Sessions.SessionManager.GetSessionByUSBPath | internal/app/session.go:264-275 | a stored session of the drive before its end, none exactly when there is none |
| Sessions.NextKeepsInv | internal/app/session.go:153-251 | every step of every thread keeps the invariant that ties each session to the history of its validations |
| Sessions.ValidatedTokenWasNeverIdle | internal/app/session.go:175-206 | in every interleaving a successful validation lies within 24 hours of the creation, with another in each two hours back to it |
| Sessions.RemovalMakesGone | internal/app/session.go:208-251 | whatever takes a token out of the map, no thread is left that would put it there |
| Sessions.GoneForever | internal/app/session.go:175-251 | a removed token never comes back, in spite of concurrent touches |
| Sessions.RemovedTokenRejected | internal/app/session.go:176-182 | every validation whose lookup comes after the removal is rejected |
| Sessions.CommittedEnds | internal/app/session.go:184-206 | a validation past its checks ends with its verdict whatever steps come in between, removals of the token included |
| Sessions.LookupDecides | internal/app/session.go:176-206 | from its lookup on, a validation never asks again for the token: whatever other threads do in between, each of its steps stays possible and it ends with the verdict on the session and the clock as they were at its checks; with RemovedTokenRejected, the lookup decides |
| Sessions.LastUsedFallsIff | internal/app/session.go:184-203 | in any step LastUsed goes back exactly when a validation writes over a touch that was written since it read the clock and has a later reading |
| Sessions.OverwrittenTouchExample | internal/app/session.go:184-203 | it has to be the last touch written: a reachable run of three threads in which an earlier one with a later reading does not count |
| Sessions.LastUsedRises | internal/app/session.go:184-203 | as long as validations of a token do not overlap, its LastUsed never goes back |
| Sessions.UndisturbedValidation | internal/app/session.go:175-206 | the steps of an undisturbed validation do what the sequential method does |
| Sessions.ChecksExactly | internal/app/session.go:184-199 | the check step, on the fields of the session and the clock reading |
| Sessions.StepsAsMethods | internal/app/session.go:165-249 | every other step does to the map what its sequential method does, and steps between the critical sections nothing |
| Sessions.RaceExample | internal/app/session.go:175-213 | a reachable run in which a validation succeeds after the revocation and LastUsed goes back |
| DevPolicy.NetworkNameInjective | internal/app/dev_session.go:456-464 | no two chain ids share a network name |
| DevPolicy.NamesExactly | internal/app/dev_session.go:43-61 | the thirteen names, and the numbered name of any other chain |
| DevPolicy.TrustedChain | internal/app/dev_session.go:43-51 | each name of a test network trusts its own chain and no other |
| DevPolicy.OtherChains | internal/app/dev_session.go:54-61 | a mainnet is never trusted, any other chain by its number only |
| DevPolicy.TrustedByOne | internal/app/dev_session.go:279-285 | a list trusts what its names trust |
| DevPolicy.DefaultTrust | internal/app/dev_session.go:122-124 | the four chains trusted by default |
| DevPolicy.ClampExactly | internal/app/dev_session.go:114-119 | a session lasts from one minute to two hours, half an hour by default |
| DevPolicy.UsableExactly | internal/app/dev_session.go:178-215 | which rows of the address book are used |
| DevPolicy.LoadSigners | internal/app/dev_session.go:178-215 | the signer kept for an address is that of the last usable row; a row is skipped for its coin type, its key, its address or a failed split |
| DevPolicy.NoSignerLostIffDistinct | internal/app/dev_session.go:214 | every signer made can be reached exactly when no two usable rows share an address |
| DevPolicy.AdapterTakesExactly | internal/services/chainadapter/service.go:112-153 | through the three id tables, the chains whose adapter takes a transaction to the signer |
| DevPolicy.AdaptersExactly | internal/app/dev_session.go:468-501 | the adapter of each chain is one of that chain, where there is one, and which two sign under another id |
| DevPolicy.SignableExactly | internal/app/dev_session.go:272-288 | a transaction passes policy and adapter exactly for Goerli and Sepolia, when trusted |
| DevSessions.LockOrder | internal/app/dev_session.go:230-247 | no thread waits for the manager lock while it holds a session lock |
| DevSessions.NoDeadlock | internal/app/dev_session.go:373-444 | while some thread is inside a call, some thread is not held up |
| DevRuns.SomeStepPossible | internal/app/dev_session.go:230-444 | from every reachable state with a call under way some step is possible |
| DevInvariant.NextKeepsInv | internal/app/dev_session.go:222-444 | every step of every thread keeps the invariant: exclusion, tables, counts and debts |
| DevRuns.RemovedAndErasedOnce | internal/app/dev_session.go:373-444 | each session is removed and erased at most once; one removed but not erased has exactly one thread on its way to erase it |
| DevRuns.RemovedNeverReappears | internal/app/dev_session.go:373-444 | a removed token stays out of the map |
| DevRuns.RemovedFirst | internal/app/dev_session.go:239-242 | an EndSession that comes second finds nothing; a lookup that found the session overdue says so all the same |
| DevRuns.NoKeyAfterErasure | internal/app/dev_session.go:290-370 | after the erasure no key is reconstructed any more, in any run: signatures still to come are bounded by the copies of keys held at that moment; every signer lookup fails, a signer fetched before fails or dereferences nil, shares read before give no key |
| DevRuns.SignaturesFixedIff | internal/app/dev_session.go:290-370 | the signatures of an erased session stay fixed in every continuation exactly when no thread holds a copy of one of its keys |
| DevRuns.NilPanicIff | internal/app/dev_session.go:290-362 | a step dereferences nil exactly when a call is about to sign with a signer of the address asked for, its chain's adapter lets it through, and the signer has been zeroized, which it is once the session has been erased |
| DevRuns.SignCountExact | internal/app/dev_session.go:333-336 | the sign count is the number of signatures, less those on the way to being counted |
| DevRuns.OnlyAllowedChainsSigned | internal/app/dev_session.go:272-331 | a transaction is only signed for Goerli or Sepolia, and when trusted |
| DevCalls.DevSessionManager.CreateSession | internal/app/dev_session.go:112-227 | the failures in order, none of which stores anything; otherwise a session with clamped lifetime and the signers of the last usable row of each address |
| DevCalls.DevSessionManager.GetSession | internal/app/dev_session.go:230-250 | touches the session object, or ends an overdue one in the map and in the object |
| DevCalls.DevSessionManager.SignTransaction | internal/app/dev_session.go:253-339 | the refusals in order, and what each outcome leaves of the session and the map; signed only for Goerli and Sepolia, and in a session that trusts Sepolia only for that, with Goerli refused |
| DevCalls.DevSessionManager.SignMessage | internal/app/dev_session.go:342-370 | the same without the chain policy |
| DevCalls.SignedExactly | internal/app/dev_session.go:253-370 | on the fields, exactly which requests are signed and which outcome each of the others has |
| DevCalls.SignLeaves | internal/app/dev_session.go:230-370 | on the fields, what a signing call changes of the session |
| DevCalls.SignedForTrusted | internal/app/dev_session.go:272-331 | trusting one of the two test networks signs for that one only and refuses the other |
| DevCalls.DevSessionManager.EndSession | internal/app/dev_session.go:373-394 | takes the session out and erases the signers in the shared object |
| DevCalls.DevSessionManager.CleanupRound | internal/app/dev_session.go:427-442 | erases and takes out exactly what is overdue, leaving the rest alone |
| DevCalls.UndisturbedSign | internal/app/dev_session.go:230-370 | from any state in which no other thread is inside a critical section, a signing call ends by its own steps alone as the sequential method does |
| DevCalls.UndisturbedEnd | internal/app/dev_session.go:373-394 | so does an undisturbed EndSession |
| DevCalls.UndisturbedCreate | internal/app/dev_session.go:222-224 | an undisturbed insertion stores the session that was made |
| DevSessions.NewSessionExactly | internal/app/dev_session.go:150-161 | a new session, on its fields |
| DevCalls.UndisturbedSweep | internal/app/dev_session.go:427-442 | and an undisturbed cleanup round |
| DevRace.SignAfterEndExample | internal/app/dev_session.go:290-390 | a reachable state in which a signature call dereferenced nil after EndSession |
| DevRace.KeyOutlivesErasureExample | internal/security/secure_signer.go:97-112 | a reachable state in which the session has been erased and a copy of its key is about to sign |
| DevRace.SignedChainsExactly | internal/app/dev_session.go:326-331 | some reachable step signs a transaction for a chain exactly when the chain is Goerli or Sepolia |
| DevRace.TrustedChainSigned | internal/app/dev_session.go:272-331 | in every reachable state, a session that trusts one of the two test networks signs for that one only |

## Left out

- HTTP, RPC, pagination, JSON and file formats: plumbing around the modelled functions.
- Real cryptography and key derivation: function parameters.
- FFI envelopes, error texts, panic recovery: errors are constructors instead.
- Memory locking, unsafe pointers, garbage collection and timing: `SecureZero` is "all bytes become zero".
- User interface, build scripts, version tool.
- Static tables of tokens, spenders, chains and endpoints: parameters; the chain tables of developer sessions are written out because the policy depends on them.
- Dates and floating-point values: date rendering is a parameter.
- Descriptors and registry entries are values: that a lookup returns pointers into the descriptors is not captured, nor is the in-place update of a format's fields in a map of pointers.
- `SessionManager` holds sessions as map values: the sharing of a session object between callers is captured in the step system only. How its checks turn out is an input, and the encrypted provider key of a session is left out.
- DevRuns.NoKeyAfterErasure: copying the shares into a key and erasing the shares of one signer are one step each, so a copy torn by a concurrent erasure, which gives a wrong key or an index out of range, is not modelled. Reading the signer's pointer to its shares, making the copy, the cryptography, the erasure of each signer's shares and the dropping of its pointer are steps of their own.
- SecureSigning.SecureSigner.Sign: the copies of the key that the ECDSA library makes inside are not arrays of the model, so nothing is said about them.
- How the steps before the signers of a developer session turn out is an input. One time is read per sequential call, where the code reads the clock twice; the step system has both readings.
- `GetSessionInfo`, the transaction fields handed to the chain adapter and what the adapter does with a signature: they add only easy members. An adapter that takes the transaction is one call of the signer, and whether a signature comes of it is an input.
- The store passwords and `Close`; returned label, ABI entry and session pointers alias the stored objects, which are values here.
- `sort.Slice` is a sort of which only the ascending order is promised.
- The wallet session and configuration stores: simpler copies of state machines that are covered.
- Signature trees hold white space around parameters, types and names; white space outside the outer parentheses or before array suffixes is not part of them (text of any form is covered by the matcher lemmas and `Signatures.CanonicalIdempotent`).
- The log filtering of `GetApprovalEvents` around the risk classification.
