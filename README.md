# ftd-sbt-admin: the credential panel's rules, in Dafny

This project models the logic of the two pages of the `ftd-sbt-admin` web app. The app issues
soulbound credential tokens on Sepolia.

The admin page (`src/app/page.tsx`) turns free text or an uploaded file into recipient
addresses. It mints to one address or to many in lots, and revokes a token by id. It guards
every write with a wallet/chain/owner gate and keeps a bounded audit log of at most 200
entries, newest first. It can export that log as CSV. The student page
(`src/app/student/page.tsx`) decides whether the connected wallet holds a credential, rewrites
`ipfs://` URIs to the public gateway, and caps the attributes shown at 12.

Modules:

- `Common`: `Option`, `Take` (`slice(0, n)`), `Reverse` and `Flatten`.
- `Text`: the JavaScript string operations the pages use:
  - `trim` with the ECMAScript whitespace set;
  - ASCII `toLowerCase`;
  - `join`, `startsWith` and `replace` with a string pattern;
  - decimal `toString`;
  - `BigInt(string)`.
- `Address`: viem's `isAddress`. The EIP-55 checksum is a parameter.
- `Recipients`: `parseAddressesFromText`. The parsing loop is proved against a reference
  definition of "first occurrence of each lower-cased address".
- `Chunking`: `chunk` and the lot-size clamp.
- `AuditLog`: `addLog`'s bounded, newest-first log.
- `Gate`: `isOwner`, `canAdmin`, `requireReady` and its messages.
- `Admin`: the class `Panel`, holding the page state:
  - the log;
  - the session counter;
  - the record of submitted contract writes;
  - the form fields.

  Its methods are the handlers `onMint`, `onBatchFile`, `onBatchMint` and `onRevoke`, plus the
  two effects that log a failed or a confirmed transaction. `Valid()` is kept by every handler:
  the log holds at most 200 entries, and the counter equals the number of addresses in the
  mint writes submitted so far.
- `CsvExport`: the text `exportLogsCsv` downloads, and a reader for it. The round-trip lemmas
  show that the export lists every entry's five fields exactly, oldest first.
- `Student`: `tid`/`hasToken`, the gateway rewrite, `imageUrl` and the attribute cap.

Wallet state (connection, account, chain id, the contract's `owner()`), timestamps, file
contents and the checksum check are inputs. A contract call is recorded as a `WriteOp` in
`Panel.writes`, in submission order.

## Model

| member | source | states |
|---|---|---|
| Recipients.ParseAddressesFromText | src/app/page.tsx:43-62 | returns exactly the reference list: the first occurrence of each lower-cased address among the trimmed, non-empty tokens, in input order and original casing |
| Recipients.KeepFirstAddresses | src/app/page.tsx:50-61 | the `seen`/`out` loop returns the first-occurrence addresses of the tokens; each is an address and one of the tokens; no two are equal after lower-casing; the lower-cased keys of the output are the keys of all address tokens |
| Recipients.FirstAddressesSound | src/app/page.tsx:50-61 | for any prefix of the tokens, the kept addresses are addresses drawn from that prefix, pairwise distinct after lower-casing, and they cover every address key seen |
| Recipients.FirstAddressesStep | src/app/page.tsx:52-59 | one more token extends the output exactly when it is an address whose lower-cased key is not yet seen, and it adds its key to the seen set |
| Recipients.ParsedAddressesSound | src/app/page.tsx:43-62 | every parsed address passes `isAddress`, is one of the text's tokens, is non-empty and is already trimmed; no two differ only in case |
| Recipients.FirstAddressesOfDistinct | src/app/page.tsx:50-61 | a list of addresses with no case-insensitive repeats is kept whole and in order |
| Recipients.NewlinesForReturns | src/app/page.tsx:45 | definition, stated character by character: every carriage return becomes a newline; every other character and the length are unchanged |
| Recipients.Split | src/app/page.tsx:46 | at least one field, and no field holds a separator; that these fields are exactly the maximal separator-free stretches, in order, is `Recipients.SplitWeaves` |
| Recipients.SplitWeaves | src/app/page.tsx:46 | the split cuts the text exactly at its maximal separator runs: the text is the fields interleaved with the runs, every run is a non-empty stretch of separators, and there is one more field than there are runs; with `Split`'s own guarantee that no field holds a separator, the fields are the text's maximal separator-free stretches, in order |
| Recipients.SplitJoinLines | src/app/page.tsx:46 | splitting newline-joined clean tokens gives those tokens back |
| Recipients.TokensOfJoinedLines | src/app/page.tsx:44-48 | the trimmed non-empty tokens of newline-joined clean tokens are those tokens |
| Recipients.NoTokens | src/app/page.tsx:44-48 | the empty text has no tokens, so it parses to no address |
| Recipients.ParseJoinedIsIdentity | src/app/page.tsx:177-179 | the import's `addresses.join("\n")` parses back to the same address list |
| Address.IsAddress | src/app/page.tsx:53 | definition, by cases: only text of the `0x` + 40-hex shape is accepted; an all-lower-case one always is; a mixed-case one is accepted exactly when `checksumOk` accepts it |
| Address.AddressIsTrimmed | src/app/page.tsx:53 | an accepted address has no surrounding whitespace, so `trim` leaves it alone |
| Address.AddressCharacters | src/app/page.tsx:53 | an accepted address is 42 characters, all hexadecimal digits or the `x` of `0x`, so it contains no separator |
| Text.TrimRemovesSurroundingWhitespace | src/app/page.tsx:47 | `trim` keeps one stretch of the input; everything before and after that stretch is whitespace, and the stretch neither starts nor ends with whitespace |
| Text.Trim | src/app/page.tsx:47 | the result is no longer than the input and neither starts nor ends with whitespace; that it is exactly the input without its surrounding whitespace is `Text.TrimRemovesSurroundingWhitespace` |
| Text.TrimKeeps | src/app/page.tsx:47 | text that neither starts nor ends with whitespace is unchanged by `trim` |
| Text.LowerIdempotent | src/app/page.tsx:54 | lower-casing twice equals lower-casing once |
| Text.DecimalStringValue | src/app/page.tsx:264 | `toString` of a natural number is a non-empty run of decimal digits whose value is that number, with no leading zero: 0 gives "0", and any other number does not start with `0` |
| Text.ParseDecimalString | src/app/page.tsx:251 | `BigInt` of a number's decimal string gives the number, and with a leading minus its negation |
| Text.ParseBigInt | src/app/page.tsx:251 | definition of `BigInt(string)`: blank text reads as 0; the cases it accepts and rejects are `Text.ParseBigIntCases` |
| Text.ParseBigIntCases | src/app/page.tsx:251 | `BigInt` reads a trimmed run of decimal digits as its value, rejects (throws on) every non-blank text that does not start with a sign or a decimal digit, and gives a negative value only after a leading minus |
| Chunking.Chunk | src/app/page.tsx:64-68 | the `i += size` loop returns the lots of the reference definition, and their concatenation is the input |
| Chunking.ChunksFlatten | src/app/page.tsx:64-68 | concatenating the lots in order gives back the input exactly |
| Chunking.ChunksSizes | src/app/page.tsx:64-68 | every lot is non-empty and at most `size` long; every lot but the last has exactly `size` elements |
| Chunking.ChunksCount | src/app/page.tsx:64-68 | there are ceil(n / size) lots |
| Chunking.NinetyFiveByForty | src/app/page.tsx:64-68 | 95 addresses in lots of 40 give the lots [0,40), [40,80) and [80,95) |
| Chunking.EffectiveChunkSize | src/app/page.tsx:206 | the size is in [1, 200]; a missing or zero input gives 40, a negative one gives 1, 200 or more gives 200, and 1..200 is kept |
| AuditLog.PushNewest | src/app/page.tsx:105-107 | the new entry is first, the length is min(old + 1, 200), and entries 1.. are the old entries in order |
| AuditLog.PushNewestEvicts | src/app/page.tsx:106 | a log with room loses nothing; a full log loses exactly its oldest entry |
| AuditLog.PushAllConcat | src/app/page.tsx:105-107 | adding two runs of entries one after the other equals adding their concatenation |
| AuditLog.PushAllSnoc | src/app/page.tsx:105-107 | adding one more entry of a run is one `addLog` on the log so far |
| AuditLog.PushAllWindow | src/app/page.tsx:105-107 | after any run of additions the log is the 200 newest entries of its history, newest first, and never longer than 200 |
| AuditLog.ChronologicalOrder | src/app/page.tsx:105-107 | read backwards, a log that received at most 200 entries lists them in the order they were added |
| Gate.RequireReady | src/app/page.tsx:131-136 | reports not-connected first, then wrong chain, then not-owner, each exactly when it is the first failing check; reports nothing exactly when `canAdmin` holds |
| Gate.Message | src/app/page.tsx:131-136 | every refusal message is non-empty, so a refused action always stops |
| Gate.OwnerIgnoresCase | src/app/page.tsx:84-85 | the owner match is unchanged by lower-casing both addresses, and it fails when either address is missing |
| Admin.BatchWrites | src/app/page.tsx:228-237 | definition, stated index by index: one `mintBatch` write per lot, in lot order |
| Admin.BatchWritesMintAll | src/app/page.tsx:216-241 | the lot writes mint exactly the concatenation of the lots, in order |
| Admin.MintedByAppend | src/app/page.tsx:168 | the addresses minted by two runs of writes are those of the first run, then those of the second |
| Admin.LotEntries | src/app/page.tsx:219-223 | definition, stated index by index: one pending entry per lot, in lot order, labelled with its 1-based index, the lot count and its size |
| Admin.BatchCoversRecipients | src/app/page.tsx:195-241 | a batch mints every parsed recipient exactly once, in parse order, in ceil(n / size) lots of between 1 and size addresses |
| Admin.RevokeTokenIdOfDecimal | src/app/page.tsx:251-252 | an empty field reads as 0; a decimal id reads as itself and a negative one as its negation, so exactly the ids above 0 go on |
| Admin.RevokeTokenId | src/app/page.tsx:251 | reading the field with its empty-field fallback to `"0"` equals `BigInt` of the field itself, for every field: the fallback changes nothing, so the ids rejected in the no-change branch of `Admin.Panel.OnRevoke` are exactly the texts `BigInt` rejects |
| Admin.Panel.constructor | src/app/page.tsx:96-101 | empty log, counter 0, no writes, empty fields and lot size 40 |
| Admin.Panel.AddLog | src/app/page.tsx:105-107 | the log becomes `PushNewest` of the old log; nothing else changes |
| Admin.Panel.OnMint | src/app/page.tsx:142-170 | gate refusal or invalid address: one error entry with the right message, no write, form unchanged. Otherwise: one pending `mint(to)` entry, one `mint` write to that address, counter + 1, recipient field cleared |
| Admin.Panel.OnBatchFile | src/app/page.tsx:172-186 | no file: nothing changes. Otherwise the batch text becomes the file's parsed addresses, one per line, and one success entry gives their count |
| Admin.Panel.Import | src/app/page.tsx:177-185 | sets the batch text to the addresses joined by newlines and logs one `batch-import` success entry with their count |
| Admin.Panel.OnBatchMint | src/app/page.tsx:188-242 | gate refusal, or no parsed address: one error entry and no write. Otherwise: a summary entry, then one pending entry and one `mintBatch` write per lot in lot order; the writes mint exactly the parsed addresses in order; the counter grows by their number |
| Admin.Panel.SendLots | src/app/page.tsx:216-241 | the lot loop adds the lots' pending entries in order and appends their `mintBatch` writes in lot order; the form is untouched |
| Admin.Panel.SendLot | src/app/page.tsx:217-240 | one lot: its pending entry, its `mintBatch` write, counter + lot size |
| Admin.Panel.OnRevoke | src/app/page.tsx:244-277 | gate refusal: one error entry. An id `BigInt` rejects: nothing changes. An id ≤ 0 (including an empty field): one error entry, no write. Otherwise: one pending `revoke(id)` entry, one `revoke` write, id field cleared. The counter never changes |
| Admin.Panel.OnWriteError | src/app/page.tsx:109-118 | a reported write error adds one `tx-error` entry carrying its message; no error, no entry |
| Admin.Panel.OnConfirmed | src/app/page.tsx:120-129 | a known hash with a successful receipt adds one `tx-confirmed` success entry with that hash; otherwise nothing |
| CsvExport.UnquoteQuoted | src/app/page.tsx:285-286 | a field written with its quotes doubled and a closing quote reads back as the original value, whatever quotes it holds |
| CsvExport.ReadWrittenRecord | src/app/page.tsx:287-293 | a line of quoted, comma-joined fields reads back as those fields |
| CsvExport.ReadWrittenRows | src/app/page.tsx:281-295 | the newline-joined rows read back as each entry's five fields, in row order |
| CsvExport.ExportReadsBack | src/app/page.tsx:279-298 | the export of a non-empty log is the header line, then one record per entry, oldest first, each holding `at`, `action`, `status`, the hash or "" and the note or "" exactly |
| CsvExport.ExportOfEmptyLog | src/app/page.tsx:279-297 | an empty log exports as the header followed by an empty line |
| CsvExport.ExportIsChronological | src/app/page.tsx:279-297 | up to 200 entries logged one by one export in the order they were logged |
| Student.HasToken | src/app/student/page.tsx:25-26 | definition, with `tid` unfolded: holds exactly when connected, not loading, and a token id was read that is not 0 |
| Student.GatewayUrlRewrites | src/app/student/page.tsx:49-51 | an `ipfs://` URI becomes `https://ipfs.io/ipfs/` followed by the rest of the URI; any other URI is unchanged |
| Student.GatewayUrlIdempotent | src/app/student/page.tsx:49-51 | rewriting a rewritten URL changes nothing |
| Student.MetadataUrl | src/app/student/page.tsx:44-51 | a metadata URL exists exactly when `tokenURI` is present and non-empty, and it is then the gateway rewrite of that URI |
| Student.ImageUrl | src/app/student/page.tsx:84-89 | null exactly when the metadata has no image or an empty one; otherwise the gateway-rewritten image URI |
| Student.ShownAttributes | src/app/student/page.tsx:188 | the first min(12, n) attributes, in their original order |

## Left out

- The wagmi hooks, RainbowKit and `switchChain` are not modelled. Wallet state is the `Gate.Wallet` input, and writes are recorded, not sent.
- `src/lib/contract.ts` is not part of this model. The Sepolia chain id 11155111 is written out in `Gate`.
- `src/lib/abi.ts` is static ABI data and is not modelled.
- viem's EIP-55 checksum needs Keccak-256. It is the parameter `checksumOk`, and nothing is assumed about it. The rest of `isAddress` (the shape `0x` plus 40 hex digits, and the all-lower-case case) is modelled.
- `toLowerCase` is modelled on ASCII letters only. That is exact for address-shaped strings, the only ones that get lower-cased.
- The chunk-size input is `Option<int>`, where `None` is `NaN`. Non-integer numbers from `Number(...)` are not modelled.
- Each handler call uses one timestamp `at`. `Date.now()`, `nowIso` and file names are not modelled.
- `file.text()` is not modelled. `OnBatchFile` receives the file's text, or `None` when no file was chosen.
- `downloadText` and the Blob/DOM handling are not modelled. `CsvExport.ExportCsv` is the text handed to it.
- The template download, the metadata `fetch`, `wallet_watchAsset`, `alert` and all JSX, including the buttons' `disabled` guards, are not modelled.
- The inputs' `onChange` handlers are not modelled. The fields of `Panel.form` are set directly.
- Admin.Panel.OnBatchMint: the awaited `onSettled` of each lot is modelled as sequential submission in lot order. Whether a lot's submission fails does not change what the loop does next, so settlement outcomes are not modelled. The whole batch is one step: no effect and no other handler runs between its lots. In the page, the `tx-error` and `tx-confirmed` effects and a file import can add entries while a lot is awaited. So the summary and the lot entries are not always one unbroken block of the log, and only the order of the `mintBatch` writes among themselves is what the page itself guarantees.
- Admin.Panel.OnConfirmed: the effects react only to the latest `writeError` and `txHash`, so one confirmed or failed entry per submitted write is not promised. The two effects are independent events.
- Admin.Panel.OnRevoke: a `BigInt` syntax error throws out of the handler. The model leaves the state unchanged in that case. The thrown error itself is not modelled.
- Chunking.Chunk requires `size >= 1`. Its only caller passes the clamped size, and with 0 the source loop would not end.
- Metadata whose `attributes` is not an array is not modelled. `Student.ShownAttributes` takes the list.
- The export uses LF line ends rather than the CRLF of section 2 of RFC 4180. The source does the same.
