# Virgil IoTKit: verified models

Dafny models of the parts of Virgil IoTKit where several functions, or several programs, have to agree
byte for byte, and proofs that they do. `dafny verify dfyconfig.toml` checks everything.

| files | what they model |
|---|---|
| `Jsmn`, `TokenForest`, `JsonSteps`, `JsonSpelling`, `JsonTree`, `JsonParser` | the JSON tokenizer (strict mode with parent links) filling a flat token array, the forest the array encodes, what it accepts and refuses, and the cursor that walks the forest by counting |
| `JsonGenerator`, `JsonPrint`, `JsonRoundTrip`, `JsonReadBack`, `JsonEndToEnd` | the JSON generator, and the proof that what it prints, and any other document without white space, is parsed back to the same document |
| `Bytes`, `Sha256`, `Sha256Vectors` | byte orders; the streaming SHA-256 of the software security module against FIPS 180-4, with published digests and the origin of the constants |
| `Versions`, `Firmware`, `FirmwareStore`, `FirmwareDownload`, `FirmwareVersions`, `FirmwareReception`, `FirmwareTransfer`, `FirmwarePipeline` | the signer that writes a program file and an update file, the download state machine and its version checks, the flat storage, and installation, which rebuilds the first file from the second |
| `KeyChain`, `SignatureBlocks`, `KeyRecords`, `FirmwareVerify` | the provisioned keys that vouch for each other, byte by byte, and the signature loop that firmware and trust lists share |
| `TrustListStore` | three storages of a trust list under arbitrary storage failures: upload, verify, copy, fall back, fetch |
| `TrustListFile`, `TrustListSplit`, `TrustListDelivery` | the Python tool that writes a trust list, the Go tool that cuts it into parts for the device, and the way from the one to the live storage |
| `Der`, `Oids`, `Cryptogram`, `CryptogramReading`, `CryptogramGroup`, `SignatureEnvelope` | the backwards DER writer, the forwards reader, encrypted messages for one or several recipients, their identifiers, and signatures in their envelopes |
| `Snap`, `SnapProtocol`, `SnapTransactions` | frames cut out of a byte stream, and networks of nodes answering requests |
| `Base64`, `Utoa` | two codecs with a buffer or rounding argument |

Where the source changes state, the model is a class or a method over arrays that is proved equal to a
specification function on values; the theorems are about those functions. Each theorem below is for all
inputs, all block divisions or all runs, as its row says.

## Findings

Places where the code does not do what it is documented to do, each with the exact condition:

- A download block that ends exactly on the last byte of the firmware header leaves the header's size in
  `used_size`, and the 16-bit chunk counters stop too early for more than 2^16 chunks. A consistent update file
  ends up in the data file, as code and footer, with every block accepted, if and only if neither is the case
  (`FirmwareTransfer.TransferSucceeds`, for every division into blocks and any chunk size).
- The public check of a provisioned record accepts every record of at most 12 bytes, because provision.c:194 returns
  `false`, which is the success code, and every record that calls itself a recovery key, because line 199 asks for
  no signature. Otherwise it accepts, when all slots can be read, exactly the records that a recovery key vouches
  for (`KeyChain.VerifyMeans`, an equivalence; `KeyChain.UncheckedExamples`). The search for a signer's key is not
  affected, since it verifies records of the slots only (`KeyChain.SearchMeans`).
- json_init and json_parse_start look at the first token of a text without tokens, which was never written
  (json_parser.c:600). These texts are accepted by the tokenizer, and they are exactly those of spaces, colons and
  commas up to the end of the string, such as the empty one (`TokenForest.TokenlessIsAccepted`, an equivalence).
- On a big-endian machine the Go tool changes a chunk unless its dates are palindromes
  (`TrustListSplit.ChunkSent`, an equivalence).
- The reader of encrypted messages can return success with outputs unset: asn1-cryptogram.c:500 returns
  `false`, which is the success code, when at most the public key and the HMAC are set, and the helper for the
  public key returns an error code, at line 299, that its caller takes for success. For messages of the writer's form with any identifiers this happens exactly if
  those checked before are the expected ones and the key's cipher, or the curve inside the key, is not
  (`CryptogramReading.UnsetExactly`). The `false` at line 448 is never returned, since an element
  that is skipped there has been entered and has the right tag (`CryptogramReading.ScanNeverSilent`,
  `Der.SkipsEntered`).
- The conversion of a signature to raw bytes copies octets in front of an integer that begins with a zero and is
  shorter than 32 octets, and returns success. Two integers below 2^256 in their shortest encoding come back
  right-aligned exactly if neither is like that (`SignatureEnvelope.Survives`).
- Over any transfer, complete or not, the version stored for a kind of firmware never goes down, provided the name of
  the data file is not that of the descriptor table (`FirmwareVersions.VersionsNeverFall`). Manufacturer and device
  type can spell that name, "firmware_descriptors"; then the first chunk is stored over the table and becomes its
  first record, whatever version that is (`FirmwareVersions.TableOverwritten`).
- A SNAP response with more than 992 bytes of content reaches its addressee only in a block of its own; any other
  cut of it runs past the packet buffer (`SnapProtocol.ResponseArrives`, an equivalence).

## Model

| member | source | states |
|---|---|---|
| TokenForest.RunKeepsInv | ext/jsmn/jsmn.c:181-333 | From any state that satisfies the invariant, for every text and token limit: tokens form a preorder forest (parent before child, each parent an ancestor-or-self of the previous token, `size` equal to the number of tokens naming it), `toksuper` is on the rightmost path, every open container is at or above it; also on failure. Success means no bracket is open and the code is the number of tokens |
| TokenForest.StepKeepsInv | ext/jsmn/jsmn.c:188-321 | One character keeps that invariant |
| TokenForest.CloseInnermost | ext/jsmn/jsmn.c:216-237 | When a closing bracket closes a container, it is the innermost open one: every other open container is above it |
| TokenForest.CloseParent | ext/jsmn/jsmn.c:216-237 | Where parsing goes on after a bracket closed lies on the rightmost path, and all other open containers are above it |
| TokenForest.AboveIsInterval | ext/jsmn/jsmn.c:221-237 | In a preorder forest the descendants of a token form a gap-free run of tokens |
| TokenForest.TwoPassAgreement | ext/jsmn/jsmn.c:65-333 | The counting call returns exactly the number of tokens the filling call needs: with that many it never runs out, with fewer it never succeeds, and success returns the count |
| TokenForest.TokenlessIsAccepted | ext/jsmn/jsmn.c:188-333 | With any limit, a text is accepted without a token being written if and only if it has spaces, colons and commas only, up to its end |
| JsonSteps.BracketCloses | ext/jsmn/jsmn.c:212-260 | In every state that satisfies the invariant, a closing bracket closes the innermost open container and returns to its parent if it is of that kind, and is refused if it is of the other |
| JsonSteps.BracketTooMany | ext/jsmn/jsmn.c:212-260 | With nothing open it is refused, unless a colon came before and the last root is of its kind; then it is ignored |
| JsonSteps.PunctuationStep | ext/jsmn/jsmn.c:268-292 | White space is skipped, a colon makes the last token the superior one, a comma goes back from a key to its container; none is counted |
| JsonSteps.OpeningStep | ext/jsmn/jsmn.c:194-211 | An opening bracket opens a container below the superior token, counts as its child and becomes the superior token |
| JsonSteps.OtherRefused | ext/jsmn/jsmn.c:316-319 | Any character that is none of these, no quote and no beginning of a primitive is refused by both passes |
| JsonSpelling.ScanMeans | ext/jsmn/jsmn.c:114-176 | A string ends at q if and only if there is a quote and what stands in front of it is spelled by items: plain characters, a backslash with one of the eight characters, or \u with four hexadecimal digits |
| JsonSpelling.RefusedMeans | ext/jsmn/jsmn.c:135-172 | A string is invalid if and only if such items are followed by a wrong escape; any other string without its quote is incomplete |
| JsonSpelling.StringStep | ext/jsmn/jsmn.c:261-267 | A string of any items becomes one token in the filling pass, and counts one in the counting pass |
| JsonSpelling.EscapeStops | ext/jsmn/jsmn.c:135-172 | A wrong escape in a string stops both passes |
| JsonSpelling.PrimitiveMeans | ext/jsmn/jsmn.c:65-108 | A primitive ends at q if and only if there is a delimiter and what stands in front of it are printable characters other than delimiters |
| JsonSpelling.PrimitiveRefused | ext/jsmn/jsmn.c:74-95 | It is invalid if and only if such characters are followed by one that is neither printable nor a delimiter |
| JsonSpelling.PrimitiveStep | ext/jsmn/jsmn.c:293-314 | A number or word becomes one token, and is refused exactly as a key and as a second value of a key |
| Jsmn.Parser.Parse | ext/jsmn/jsmn.c:181-333 | The loop over the token array computes the run of the step function (or of the counting function when there is no array) and leaves unused tokens alone |
| Jsmn.Parser.ParseString | ext/jsmn/jsmn.c:114-176 | In-place string scan: position, new token and error codes as specified, position restored on failure |
| Jsmn.Parser.ParsePrimitive | ext/jsmn/jsmn.c:65-108 | The same for primitives, with the strict delimiters |
| Jsmn.Parser.CloseBracket | ext/jsmn/jsmn.c:212-237 | The in-place walk terminates and does what the specified walk does |
| JsonTree.EndIsLastDescendant | helpers/json/src/json_parser.c:35-47 | In a preorder forest a token above another is exactly one whose interval contains it |
| JsonTree.NextChild | helpers/json/src/json_parser.c:131-180 | After the interval of a child comes its next sibling or the end of the parent, and one more child is counted |
| JsonTree.MoreChildren | helpers/json/src/json_parser.c:131-180 | The number of children counted is below `size` exactly when there is a further child |
| JsonTree.WalkEnds | helpers/json/src/json_parser.c:327-353 | A walk that has counted down to zero has seen all children |
| JsonTree.ValidIsProper | helpers/json/src/json_parser.c:509-565 | A container is valid if and only if each single token below it is proper: in an object a string with exactly one token below it, in an array or below a key a container or a token without any below it |
| JsonTree.ValidBelow | helpers/json/src/json_parser.c:509-565 | If the root validates, every token below it is a valid container, a key with one value, or a leaf value |
| JsonParser.JsonObject.SkipToLast | helpers/json/src/json_parser.c:35-47 | Terminates and returns the last descendant |
| JsonParser.JsonObject.IsValid | helpers/json/src/json_parser.c:509-565 | The recursive check with its saved and restored cursor decides validity of the node and leaves the cursor where it was |
| JsonParser.JsonObject.GetValue | helpers/json/src/json_parser.c:130-180 | Search by key is first-match search over the members of the document under the cursor, with the source's error codes |
| JsonParser.JsonObject.GetArrayIndex | helpers/json/src/json_parser.c:327-353 | Search by position is exactly the i-th element |
| JsonParser.JsonObject.GetCompositeObject | helpers/json/src/json_parser.c:260-271 | Moves the cursor to the object stored under the key, or leaves it |
| JsonParser.JsonObject.ReleaseCompositeObject | helpers/json/src/json_parser.c:275-286 | Brings the cursor back from the value of a member to the object; answers OK exactly then |
| JsonParser.JsonObject.EnterAndRelease | helpers/json/src/json_parser.c:260-313 | Get followed by release restores the cursor, for objects and arrays, for every key |
| JsonParser.JsonObject.GetValStr | helpers/json/src/json_parser.c:115-127 | String accessor: the string exactly as stored, or the code for a missing key, another type, or no room |
| JsonParser.JsonObject.GetValBool | helpers/json/src/json_parser.c:52-63 | Boolean accessor: true and false words only |
| JsonParser.JsonObject.ArrayGetStr | helpers/json/src/json_parser.c:409-416 | The string at the position, exactly as stored, or the code for what is there |
| JsonParser.JsonObject.ArrayGetCompositeObject | helpers/json/src/json_parser.c:433-444 | Moves the cursor to the object at the position, or leaves it |
| JsonParser.JsonObject.ArrayReleaseCompositeObject | helpers/json/src/json_parser.c:447-456 | Brings the cursor back from an element to its array |
| JsonParser.JsonObject.Init | helpers/json/src/json_parser.c:582-612 | Return code as a function of the parse and the validity of the root; on success the cursor is on a valid root |
| JsonParser.JsonObject.ParseStart | helpers/json/src/json_parser.c:616-643 | Counting, allocating exactly the counted tokens, and parsing |
| JsonGenerator.JsonStr.StartObject | helpers/json/src/json_generator.c:156-176 | Text afterwards, with the comma after a closed object, and refusal on a full buffer |
| JsonGenerator.JsonStr.PushObject | helpers/json/src/json_generator.c:118-133 | Text afterwards, cut off where the buffer ends |
| JsonGenerator.JsonStr.CloseObject | helpers/json/src/json_generator.c:180-187 | Text afterwards, or refusal on a full buffer |
| JsonGenerator.JsonStr.SetObjectValue | helpers/json/src/json_generator.c:267-343 | Text and return code, including strings that do not fit and are refused after the comma |
| JsonPrint.CallsPrintMembers | helpers/json/src/json_generator.c:117-343 | Replaying the calls for a list of nested members behind an opening brace prints exactly the text of the members, commas included |
| JsonPrint.Replay | helpers/json/src/json_generator.c:117-343 | With room for the result no call fails and nothing is cut off |
| JsonEndToEnd.PrintedTokens | ext/jsmn/jsmn.c:181-333 | The tokenizer turns the text of every document, with objects, arrays, strings of any items and any primitives, into exactly its tokens |
| JsonEndToEnd.RoundTrip | helpers/json/src/json_parser.c:582-612 | Every such object or array: counted as n > 0 tokens, accepted by json_init with any array of at least n tokens, and the token array reads back as that very document |
| JsonEndToEnd.LookupFinds | helpers/json/src/json_parser.c:130-180 | A lookup returns the value of the first member of the name |
| JsonEndToEnd.FetchByName | helpers/json/src/json_parser.c:130-180 | ... and so does the search of the parser, which otherwise answers the code for a missing name |
| JsonEndToEnd.ScalarFetched | helpers/json/src/json_parser.c:52-63 | A value that was set is fetched as what it was and by the accessor of its type only; a boolean is true if and only if it was set to 1 |
| JsonEndToEnd.SetThenFetch | helpers/json/src/json_parser.c:52-127 | Set, print, parse and fetch, on real buffers: the string or boolean that was set, or the code for another type or no room |
| JsonEndToEnd.LookupMisses | helpers/json/src/json_parser.c:130-180 | A lookup fails exactly for names that were never set |
| JsonEndToEnd.PrintThenRead | helpers/json/src/json_parser.c:616-643 | Generator and parser on real buffers: the cursor ends on the same document that was printed |
| JsonEndToEnd.Descend | helpers/json/src/json_parser.c:260-271 | Following a path of keys reaches exactly the object the path denotes, and succeeds exactly when there is one |
| Sha256.Reduced | default-impl/crypto/vs-soft-secmodule/src/soft-secmodule-sha2.c:64-65 | The reduced forms of Maj and Ch compute the functions of section 4.1.2 of FIPS 180-4, bit for bit |
| Sha256Vectors.AbcDigest | default-impl/crypto/vs-soft-secmodule/src/soft-secmodule-sha2.c:28-114 | The digest of abc, as published for FIPS 180-4 |
| Sha256Vectors.TwoBlockDigest | default-impl/crypto/vs-soft-secmodule/src/soft-secmodule-sha2.c:28-114 | The digest of the published message of 56 bytes, which takes two blocks |
| Sha256Vectors.CubeRoots1 | default-impl/crypto/vs-soft-secmodule/src/soft-secmodule-sha2.c:44-53 | The first eight round constants are the first 32 bits of the fractional parts of the cube roots of 2 to 19; likewise CubeRoots2 to CubeRoots8 for the others, up to 311 (section 4.2.2) |
| Sha256Vectors.SquareRoots | default-impl/crypto/vs-soft-secmodule/src/soft-secmodule-sha2.c:34-41 | The initial state is that of the square roots of 2 to 19 (section 5.3.3) |
| Sha256.PadIsMinimal | default-impl/crypto/vs-soft-secmodule/src/soft-secmodule-sha2.c:166-180 | The number of zero bytes is the least that fills the block up to the length field (section 5.1.1) |
| Sha256.PadLength | default-impl/crypto/vs-soft-secmodule/src/soft-secmodule-sha2.c:166-189 | Below 2^61 bytes the padded message ends in the length in bits |
| Sha256.EightRounds | default-impl/crypto/vs-soft-secmodule/src/soft-secmodule-sha2.c:90-110 | Eight unrolled rounds with rotating roles are eight rounds of section 6.2.2, after which every variable is back in place |
| Sha256.R | default-impl/crypto/vs-soft-secmodule/src/soft-secmodule-sha2.c:67-67 | Extends the message schedule by one word |
| Sha256.Context.Process | default-impl/crypto/vs-soft-secmodule/src/soft-secmodule-sha2.c:79-114 | Absorbs one block as the compression function of section 6.2.2 |
| Sha256.Context.Update | default-impl/crypto/vs-soft-secmodule/src/soft-secmodule-sha2.c:118-153 | Whatever is buffered, the context then stands for the fed bytes followed by the new ones; counters modulo 2^64 |
| Sha256.Context.Final | default-impl/crypto/vs-soft-secmodule/src/soft-secmodule-sha2.c:159-209 | The digest is SHA-256 of everything fed, and the context is wiped |
| Sha256.HashParts | default-impl/crypto/vs-soft-secmodule/src/soft-secmodule-sha2.c:118-209 | For every cut of a message into update calls the digest is the SHA-256 of the whole message |
| Sha256.LengthBytes | default-impl/crypto/vs-soft-secmodule/src/soft-secmodule-sha2.c:185-189 | The two counters, shifted by three, are the big-endian length in bits |
| Versions.CompareIsLexicographic | helpers/update/src/update.c:135-161 | Newer exactly when bigger in the first of major, minor, patch, build that differs |
| Versions.CompareIsStrictOrder | helpers/update/src/update.c:135-161 | Irreflexive, transitive, and total on everything but the timestamp |
| Firmware.HeaderRoundTrip | modules/firmware/src/firmware.c:742-764 | The device reads from a header exactly what the signer put in |
| Firmware.HeaderLayout | modules/firmware/include/virgil/iot/firmware/firmware.h:240-247 | Offset and byte order of every field of the header |
| Firmware.DescriptorLayout | modules/firmware/include/virgil/iot/firmware/firmware.h:224-230 | ... and of the descriptor in it |
| Firmware.SizesByCurve | modules/crypto/secmodule/src/secmodule-helpers.c:44-95 | A key is an uncompressed point of its curve and a signature a pair of numbers of the field's size |
| Firmware.SizesAgree | modules/crypto/secmodule/src/secmodule-helpers.c:44-95 | Signer and device agree on key and signature sizes for exactly the named curves |
| Firmware.DeclaredSize | tools/virgil-firmware-signer/utility/utility.go:274-282 | The footer length declared from the configured curves is the length of the footer written |
| Firmware.SignerUtility.CreateProgFile | tools/virgil-firmware-signer/utility/utility.go:88-180 | The file is code, filler, footer, signed over everything before the signatures |
| Firmware.SignerUtility.CreateUpdateFile | tools/virgil-firmware-signer/utility/utility.go:182-234 | The file is header, code and the same footer, from the parts kept by the first |
| FirmwareStore.LookupAfterUpsert | modules/firmware/src/firmware.c:290-359 | The descriptor table is a map: a saved record is found under its key and no other key changes |
| FirmwareStore.UpsertKeepsUnique | modules/firmware/src/firmware.c:290-359 | Saving keeps keys unique |
| FirmwareStore.LookupAfterRemove | modules/firmware/src/firmware.c:418-486 | With unique keys, removing a key removes just that key |
| FirmwareStore.DeleteMeans | modules/firmware/src/firmware.c:418-486 | Deleting removes the record and the data file, touches no other record and no other file, and succeeds exactly if there were records and the file |
| FirmwareStore.OwnVersion | modules/firmware/src/firmware.c:643-662 | The own-version check says yes exactly for firmware that shares the manufacturer or the device type and is higher in the first number that differs; the two other answers likewise |
| FirmwareStore.InstallMeans | modules/firmware/src/firmware.c:666-738 | Firmware that is not for the device or not higher leaves the install space as it was; any other is installed exactly if its footer has less than 64 KiB and fits behind the code, and then every byte is that of the code, 0xFF, or that of the footer; else the code and image of the failing step |
| FirmwareStore.Storage.Search | modules/firmware/src/firmware.c:317-333 | The search loop finds the first record with the key |
| FirmwareStore.Storage.SaveDescriptor | modules/firmware/src/firmware.c:290-359 | Writes the table with the record replaced or appended |
| FirmwareStore.Storage.LoadDescriptor | modules/firmware/src/firmware.c:363-414 | Reads the first record with the key |
| FirmwareStore.Storage.DeleteFirmware | modules/firmware/src/firmware.c:418-486 | Deletes the data file and removes the record; with an empty table deletes the data file alone and says so |
| FirmwareStore.Storage.SaveFooter | modules/firmware/src/firmware.c:228-254 | Scans the signatures for the footer size and stores it behind the code |
| FirmwareStore.Storage.LoadFooter | modules/firmware/src/firmware.c:258-286 | Reads what lies behind the code |
| FirmwareStore.Storage.HashImage | modules/firmware/src/firmware.c:567-599 | The bytes hashed are code, 0xFF fill and the head of the footer, for every chunk size |
| FirmwareStore.Storage.Install | modules/firmware/src/firmware.c:666-738 | On success the install space holds code, fill and footer; otherwise the code of the failing step |
| FirmwareDownload.Downloader.Store | modules/cloud/src/cloud.c:343-481 | One call of the download handler: new state, files and return value as specified, with a separate outcome where the source would leave its buffers |
| FirmwareDownload.Downloader.Receive | modules/cloud/src/cloud.c:343-481 | A transfer block by block |
| FirmwareVersions.RecordRoundTrip | modules/cloud/src/cloud.c:369-382 | The version in a stored record is the version that was stored |
| FirmwareVersions.RecordLayout | modules/firmware/include/virgil/iot/firmware/firmware.h:224-230 | Where the fields of a record lie |
| FirmwareVersions.WantedIsNew | modules/cloud/src/cloud.c:368-371 | The version check passes exactly a descriptor that is higher than the device's own version if it shares manufacturer or device type, higher than the one stored for both, and, with none stored, not all zeros |
| FirmwareVersions.UnwantedRefused | modules/cloud/src/cloud.c:343-371 | A block that completes an inconsistent or unwanted header is answered with 0 and changes no file |
| FirmwareVersions.WantedStored | modules/cloud/src/cloud.c:343-399 | Any other header has its record stored and no other key changed, whatever becomes of the block, unless the table is full and nothing changes |
| FirmwareVersions.StoredNotReplaced | modules/cloud/src/cloud.c:368-371 | If a descriptor is stored for the key and the new version is not higher in the first number that differs, the answer is 0 and no file changes |
| FirmwareVersions.OwnNotUndercut | modules/cloud/src/cloud.c:368-371 | The same for the device's own descriptor |
| FirmwareVersions.FeedRenews | modules/cloud/src/cloud.c:343-481 | A whole transfer, complete or not, leaves the table as it was or stores one wanted record under its key and changes no other |
| FirmwareVersions.VersionsNeverFall | modules/cloud/src/cloud.c:343-481 | Over any transfer the version stored under any key never goes down, and no key is lost |
| FirmwareVersions.TableOverwritten | modules/firmware/src/firmware.c:54-74 | Ids that spell the table's name put the first chunk over the table |
| FirmwareReception.HandleKeeps | modules/cloud/src/cloud.c:343-481 | One call on the next bytes of a consistent file leaves the handler where that many bytes of the file put it, whatever came before |
| FirmwareReception.AnyDivision | modules/cloud/src/cloud.c:343-481 | However the file is cut into blocks (none ending on the last byte of the header), the transfer completes, the data file is code then footer, and the descriptor is stored under its key, all other records being as before |
| FirmwareReception.QuantityIsChunks | modules/cloud/src/cloud.c:385-388 | The 16-bit quantity is the number of chunks modulo 2^16 |
| FirmwareReception.ChunkLimit | modules/cloud/src/cloud.c:385-443 | A consistent file given in one block is accepted if and only if it has at most 2^16 chunks |
| FirmwareReception.HeaderBoundary | modules/cloud/src/cloud.c:352-406 | A block ending on the last byte of the header is accepted but leaves its size counted as used; if the first chunk is shorter than a header, any further block then runs past it |
| FirmwareTransfer.TransferSucceeds | modules/cloud/src/cloud.c:343-481 | For every division of a consistent file, starting from a zeroed buffer: every block is accepted and the data file is code then footer if and only if no block ends on the last byte of the header and there are at most 2^16 chunks |
| FirmwareTransfer.ImageIsWrong | modules/cloud/src/cloud.c:452-476 | If the footer is looked for in the wrong place and still describes the firmware, the stored image is not code then footer |
| FirmwareTransfer.FeedStrays | modules/cloud/src/cloud.c:407-481 | Once the chunk buffer is shifted by the header, or fewer rounds than chunks are left, no continuation succeeds |
| FirmwarePipeline.UploadIsSound | tools/virgil-firmware-signer/utility/utility.go:182-234 | What the signer writes is a consistent file for the device |
| FirmwarePipeline.ImageIsProgram | modules/firmware/src/firmware.c:567-738 | Code and footer in the data file: the hashed bytes are the signed bytes and the installed image is the program file |
| FirmwarePipeline.UpdateBecomesProgram | modules/firmware/src/firmware.c:666-738 | End to end: for every division of the update file, what is installed on a device of the same manufacturer or type with a lower version is the program file, byte for byte |
| FirmwarePipeline.Deploy | modules/cloud/src/cloud.c:343-481 | The same on the signer, download and storage objects, with the digest of the signed bytes |
| FirmwareVerify.VerifyFirmware | modules/firmware/src/firmware.c:528-639 | Accepts exactly the stored images whose signatures are all good over the hashed bytes and numerous enough |
| FirmwareVerify.GenuineMeans | modules/firmware/src/firmware.c:528-639 | Accepted are exactly the images (with readable slots; only these in any case) whose footer has signatures by trusted keys only, all of signer type 1 and 3 good over the hash of code, fill and footer head, and two of these at different places |
| FirmwareVerify.GenuineHasFooter | modules/firmware/src/firmware.c:528-599 | ... and whose footer has at least 43 bytes, less than 64 KiB, and room behind the code |
| FirmwareVerify.SignedIsGenuine | modules/firmware/src/firmware.c:528-639 | Firmware signed by trusted keys verifies on the device |
| SignatureBlocks.SignaturesRead | tools/virgil-firmware-signer/firmware/firmware.go:94-130 | The device reads back the signature blocks that the signer wrote |
| SignatureBlocks.ProperAccepted | modules/firmware/src/firmware.c:600-639 | Signatures by trusted keys, written one after the other, are accepted |
| KeyRecords.RecordHolds | modules/provision/include/virgil/iot/provision/provision-structs.h:201-213 | Which key a record holds, by its bytes: dates, type, curve, no metadata, key |
| KeyRecords.RecordVouched | modules/provision/src/provision.c:203-246 | A record with a signature behind it is vouched for if and only if the signature is of signer type 0, by a key that one of the two recovery slots holds, and good over all bytes in front of it |
| KeyRecords.VouchedIsRecord | modules/provision/src/provision.c:203-246 | Nothing but such a record is vouched for |
| KeyRecords.TrustedMeans | modules/provision/src/provision.c:143-177 | A key is trusted through the first of the two slots of its type that holds it, as it is if it is a recovery key, else if that record is vouched for |
| KeyChain.SearchMeans | modules/provision/src/provision.c:143-177 | The search accepts only a key held by a slot and, unless a recovery key, vouched for by a recovery key; with readable slots it accepts exactly those |
| KeyChain.VerifyMeans | modules/provision/src/provision.c:181-246 | A record is accepted only if it is not checked at all (at most 12 bytes, or of the recovery type) or carries a good signature over itself by a key in a recovery slot; with readable slots exactly then |
| KeyChain.UncheckedExamples | modules/provision/src/provision.c:193-201 | The empty record, and 13 bytes of the recovery type without a signature, are accepted by every device |
| KeyChain.SearchHlPubkey | modules/provision/src/provision.c:143-177 | The search loop, mutually recursive with the verification; terminates |
| KeyChain.VerifyHlKey | modules/provision/src/provision.c:181-246 | The verification, mutually recursive with the search; terminates |
| KeyChain.CheckIsAll | modules/provision/trust_list/src/tl-private.c:211-251 | The loop over signatures succeeds exactly when all parse and pass, and counts those of listed types |
| KeyChain.AcceptsMeans | modules/provision/trust_list/src/tl-private.c:211-251 | Accepted are only data whose signatures are all with SHA-256 and by trusted keys, those of two given signer types all good over the hash, and two of these at different places; with readable slots, all such data |
| KeyChain.CheckSignatures | modules/provision/trust_list/src/tl-private.c:211-251 | The loop computes that verdict |
| TrustListStore.ValidMeans | modules/provision/trust_list/src/tl-private.c:153-251 | Valid are exactly the lists (with readable slots; only these in any case) of at most 40960 bytes whose signatures are all by trusted keys, those of signer type 1 and 2 all good over the hash of header, keys and type, and two of these at different places |
| TrustListStore.SucceedsMeans | modules/cloud/src/cloud_parse_manifest.c:249-271 | A list may follow the live one exactly if it has its type and a version higher in the first number that differs |
| TrustListStore.HoldsOne | modules/provision/trust_list/src/tl-private.c:153-251 | Header, keys below the count and footer in a storage determine one list: never a mixture |
| TrustListStore.Store.Verify | modules/provision/trust_list/src/tl-private.c:153-251 | On success the storage holds a valid list, which is in the context; without storage failures a refusal means no valid list is there; other contexts untouched |
| TrustListStore.Store.Copy | modules/provision/trust_list/src/tl-private.c:283-321 | On success the target holds the source's list; on any failure the target is out of service |
| TrustListStore.Store.Apply | modules/provision/trust_list/src/tl-private.c:631-645 | Either nothing happened to the target, or the temporary storage holds a valid list and the target is out of service or holds that list; as long as storage calls succeed, a valid list that fits the device is copied |
| TrustListStore.Store.Invalidate | modules/provision/trust_list/src/tl-private.c:588-627 | No keys count for the storage afterwards, other storages and contexts are untouched; a storage in service whose header can be read goes out of service and, unless a call fails or a part is missing, exactly its parts are deleted; one out of service is left alone |
| TrustListStore.Store.KeySave | modules/provision/trust_list/src/tl-private.c:514-543 | Saves the key at the next index, up to the announced amount |
| TrustListStore.Store.HeaderSave | modules/provision/trust_list/src/tl-private.c:385-411 | Puts the storage out of service before anything is written |
| TrustListStore.Store.SavePart | modules/provision/trust_list/src/trust_list.c:96-139 | Whichever storage calls fail: a header, a key, or a footer that does not complete a valid list leaves the live storage as it was; a footer that does either replaces the live list by exactly that list or puts the live storage out of service, the latter, as long as storage calls succeed, only if the list does not fit the device |
| TrustListStore.Store.SendKeys | modules/provision/trust_list/src/trust_list.c:102-133 | Header and keys of an upload: the temporary storage then holds them, the live one is untouched; without storage failures refused only if one of them does not fit |
| TrustListStore.Store.Send | modules/provision/trust_list/src/update_tl_interface.c:136-213 | A whole upload: without storage failures it is taken if and only if the list made up of the parts fits the device and is valid; whatever fails, no other list is taken, and an invalid one leaves the live storage as it was |
| TrustListStore.Store.Init | modules/provision/trust_list/src/tl-private.c:338-364 | Success means that the live storage holds a valid list, the one it held before or that of the backup; without storage failures a valid list in the live storage is accepted as it is, and otherwise a valid backup that fits |
| TrustListStore.Store.Run | modules/provision/trust_list/src/trust_list.c:96-139 | Any run of uploads with arbitrary storage failures, with the states and events in it: the live list is the last one taken or the one before the run, it is valid, and it is in service unless an upload of a valid list was lost after it; a run of rejected uploads leaves it as it was, in service and unchanged |
| TrustListStore.TraceMeans | modules/provision/trust_list/src/trust_list.c:96-139 | The same for every sequence of states in which each step is that of one part |
| TrustListStore.Store.IsNewVersion | modules/cloud/src/cloud_parse_manifest.c:249-271 | Answers yes only for the type of the live list and a newer version, and without storage failures exactly then |
| TrustListStore.Store.Fetch | modules/cloud/src/cloud.c:669-678 | One fetch: without storage failures the list received is taken if and only if it fits the device, is valid, has the type of the live list and is newer; whatever fails, no other list is taken |
| TrustListStore.Store.Fetches | modules/cloud/src/cloud.c:669-678 | Over any run of fetches the versions of the live lists strictly increase |
| TrustListFile.DeclaredSize | tools/virgil-trust-provisioner/virgil_trust_provisioner/data_types/trustlist_type.py:240-262 | The size in the header is the length of the whole file |
| TrustListFile.HeaderLayout | modules/provision/trust_list/include/virgil/iot/trust_list/tl_structs.h:62-67 | Offset and byte order of every field of the header |
| TrustListSplit.KeyLayout | modules/provision/include/virgil/iot/provision/provision-structs.h:201-213 | ... and of a key |
| TrustListFile.HeaderReads | modules/provision/trust_list/src/trust_list.c:178-184 | The device reads back size, version, key count and signature count |
| TrustListFile.Builder.GetBytes | tools/virgil-trust-provisioner/virgil_trust_provisioner/data_types/trustlist_type.py:228-234 | Header, body and footer computed once and cached give the file |
| TrustListSplit.SentIsFile | tools/virgil-device-initializer/common/trust_list.go:69-118 | Every file the Go tool accepts it sends on unchanged: header, chunks and footer concatenate to the file, on a little-endian machine |
| TrustListSplit.ChunkSent | tools/virgil-device-initializer/common/structs.go:71-164 | A chunk is sent as the bytes it was read from if and only if the machine is little-endian or the two dates read the same in both orders |
| TrustListSplit.NewTrustList | tools/virgil-device-initializer/common/trust_list.go:69-118 | The consuming loops parse the file |
| TrustListSplit.PythonFileParses | tools/virgil-device-initializer/common/trust_list.go:69-118 | Every file of the Python tool is accepted, and the parts sent are its header, its keys and its footer |
| TrustListSplit.HashedIsSigned | modules/provision/trust_list/src/tl-private.c:190-209 | The bytes the device hashes are the bytes the Python tool signed |
| TrustListSplit.PartSizes | modules/provision/trust_list/src/tl-private.c:458-583 | Every part has the size the device computes for it |
| TrustListSplit.DeliveredIsValid | modules/provision/trust_list/src/tl-private.c:153-251 | A list signed with keys the device trusts is valid on the device |
| TrustListDelivery.FitsDevice | modules/provision/trust_list/src/tl-private.c:514-543 | The parts that are sent can be stored if and only if file, keys and footer are within the limits of storage (40960 bytes in all) and buffers (512 bytes a part) and the key types are known |
| TrustListDelivery.Deliver | tools/virgil-device-initializer/snap/snap.go:213-282 | From the Python tool through the Go tool to the device, on the programs themselves: without storage failures the list becomes the live one if and only if it fits and is valid, and it does if it fits and trusted keys have signed it; whatever fails, no other list is taken |
| Der.ReadsTlv | modules/crypto/secmodule/src/asn1-cryptogram.c:98-171 | Each reader undoes the encoding of contents up to 65535 octets (lengths of section 8.1.3 of ITU-T X.690) |
| Der.SkipsEntered | modules/crypto/secmodule/src/asn1-cryptogram.c:98-131 | An element whose header can be entered can be skipped, unless it reaches past the end of the input |
| Der.ArrayIsTlv | modules/crypto/secmodule/src/asn1-cryptogram.c:180-214 | Short arrays are written as one element, integers with a sign octet where the top bit is set |
| Der.Writer.PutHeader | modules/crypto/secmodule/src/asn1-cryptogram.c:217-239 | Puts the header in front of what was written, if there is room to spare |
| Der.Writer.PutArray | modules/crypto/secmodule/src/asn1-cryptogram.c:179-214 | Puts the element in front of what was written, if there is room to spare |
| Der.Reader.Enter | modules/crypto/secmodule/src/asn1-cryptogram.c:98-109 | Moves behind the header, or stays |
| Der.Reader.Pass | modules/crypto/secmodule/src/asn1-cryptogram.c:112-131 | Moves behind the element, or stays |
| Der.Reader.Take | modules/crypto/secmodule/src/asn1-cryptogram.c:134-153 | Returns the value and moves behind it, or stays |
| Oids.NistIdentifiers | modules/crypto/secmodule/src/asn1-cryptogram.c:53-95 | The identifiers of SHA-256, SHA-384, AES-256-CBC and AES-256-GCM are the encodings of their numbers |
| Oids.PkcsIdentifiers | modules/crypto/secmodule/src/asn1-cryptogram.c:53-95 | So are those of data and enveloped data |
| Oids.CurveIdentifiers | modules/crypto/secmodule/src/asn1-cryptogram.c:83-95 | So are those of elliptic-curve keys and prime256v1 |
| Oids.MessageHeader | modules/crypto/secmodule/src/asn1-cryptogram.c:217-239 | The first octets of a message, with the length that reaches to the payload |
| Cryptogram.Create | modules/crypto/secmodule/src/asn1-cryptogram.c:551-683 | Writing backwards from the end of the buffer yields exactly the message, if and only if the buffer is longer than it and neither recipient nor payload is empty |
| Cryptogram.SpareBytes | modules/crypto/secmodule/src/asn1-cryptogram.c:551-683 | For recipient ids up to 100 bytes, 496 bytes on top of the payload suffice |
| CryptogramReading.RoundTrip | modules/crypto/secmodule/src/asn1-cryptogram.c:396-547 | For every non-empty payload and every recipient id of 1 to 125 bytes, parsing the message gives back IVs, encrypted key, HMAC, public key and payload, when asked for the recipient or for anyone |
| CryptogramReading.ParseByIdentifiers | modules/crypto/secmodule/src/asn1-cryptogram.c:396-547 | What the reader answers to a message of the writer's form with any identifiers in it: refused, success with at most public key and HMAC set, success with the public key unset, or everything |
| CryptogramReading.UnsetExactly | modules/crypto/secmodule/src/asn1-cryptogram.c:455-501 | Success with an output unset, if and only if the curve and the two hashes are the expected ones and either the key's cipher is another, or the curve inside the key is another and the data's cipher is not |
| CryptogramReading.SilentExample | modules/crypto/secmodule/src/asn1-cryptogram.c:491-501 | Another cipher of the key gives success with public key and HMAC set, and IVs, encrypted key and payload unset |
| CryptogramReading.UnsetExample | modules/crypto/secmodule/src/asn1-cryptogram.c:284-311 | Another curve inside the key gives success with the key unset |
| CryptogramReading.OtherRecipient | modules/crypto/secmodule/src/asn1-cryptogram.c:432-450 | A message for someone else is refused |
| CryptogramGroup.GroupParse | modules/crypto/secmodule/src/asn1-cryptogram.c:432-547 | In a message for any number of recipients each one reads the block addressed to it, wherever it stands, and the data; no id reads the first block |
| CryptogramGroup.GroupRefuses | modules/crypto/secmodule/src/asn1-cryptogram.c:432-455 | Whoever is not addressed is refused |
| CryptogramReading.ScanNeverSilent | modules/crypto/secmodule/src/asn1-cryptogram.c:432-455 | The search for the recipient can only end in the error code, never in the silent success of line 448 |
| Cryptogram.ParseCryptogram | modules/crypto/secmodule/src/asn1-cryptogram.c:395-547 | The forward parser computes the parse function, with its error and silent outcomes |
| SignatureEnvelope.RoundTrip | modules/crypto/secmodule/src/asn1-cryptogram.c:316-392 | Every 64-byte signature survives the envelope and back |
| SignatureEnvelope.Survives | modules/crypto/secmodule/src/asn1-cryptogram.c:365-389 | A pair of integers below 2^256, each in its shortest encoding, comes back right-aligned if and only if neither begins with a zero and is shorter than 32 octets |
| SignatureEnvelope.LengthOctetCopied | modules/crypto/secmodule/src/asn1-cryptogram.c:375-388 | A 31-octet integer with a zero in front is delivered, with success, behind its length octet |
| SignatureEnvelope.ZeroOutOfBounds | modules/crypto/secmodule/src/asn1-cryptogram.c:375-378 | The integer zero makes the conversion read in front of its input |
| SignatureEnvelope.SignatureToVirgil | modules/crypto/secmodule/src/asn1-cryptogram.c:316-341 | Writes the envelope, if and only if the buffer is longer than it |
| SignatureEnvelope.SignatureToTiny | modules/crypto/secmodule/src/asn1-cryptogram.c:345-392 | The octets before the ends of the integers, or the error with zeroed output, or the error for a small buffer |
| Snap.PacketRoundTrip | modules/protocols/snap/src/generated/snap_cvt.c:306-336 | Decoding an encoded packet gives it back, and the frame announces its own length |
| Snap.FrameRoundTrip | modules/protocols/snap/src/generated/snap_cvt.c:306-336 | Every frame is the encoding of its packet |
| Snap.RxIsScan | modules/protocols/snap/src/snap.c:192-275 | One block on top of the bytes kept does what looking at the whole stream does |
| Snap.FeedIsScan | modules/protocols/snap/src/snap.c:192-275 | So does any sequence of blocks, until the first packet is handed up |
| Snap.FirstAdmitted | modules/protocols/snap/src/snap.c:192-275 | In any cut the first packet handed up is the first frame admitted, whatever follows it |
| Snap.NothingEarly | modules/protocols/snap/src/snap.c:192-275 | Before that nothing is handed up, earlier frames leave no byte behind, and the bytes kept are those of the frame under way |
| Snap.LongFrame | modules/protocols/snap/src/snap.c:192-275 | A frame longer than the packet buffer is handed up if one block is the whole of it, and runs past the buffer in every other cut |
| Snap.Netif.RxCb | modules/protocols/snap/src/snap.c:192-275 | The loop over the packet buffer computes the receive function |
| Snap.Netif.Continue | modules/protocols/snap/src/snap.c:226-253 | Completing first the header and then the content takes exactly the bytes missing |
| Snap.ReceiveStream | tools/c-implementation/src/hal/ti_netif_udp_bcast.c:94-113 | The receiving loop, block after block, up to the first packet handed up |
| SnapProtocol.ServeMeans | modules/protocols/snap/src/snap.c:119-160 | The last service asked decides whether and with what content there is an answer; every service asked is counted and marks the flags |
| SnapProtocol.OnlyRequestsAreAnswered | modules/protocols/snap/src/snap.c:104-167 | A node answers a packet at most once, with a response to its sender from itself for the same service and element; a response received is never answered |
| SnapProtocol.OneService | modules/protocols/snap/src/snap.c:119-164 | With one service for the id: acknowledgement with its data, or refusal without content, or silence, decided by the return code |
| SnapProtocol.ResponseArrives | modules/protocols/snap/src/snap.c:162-164 | A response is a valid packet; it arrives unchanged in every cut if and only if its content has at most 992 bytes; a longer one arrives exactly in the cuts with a block that is the whole frame |
| SnapProtocol.LongResponse | modules/protocols/snap/src/snap.c:226-252 | 993 bytes of answer to any request, cut behind the first byte, run past the packet buffer; in one block they arrive |
| SnapProtocol.Station.ProcessPacket | modules/protocols/snap/src/snap.c:104-167 | The loop over the services computes the node's step |
| SnapProtocol.StepKeeps | modules/protocols/snap/src/snap.c:104-167 | No node sends without using up a request that was on its way to it |
| SnapProtocol.GoesQuiet | modules/protocols/snap/src/snap.c:96-167 | Any run of a network, with losses, reordering and any callback answers: at most one packet per node and request, at most requests x nodes in all, each answering an initial request, and the run is finite |
| SnapTransactions.NextTransaction | modules/protocols/snap/src/snap.c:104-167 | Every packet processed, answered or not, takes the next transaction id modulo 2^16 and every service asked counts; an answer carries that id and the Ethernet type |
| SnapTransactions.WireBytes | modules/protocols/snap/src/generated/snap_cvt.c:306-328 | The bytes of the header that carry addresses, type, transaction id, flags and size |
| SnapTransactions.NoTransactionTwice | modules/protocols/snap/src/snap.c:435-440 | In any run of a network of fewer than 2^16 steps no two packets of one node have the same transaction id |
| SnapTransactions.EverySendAddressed | modules/protocols/snap/src/snap.c:94-101 | Over any run every packet sent answers a request that was sent to its sender or to everyone, and not by the sender itself; no node sends to its own address |
| Base64.TableOne | modules/cloud/src/base64.c:139-139 | The alphabet is that of table 1 of RFC 4648 |
| Base64.RoundTrip | modules/cloud/src/base64.c:79-177 | Decoding undoes encoding for every byte string, also with text outside the alphabet behind it |
| Base64.CharsByShifts | modules/cloud/src/base64.c:156-161 | The masks and shifts of the encoder cut the 24-bit group of section 4 of RFC 4648 into four |
| Base64.TripleByShifts | modules/cloud/src/base64.c:114-131 | The shifts of the decoder cut the 24-bit group into three bytes |
| Base64.TablesAgree | modules/cloud/src/base64.c:64-139 | The two tables are inverse |
| Base64.Encode | modules/cloud/src/base64.c:148-177 | Succeeds exactly when base64encode_len fits; then writes text and terminator of exactly that length and nothing else |
| Base64.Decode | modules/cloud/src/base64.c:95-137 | Succeeds exactly when base64decode_len fits; then writes the decoded bytes and the terminator and nothing else, also into the array the text is in |
| Base64.FitsInPlace | modules/cloud/src/cloud.c:115-135 | Decoded bytes and terminator fit over the text they come from |
| Base64.DecodeLength | modules/cloud/src/base64.c:79-93 | The size needed, from the leading characters of the alphabet |
| Utoa.EstimateIsClose | modules/logger/src/utoa_fast_div.c:48-60 | For all 32-bit n the shifts and additions do not wrap and give four fifths of n, less than six short |
| Utoa.QuotientIsClose | modules/logger/src/utoa_fast_div.c:58-67 | The quotient before correction is short by at most one: the remainder is under 20 |
| Utoa.Divmodu10 | modules/logger/src/utoa_fast_div.c:47-69 | Quotient and remainder by ten for every 32-bit number |
| Utoa.DecimalDenotes | modules/logger/src/utoa_fast_div.c:72-83 | The digits denote the number, without leading zeros |
| Utoa.DecimalIsUnique | modules/logger/src/utoa_fast_div.c:72-83 | No other string of digits without leading zeros does |
| Utoa.UtoaFastDiv | modules/logger/src/utoa_fast_div.c:72-83 | Writes exactly those digits and the terminator, inside 11 bytes |

## Left out

General:

- Widths of C `int` and `unsigned` for lengths and positions of texts and buffers, which are taken as unbounded.
- Characters of a text stand for its bytes.
- HTTP and MQTT transport, threads, sockets, timers, credentials, menus, code generation.
- Elliptic-curve operations and hashes of key records, which are function-valued parameters; foreign cryptographic libraries.

JSON:

- Accessors for integers and floats, and the array half of the generator.
- JsonEndToEnd.RoundTrip: texts without white space between tokens, which `JsonSteps.PunctuationStep` says is skipped.
- JsonParser.JsonObject.Init: requires that a text without tokens is not parsed over an array whose first token happens to be a container; see Findings.
- JsonParser.JsonObject.ParseStart: requires a text other than those without tokens; see Findings.
- JsonGenerator.JsonStr.SetObjectValue: integer and float values.

Firmware:

- FirmwareStore: storage calls succeed except for the size limit; sudden failures of single calls are modelled for trust lists only.
- FirmwareStore.Storage.DeleteFirmware: requires an empty table or one with the key, because the source's loop does not stop otherwise.
- FirmwareReception.AnyDivision: one direction of `FirmwareTransfer.TransferSucceeds`; requires a division without a block that ends on the last byte of the header, at most 2^16 chunks, and a data file id other than that of the descriptor table.
- FirmwareTransfer.TransferSucceeds: the same data file id; consistent files only, of a version newer than the stored one, with room in the storage.
- FirmwareReception.ChunkLimit: for a file in one block; for every division see `FirmwareTransfer.TransferSucceeds`.
- FirmwareReception.HeaderBoundary: what such a block leaves behind; what becomes of the transfer is in `FirmwareTransfer.TransferSucceeds`.
- FirmwareDownload.Downloader.Store: requires inputs for which the handler stays inside its buffers; on values the others end in the outcome Fault.
- FirmwareDownload.Downloader.Receive: the same.
- FirmwareStore.Storage.HashImage: requires a stored footer of at least 43 bytes, because the source hashes that many from its buffer.
- FirmwareStore.Storage.Install: failures of single storage calls and of the install space.
- FirmwareVersions.VersionsNeverFall: the data file id other than that of the descriptor table; see Findings.
- FirmwareVerify.VerifyFirmware: a verdict instead of the codes for each refusal, and footers of at least 43 bytes.
- FirmwareStore.Storage.LoadFooter: the size of the caller's local buffer is not modelled.
- FirmwarePipeline.UpdateBecomesProgram: requires, with the other firmware theorems, that no data file is left without a stored descriptor.
- Cleaning up after a failed download, which the caller of the handler does.
- Sending the bytes to be signed to the signer in base64.

Trust lists:

- Block division of trust-list downloads; TrustListStore.Store.Fetch and TrustListStore.Store.Send receive whole parts.
- TrustListStore.Store.Run: requires a live storage that is out of service or holds a valid list, as initialisation leaves it when it succeeds; about the files of a storage out of service nothing is promised.
- Slots of the security module that change while a verification runs, records with metadata, and enumeration of keys.
- KeyChain.SearchHlPubkey: requires complete records without metadata in the slots.
- KeyChain.VerifyHlKey: the same.
- TrustListStore.Store.FooterLoad: refuses a footer over 512 bytes, where the source reads into a local buffer of that size before it checks.
- TrustListFile: signer keys on curves other than SECP256R1, and numbers too big for their field, for which the Python tool raises an error.

DER and cryptograms:

- Reads past the end of the input, which count as failure in the model.
- Cryptogram.ParseCryptogram: one error outcome for all error codes; theorems about messages of the writer's form, for one or several recipients, only; and without the size of the public key's element, which bounds two of the steps inside it.
- SignatureEnvelope.SignatureToTiny: requires an input for which the source stays inside input and output; on values the others end in the outcome OutOfBounds.
- Cryptogram.Create: recipient ids of more than 125 bytes.
- CryptogramGroup.GroupParse: recipient ids of which one begins with the other, where the reader takes the first that fits.
- Der.ReadsTlv: two-octet lengths below 128 are accepted as in the source, which BER allows and DER does not.

SNAP:

- What follows the first packet handed up: the packet buffer is not cleared after a delivery from it, and the rest of the block is dropped.
- Snap.Rx: a copy past the packet buffer, or a size that does not fit 16 bits, ends in the outcome Fault.
- Callbacks that send packets themselves, response callbacks, periodical processing, and statistics of sent packets.

Codecs:

- Base64.Encode: input lengths below zero.
- SHA-256: the bitwise or of disjoint fields in the length words is written as a sum.
