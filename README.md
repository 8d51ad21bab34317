# Touch-controller firmware loader, plist reader, syscfg tools and HCD pack scanner

This project models the core of the Corellium "projectsandcastle" user-space
tools and proves properties about that model in Dafny.

- **`hx-touchd`** is the daemon that boots the multi-touch controller.
  - It picks a firmware description, either from its arguments or from a
    firmware-list file.
  - It builds the firmware *item list* from that description (`mtfw.c`).
  - It streams the items to the controller over SPI "Z2" transactions through
    the `/dev/hx-touch` driver (`bootload`).
  - It then reads the controller's status report `D9`, retrying up to three
    times, hands the screen metrics to the driver and announces readiness.
- **`mtfw.c`** turns a personality's entry of an XML property list into that
  item list.
  - A first-generation entry is a fixed opening, calibration loads and one
    blob.
  - A second-generation entry is a handshake, an array of blobs, then the
    calibration and boot sequences of an embedded configuration plist.
  - Calibration values come from the device's syscfg store. Register writes
    and calibration loads are framed with byte swaps and additive checksums.
- **`eplist.c`** reads XML property lists.
  - It covers types, root, siblings, dictionary lookup, arrays, ID/IDREF
    references, strings, integers (`strtoull`), booleans and base64 data.
  - It keeps its ID table in **`qdict.c`**, an AVL tree ordered by `strcmp`.
- **`syscfg.c`** looks a four-character item up in the syscfg store.
  - The store holds byte-reversed names, and inline or "jumbo" values.
  - **`syscfg/main.c`** is a command-line tool that prints such an item as a
    string, a zero-terminated string, an unsigned number or hex.
- **`hcdpack.c`** (`autohcd`) scans a Broadcom Bluetooth HCD pack for images.
  - An image starts with a `BRCMcfgS` header record and is named by a
    `BRCMcfgD` record.
  - The tool lists the images, or it writes the one that matches the chip,
    revision, module and vendor.

State that the C code updates in place is modelled in the same way:

- the dictionary: the class `QDict.Dict`.
- the item list: the class `MtfwFrame.ItemList`.
- the frame buffers: `array`s written by methods.
- the driver: the class `HxTouchd.Device`, which records every call in a trace.

Pure computations are modelled as functions. Each method is proved against a
specification function, and the lemmas state what those functions promise.

Files:

- `wrappers.dfy`: the optional value.
- `bytes.dfy`: C integer widths and byte-order codecs.
- `cstr.dfy`: `strcmp`, `strtoull` and `%llu`.
- `qdict.dfy`: qdict.
- `base64.dfy`, `base64_encode.dfy`: the base64 decoder and a reference encoder.
- `eplist.dfy`: eplist.
- `syscfg.dfy`: syscfg.
- `syscfg_tool.dfy`: the syscfg tool.
- `mtfw_frame.dfy`: frames and the item list.
- `mtfw.dfy`: `mtfw_request_cal` and `mtfw_load_firmware`.
- `hxtouchd.dfy`: Z2 transactions, reports and `bootload`.
- `hxdaemon.dfy`: `main` of hx-touchd.
- `hcdpack.dfy`: autohcd.

## Model

| member | source | states |
|---|---|---|
| QDict.Delta | hx-touchd/mtfw/qdict.c:33-41 | With correct cached depths below, the delta is the right subtree's height minus the left's. |
| QDict.Update | hx-touchd/mtfw/qdict.c:43-50 | Only the node's depth changes, and it becomes correct once the children's depths are. |
| QDict.Pivot | hx-touchd/mtfw/qdict.c:52-82 | A rotation keeps the in-order sequence and the key set, and leaves correct depths. |
| QDict.PivotOrdered | hx-touchd/mtfw/qdict.c:52-82 | A rotation keeps the `strcmp` search order. |
| QDict.PivotContents | hx-touchd/mtfw/qdict.c:52-82 | A rotation keeps every key with its payload. |
| QDict.PivotShape | hx-touchd/mtfw/qdict.c:52-82 | The exact tree a right or left rotation builds, with the old root's depth refreshed before the pivot's. |
| QDict.Balance | hx-touchd/mtfw/qdict.c:91-106 | A node whose delta is within ±1 is left as it is. |
| QDict.BalanceRestores | hx-touchd/mtfw/qdict.c:84-113 | Rebalancing a node whose AVL subtrees differ by at most two gives an AVL tree. The entries and in-order sequence are unchanged, and the height drops by at most one. |
| QDict.LeftSingle | hx-touchd/mtfw/qdict.c:96-99 | Left-heavy by two with a left child that does not lean right: the single right rotation restores AVL with the same entries. |
| QDict.LeftDouble | hx-touchd/mtfw/qdict.c:96-99 | Left-heavy by two with a right-leaning left child: the double rotation restores AVL with the same entries. |
| QDict.RightSingle | hx-touchd/mtfw/qdict.c:100-103 | The mirror case of `LeftSingle`. |
| QDict.RightDouble | hx-touchd/mtfw/qdict.c:100-103 | The mirror case of `LeftDouble`. |
| QDict.Insert | hx-touchd/mtfw/qdict.c:139-150 | Inserting an absent key into an AVL tree gives an AVL tree. It holds the old entries plus the new key with a zero payload, and its height grows by at most one. |
| QDict.InsertLeftStep | hx-touchd/mtfw/qdict.c:88-112 | One level of the upward pass after the left subtree absorbed the key: the delta is within ±2. Rebalancing gives an AVL tree with the new entry, at most one level taller. |
| QDict.InsertRightStep | hx-touchd/mtfw/qdict.c:88-112 | The same, when the key went to the right. |
| QDict.Assign | hx-touchd/mtfw/qdict.c:126 | Writing through a returned payload pointer changes neither the keys nor the height. |
| QDict.AssignAvl | hx-touchd/mtfw/qdict.c:126 | A payload write keeps the tree AVL. |
| QDict.AssignContents | hx-touchd/mtfw/qdict.c:126 | A payload write changes the entry of that key and no other. |
| QDict.Lookup | hx-touchd/mtfw/qdict.c:121-134 | The `strcmp` descent reaches the payload stored under a present key. |
| QDict.InOrderKeys | hx-touchd/mtfw/qdict.c:153-160 | The recursive iteration visits exactly the keys of the tree. |
| QDict.InOrderAscending | hx-touchd/mtfw/qdict.c:153-160 | It visits them in strictly ascending `strcmp` order. |
| QDict.InOrderValues | hx-touchd/mtfw/qdict.c:153-160 | Each visit hands the callback the payload stored under the visited key. |
| QDict.Dict.constructor | hx-touchd/mtfw/qdict.c:24-31 | A new dictionary is empty and remembers the zero payload. |
| QDict.Dict.Find | hx-touchd/mtfw/qdict.c:115-151 | A present key gives its payload under FIND and NULL otherwise, changing nothing. An absent key is added with a zero payload under ADD (returning it), else NULL with nothing changed. The tree stays AVL. |
| QDict.Dict.Store | hx-touchd/mtfw/eplist.c:51-53 | Storing through a returned pointer updates that entry only. |
| QDict.Dict.Get | hx-touchd/mtfw/eplist.c:60-62 | Reading through a returned pointer gives the entry's payload. |
| QDict.Dict.Iter | hx-touchd/mtfw/qdict.c:162-167 | Every entry is visited exactly once, in strictly ascending key order, with its own payload. |
| CStr.LessIrreflexive | hx-touchd/mtfw/qdict.c:122 | No string is `strcmp`-below itself. |
| CStr.LessAsymmetric | hx-touchd/mtfw/qdict.c:122 | `strcmp` order is asymmetric. |
| CStr.LessTotal | hx-touchd/mtfw/qdict.c:122 | Two strings are equal or ordered one way: `strcmp` is a total order, so the tree search is well defined. |
| CStr.LessTransitive | hx-touchd/mtfw/qdict.c:122 | `strcmp` order is transitive. |
| CStr.DigitRun | hx-touchd/mtfw/eplist.c:208 | The digit run `strtoull` reads is the longest prefix of digits of the base. |
| CStr.SkipSpace | hx-touchd/mtfw/eplist.c:208 | Leading white space is skipped, and nothing else is. |
| CStr.AutoBase | hx-touchd/mtfw/eplist.c:208 | Base 0 picks 8, 10 or 16. |
| CStr.Strtoull | hx-touchd/mtfw/eplist.c:208 | The result fits in 64 bits. |
| CStr.Decimal | syscfg/main.c:59 | `%llu` prints decimal digits with no leading zero. |
| CStr.StrtoullDecimal | syscfg/main.c:59 | `strtoull` reads back every number `%llu` prints. |
| Bytes.Trunc16 | hx-touchd/hx-touchd.c:169-173 | Truncation to `uint16_t` lies in [0, 2^16). |
| Bytes.Trunc32 | hx-touchd/mtfw/mtfw.c:67-75 | Truncation to `uint32_t` lies in [0, 2^32). |
| Bytes.Le16 | hx-touchd/hx-touchd.c:169-173 | `put16le` writes two bytes. |
| Bytes.GetLe16 | hx-touchd/hx-touchd.c:164-167 | `get16le` gives a 16-bit value. |
| Bytes.Le16RoundTrip | hx-touchd/hx-touchd.c:164-173 | `get16le` of what `put16le` wrote is the value's low 16 bits. |
| Bytes.Be16 | hx-touchd/mtfw/mtfw.c:53-57 | `put16be` writes two bytes. |
| Bytes.Le32 | hx-touchd/mtfw/mtfw.c:168 | The SET_TYPE payload is the 4-byte little-endian `int`. |
| Bytes.GetLe32 | hx-touchd/mtfw/syscfg.c:86-91 | A header or record field is a 32-bit value. |
| EPlist.TypeCode | hx-touchd/mtfw/eplist.c:84-99 | Each type code is given for exactly its element name (`true` and `false` both give BOOL); anything else gives 0. |
| EPlist.TypeOf | hx-touchd/mtfw/eplist.c:78-100 | The type is non-zero exactly for an element with a known name. |
| EPlist.Scan | hx-touchd/mtfw/eplist.c:119-126 | The sibling walk stops only at a later node that matches. |
| EPlist.ScanFirst | hx-touchd/mtfw/eplist.c:115-128 | The sibling walk yields the first matching node of the list, or NULL. |
| EPlist.Root | hx-touchd/mtfw/eplist.c:102-113 | The root is the first node in walk order that has a type; NULL when none has one. |
| EPlist.Next | hx-touchd/mtfw/eplist.c:115-128 | The next node is a later sibling that is an element not named `key`. |
| EPlist.NextIsFirstValue | hx-touchd/mtfw/eplist.c:115-128 | It is the first such sibling. |
| EPlist.ArrayFirst | hx-touchd/mtfw/eplist.c:163-178 | Anything but an array gives NULL; an array gives one of its element children. |
| EPlist.ArrayFirstIsFirstElement | hx-touchd/mtfw/eplist.c:163-178 | An array gives its first element child, or NULL when it has none. |
| EPlist.DictFind | hx-touchd/mtfw/eplist.c:130-161 | Anything but a dict gives NULL. A result is a value element after the dict and has the expected type when one is asked for. |
| EPlist.DictScan | hx-touchd/mtfw/eplist.c:137-160 | The key/value loop returns only a later value element of the expected type. |
| EPlist.DictFindPairs | hx-touchd/mtfw/eplist.c:130-161 | On a dict of key/value pairs, lookup finds the first key that matches. A value of the wrong type gives NULL without looking further. |
| EPlist.Deref | hx-touchd/mtfw/eplist.c:180-189 | A node with a resolved IDREF stands for its target, any other node for itself; NULL stays NULL. |
| EPlist.GetString | hx-touchd/mtfw/eplist.c:191-197 | A string element gives its text, or the referenced node's text; any other node gives NULL. |
| EPlist.Signed64 | hx-touchd/mtfw/eplist.c:208 | The `unsigned long long` to `long long` conversion is the two's-complement value congruent modulo 2^64. |
| EPlist.GetInteger | hx-touchd/mtfw/eplist.c:199-209 | Anything but an integer element with text gives -1; otherwise the result is `strtoull` of the text, as a `long long`. |
| EPlist.GetIntegerDecimal | hx-touchd/mtfw/eplist.c:199-209 | An integer element holding the decimal digits of a non-negative `long long` reads back as that number. |
| EPlist.GetBool | hx-touchd/mtfw/eplist.c:211-224 | `false` gives 0, `true` gives 1, anything else -1 (both directions). |
| EPlist.GetData | hx-touchd/mtfw/eplist.c:244-290 | NULL for a non-data node or a node without text. Otherwise NULL exactly when the text is malformed base64, else the decoded bytes, a trailing 0 and their count. |
| EPlist.DeclsFirst | hx-touchd/mtfw/eplist.c:48-55 | The ID table binds each declared ID to the first node that declares it, and holds every declared ID. |
| EPlist.Loaded | hx-touchd/mtfw/eplist.c:15-67 | The loaded plist keeps the parsed document, and each node's user data is its resolved IDREF. |
| EPlist.Load | hx-touchd/mtfw/eplist.c:15-67 | Loading fails exactly for an unknown source type or a failed parse; otherwise the result is `Loaded` of the document. |
| EPlist.DeclareAll | hx-touchd/mtfw/eplist.c:48-55 | The first walk fills a fresh dictionary with exactly the IDs and their first declaring nodes. |
| EPlist.Declare | hx-touchd/mtfw/eplist.c:49-54 | One node's ID is added only when it is not declared yet: QDICT_ADD leaves an existing entry alone. |
| EPlist.ResolveAll | hx-touchd/mtfw/eplist.c:57-64 | The second walk gives every node its resolved IDREF. |
| EPlist.Resolve | hx-touchd/mtfw/eplist.c:58-63 | One node's IDREF resolves through the table with QDICT_FIND, and the table is unchanged. |
| EPlist.ResolvedFirst | hx-touchd/mtfw/eplist.c:48-64 | A reference whose ID is declared anywhere, before or after it, resolves to the first declaring node. |
| EPlist.UnresolvedReadsOwnText | hx-touchd/mtfw/eplist.c:180-189 | A reference to an undeclared ID leaves the node to stand for itself, so accessors read its own text. |
| Base64.Data | hx-touchd/mtfw/eplist.c:256-265 | The alphabet characters' values in order; every other character is skipped. |
| Base64.Unpack | hx-touchd/mtfw/eplist.c:268-285 | `6n/8` whole bytes are produced from `n` digits. |
| Base64.TableAgrees | hx-touchd/mtfw/eplist.c:226-242 | The 256-entry table gives each character its alphabet value, 0x40 for `=`, 0xff otherwise. |
| Base64.TableInvertsAlphabet | hx-touchd/mtfw/eplist.c:226-242 | Each of the 64 alphabet characters decodes to its own position. |
| Base64.CountText | hx-touchd/mtfw/eplist.c:256-267 | The validation pass fails exactly when an alphabet character follows padding; otherwise it counts data and padding characters. |
| Base64.Feed | hx-touchd/mtfw/eplist.c:275-283 | One digit enters the 32-bit shift buffer, and a whole byte is written once 8 bits are pending; the decoding state is kept. |
| Base64.UnpackText | hx-touchd/mtfw/eplist.c:272-285 | The decoding pass writes exactly `Unpack` of the data characters. |
| Base64.DecodeText | hx-touchd/mtfw/eplist.c:256-289 | NULL exactly when decoding fails; otherwise a fresh buffer holding the decoded bytes and a 0 terminator. |
| Base64Encode.EncodeLength | hx-touchd/mtfw/eplist.c:266-268 | The reference encoding has four characters per started group of three bytes. |
| Base64Encode.EncodeCounts | hx-touchd/mtfw/eplist.c:266-267 | An encoding's data and padding characters fill whole quanta, so the decoder's `(nc + np) & 3` check accepts it. |
| Base64Encode.NoPadBeforeData | hx-touchd/mtfw/eplist.c:258-260 | In an encoding no alphabet character follows padding. |
| Base64Encode.DecodeEncode | hx-touchd/mtfw/eplist.c:244-290 | The decoder inverts the RFC 4648 encoding on every byte string. |
| Base64Encode.SkipInvalid | hx-touchd/mtfw/eplist.c:257-264 | A character outside the alphabet and `=` does not change the decoded result. |
| MtfwFrame.ItemList.constructor | hx-touchd/mtfw/mtfw.c:127 | A new list is empty. |
| MtfwFrame.ItemList.Add | hx-touchd/mtfw/mtfw.c:29-51 | The item is appended at the tail. |
| MtfwFrame.Xe32 | hx-touchd/mtfw/mtfw.c:59-65 | The 32xe field has four bytes. |
| MtfwFrame.Xe32RoundTrip | hx-touchd/mtfw/mtfw.c:59-65 | Reading a 32xe field back gives the low 32 bits of what was put. |
| MtfwFrame.Be16RoundTrip | hx-touchd/mtfw/mtfw.c:53-57 | Reading a big-endian field back gives the low 16 bits of what was put. |
| MtfwFrame.Put16be | hx-touchd/mtfw/mtfw.c:53-57 | The two bytes at `off` become the big-endian field; nothing else changes. |
| MtfwFrame.Put32xe | hx-touchd/mtfw/mtfw.c:59-65 | The four bytes at `off` become the 32xe field; nothing else changes. |
| MtfwFrame.Sum32 | hx-touchd/mtfw/mtfw.c:67-75 | The `uint32_t` accumulator ends with the byte sum modulo 2^32. |
| MtfwFrame.Swapped | hx-touchd/mtfw/mtfw.c:88-93 | Byte `i` lands at `i ^ 1`, and any position no byte lands on keeps its old value. |
| MtfwFrame.Copy16be | hx-touchd/mtfw/mtfw.c:88-93 | The destination region becomes `Swapped` of its old contents; the rest of the array is unchanged. |
| MtfwFrame.RegWrFields | hx-touchd/mtfw/mtfw.c:77-86 | A register-write frame is 16 bytes: opcode 1E33, address, mask and value in 32xe order, and the 16-bit sum of bytes 2-13. |
| MtfwFrame.AddRegWr | hx-touchd/mtfw/mtfw.c:77-86 | One WRITE_ACK item carrying that frame is appended. |
| MtfwFrame.Round4 | hx-touchd/mtfw/mtfw.c:97 | `(len + 3) & -4` is the least multiple of 4 at or above `len`. |
| MtfwFrame.CalLoadBodyFields | hx-touchd/mtfw/mtfw.c:110 | The body holds payload byte `i` at `i ^ 1` and zeros everywhere else. |
| MtfwFrame.CalLoadFields | hx-touchd/mtfw/mtfw.c:95-114 | A calibration-load frame holds the opcode, the word count, the address and the header sum. Then come the swapped payload, zero padding to a multiple of 4 and the payload's 32-bit sum. |
| MtfwFrame.AddCalLoad | hx-touchd/mtfw/mtfw.c:95-114 | One WRITE_ACK item carrying that frame is appended. |
| MtfwFrame.WriteCalHead | hx-touchd/mtfw/mtfw.c:106-109 | The first 12 bytes become the header and its checksum; the rest is unchanged. |
| MtfwFrame.WriteCalPayload | hx-touchd/mtfw/mtfw.c:110 | In a zero-filled buffer, the payload area becomes the swapped, zero-padded body. |
| MtfwFrame.PayloadPlaced | hx-touchd/mtfw/mtfw.c:97-110 | Copying into a zero-filled frame leaves the header alone and yields the body. |
| MtfwFrame.WriteCalBody | hx-touchd/mtfw/mtfw.c:110-111 | From byte 12 on: the body, then the payload's 32xe sum. |
| Mtfw.TagFrom | hx-touchd/mtfw/mtfw.c:119-121 | The tag is that of the first table entry whose provider matches, and absent exactly when none matches. |
| Mtfw.KnownProviders | hx-touchd/mtfw/mtfw.c:18-27 | Each of the five providers maps to its own syscfg tag. |
| Mtfw.CalibrationFits | hx-touchd/mtfw/syscfg.c:110-116 | A calibration value lies inside the store, so its length plus 3 fits in `unsigned`. |
| Mtfw.RequestCal | hx-touchd/mtfw/mtfw.c:116-123 | NULL exactly when the provider is unknown or the store has no such value; otherwise a fresh copy of it and its length. |
| Mtfw.Join | hx-touchd/mtfw/mtfw.c:346-349 | A build succeeds only when both parts do; an empty part is neutral. |
| Mtfw.BlobsDefined | hx-touchd/mtfw/mtfw.c:225-241 | The blob array fails exactly when a visited element is not data or does not decode. |
| Mtfw.BlobsPerElement | hx-touchd/mtfw/mtfw.c:225-241 | A successful blob array gives one WRITE_ACK per element, with its decoded bytes, in order. |
| Mtfw.BlobsAck | hx-touchd/mtfw/mtfw.c:236 | Every blob item is a WRITE_ACK. |
| Mtfw.CalItemsAck | hx-touchd/mtfw/mtfw.c:271-296 | Every calibration-sequence item is a WRITE_ACK. |
| Mtfw.BootItemsAck | hx-touchd/mtfw/mtfw.c:304-333 | Every boot-sequence item is a WRITE_ACK. |
| Mtfw.ConfigShape | hx-touchd/mtfw/mtfw.c:263-336 | The configuration plist's items are WRITE_ACKs followed by a single WAIT_IRQ. |
| Mtfw.Gen2Shape | hx-touchd/mtfw/mtfw.c:221-338 | The second generation is the handshake write, WRITE_ACKs (blobs, calibration loads, boot steps) and a final WAIT_IRQ. |
| Mtfw.Gen1Shape | hx-touchd/mtfw/mtfw.c:172-219 | The first generation is the fixed opening, the optional PxCl load, the MtCl load, the blob and the fixed closing. It fails exactly when MtCl is missing or the blob does not decode. |
| Mtfw.Selection | hx-touchd/mtfw/mtfw.c:157-169 | An array "Constructed Firmware" selects generation 2 and a data one generation 1; with neither the load fails. The first item is SET_TYPE with the generation. |
| Mtfw.BootStepActions | hx-touchd/mtfw/mtfw.c:310-325 | "RequestCalibration" gives `1F 01` and any other action fails; without an action, an entry without an address fails. |
| Mtfw.MissingMaskAllOnes | hx-touchd/mtfw/mtfw.c:326-330 | A missing Mask or Value reads as -1, so the register write carries all ones there. |
| Mtfw.AddBlobs | hx-touchd/mtfw/mtfw.c:225-241 | The loop succeeds exactly when the blob specification does, and then appends exactly its items. |
| Mtfw.AddCalStep | hx-touchd/mtfw/mtfw.c:273-295 | One calibration entry: success as the specification says, appending its load. |
| Mtfw.AddCals | hx-touchd/mtfw/mtfw.c:271-296 | The calibration loop appends exactly the specified items, failing exactly when the specification does. |
| Mtfw.AddBootStep | hx-touchd/mtfw/mtfw.c:306-331 | One boot entry: success as the specification says, appending its item. |
| Mtfw.AddBoots | hx-touchd/mtfw/mtfw.c:304-333 | The boot loop appends exactly the specified items, failing exactly when the specification does. |
| Mtfw.AddConfig | hx-touchd/mtfw/mtfw.c:263-336 | The configuration plist's part appends exactly the specified items, failing exactly when the specification does. |
| Mtfw.AddBootTail | hx-touchd/mtfw/mtfw.c:298-336 | The boot sequence and the WAIT_IRQ, as specified. |
| Mtfw.AddConfigTail | hx-touchd/mtfw/mtfw.c:243-336 | The configuration blob is decoded, loaded as a plist and its items appended, as specified. |
| Mtfw.AddGen2 | hx-touchd/mtfw/mtfw.c:221-338 | The second generation's items, as specified. |
| Mtfw.AddGen1 | hx-touchd/mtfw/mtfw.c:172-219 | The first generation's items, as specified. |
| Mtfw.AddGen1Head | hx-touchd/mtfw/mtfw.c:174-183 | The fixed opening writes, then the PxCl load when the store has it. |
| Mtfw.AddMtCal | hx-touchd/mtfw/mtfw.c:185-191 | The MtCl load; it fails exactly when the store has no MtCl. |
| Mtfw.AddBlobTail | hx-touchd/mtfw/mtfw.c:193-217 | The decoded blob, then the closing items. |
| Mtfw.AddGen1Tail | hx-touchd/mtfw/mtfw.c:203-217 | The five register writes, `1F 01` and the closing write. |
| Mtfw.AddFirmware | hx-touchd/mtfw/mtfw.c:150-339 | The generation selection, SET_TYPE and the generation's items, as specified. |
| Mtfw.LoadFirmware | hx-touchd/mtfw/mtfw.c:125-350 | The result is the specified item list, or NULL when any step fails (what was built is discarded). |
| SysCfg.Read | hx-touchd/mtfw/syscfg.c:58-71 | The buffer is a prefix of the file. Its length is the reported size truncated to `unsigned` (DEFAULT_SIZE when zero), capped by what the file holds. |
| SysCfg.StoredName | hx-touchd/mtfw/syscfg.c:98-108 | `flip4` undoes the store's byte reversal: every name of up to four characters is found under its own spelling. |
| SysCfg.Flip4 | hx-touchd/mtfw/syscfg.c:36-41 | The first four bytes become the input reversed; the rest is kept. |
| SysCfg.NameMatches | hx-touchd/mtfw/syscfg.c:100-109 | A record matches exactly when its flipped name equals the item's. |
| SysCfg.FindKey | hx-touchd/mtfw/syscfg.c:99-119 | The record loop stops at the first record with the item's name, or after the last. |
| SysCfg.Get | hx-touchd/mtfw/syscfg.c:43-136 | An item is absent exactly when the header checks pass and no record has its name. With the exact bound nothing reads past the buffer. |
| SysCfg.ExactWithinDeclared | hx-touchd/mtfw/syscfg.c:103-117 | A found value is the first matching record's 16 inline bytes, or the jumbo slice, inside the declared size. |
| SysCfg.JumboExact | hx-touchd/mtfw/syscfg.c:108-116 | A jumbo value is refused unless its slice lies inside the declared size. |
| SysCfg.BoundsAgree | hx-touchd/mtfw/syscfg.c:110 | The 32-bit check and the exact one agree, except where `offset + size` wraps. There the 32-bit check lets a record through that reads past the buffer. |
| SysCfg.WrappedBoundOverrun | hx-touchd/mtfw/syscfg.c:110 | A 44-byte store whose jumbo record has offset 16 and size 0xFFFFFFF8 passes the wrapped check, but the exact check refuses it. |
| SysCfg.CopyOut | hx-touchd/mtfw/syscfg.c:121-129 | A fresh copy of the value's bytes. |
| SysCfg.FetchKey | hx-touchd/mtfw/syscfg.c:103-130 | The matched record's value is copied with its length, or NULL when the jumbo check refuses it. |
| SysCfg.SyscfgGet | hx-touchd/mtfw/syscfg.c:43-136 | NULL without touching `*plen` for a missing file or a failed check. NULL with length 0 for an absent item. Otherwise a fresh copy of the value and its length. |
| SysCfgTool.ParseFormat | syscfg/main.c:37-49 | The type is a character above '9' (else 's'), and a separator is never a digit. The length is read by `strtoul`. |
| SysCfgTool.FormatRoundTrip | syscfg/main.c:37-49 | A format spelled from a type, an optional separator and a length parses back to those three. |
| SysCfgTool.SpelledParts | syscfg/main.c:37-49 | A tail that starts with a digit is read as the length, whatever follows the digits. |
| SysCfgTool.Hex2RoundTrip | syscfg/main.c:75 | The two `%02x` digits of a byte read back as the byte. |
| SysCfgTool.FormatFor | syscfg/main.c:37-52 | Without a format argument the format is `s` with the item's length. With one, the parsed type and separator are kept, and a zero length becomes the item's length. |
| SysCfgTool.DefaultPrintsItem | syscfg/main.c:31-68 | With no format argument a present item is printed whole, byte for byte, with status 0. |
| SysCfgTool.RenderRaw | syscfg/main.c:63-68 | Format `s` prints exactly `explen` positions, with 0 past the item's end. |
| SysCfgTool.RenderZero | syscfg/main.c:69-73 | Format `z` prints up to the first zero position within `explen`, and stops there with status 0. |
| SysCfgTool.RenderHex | syscfg/main.c:74-78 | Format `x` prints every position in hex, with the separator only between positions. |
| SysCfgTool.RenderUnknown | syscfg/main.c:79-81 | An unknown type fails with status 1 exactly when there is a position to print. |
| SysCfgTool.Render | syscfg/main.c:63-83 | The output loop prints what the render specification says. |
| SysCfgTool.UnsignedRoundTrip | syscfg/main.c:54-60 | Format `u` prints a number that reads back as the little-endian value of the item's first eight bytes. |
| SysCfgTool.Dump | syscfg/main.c:12-86 | A wrong argument count exits 1 with no output; otherwise the tool does what the `Dumped` specification says. |
| HcdPack.ProcessCfgd | hcdpack/hcdpack.c:20-32 | A record whose `size` bytes hold the length byte at 10 and that many name bytes after it sets the name to those bytes. Any other record keeps the old name. |
| HcdPack.CfgdRoundTrip | hcdpack/hcdpack.c:20-32 | A well-formed name record yields its name. |
| HcdPack.CName | hcdpack/hcdpack.c:75 | The C string held in the name buffer ends at its first zero byte. |
| HcdPack.Walk | hcdpack/hcdpack.c:39-53 | An image's walk ends inside the buffer. |
| HcdPack.WalkProgress | hcdpack/hcdpack.c:39-50 | An image consumes at least its header record. |
| HcdPack.WalkStops | hcdpack/hcdpack.c:44-47 | An unknown opcode or a later image header ends the image before that record. |
| HcdPack.WalkNext | hcdpack/hcdpack.c:48-52 | A WRITE_RAM or LAUNCH_RAM record is consumed, and a name record in it renames the image. The walk goes on after a WRITE_RAM and ends after a LAUNCH_RAM. |
| HcdPack.WalkLaunch | hcdpack/hcdpack.c:50-52 | A LAUNCH_RAM record ends the image just after itself. |
| HcdPack.WalkName | hcdpack/hcdpack.c:48-49 | An image's name is the initial one or the contents of a name record inside its walked bytes. |
| HcdPack.ProcessImage | hcdpack/hcdpack.c:34-56 | The record loop returns the walk's end and name. |
| HcdPack.Advance | hcdpack/hcdpack.c:39-53 | One loop pass either ends the walk or moves strictly forward without changing its outcome. |
| HcdPack.FoundLaid | hcdpack/hcdpack.c:58-80 | The images found lie in the buffer in order, without overlap, each the walk from its header. |
| HcdPack.FoundSkip | hcdpack/hcdpack.c:64-67 | A position without a header is passed over. |
| HcdPack.FoundHead | hcdpack/hcdpack.c:68-78 | At a header the image there comes first, and the scan resumes at its end. |
| HcdPack.WalkImage | hcdpack/hcdpack.c:68-69 | The image recorded at a header starts there, spans at least 3 bytes and lies in the buffer. |
| HcdPack.Table | hcdpack/hcdpack.c:72-77 | The table holds at most MAX_IMAGES images, laid in the buffer and walked from their headers. |
| HcdPack.KeepStep | hcdpack/hcdpack.c:72-77 | A found image is kept exactly while there is room. |
| HcdPack.CollectImages | hcdpack/hcdpack.c:58-80 | The table is the first MAX_IMAGES images found. When listing, every image found is printed, including those past the table's capacity. |
| HcdPack.CollectAt | hcdpack/hcdpack.c:63-79 | One scan step moves forward and keeps the collection invariant. |
| HcdPack.Span | hcdpack/hcdpack.c:95-97 | `strchr(s, '_')` or the end: the first `_`, with none before it. |
| HcdPack.Clip | hcdpack/hcdpack.c:100-102 | At most `max` leading characters, the whole value when it fits. |
| HcdPack.GetTag | hcdpack/hcdpack.c:82-109 | A tag never exceeds `outlen - 1` characters. |
| HcdPack.TagSkipsSeparator | hcdpack/hcdpack.c:89-92 | A `_` before a field is skipped: the tag is that of the rest. |
| HcdPack.TagMalformedField | hcdpack/hcdpack.c:93-94 | A field whose second character is not `-` ends the search with an empty tag, whatever follows. |
| HcdPack.TagTruncatedField | hcdpack/hcdpack.c:93-94 | A lone letter at the end (its second character is the terminator) also gives an empty tag. |
| HcdPack.ReadTag | hcdpack/hcdpack.c:88-108 | The field loop computes `GetTag`. |
| HcdPack.TagsRoundTrip | hcdpack/hcdpack.c:82-109 | Reading a tag from written-out `X-value` fields gives the first matching value, clipped to `outlen - 1`, or "" when none matches. |
| HcdPack.Vendor | hcdpack/hcdpack.c:144-150 | The vendor tag's first letter, in either case, selects MUR, USI or TDK (both directions); anything else gives UNK. |
| HcdPack.Capitalized | hcdpack/hcdpack.c:142-143 | Only the first letter of the module name is upper-cased. |
| HcdPack.Choose | hcdpack/hcdpack.c:154-159 | The index of the first image whose name starts with the chip string and contains the module string; no earlier image matches. |
| HcdPack.SelectImage | hcdpack/hcdpack.c:154-159 | The selection loop finds that index. |
| HcdPack.ChooseFirst | hcdpack/hcdpack.c:154-159 | An index before which nothing matches, and at which something does, is the first match. |
| HcdPack.Written | hcdpack/hcdpack.c:151-171 | Status 0 exactly when an image is written, which happens exactly when the output opens and some table image matches. What is written is the first match's bytes. |
| HcdPack.Install | hcdpack/hcdpack.c:140-173 | The selecting form computes the specified outcome. |
| HcdPack.AutoHcdMain | hcdpack/hcdpack.c:111-176 | `main` computes the specified outcome: usage error, listing, or the selected image. |
| HcdPack.ShortPackOverreads | hcdpack/hcdpack.c:63 | Below 15 bytes the wrapped test admits out-of-bounds positions; from 15 bytes on it is the in-bounds test. |
| HcdPack.CfgdRead | hcdpack/hcdpack.c:20-32 | Where the size is within the record, the as-written read agrees with `ProcessCfgd`. |
| HcdPack.WalkAsWrittenAgrees | hcdpack/hcdpack.c:39-53 | When every name record has at least 12 payload bytes, the as-written walk equals the model's walk. |
| HcdPack.ShortCfgdNamed | hcdpack/hcdpack.c:48-49 | On `SHORT_NAMED` the as-written walk names the image "abc" from bytes past the name record, and the model leaves the name empty. |
| HcdPack.ShortCfgdOverreads | hcdpack/hcdpack.c:48-49 | On `SHORT_CFGD` the as-written walk reads past the end of the image. |
| HcdPack.ShortCfgdWalk | hcdpack/hcdpack.c:48-49 | The model skips a name record with fewer than 12 payload bytes. |
| HxTouchd.ExecMeaning | hx-touchd/hx-touchd.c:189-210 | A call sequence succeeds exactly when every call does, and then makes them all. |
| HxTouchd.ExecFailure | hx-touchd/hx-touchd.c:189-210 | A failed sequence makes exactly the calls up to and including the first failure. |
| HxTouchd.ExecAppend | hx-touchd/hx-touchd.c:105-158 | Running `a + b` is running `a`, then `b` only if `a` succeeded. |
| HxTouchd.Device.constructor | hx-touchd/hx-touchd.c:366 | A freshly opened device has made no calls. |
| HxTouchd.Device.Call | hx-touchd/hx-touchd.c:189-207 | One call is appended to the trace; it succeeds as the link says, and a read returns the bytes delivered. |
| HxTouchd.Transact | hx-touchd/hx-touchd.c:189-210 | The calls are made up to the first failure, and the final read's bytes are returned. |
| HxTouchd.Put16le | hx-touchd/hx-touchd.c:169-173 | Only the two bytes change, and `get16le` reads the value's low 16 bits back. |
| HxTouchd.Framed | hx-touchd/hx-touchd.c:185-187 | A frame is 16 bytes that keep the first 14 command bytes. |
| HxTouchd.FrameChecksum | hx-touchd/hx-touchd.c:185-187 | A frame's last two bytes are the sum of its first 14, modulo 2^16. |
| HxTouchd.NullFrame | hx-touchd/hx-touchd.c:177-181 | A missing command sends sixteen zero bytes. |
| HxTouchd.Checksum | hx-touchd/hx-touchd.c:185-186 | The checksum loop computes the sum of the first 14 command bytes. |
| HxTouchd.SendZ2 | hx-touchd/hx-touchd.c:175-211 | The checksum is stored in the command, and the four calls are made up to the first failure. Status 0 exactly when all succeed; then the response holds the 16 bytes read. |
| HxTouchd.Z2Done | hx-touchd/hx-touchd.c:189-210 | A successful Z2 transaction made its four calls and reached its read. |
| HxTouchd.SendWake | hx-touchd/hx-touchd.c:213-217 | One Z2 transaction of the wake command. |
| HxTouchd.WriteFrames | hx-touchd/hx-touchd.c:279-288 | The first frame carries the opcode, report id, length and payload. The terminator agrees with it on bytes 3-13 and carries `E1 00 00` in bytes 0-2. |
| HxTouchd.WriteReport | hx-touchd/hx-touchd.c:279-288 | The report's transaction, then the terminator's when the first succeeded; status 0 exactly when both succeed. |
| HxTouchd.ReadReport | hx-touchd/hx-touchd.c:219-277 | The calls, status and reported length are those of `Report`, and the buffer holds the delivered bytes at most up to its capacity. |
| HxTouchd.Fetched | hx-touchd/hx-touchd.c:241 | The body delivered has the clamped length. |
| HxTouchd.ShortFetch | hx-touchd/hx-touchd.c:233-243 | A body of up to 11 bytes comes back in a Z2 response, from byte 3 on. |
| HxTouchd.LongFetch | hx-touchd/hx-touchd.c:244-276 | A longer body is clocked out with `rlen + 5` filler bytes and read from byte 3 on. |
| HxTouchd.ChunksCover | hx-touchd/hx-touchd.c:114-127 | The chunks cover the payload exactly and in order. Each holds 1 to 16384 bytes and is answered by a read of the same size. |
| HxTouchd.ItemsSent | hx-touchd/hx-touchd.c:105-158 | The bytes written are the WRITE and WRITE_ACK payloads in order, with `1A A1` after each WRITE_ACK; WAIT_IRQ and SET_TYPE items write nothing. |
| HxTouchd.ItemFailed | hx-touchd/hx-touchd.c:105-158 | An item that fails ends the bootload there. |
| HxTouchd.ItemPassed | hx-touchd/hx-touchd.c:105-158 | An item that succeeds extends the successful run. |
| HxTouchd.SendItems | hx-touchd/hx-touchd.c:105-158 | The item loop makes the items' calls up to the first failure. |
| HxTouchd.Bootload | hx-touchd/hx-touchd.c:47-162 | The reset, handshake and item calls are made up to the first failure. A failed boot-IRQ wait is ignored. Status 0 exactly when the run succeeds. |
| HxDaemon.LineEnd | hx-touchd/hx-touchd.c:340 | `fgets` reads up to and including the first line feed, at most 255 characters. |
| HxDaemon.LinesCover | hx-touchd/hx-touchd.c:340 | The chunks `fgets` returns cover the list exactly and in order. |
| HxDaemon.LinesSized | hx-touchd/hx-touchd.c:340 | Each chunk holds 1 to 255 characters. |
| HxDaemon.Before | hx-touchd/hx-touchd.c:341 | `strpbrk`: the first position holding one of the characters, with none before it. |
| HxDaemon.ParseLine | hx-touchd/hx-touchd.c:341-350 | A line gives no entry exactly when there is no blank before its cut. Otherwise the personality has no blank or stop character, and the path has no stop character and does not start with a blank. |
| HxDaemon.ParseLineRoundTrip | hx-touchd/hx-touchd.c:341-350 | A line written as personality, blanks, path and comment parses back to that personality and path. |
| HxDaemon.ParseEntry | hx-touchd/hx-touchd.c:341-350 | The in-place cut, split and blank-skipping loop compute `ParseLine`. |
| HxDaemon.SkipBlanks | hx-touchd/hx-touchd.c:349-350 | The loop stops at the first character that is not a blank. |
| HxDaemon.FirstBuiltMeaning | hx-touchd/hx-touchd.c:340-357 | The list yields the firmware of the first chunk that builds one. It yields none exactly when no chunk builds one. |
| HxDaemon.ChooseFromList | hx-touchd/hx-touchd.c:335-359 | The firmware-list loop keeps the firmware of the first entry whose file exists and builds. |
| HxDaemon.Signed16 | hx-touchd/hx-touchd.c:389-392 | The `(short)` cast gives the 16-bit two's-complement value. |
| HxDaemon.Signed16RoundTrip | hx-touchd/hx-touchd.c:389-392 | A signed 16-bit value stored little-endian reads back unchanged. |
| HxDaemon.MetricsRoundTrip | hx-touchd/hx-touchd.c:389-392 | A report holding each field at its offset (left 8, bottom 10, right 12, top 14) gives those metrics back. |
| HxDaemon.ReportFits | hx-touchd/hx-touchd.c:377-378 | A report read into a 16-byte buffer delivers at most 16 bytes. |
| HxDaemon.AttemptsOpens | hx-touchd/hx-touchd.c:365-387 | The device is opened at most `retries + 1` times. |
| HxDaemon.StartUpOpens | hx-touchd/hx-touchd.c:317 | With three retries the controller is bootloaded at most four times. |
| HxDaemon.BootFatal | hx-touchd/hx-touchd.c:372-373 | A bootload failure ends `main` at once with status 1. |
| HxDaemon.OnePass | hx-touchd/hx-touchd.c:366-378 | Open, bootload, wake and status read, as the pass specification says. |
| HxDaemon.Decide | hx-touchd/hx-touchd.c:378-397 | After a pass: give up, close and retry while retries are left, or finish. |
| HxDaemon.Attempt | hx-touchd/hx-touchd.c:365-387 | One pass from the `retry` label: either a retry that leaves the same overall outcome, or the final outcome. |
| HxDaemon.Finish | hx-touchd/hx-touchd.c:389-397 | The metrics ioctl with the decoded rectangle, the write of report `AF` and the READY ioctl. |
| HxDaemon.StartUp | hx-touchd/hx-touchd.c:365-397 | The retry loop makes exactly the specified calls and ends with the specified status. |
| HxDaemon.Daemon | hx-touchd/hx-touchd.c:311-405 | Without a firmware `main` exits 1 having made no driver call. Otherwise it runs the start-up with three retries. |

## Left out

- Memory allocation failures (`malloc`, `calloc`, `strdup`) are not modelled; every allocation succeeds. So are file-open and read failures beyond "the file is absent", and every message written to standard error by `fprintf` or `perror`.
- `usleep` and `sleep`, and all timing, are not modelled; the 500 ms IRQ wait appears only as the ioctl's argument.
- The XML parse (`mxmlLoadFile`, `mxmlLoadString`) is outside the model. A parsed document is given as an arena of nodes in `mxmlWalkNext` (pre-order) order. The firmware file arrives already parsed (`fwDoc`), and the embedded configuration is parsed by the parameter `parse`, assumed only to produce linked documents.
- `stat` is the predicate `present`; which paths hold which plists is the function `files`.
- The driver is an oracle (`HxTouchd.Link`): which calls fail and what reads return are inputs.
- Find: the tree is a value (`Tree`). The `parent` and `up` pointers, and rotation by relinking nodes in place, are not modelled; rebalancing is the value-level `Insert`.
- Balance: the give-up branch for a delta beyond ±2 (qdict.c:93-94) is not modelled; `BalanceRestores` shows that insertion never reaches it.
- `qdict_str` (qdict.c:169-173) has no member: a payload pointer `Payload(key)` carries its key.
- `qdict_free` and `eplist_free` only release memory and are not modelled.
- Native-endian loads such as `*(uint16_t *)&buf[offs]` (hcdpack.c:40) and the syscfg header fields are read as little-endian, the byte order of the target.
- DictScan: a `key` element without text is a non-match. The C code passes its NULL text to `strcmp` (eplist.c:146-150), which is undefined behaviour.
- SyscfgGet: the operation, and the calibration lookup built on it, check the jumbo bound exactly (`offset + size` without 32-bit wrap-around). The code as written is `SysCfg.Get` with `Wrapping` (see Findings).
- Found: packs shorter than 15 bytes yield no image. The code as written wraps `size - 15` and scans past the end (see Findings).
- Walk: a name record with fewer than 12 payload bytes is skipped. The code as written hands `process_cfgd` a wrapped size (see Findings).
- LoadFirmware: requires `Fits(store)`, a syscfg store smaller than 2^32 - 3 bytes, so that a calibration value's length plus 3 fits in `unsigned` and the word count of its load does not wrap.
- AddFirmware: requires `Fits(store)`, as `LoadFirmware` does.
- AddGen1: requires `Fits(store)`, as `LoadFirmware` does.
- AddGen1Head: requires `Fits(store)`, as `LoadFirmware` does.
- AddMtCal: requires `Fits(store)`, as `LoadFirmware` does.
- AddGen2: requires `Fits(store)`, as `LoadFirmware` does.
- AddConfigTail: requires `Fits(store)`, as `LoadFirmware` does.
- AddConfig: requires `Fits(store)`, as `LoadFirmware` does.
- AddCals: requires `Fits(store)`, as `LoadFirmware` does.
- AddCalStep: requires `Fits(store)`, as `LoadFirmware` does.
- CalibrationFits: requires `Fits(store)`, as `LoadFirmware` does.
- ChooseFromList: requires `Fits(store)`, since it builds firmware through `LoadFirmware`.
- Daemon: requires `Fits(store)`, as `LoadFirmware` does.
- WriteReport: requires a payload of at most 13 bytes, the room a 16-byte command leaves; the only caller writes one byte.
- WriteFrames: requires a payload of at most 13 bytes, the room a 16-byte command leaves; the only caller writes one byte.
- WriteCmd: requires a payload of at most 13 bytes, the room a 16-byte command leaves; the only caller writes one byte.
- NewWriteCmd: requires a payload of at most 13 bytes, the room a 16-byte command leaves; the only caller writes one byte.
- AutoHcdMain: requires the module argument to be shorter than 32 characters, since `strcpy` copies it into `mod[32]`; a longer one overflows the buffer.
- Install: requires the same of the module argument.
- Strtoull: the sign and the base are read as `strtoull` does; `errno` and the end pointer are not modelled.
- `dump_report` (hx-touchd.c:290-309) is compiled out (`#if 0`) and is not modelled.
- The endless `sleep(60)` loop at the end of `main` (hx-touchd.c:399-400) is represented by status 0.
- `eplist_get_data` is modelled with its text-validation and decoding passes. Its `psize` parameter is always given.

## Findings

| source | as written | input that shows it | evidently intended | confidence | as-written member | corrected member |
|---|---|---|---|---|---|---|
| hx-touchd/mtfw/syscfg.c:110 | `jumbo.offset + jumbo.size > hdr->size` is evaluated in 32-bit `uint32_t`, so the sum wraps | a 44-byte store whose jumbo record "MtCl" has offset 16 and size 0xFFFFFFF8: the sum wraps to 8, the check passes and `memcpy` copies 0xFFFFFFF8 bytes | the value's slice must lie inside the declared size | not executed | SysCfg.WrappedBoundOverrun | SysCfg.ExactWithinDeclared |
| hcdpack/hcdpack.c:63 | `offs <= size - 15` in `size_t`, which wraps for a pack shorter than 15 bytes | a 14-byte pack: `size - 15` is 2^64 - 1, and the loop reads `buf[offs + 7..offs + 15]` past the end | scan only positions where a 15-byte header fits | not executed | HcdPack.ShortPackOverreads | HcdPack.FoundLaid |
| hcdpack/hcdpack.c:48-49 | `process_cfgd(&buf[offs+15], itsz - 12, name)` for any BRCMcfgD record, though `itsz - 12` wraps when the record has fewer than 12 payload bytes | `SHORT_NAMED` (44 bytes) gives the name "abc", read from bytes past the name record. `SHORT_CFGD` (30 bytes) reads past the end of the image | only a record large enough for its name header is read | not executed | HcdPack.ShortCfgdNamed | HcdPack.WalkName |
