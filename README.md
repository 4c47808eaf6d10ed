# Subscriber (SIM) handling of the layer 2/3 mobile station

This project models the SIM side of the mobile station's subscriber.
The mobile station keeps a subscriber record. A card is inserted through
one of three backends: a card behind the L1 reader, a card reached over
SAP, or the configured test SIM. The record is then filled by reading a
fixed table of twelve elementary files plus a terminator entry, one SIM
job at a time. Each file's answer goes to a per-file decoder:

- ICCID, IMSI, LOCI, LOCIGPRS, MSISDN, SMSP, Kc, PLMNsel, HPPLMN, SPN,
  ACC and FPLMN.

An error answer is handled in one of three ways:

- a PIN prompt;
- skipping an optional file;
- giving up on the card.

Once the terminator is reached, the registered PLMN is taken from a valid
LAI and the "SIM attached" signal is sent.

Besides reading, the subscriber:

- keeps the list of forbidden PLMNs ("PLMN not allowed") and writes its
  last four entries back to EF FPLMN;
- writes LOCI, LOCIGPRS and Kc back to the card;
- selects the PIN job for a PIN mode;
- dispatches authentication to a dummy response, the test SIM's local
  computation, or the card's RUN GSM ALGORITHM;
- routes SAP responses.

The FreeRTOS byte-order helpers `htons`, `ntohs`, `htonl` and `ntohl`
that these decoders and encoders use are modelled as well.

Module layout:

- `byte_order.dfy` (`ByteOrder`): the four swap functions on `bv16`/`bv32`,
  and how a 16/32-bit field is laid out in little-endian host memory.
- `gsm_codec.dfy` (`GsmCodec`): the external codecs the subscriber calls
  (`osmo_plmn_to_bcd`, `osmo_plmn_from_bcd`, `gsm48_decode_lai2`,
  `gsm48_generate_lai2`, `gsm48_parse_ra`, `gsm48_encode_ra`,
  `osmo_imsi_str_valid`, `gsm_match_mnc`), each with the contract the
  subscriber code relies on.
- `bcd.dfy` (`Bcd`): `sim_decode_bcd` and its static result buffer.
- `plmn_lists.dfy` (`PlmnLists`): the forbidden-PLMN list as a sequence,
  the EF FPLMN image, and the triplet decoding of EF PLMNsel / EF FPLMN.
- `sim_files.dfy` (`SimFiles`): the file table, and per file the decoder
  (and, for LOCI, LOCIGPRS and Kc, the encoder) on byte sequences.
- `subscriber_spec.dfy` (`SubscriberSpec`): the subscriber record as a
  value, one step function per entry point of the subscriber, and the
  properties of those steps.
- `subscriber.dfy` (`Subscriber`): class `Subscriber`, whose fields are the
  record's fields. It also holds the static BCD buffer as an `array<char>`
  and four outboxes: submitted SIM jobs, dispatched signals, user notices
  and SAP calls. Each method mirrors one C function and is proved to
  change the fields exactly as the matching step function says. Each entry
  point also requires and preserves `Valid()`: the BCD buffer ends in a NUL
  and the file cursor is within the table. The cipher key is the 8-byte
  type `SimFiles.Key`.

Host memory is taken to be little-endian, so a field read from a card
record is a little-endian load followed by `ntohl`/`ntohs`. The record
layouts are those of GSM 11.11:

| record | size |
|---|---|
| EF LOCI | 11 bytes |
| EF LOCIGPRS | 14 bytes, with a 16-bit and an 8-bit signature field |
| ADN trailer | 14 bytes |
| SMSP trailer | 28 bytes |
| EF Kc | 9 bytes |

The headers that declare these structures are not part of this model.

Each decoder receives its payload followed by the rest of the message
buffer, at least 16 more bytes. This way the decoders' reads past the
payload are part of the model rather than undefined.

Two behaviours of the code are worth noting; the model follows the code
in both:

- A decode failure on a mandatory file only notifies the user. It sends
  no "detached" signal and does not advance (`subscriber.c:1193-1202`).
- Deleting a forbidden PLMN answers `-EINVAL` even when an entry was
  deleted (`subscriber.c:387`).

The one place where the model does not follow the code is the decoding of
EF PLMNsel and EF FPLMN. The code calls the PLMN encoder where it means to
decode (see "## Findings"). `PlmnLists.TripletsAsWritten` models the code
as written, and the record is filled with the corrected decoder
`PlmnLists.Triplets`. The members this concerns are listed under
"## Left out".

## Model

| member | source | states |
|---|---|---|
| ByteOrder.Htons | src/compat/freertos/netinet/in.h:42-44 | the result's low byte is the argument's high byte and its high byte the argument's low byte |
| ByteOrder.Ntohs | src/compat/freertos/netinet/in.h:46-48 | the same byte swap as htons |
| ByteOrder.Htonl | src/compat/freertos/netinet/in.h:50-55 | byte k of the result is byte 3-k of the argument, for all four bytes |
| ByteOrder.Ntohl | src/compat/freertos/netinet/in.h:57-62 | the same byte reversal as htonl |
| ByteOrder.HtonsInvolutive | src/compat/freertos/netinet/in.h:42-44 | htons(htons(x)) == x for every 16-bit x |
| ByteOrder.NtohsIsHtons | src/compat/freertos/netinet/in.h:42-48 | ntohs(x) == htons(x) for every 16-bit x |
| ByteOrder.HtonlInvolutive | src/compat/freertos/netinet/in.h:50-55 | htonl(htonl(x)) == x for every 32-bit x |
| ByteOrder.NtohlIsHtonl | src/compat/freertos/netinet/in.h:50-62 | ntohl(x) == htonl(x) for every 32-bit x |
| ByteOrder.NtohsOfLoadIsBE | src/host/layer23/src/common/subscriber.c:986-1002 | ntohs of two bytes loaded from host memory is their big-endian value |
| ByteOrder.NtohlOfLoadIsBE | src/host/layer23/src/common/subscriber.c:773 | ntohl of four bytes loaded from host memory is their big-endian value |
| ByteOrder.StoreHtonlIsNetworkOrder | src/host/layer23/src/common/subscriber.c:1344 | storing htonl(x) puts the bytes of x into memory most significant first |
| ByteOrder.StoreLoadRoundTrip | src/host/layer23/src/common/subscriber.c:1344 | storing htonl(x) and reading it back with ntohl gives x |
| GsmCodec.PlmnToBcd | src/host/layer23/src/common/subscriber.c:1311 | the encoding of a PLMN is three bytes and never the FF FF FF filler |
| GsmCodec.PlmnFromBcd | src/host/layer23/src/common/subscriber.c:1030 | the MCC's digits are the low nibble of byte 0, the high nibble of byte 0 and the low nibble of byte 1; the MNC has three digits exactly when the high nibble of byte 1 is not F |
| GsmCodec.PlmnRoundTrip | src/host/layer23/src/common/subscriber.c:1311 | decoding the encoding of a valid PLMN gives the PLMN back |
| GsmCodec.DecodeLai | src/host/layer23/src/common/subscriber.c:776 | the PLMN is the decoded first three bytes and the LAC is bytes 3 and 4 in network order |
| GsmCodec.GenerateLai | src/host/layer23/src/common/subscriber.c:1347 | five bytes, starting with the PLMN's encoding |
| GsmCodec.LaiRoundTrip | src/host/layer23/src/common/subscriber.c:1347 | decoding a generated LAI gives it back |
| GsmCodec.ParseRa | src/host/layer23/src/common/subscriber.c:813 | PLMN from bytes 0-2, LAC from bytes 3-4 in network order, RAC is byte 5 |
| GsmCodec.EncodeRa | src/host/layer23/src/common/subscriber.c:1396 | six bytes: the PLMN's encoding, the LAC, the RAC last |
| GsmCodec.RaRoundTrip | src/host/layer23/src/common/subscriber.c:1396 | parsing an encoded RAI gives it back |
| Bcd.Nibble | src/host/layer23/src/common/subscriber.c:85-104 | every nibble value is below 16 |
| Bcd.NibbleChar | src/host/layer23/src/common/subscriber.c:85-104 | the stored character is '0' plus the nibble value |
| Bcd.DecodeBcd | src/host/layer23/src/common/subscriber.c:85-104 | the decoded string has at most 31 characters |
| Bcd.ScanCons | src/host/layer23/src/common/subscriber.c:85-104 | a nibble other than F, before the end, gives its character followed by the rest of the scan |
| Bcd.ScanLength | src/host/layer23/src/common/subscriber.c:85-104 | a scan from nibble i ends by nibble 2*length and by digit 31, and is empty past either bound |
| Bcd.ScanDigits | src/host/layer23/src/common/subscriber.c:85-104 | each scanned position holds the character of its nibble, and that nibble is not F |
| Bcd.ScanStop | src/host/layer23/src/common/subscriber.c:85-104 | a scan that ends before both bounds ends at an F nibble |
| Bcd.DecodeBcdShape | src/host/layer23/src/common/subscriber.c:85-104 | digit k is the character of nibble k (low nibble first); there are at most 31 and at most 2*length digits; an early stop is at an F nibble |
| Bcd.DecodeBcdSpec | src/host/layer23/src/common/subscriber.c:85-104 | digit k minus '0' is the low nibble of byte k/2 for even k and the high nibble for odd k |
| Bcd.DecodeBcdHasNoNul | src/host/layer23/src/common/subscriber.c:85-104 | every decoded character lies from '0' to '0'+14, so the result holds no NUL |
| Bcd.DecodeBcdExample | src/host/layer23/src/common/subscriber.c:85-104 | bytes 21 43 F5 with length 3 decode to "12345" |
| Bcd.BcdWrite | src/host/layer23/src/common/subscriber.c:85-104 | the static buffer after a decode holds the digits, then a NUL, then its older content, and still ends in a NUL |
| Bcd.WrittenBuffer | src/host/layer23/src/common/subscriber.c:85-104 | a buffer holding the digits, a NUL and otherwise the old bytes is exactly the buffer after the decode |
| Bcd.CString | src/host/layer23/src/common/subscriber.c:755 | the C string starting at a buffer position contains no NUL |
| Bcd.CStringOfWrite | src/host/layer23/src/common/subscriber.c:755 | after a decode of s, the C string at position i <= \|s\| is s[i..] |
| Bcd.CStringOfDecode | src/host/layer23/src/common/subscriber.c:85-104 | after a decode, the C string at the start of the buffer is exactly the decoded digits |
| Bcd.CStringOfTail | src/host/layer23/src/common/subscriber.c:755 | two buffers that agree from position i on have the same C string at i |
| Bcd.CStringAfterDecode | src/host/layer23/src/common/subscriber.c:755 | after decoding at least one digit, the string at result + 1 is the digits without the first |
| Bcd.CStringAfterEmptyDecode | src/host/layer23/src/common/subscriber.c:755 | after an empty decode, the string at result + 1 is what the earlier decode left there |
| Bcd.Strlcpy | src/host/layer23/src/common/subscriber.c:755 | the copy is a prefix of the source of at most size-1 characters, the whole source when it fits |
| PlmnLists.StoredCause | src/host/layer23/src/common/subscriber.c:404 | the stored cause is never 0, and it is the given cause when that is not 0 |
| PlmnLists.CountZero | src/host/layer23/src/common/subscriber.c:418-428 | a PLMN has count zero exactly when the list has no entry for it |
| PlmnLists.RemoveFirstAbsent | src/host/layer23/src/common/subscriber.c:365-388 | deleting a PLMN that is not listed leaves the list unchanged |
| PlmnLists.RemoveFirstAt | src/host/layer23/src/common/subscriber.c:370-380 | deleting removes exactly the first matching entry and keeps the order of all others |
| PlmnLists.RemoveFirstCount | src/host/layer23/src/common/subscriber.c:370-380 | deleting lowers the count of that PLMN by one when it is present and leaves every other PLMN's count alone |
| PlmnLists.RemoveFirstLength | src/host/layer23/src/common/subscriber.c:370-380 | the list shrinks by one exactly when the PLMN was present |
| PlmnLists.AddSpec | src/host/layer23/src/common/subscriber.c:391-415 | after adding, the new entry with the stored cause is at the tail, the PLMN is listed exactly once, other counts are unchanged, and the length grows only if the PLMN was new |
| PlmnLists.NoDuplicatesCount | src/host/layer23/src/common/subscriber.c:391-415 | in a list without duplicates every PLMN has count at most one |
| PlmnLists.CountNoDuplicates | src/host/layer23/src/common/subscriber.c:391-415 | a list in which every PLMN has count at most one has no duplicates |
| PlmnLists.AddKeepsNoDuplicates | src/host/layer23/src/common/subscriber.c:391-415 | adding keeps the list free of duplicates and makes it contain the added PLMN |
| PlmnLists.Window | src/host/layer23/src/common/subscriber.c:1285-1296 | the at most four last entries of the list, the whole list when it has four or fewer |
| PlmnLists.FplmnImage | src/host/layer23/src/common/subscriber.c:1305-1318 | the FPLMN image is 12 bytes |
| PlmnLists.Triplets | src/host/layer23/src/common/subscriber.c:1021-1038 | a list file of length bytes yields at most length/3 PLMNs |
| PlmnLists.TripletsStep | src/host/layer23/src/common/subscriber.c:1021-1038 | a triplet that is not FF FF FF is decoded and the loop goes on three bytes further |
| PlmnLists.TripletsCount | src/host/layer23/src/common/subscriber.c:1021-1038 | the decoded list has one entry per loop pass, up to the filler or the end |
| PlmnLists.TripletsAsWrittenLosesPlmn | src/host/layer23/src/common/subscriber.c:1030 | a file holding 62 F2 10 yields the PLMN 000-00 as written, 262-01 as intended |
| PlmnLists.TripletsAsWrittenAllZero | src/host/layer23/src/common/subscriber.c:933 | as written, the list has as many entries as the corrected decoder finds, all the PLMN 000-00 |
| PlmnLists.TripletsPrefix | src/host/layer23/src/common/subscriber.c:1021-1038 | the decoders read nothing beyond the length they are given |
| PlmnLists.TripletsOfFiller | src/host/layer23/src/common/subscriber.c:1313-1317 | unused FF FF FF slots read back as the end of the list |
| PlmnLists.TripletsCons | src/host/layer23/src/common/subscriber.c:1021-1038 | an encoded PLMN in front of the rest of the image is read first, followed by what the rest yields |
| PlmnLists.TripletsOfImage | src/host/layer23/src/common/subscriber.c:1309-1318 | the encoded entries followed by filler slots read back as the entries' PLMNs |
| PlmnLists.TripletsOfImageStep | src/host/layer23/src/common/subscriber.c:1309-1318 | the first entry of the image reads back as the first PLMN, in front of the rest |
| PlmnLists.FplmnImageRoundTrip | src/host/layer23/src/common/subscriber.c:1272-1322 | reading back the 12-byte image gives exactly the PLMNs of the last four entries, in order |
| PlmnLists.FplmnUpdateData | src/host/layer23/src/common/subscriber.c:1285-1318 | both loops together produce exactly the FPLMN image of the list |
| PlmnLists.TailSlots | src/host/layer23/src/common/subscriber.c:1285-1296 | the sliding nas[4] loop leaves the last four entries in order in the slots, NULL after them |
| PlmnLists.WindowFill | src/host/layer23/src/common/subscriber.c:1287-1288 | with fewer than four entries so far, the next entry fills the next free slot |
| PlmnLists.WindowShift | src/host/layer23/src/common/subscriber.c:1289-1294 | with four entries so far, the slots shift left and the new entry goes last |
| SimFiles.FileTableShape | src/host/layer23/src/common/subscriber.c:1042-1063 | 13 entries; only the last lacks a decoder and a job; exactly the first four are mandatory; no path contains 0 |
| SimFiles.FileEntryAt | src/host/layer23/src/common/subscriber.c:1042-1063 | entry i lacks a decoder exactly when it is the terminator, and is mandatory exactly when i < 4 |
| SimFiles.FileTableFiles | src/host/layer23/src/common/subscriber.c:1042-1063 | entry 1 reads EF IMSI (6F07), entry 9 EF FPLMN (6F7B), entries 4 to 11 are optional with a decoder |
| SimFiles.SizeMinusOne | src/host/layer23/src/common/subscriber.c:749 | strlen - 1 on size_t: n - 1 for n > 0 and SIZE_MAX for 0 |
| SimFiles.ImsiLengthRejectedSpec | src/host/layer23/src/common/subscriber.c:749 | the length check refuses exactly 1 to 6 and 17 or more digits, so 0 digits pass |
| SimFiles.DecodeImsi | src/host/layer23/src/common/subscriber.c:732-760 | the static buffer still ends in a NUL after the IMSI decoder |
| SimFiles.ImsiOf | src/host/layer23/src/common/subscriber.c:748-755 | the static buffer is the buffer after decoding the digits, whatever the check decides |
| SimFiles.ImsiOfDigits | src/host/layer23/src/common/subscriber.c:748-755 | for digits without NUL, the IMSI is accepted exactly for 0 or 7 to 16 digits, and for 7 to 16 it is the digits after the first |
| SimFiles.DecodeImsiDigits | src/host/layer23/src/common/subscriber.c:732-760 | the IMSI is accepted exactly when the card's digits number 0 or 7 to 16, and is then the digits without the parity digit |
| SimFiles.DecodeImsiEmptyKeepsStaleBuffer | src/host/layer23/src/common/subscriber.c:749-755 | an empty digit string passes the check by the size_t wrap, and the IMSI becomes what an earlier decode left at result + 1 |
| SimFiles.DecodeImsiRejectsLengthByte | src/host/layer23/src/common/subscriber.c:736-744 | an empty payload, or a length byte below the payload length minus one, answers -EINVAL with the buffer untouched |
| SimFiles.UStateOfStatus | src/host/layer23/src/common/subscriber.c:779-789 | only the low three bits count; U1 exactly for status "updated", U3 exactly for PLMN or LA not allowed, never U0 |
| SimFiles.StatusOfUState | src/host/layer23/src/common/subscriber.c:1353-1362 | the status byte written is at most 3 |
| SimFiles.UStateStatusRoundTrip | src/host/layer23/src/common/subscriber.c:1353-1362 | writing then reading a U state keeps U1, U2 and U3, and U0 reads back as U2 |
| SimFiles.DecodeLoci | src/host/layer23/src/common/subscriber.c:762-795 | fails with -EINVAL exactly when the record is shorter than 11 bytes; otherwise the TMSI is bytes 0-3 big-endian and the U state comes from byte 10 |
| SimFiles.LociImage | src/host/layer23/src/common/subscriber.c:1325-1367 | 11 bytes: TMSI, the generated LAI, TMSI time FF, the status of the U state |
| SimFiles.LociImageTmsiNetworkOrder | src/host/layer23/src/common/subscriber.c:1344 | the TMSI goes to the card most significant byte first |
| SimFiles.LociRoundTrip | src/host/layer23/src/common/subscriber.c:1325-1367 | decoding a written LOCI gives back the TMSI, the LAI and the U state, U0 reading as U2 |
| SimFiles.GuStateOfStatus | src/host/layer23/src/common/subscriber.c:816-826 | only the low three bits count; GU1 exactly for "updated", GU3 exactly for PLMN or RA not allowed, never GU0 |
| SimFiles.StatusOfGuState | src/host/layer23/src/common/subscriber.c:1398-1408 | the status byte written is at most 3 |
| SimFiles.GuStateStatusRoundTrip | src/host/layer23/src/common/subscriber.c:1398-1408 | writing then reading a GU state keeps GU1, GU2 and GU3, and GU0 reads back as GU2 |
| SimFiles.SignatureOf | src/host/layer23/src/common/subscriber.c:809 | the signature read from the 16-bit and 8-bit fields fits in 24 bits |
| SimFiles.DecodeLocigprs | src/host/layer23/src/common/subscriber.c:797-832 | fails with -EINVAL exactly for fewer than 11 bytes; otherwise the P-TMSI is bytes 0-3 big-endian, the RAI bytes 7-12 and the GU state byte 13 |
| SimFiles.LocigprsImage | src/host/layer23/src/common/subscriber.c:1370-1413 | 14 bytes, with the encoded RAI at 7-12 and the GU status at 13 |
| SimFiles.LocigprsRoundTrip | src/host/layer23/src/common/subscriber.c:1370-1413 | decoding a written LOCIGPRS gives back the P-TMSI, the RAI and the GU state, but a signature made of P-TMSI bytes |
| SimFiles.LocigprsImageFields | src/host/layer23/src/common/subscriber.c:1391-1393 | the written P-TMSI field reads back as the P-TMSI; numbering the P-TMSI's bytes 0 (least significant) to 3, the signature reads back as bytes 1, 2 and 3, byte 1 most significant |
| SimFiles.LocigprsSignatureExample | src/host/layer23/src/common/subscriber.c:1391-1393 | P-TMSI 11223344 is written so that its signature reads back as 332211 |
| SimFiles.DecodeKc | src/host/layer23/src/common/subscriber.c:892-909 | fails with -EINVAL exactly for fewer than 9 bytes; otherwise the key is bytes 0-7 and the sequence number at most 7 |
| SimFiles.KcImage | src/host/layer23/src/common/subscriber.c:1495-1497 | nine bytes: the key, then the key sequence number |
| SimFiles.KcRoundTrip | src/host/layer23/src/common/subscriber.c:1495-1497 | a written Kc reads back as the key and the low three bits of the sequence number |
| SimFiles.DecodeHpplmn | src/host/layer23/src/common/subscriber.c:946-961 | fails with -EINVAL exactly for an empty file; otherwise the interval is byte 0 |
| SimFiles.TakeUntilFf | src/host/layer23/src/common/subscriber.c:973-979 | the bytes before the first FF, as characters; stopped early only at an FF |
| SimFiles.TakeUntilFfUnique | src/host/layer23/src/common/subscriber.c:973-979 | any string with those properties is that string |
| SimFiles.DecodeSpn | src/host/layer23/src/common/subscriber.c:963-984 | fails with -ENOTSUP exactly for fewer than 17 bytes or a UCS2 name; otherwise up to 16 name bytes up to the first FF |
| SimFiles.DecodeAcc | src/host/layer23/src/common/subscriber.c:986-1002 | fails with -EINVAL exactly for fewer than 2 bytes |
| SimFiles.DecodeAccBigEndian | src/host/layer23/src/common/subscriber.c:986-1002 | the access class word is the two bytes big-endian, classes 15 to 8 in the first |
| SimFiles.TonPrefix | src/host/layer23/src/common/subscriber.c:850-853 | "+" for an international number, "0" for a national one, nothing for the others |
| SimFiles.DecodeMsisdn | src/host/layer23/src/common/subscriber.c:834-860 | fails with -EINVAL, buffer untouched, exactly when the record is shorter than the 14-byte ADN trailer |
| SimFiles.MsisdnAt | src/host/layer23/src/common/subscriber.c:844-855 | a BCD length of 0 or 1 gives the empty number; otherwise the TON prefix followed by the BCD digits, which are left in the static buffer |
| SimFiles.DecodeMsisdnInternational | src/host/layer23/src/common/subscriber.c:834-860 | an international number reads "+" followed by its BCD digits |
| SimFiles.DecodeSmsp | src/host/layer23/src/common/subscriber.c:862-890 | fails with -EINVAL exactly for fewer than 28 bytes; an absent parameter or an address longer than 11 gives no service centre; otherwise the service centre is the TON prefix followed by the digits of the address field |
| SimFiles.DecodeSmspInternational | src/host/layer23/src/common/subscriber.c:875-885 | a present address of 2 to 11 bytes behind an international TON reads "+" followed by the BCD digits of its bytes after the TON/NPI byte |
| SimFiles.DecodeRc | src/host/layer23/src/common/subscriber.c:1192 | every decoder answers 0 or a negative error |
| SimFiles.DecodeRcImsi | src/host/layer23/src/common/subscriber.c:732-760 | the IMSI decoder answers 0 exactly when the IMSI is accepted, else -EINVAL |
| SimFiles.DecodeRcNeverFails | src/host/layer23/src/common/subscriber.c:720-730 | the ICCID, PLMNsel and FPLMN decoders always answer 0 |
| SubscriberSpec.InitialRecord | src/host/layer23/src/common/subscriber.c:110-138 | after init the card is invalid, the cursor is 0, the TMSI and P-TMSI are reserved, the LAC is 0, the key sequence is 7 and both lists are empty |
| SubscriberSpec.ReadJob | src/host/layer23/src/common/subscriber.c:1096-1112 | the read job for an entry goes on the query handle with the entry's path and file, as a binary or record read |
| SubscriberSpec.RequestStep | src/host/layer23/src/common/subscriber.c:1066-1115 | requesting never moves the cursor |
| SubscriberSpec.RequestAtTerminator | src/host/layer23/src/common/subscriber.c:1074-1094 | at the terminator no job is sent and Attached is signalled; a LAC strictly between 0 and FFFE sets the registered PLMN to the LAI's; nothing else changes |
| SubscriberSpec.RequestAtFile | src/host/layer23/src/common/subscriber.c:1096-1114 | before the terminator exactly one read job for the current entry is sent and the record is unchanged |
| SubscriberSpec.PlmnNaWrite | src/host/layer23/src/common/subscriber.c:342-362 | at most one job, and one exactly for a valid card behind a reader |
| SubscriberSpec.PlmnNaWriteContent | src/host/layer23/src/common/subscriber.c:1272-1322 | the FPLMN update carries 12 bytes to 7F20/6F7B that read back as the last four forbidden PLMNs |
| SubscriberSpec.DelStepSpec | src/host/layer23/src/common/subscriber.c:365-388 | always -EINVAL; NULL empties the list; a PLMN loses only its first entry; the card is written only when something was deleted; only the list changes |
| SubscriberSpec.AddStepSpec | src/host/layer23/src/common/subscriber.c:391-415 | the list becomes Add(list, plmn, cause), nothing else changes; the home PLMN of a valid card answers -EINVAL without a new write, any other answers 0 and writes the new list last |
| SubscriberSpec.AddStepList | src/host/layer23/src/common/subscriber.c:391-415 | the entry ends at the tail with its cause, listed once, the list stays free of duplicates and grows only for a new PLMN |
| SubscriberSpec.HomePlmnWrittenByNextAdd | src/host/layer23/src/common/subscriber.c:405-412 | the home PLMN is kept off the card only by its own add: the next add of another PLMN writes an image holding both |
| SubscriberSpec.ApplyDecode | src/host/layer23/src/common/subscriber.c:1192 | the decoder answers DecodeRc; a failed decode changes nothing; no decoder touches the card state, the cursor or the PIN flag (PLMN lists with the corrected decoder, see "## Left out") |
| SubscriberSpec.Unknown | src/host/layer23/src/common/subscriber.c:1033 | each PLMN read from the card becomes an entry with cause -1, in order |
| SubscriberSpec.FplmnStep | src/host/layer23/src/common/subscriber.c:1021-1038 | one loop pass appends the triplet, decoded with the corrected decoder, with cause -1 |
| SubscriberSpec.UnknownPlmns | src/host/layer23/src/common/subscriber.c:1021-1038 | the PLMNs of the list read from the card are the triplets, in card order |
| SubscriberSpec.FplmnDecoded | src/host/layer23/src/common/subscriber.c:1004-1040 | the FPLMN decoder answers 0 and replaces the forbidden list with the corrected decoding, nothing else |
| SubscriberSpec.FplmnReadReplacesList | src/host/layer23/src/common/subscriber.c:1004-1040 | with the corrected decoder, reading back a written FPLMN image gives the last four PLMNs in order, each with cause -1 |
| SubscriberSpec.Advance | src/host/layer23/src/common/subscriber.c:1205-1210 | the cursor moves on by exactly one |
| SubscriberSpec.QueryStep | src/host/layer23/src/common/subscriber.c:1117-1211 | the cursor stays within the table, the buffer well formed and the SIM type unchanged |
| SubscriberSpec.QueryError | src/host/layer23/src/common/subscriber.c:1127-1178 | an error answer keeps the cursor within the table, the buffer and the SIM type |
| SubscriberSpec.QueryData | src/host/layer23/src/common/subscriber.c:1187-1210 | a data answer keeps the cursor within the table, the buffer well formed and the SIM type |
| SubscriberSpec.AfterDecode | src/host/layer23/src/common/subscriber.c:1193-1210 | after the decoder the cursor stays within the table |
| SubscriberSpec.QueryPinCause | src/host/layer23/src/common/subscriber.c:1130-1159 | PIN1 required, PIN1 blocked and PUC blocked only set the PIN flag: cursor, jobs and signals unchanged; a PUC prompt for a blocked PIN exactly when tries are left |
| SubscriberSpec.QueryOtherCauseOptional | src/host/layer23/src/common/subscriber.c:1160-1165 | another cause on an optional entry advances by exactly one and keeps the card valid, requesting the next entry or signalling Attached at the end |
| SubscriberSpec.QueryOtherCauseMandatory | src/host/layer23/src/common/subscriber.c:1166-1177 | another cause on a mandatory entry clears sim_valid, sends one Detached and no job, and the cursor stays |
| SubscriberSpec.QueryDataAfterPin | src/host/layer23/src/common/subscriber.c:1181-1185 | data after a PIN prompt clears the flag and re-requests the same entry without decoding |
| SubscriberSpec.QueryDataInvalidMandatory | src/host/layer23/src/common/subscriber.c:1193-1202 | a mandatory file that does not decode only notifies: record unchanged, no advance, no job, no signal |
| SubscriberSpec.QueryDataAdvances | src/host/layer23/src/common/subscriber.c:1192-1210 | data that decodes, or for an optional file, gives the decoded record with the cursor one further and the next entry requested |
| SubscriberSpec.QueryDataAtTerminator | src/host/layer23/src/common/subscriber.c:1187-1189 | data when the table is done changes nothing |
| SubscriberSpec.ReadAll | src/host/layer23/src/common/subscriber.c:1117-1211 | a sequence of answers keeps the cursor within the table |
| SubscriberSpec.DecodesRest | src/host/layer23/src/common/subscriber.c:1205-1210 | the answers after the first one decode for the entries one further on |
| SubscriberSpec.ReadAllReachesTerminator | src/host/layer23/src/common/subscriber.c:1117-1211 | answers that all decode reach the terminator, keep the card valid and no PIN pending, and signal Attached |
| SubscriberSpec.TestcardRecord | src/host/layer23/src/common/subscriber.c:574-604 | the test SIM settings become the record: the registered PLMN and LAI, TMSI, P-TMSI, RAI flag, the IMSI, access class FFFF |
| SubscriberSpec.InsertStep | src/host/layer23/src/common/subscriber.c:172-209 | inserting either leaves the record as it was or restarts the cursor at 0 |
| SubscriberSpec.StartCard | src/host/layer23/src/common/subscriber.c:187-208 | each backend starts with the cursor at 0 |
| SubscriberSpec.InsertBusy | src/host/layer23/src/common/subscriber.c:178-181 | inserting while a card is valid answers -EBUSY and changes nothing |
| SubscriberSpec.InsertResets | src/host/layer23/src/common/subscriber.c:183-185 | otherwise both lists are empty, the key sequence is 7, the cursor 0, and (except for the test SIM) TMSI and P-TMSI are reserved and the LAC is 0 |
| SubscriberSpec.InsertFailure | src/host/layer23/src/common/subscriber.c:187-208 | a failing backend leaves no valid card; an unknown SIM type answers -EINVAL with sim_valid set; the test SIM succeeds exactly for a valid IMSI |
| SubscriberSpec.InsertReaderRequestsIccid | src/host/layer23/src/common/subscriber.c:1258-1269 | a reader card starts with one read of 2FE2 under the master file |
| SubscriberSpec.InsertTestcardUState | src/host/layer23/src/common/subscriber.c:589-604 | the test SIM's U state comes from the GPRS attach and RAI flags alone, the first assignment being overwritten; Attached is signalled |
| SubscriberSpec.RemoveStep | src/host/layer23/src/common/subscriber.c:212-228 | removing leaves the record unchanged; with a valid card it answers 0, signals Detached and closes SAP for a SAP card; otherwise -EINVAL and nothing |
| SubscriberSpec.RemoveThenInsertBusy | src/host/layer23/src/common/subscriber.c:212-228 | because removal keeps sim_valid, an insert after it answers -EBUSY |
| SubscriberSpec.PinJobKind | src/host/layer23/src/common/subscriber.c:1221-1245 | mode -1, 1, 2, 99 select disable, enable, change, unblock; any other mode unlocks when a PIN is required and sends nothing otherwise |
| SubscriberSpec.PinPayload | src/host/layer23/src/common/subscriber.c:1251-1252 | the payload is both PINs with their NULs |
| SubscriberSpec.PinPayloadSplits | src/host/layer23/src/common/subscriber.c:1251-1252 | the payload splits back into the two PINs at the NULs |
| SubscriberSpec.PinStep | src/host/layer23/src/common/subscriber.c:241-260 | always 0 with the record unchanged; one PIN job exactly for a valid reader card and a mode that selects a job |
| SubscriberSpec.GenerateKcStep | src/host/layer23/src/common/subscriber.c:262-294 | the answer is 0, negative or the local computation's error; at most the key sequence and key change |
| SubscriberSpec.GenerateKcOutcomes | src/host/layer23/src/common/subscriber.c:262-294 | no card gives the dummy SRES; a reader gets one RUN GSM ALGORITHM job with the random bytes and the sequence stored; the test SIM passes on a failure or stores Kc and signals SRES |
| SubscriberSpec.KeyStep | src/host/layer23/src/common/subscriber.c:1456-1505 | an error answer or an answer shorter than 12 bytes changes and emits nothing; otherwise the key becomes bytes 4-11 with the sequence kept, one EF Kc update carries the key and that sequence, and SRES (bytes 0-3) is signalled, nothing else |
| SubscriberSpec.GenerateThenKey | src/host/layer23/src/common/subscriber.c:1428-1505 | the card's answer stores bytes 4-11 as the key, writes a Kc that reads back as that key with the requested sequence, and signals bytes 0-3 as SRES |
| SubscriberSpec.KeySeqFor | src/host/layer23/src/common/subscriber.c:430-436 | 7 when a new key is forced, else the stored sequence |
| SubscriberSpec.KeySeqAfterKcRead | src/host/layer23/src/common/subscriber.c:892-909 | after reading EF Kc the sequence in use is at most 7 |
| SubscriberSpec.LociWrite | src/host/layer23/src/common/subscriber.c:297-317 | a valid reader card gets exactly one update of 6F7E with the LOCI image; the others nothing |
| SubscriberSpec.LociWriteReadBack | src/host/layer23/src/common/subscriber.c:1325-1367 | decoding the written EF LOCI restores TMSI, LAI and U state (U0 as U2) |
| SubscriberSpec.LocigprsWrite | src/host/layer23/src/common/subscriber.c:320-339 | a valid reader card gets exactly one update of 6F53 with the LOCIGPRS image; the others nothing |
| SubscriberSpec.LocigprsWriteReadBack | src/host/layer23/src/common/subscriber.c:1370-1413 | decoding the written EF LOCIGPRS restores P-TMSI, RAI and GU state, but the signature comes back as P-TMSI bytes |
| SubscriberSpec.SapStep | src/host/layer23/src/common/subscriber.c:1546-1592 | error results are ignored with 0; an APDU answer goes to the SIM client (-EINVAL without a parameter); an ATR starts the reading; other messages give -ENOTSUP |
| Subscriber.Subscriber.constructor | src/host/layer23/src/common/subscriber.c:110-138 | the new subscriber holds the initial record, nothing emitted, and a buffer of NULs |
| Subscriber.Subscriber.Init | src/host/layer23/src/common/subscriber.c:110-138 | the fields become the initial record |
| Subscriber.Subscriber.Exit | src/host/layer23/src/common/subscriber.c:140-169 | the flush loops empty both lists |
| Subscriber.Subscriber.Insert | src/host/layer23/src/common/subscriber.c:172-209 | answer, record and emitted effects are those of InsertStep |
| Subscriber.Subscriber.StartCard | src/host/layer23/src/common/subscriber.c:187-208 | the backend part of insert, as StartCard |
| Subscriber.Subscriber.InsertSimcard | src/host/layer23/src/common/subscriber.c:1258-1269 | type L1PHY, name "sim", U2, cursor 0, then the request step |
| Subscriber.Subscriber.InsertTestcard | src/host/layer23/src/common/subscriber.c:565-633 | for a valid IMSI the record becomes TestcardRecord and Attached is signalled; otherwise -EINVAL and nothing changes |
| Subscriber.Subscriber.TestcardFields | src/host/layer23/src/common/subscriber.c:574-604 | the assignments in source order give TestcardRecord |
| Subscriber.Subscriber.InsertSapcard | src/host/layer23/src/common/subscriber.c:1513-1538 | type SAP, name "sap", SAP opened; a failing open answers its error, clears sim_valid and signals Detached |
| Subscriber.Subscriber.SapOpenFailed | src/host/layer23/src/common/subscriber.c:1525-1533 | sim_valid cleared, one Detached and one notice |
| Subscriber.Subscriber.Remove | src/host/layer23/src/common/subscriber.c:212-228 | answer and effects of RemoveStep |
| Subscriber.Subscriber.NewSimUState | src/host/layer23/src/common/subscriber.c:231-238 | only the U state changes |
| Subscriber.Subscriber.Request | src/host/layer23/src/common/subscriber.c:1066-1115 | answer 0, record and effects of RequestStep |
| Subscriber.Subscriber.DecodeBcd | src/host/layer23/src/common/subscriber.c:85-104 | the counted loop returns DecodeBcd's digits and leaves the buffer as BcdWrite says |
| Subscriber.Subscriber.SimIccid | src/host/layer23/src/common/subscriber.c:720-730 | as ApplyIccid |
| Subscriber.Subscriber.SimImsi | src/host/layer23/src/common/subscriber.c:732-760 | as ApplyImsi, through the static buffer |
| Subscriber.Subscriber.SimLoci | src/host/layer23/src/common/subscriber.c:762-795 | as ApplyLoci |
| Subscriber.Subscriber.SimLocigprs | src/host/layer23/src/common/subscriber.c:797-832 | as ApplyLocigprs |
| Subscriber.Subscriber.SimMsisdn | src/host/layer23/src/common/subscriber.c:834-860 | as ApplyMsisdn, through the static buffer |
| Subscriber.Subscriber.MsisdnNumber | src/host/layer23/src/common/subscriber.c:844-855 | the number and the buffer as MsisdnAt |
| Subscriber.Subscriber.SimSmsp | src/host/layer23/src/common/subscriber.c:862-890 | as ApplySmsp |
| Subscriber.Subscriber.SimKc | src/host/layer23/src/common/subscriber.c:892-909 | as ApplyKc |
| Subscriber.Subscriber.SimPlmnsel | src/host/layer23/src/common/subscriber.c:911-944 | the preferred list becomes the card's triplets under the corrected decoder, nothing else changes |
| Subscriber.Subscriber.FlushPlmnList | src/host/layer23/src/common/subscriber.c:919-922 | the preferred list is empty |
| Subscriber.Subscriber.AddPlmnList | src/host/layer23/src/common/subscriber.c:924-941 | the loop appends exactly the triplets of the file, decoded with the corrected decoder |
| Subscriber.Subscriber.SimHpplmn | src/host/layer23/src/common/subscriber.c:946-961 | as ApplyHpplmn |
| Subscriber.Subscriber.SimSpn | src/host/layer23/src/common/subscriber.c:963-984 | as ApplySpn |
| Subscriber.Subscriber.SimAcc | src/host/layer23/src/common/subscriber.c:986-1002 | as ApplyAcc |
| Subscriber.Subscriber.SimFplmn | src/host/layer23/src/common/subscriber.c:1004-1040 | the forbidden list becomes the card's triplets under the corrected decoder, with cause -1, nothing else changes |
| Subscriber.Subscriber.FlushPlmnNa | src/host/layer23/src/common/subscriber.c:1016-1019 | the forbidden list is empty |
| Subscriber.Subscriber.AddPlmnNa | src/host/layer23/src/common/subscriber.c:1021-1038 | the loop appends exactly the triplets, decoded with the corrected decoder, each with cause -1 |
| Subscriber.Subscriber.DecodeFile | src/host/layer23/src/common/subscriber.c:1192 | the entry's decoder, as ApplyDecode |
| Subscriber.Subscriber.QueryErrorAnswer | src/host/layer23/src/common/subscriber.c:1127-1178 | record and effects of QueryError |
| Subscriber.Subscriber.PinAnswer | src/host/layer23/src/common/subscriber.c:1130-1159 | the PIN branches of QueryError |
| Subscriber.Subscriber.FailedAnswer | src/host/layer23/src/common/subscriber.c:1160-1177 | the default branch of QueryError |
| Subscriber.Subscriber.Next | src/host/layer23/src/common/subscriber.c:1205-1210 | as Advance |
| Subscriber.Subscriber.GiveUp | src/host/layer23/src/common/subscriber.c:1166-1173 | sim_valid cleared, Detached signalled, two notices |
| Subscriber.Subscriber.QueryDataAnswer | src/host/layer23/src/common/subscriber.c:1187-1210 | record, buffer and effects of QueryData |
| Subscriber.Subscriber.Continue | src/host/layer23/src/common/subscriber.c:1193-1210 | as AfterDecode |
| Subscriber.Subscriber.QueryCallback | src/host/layer23/src/common/subscriber.c:1117-1211 | record, buffer and effects of QueryStep |
| Subscriber.Subscriber.SimPin | src/host/layer23/src/common/subscriber.c:241-260 | answer and jobs of PinStep |
| Subscriber.Subscriber.PinSimcard | src/host/layer23/src/common/subscriber.c:1214-1255 | answer 0 and one job of kind PinJobKind carrying both PINs, or none |
| Subscriber.Subscriber.GenerateKc | src/host/layer23/src/common/subscriber.c:262-294 | answer, record and effects of GenerateKcStep |
| Subscriber.Subscriber.GenerateKcTestcard | src/host/layer23/src/common/subscriber.c:635-664 | a failing computation is passed on unchanged; otherwise Kc and sequence are stored and SRES signalled |
| Subscriber.Subscriber.GenerateKcSimcard | src/host/layer23/src/common/subscriber.c:1428-1454 | the sequence is stored and one RUN GSM ALGORITHM job carries the random bytes |
| Subscriber.Subscriber.KeyCallback | src/host/layer23/src/common/subscriber.c:1456-1505 | record and effects of KeyStep |
| Subscriber.Subscriber.GetKeySeq | src/host/layer23/src/common/subscriber.c:430-436 | KeySeqFor, between 0 and 255 |
| Subscriber.Subscriber.WriteLoci | src/host/layer23/src/common/subscriber.c:297-317 | jobs of LociWrite |
| Subscriber.Subscriber.WriteLociSimcard | src/host/layer23/src/common/subscriber.c:1325-1367 | one update of 6F7E with the LOCI image |
| Subscriber.Subscriber.WriteLocigprs | src/host/layer23/src/common/subscriber.c:320-339 | jobs of LocigprsWrite |
| Subscriber.Subscriber.WriteLocigprsSimcard | src/host/layer23/src/common/subscriber.c:1370-1413 | one update of 6F53 with the LOCIGPRS image |
| Subscriber.Subscriber.WriteLocigprsTestcard | src/host/layer23/src/common/subscriber.c:667-714 | jobs of LocigprsWrite: nothing for the test SIM itself |
| Subscriber.Subscriber.WritePlmnNa | src/host/layer23/src/common/subscriber.c:342-362 | jobs of PlmnNaWrite |
| Subscriber.Subscriber.WritePlmnNaSimcard | src/host/layer23/src/common/subscriber.c:1272-1322 | one update of 6F7B with the FPLMN image of the list |
| Subscriber.Subscriber.DelForbiddenPlmn | src/host/layer23/src/common/subscriber.c:365-388 | answer, record and jobs of DelStep |
| Subscriber.Subscriber.RemovePlmnNa | src/host/layer23/src/common/subscriber.c:370-380 | reports whether the PLMN was listed and removes its first entry |
| Subscriber.Subscriber.AddForbiddenPlmn | src/host/layer23/src/common/subscriber.c:391-415 | answer, record and jobs of AddStep |
| Subscriber.Subscriber.AppendForbiddenPlmn | src/host/layer23/src/common/subscriber.c:398-414 | answer, record and jobs of AppendStep |
| Subscriber.Subscriber.IsForbiddenPlmn | src/host/layer23/src/common/subscriber.c:418-428 | answers 1 exactly when the list contains the PLMN, else 0 |
| Subscriber.Subscriber.SapRspCallback | src/host/layer23/src/common/subscriber.c:1546-1592 | answer, record and effects of SapStep |

## Left out

- Printing: `gsm_subscr_dump_forbidden_plmn` and `gsm_subscr_dump` (subscriber.c:438-558) are output only.
- Logging: LOGP calls are not modelled. The text of `l23_vty_ms_notify` is reduced to a notice kind.
- Transport: `sim_job`, `sap_open`, `sap_close` and `sim_apdu_resp` are appended to outboxes. SIM handles are constants. `sap_open`'s and `sim_apdu_resp`'s results are parameters. `ms->sap_wq.bfd.fd = -1` is not modelled.
- Allocation: msgb and talloc allocation failures (`-ENOMEM`) and `msgb_free` are left out. Every allocation succeeds.
- Authentication: `osmo_auth_gen_vec2`, the A3/A8 computation of the test SIM, is a parameter (its result and its SRES/Kc).
- `subscr_sim_update_cb` (subscriber.c:1415-1426) only frees the message and is left out.
- External codecs:
  - `osmo_plmn_to_bcd` / `osmo_plmn_from_bcd`, the LAI/RAI codecs, `osmo_imsi_str_valid` and `gsm_match_mnc` are written out with the digit layout of 3GPP TS 24.008, section 10.5.1.3.
  - `gsm48_decode_bcd_number2` is approximated: digits up to the first F nibble, without its output-size checks.
  - `osmo_plmn_cmp` is value equality of the PLMN.
- Numeric constants: SIM causes, SAP results, job kinds and SIM types are enumerations. Their numeric values live in headers that are not part of this model.
- C sizes:
  - `size_t` is 64 bits (SIZE_MAX = 2^64 - 1).
  - A data answer's length is truncated to 8 bits (`payload_len % 256`) before it reaches the decoder.
  - `strncat` into `msisdn` and `sms_sca` is taken to fit. Buffer overflows beyond the 16 bytes of slack are not modelled.
- `sim_decode_bcd`'s result buffer is static in C, so it is shared by every subscriber. Here it is one buffer per `Subscriber` object.
- ICCID: the name "sim-" followed by the ICCID is kept whole. The size of the `sim_name` buffer is declared in a header that is not part of this model.
- AddPlmnList (`Subscriber.Subscriber.AddPlmnList`): decodes each triplet with `osmo_plmn_from_bcd`. The code as written calls `osmo_plmn_to_bcd` (subscriber.c:933), which leaves every entry at PLMN 000-00 and overwrites the triplet; that behaviour is `PlmnLists.TripletsAsWritten`, the as-written half of the Findings row.
- AddPlmnNa (`Subscriber.Subscriber.AddPlmnNa`): the same for EF FPLMN (subscriber.c:1030). As written every entry would be 000-00 with cause -1, which `PlmnLists.TripletsAsWrittenAllZero` states.
- SimPlmnsel (`Subscriber.Subscriber.SimPlmnsel`) and SimFplmn (`Subscriber.Subscriber.SimFplmn`): fill the lists through AddPlmnList and AddPlmnNa, so they follow the corrected decoder, not the 000-00 entries of the code as written.
- ApplyDecode (`SubscriberSpec.ApplyDecode`): decodes EF PLMNsel and EF FPLMN with the corrected `PlmnLists.Triplets`. DecodeFile, QueryData, QueryStep, QueryCallback and ReadAll inherit this.
- FplmnStep, FplmnDecoded and FplmnReadReplacesList (`SubscriberSpec`): are stated for the corrected decoder. With the code as written the forbidden list read from the card holds only 000-00 entries, so a written image does not read back.
- Record fields: fields of `struct gsm_subscriber` that the core code never assigns are not part of the record, nor are the SIM handles and the back pointer.

## Findings

| source | as written | input that shows it | evidently intended | confidence | as-written member | corrected member |
|---|---|---|---|---|---|---|
| src/host/layer23/src/common/subscriber.c:933 / src/host/layer23/src/common/subscriber.c:1030 | `subscr_sim_plmnsel` and `subscr_sim_fplmn` call the encoder `osmo_plmn_to_bcd(&data[0], &entry->plmn)` on a freshly zeroed entry, so every entry stays PLMN 000-00 and the card's bytes are overwritten | EF FPLMN holding `62 F2 10` (PLMN 262-01) yields the entry 000-00 | decode each triplet with `osmo_plmn_from_bcd(&data[0], &entry->plmn)` | not executed | PlmnLists.TripletsAsWrittenLosesPlmn | PlmnLists.Triplets |
