# Thai national ID card reader, modelled in Dafny

`thai-id-card.go` reads a Thai national ID card through a PC/SC smart-card
reader. It picks a GET RESPONSE prefix from the card's answer-to-reset
(ATR), selects the card's applet, and reads nine text fields. Each field is
a two-phase read: a locate command `80 B0 P1 P2 02 00 Le`, whose reply is
thrown away, then GET RESPONSE `prefix ++ [Le]`, whose reply has its two
status bytes stripped. Each text is decoded from Windows-874 and trimmed of
spaces. Twenty photo segments are read the same way and joined. The program
builds a nine-line record `label: value\n` and names the photo file after
the citizen ID.

This project models that core and proves properties of it.

- **`Apdu`** (`apdu.dfy`): bytes, the two GET RESPONSE prefixes, building
  the retrieve command, stripping the status trailer, and choosing the
  prefix from the ATR.
- **`Catalog`** (`catalog.dfy`): the applet SELECT, the nine field commands
  and the twenty photo commands, with lemmas on their layout.
- **`Text`** (`text.dfy`): the space trim that follows decoding.
- **`Transport`** (`transport.dfy`): a `Card` object standing in for the
  PC/SC card. `Transmit` appends each command to a log and answers from a
  script of replies fixed in advance. A reply is `Answer(data)`, or
  `Fault(data, code)` for an error together with any bytes returned beside
  it.
- **`Reader`** (`reader.dfy`): `getData`, `getString` and `getPhoto`. Each
  is a specification function over the script (`FetchField`, `FetchText`,
  `FetchPhoto`). Each returns a `Run`: the call's completion, the commands
  it sent and the replies left over. `getData` and `getPhoto` are also
  methods over a `Card`, proved against those functions. A Go runtime
  panic, such as slicing a reply shorter than two bytes or indexing a
  too-short ATR, is the completion `Panic`.
- **`Assembly`** (`assembly.dfy`): what the photo read gives for a card
  whose answer to each segment is described as a `Segment`. A segment is
  served, fails on the locate exchange, or fails on the retrieve exchange.
- **`Session`** (`session.dfy`): `main` from the ATR on.
  - The package-level `cmdReq` is the field of a `Program` object.
  - `getString` is `Program.GetString`.
  - `main` is split into three methods: `ReadCard` chooses the prefix and
    sends SELECT, `ReadSelected` adds the photo, and `ReadRecord` makes the
    nine reads and builds the record.
  - `SessionSpec` states the whole session, and lemmas state what it gives
    for a card that answers every read.

The model keeps these details of the code as written:

- The ATR test `atr[0] == 0x3B && atr[1] == 0x67` short-circuits. An empty
  ATR panics, and so does the one-byte ATR `3B`, but any other one-byte ATR
  gives the default prefix.
- When the GET RESPONSE exchange fails, `getData` returns whatever bytes
  `Transmit` handed back with the error, not an empty payload. `getPhoto`
  appends them to the photo.
- `getPhoto` declares a new `err` inside its loop, so its own error result
  is always nil.
- `getString` ignores its `req` argument and reads with the package-level
  `cmdReq`.

## Model

| member | source | states |
|---|---|---|
| Apdu.GetResponse | thai-id-card.go:220 | the retrieve command is the prefix followed by exactly one byte, the locate command's last byte (Le) |
| Apdu.StripTrailer | thai-id-card.go:227 | the slice fails (None) exactly when the reply is shorter than two bytes; otherwise the result is the reply's first len-2 bytes, unchanged |
| Apdu.StripTrailerOfTrailed | thai-id-card.go:227 | stripping payload ++ any two-byte trailer gives back the payload |
| Apdu.StripTrailerSplits | thai-id-card.go:227 | every reply of at least two bytes is its stripped payload followed by its last two bytes |
| Apdu.SelectPrefix | thai-id-card.go:128-132 | panics exactly for an empty ATR or the one-byte ATR 3B; 00 C0 00 01 exactly when the ATR starts 3B 67; 00 C0 00 00 exactly when the first byte is not 3B, or is 3B and the second is not 67 |
| Apdu.SelectedGetResponseShape | thai-id-card.go:128-132 | whichever prefix is chosen, the retrieve command is the five bytes 00 C0 00 P2 Le, with Le copied from the locate command |
| Catalog.SelectThaiCardShape | thai-id-card.go:18 | the applet SELECT is 00 A4 04 00 with Lc 08 equal to the length of the AID A0 00 00 00 54 48 00 01 |
| Catalog.FieldNames | thai-id-card.go:140-174 | there are nine fields, labelled cid, thFullName, enFullName, dateOfBirth, gender, issuer, issueDate, expireDate, address, in main's order |
| Catalog.FieldCommands | thai-id-card.go:19-27 | every field command has the shape 80 B0 P1 P2 02 00 Le |
| Catalog.FieldLayout | thai-id-card.go:19-27 | field i reads from offset 0004, 0011, 0075, 00D9, 00E1, 00F6, 0167, 016F, 1579 with Le 0D, 64, 64, 08, 01, 64, 08, 08, 64 |
| Catalog.PhotoCommands | thai-id-card.go:28-49 | there are twenty photo commands, each of the shape 80 B0 P1 P2 02 00 Le |
| Catalog.PhotoSegment | thai-id-card.go:28-49 | segment k has P1 = k+1, offset 0x017B + 255k, and Le FF |
| Catalog.PhotoContiguous | thai-id-card.go:28-49 | each segment starts where the one before it ends (offset plus Le) |
| Catalog.PhotoDisjoint | thai-id-card.go:28-49 | an earlier segment's range ends at or before a later segment's start |
| Catalog.PhotoExtent | thai-id-card.go:28-49 | the segments cover the 20 × 255 bytes from 0x017B on |
| Text.Trim | thai-id-card.go:201 | trimming never lengthens the text, and the result has no space at either end |
| Text.TrimSplits | thai-id-card.go:201 | the trimmed text is a contiguous slice with only spaces before and after it, and it has no space at either end |
| Text.TrimOfPadded | thai-id-card.go:201 | spaces ++ m ++ spaces trims to m whenever m has no space at either end, so the split is unique |
| Text.TrimIdempotent | thai-id-card.go:201 | trimming twice gives the same text as trimming once |
| Text.TrimPaddedName | thai-id-card.go:201 | a space-padded Thai name keeps its letters and loses its padding |
| Transport.Card.Transmit | thai-id-card.go:214 | one transmit appends its command to the log and consumes exactly the next scripted reply |
| Reader.FetchField | thai-id-card.go:212-229 | getData sends one or two commands, the locate command first; a second one is the GET RESPONSE for it; a read without error sent both |
| Reader.FetchFieldLocateFault | thai-id-card.go:214-218 | a failed locate exchange sends nothing more and returns an empty payload with that error |
| Reader.FetchFieldRetrieveFault | thai-id-card.go:220-225 | a failed GET RESPONSE exchange returns at once with that exchange's error and the bytes handed back beside it, unstripped, after sending both commands |
| Reader.FetchFieldShortReply | thai-id-card.go:221-227 | an answered GET RESPONSE shorter than two bytes panics the read, after both commands were sent |
| Reader.FetchFieldRetrieve | thai-id-card.go:220-221 | once the locate is answered, the second command is the prefix followed by the locate command's Le |
| Reader.FetchFieldPayload | thai-id-card.go:214-228 | a read returns payload p with no error exactly when both exchanges are answered and the second answer is p followed by two status bytes |
| Reader.FetchFieldIgnoresAck | thai-id-card.go:214 | the locate reply's content never changes the outcome |
| Reader.FetchFieldConsumes | thai-id-card.go:212-229 | a read consumes exactly one scripted reply per command it sends |
| Reader.GetData | thai-id-card.go:212-229 | the method returns what FetchField gives; the card's log grows by FetchField's commands and the card keeps its left-over replies |
| Reader.FetchText | thai-id-card.go:188-204 | getString sends what getData sends and panics exactly when getData does; a getData error comes back unchanged with the empty text; any error gives the empty text; any text it gives has no space at either end |
| Reader.FetchTextSuccess | thai-id-card.go:188-204 | getString gives v with no error exactly when getData gives raw with no error, decoding raw gives t, and v is t trimmed |
| Reader.FetchPhoto | thai-id-card.go:231-240 | a photo read that does not panic always reports no error |
| Reader.Then | thai-id-card.go:237 | joining a read's bytes to the reads after it: the commands add up, a panic carries over, and otherwise the bytes are concatenated with no error |
| Reader.ThenThen | thai-id-card.go:237 | joining in two steps is joining once |
| Reader.PhotoStep | thai-id-card.go:232-238 | the photo read from segment i is the read of segment i, then the photo read from segment i+1 on, unless segment i panics |
| Reader.GetPhoto | thai-id-card.go:231-240 | the loop returns what FetchPhoto gives; the card's log grows by FetchPhoto's commands and the card keeps its left-over replies |
| Assembly.FetchSegment | thai-id-card.go:233-237 | a segment read never panics on a trailed reply, contributes the reply less its trailer, the empty payload, or the partial bytes, sends one command only on a locate fault, and is error-free exactly when served |
| Assembly.PhotoIsConcatenation | thai-id-card.go:231-240 | for trailed segments, the photo is their contributions concatenated in table order, the commands are their command pairs in order, and the error is nil |
| Assembly.PhotoPanics | thai-id-card.go:227-238 | a served reply without a trailer at segment k panics the photo read, and nothing after segment k is sent |
| Assembly.PanicsFirst | thai-id-card.go:227-238 | an untrailed first segment panics after its two commands |
| Assembly.ContributionsAppend | thai-id-card.go:237 | the contributions of a concatenation of segment runs are the concatenated contributions |
| Assembly.DroppedSegment | thai-id-card.go:233-237 | a segment whose locate fails drops out of the photo; the rest keeps its order, so the photo's length is the sum of the others' |
| Assembly.PhotoOfServedCard | thai-id-card.go:231-240 | with all twenty segments served, each payload followed by two status bytes, the photo is the payloads joined in ascending segment order |
| Assembly.ServedContributions | thai-id-card.go:227-237 | served segments contribute exactly their payloads, joined in order |
| Session.PhotoPath | thai-id-card.go:179 | the photo path is ./image/, then the citizen ID, then .jpg |
| Session.LineLayout | thai-id-card.go:142 | a record line is the label, then ": ", then the value, then a newline |
| Session.RecordRoundTrip | thai-id-card.go:138-174 | when no value holds a newline, the record text parses back to exactly the values |
| Session.RecordTextSnoc | thai-id-card.go:142-174 | appending a field adds its line at the end of the record |
| Session.RecordOfValues | thai-id-card.go:138-174 | the record main assembles from its nine values is the record text of the field table for those values |
| Session.ReadText | thai-id-card.go:140-174 | a panic passes through unchanged; otherwise the read sends and consumes what getString does, panics exactly when getString panics, and otherwise adds getString's text after the earlier values and stays error-free, whatever getString's error was |
| Session.ReadTexts | thai-id-card.go:140-174 | reading a run of fields keeps the earlier values and adds one value per field |
| Session.RecordReads | thai-id-card.go:140-174 | main's nine reads give nine values when they do not panic |
| Session.TableReads | thai-id-card.go:140-174 | the reads of the field table give one value per field when they do not panic |
| Session.RecordReadsInTableOrder | thai-id-card.go:140-174 | main's nine hand-written reads are exactly the reads of the field table in table order |
| Session.ReadTextLocateFault | thai-id-card.go:188-193 | a field whose locate fails adds the empty text, sends only its locate command, and the next read goes on with the next reply |
| Session.ReadTextsUnpadded | thai-id-card.go:201 | every value of the record has no space at either end |
| Session.TextsOfCard | thai-id-card.go:140-174 | for a card that answers every field read with trailed replies, nothing panics, each field gives its decoded and trimmed text (or "" on any error), and the commands are the fields' reads in order |
| Session.SessionSpec | thai-id-card.go:128-179 | a short ATR panics before anything is sent; otherwise the first command of the session is the applet SELECT |
| Session.Finish | thai-id-card.go:176-179 | a panic in the text reads passes through; a completed session's record is the field table's record text of the values read and its photo path is named after the first value; the photo read's commands follow the text reads' |
| Session.SessionShortAtr | thai-id-card.go:128 | an empty ATR or the ATR 3B panics before anything is sent |
| Session.SessionSelected | thai-id-card.go:136 | whatever the card answers to the SELECT, the session goes on with the text reads and the photo read, using the prefix the ATR chose |
| Session.RecordOfCard | thai-id-card.go:138-174 | for a card that answers every field read, the nine reads give the fields' texts and send the fields' commands with the chosen prefix |
| Session.FinishOfCard | thai-id-card.go:176-179 | after a complete record, a card answering every photo segment gives the output: the record text, the concatenated segments and the path named after the first value |
| Session.SessionOfCard | thai-id-card.go:128-179 | a whole session with a card that answers everything: the record lines in table order, the photo concatenated in segment order, the path from the citizen ID, and the log SELECT, field reads, photo reads, all with the one prefix the ATR chose |
| Session.Program.constructor | thai-id-card.go:17 | cmdReq starts as 00 C0 00 00 |
| Session.Program.GetString | thai-id-card.go:188-204 | reads with the package-level cmdReq whatever req is passed, and behaves as FetchText on the card's replies |
| Session.Program.ReadRecord | thai-id-card.go:138-174 | the nine reads behave as RecordReads; when they complete, there are nine values and the record text is the field table's record of them |
| Session.Program.ReadSelected | thai-id-card.go:138-179 | the reads after SELECT behave as the table reads followed by the photo read, ending in the output or a panic |
| Session.Program.ReadCard | thai-id-card.go:128-179 | main from the ATR on behaves as SessionSpec, and cmdReq ends up as the prefix the ATR chose |

## Left out

- PC/SC setup is not modelled (thai-id-card.go:52-124): the context, listing readers, choosing one, connecting, and reading status and the ATR. The ATR is a parameter of `ReadCard`.
- Every `fmt.Print*` call is left out, because console output does not affect the values computed.
- `scard.Transmit` itself is replaced by the scripted `Transport.Card`. Once the script is used up, the card reports SCARD_W_REMOVED_CARD. Timing and the reader protocol are not modelled.
- `thaiToUnicode` and the Windows-874 table are not modelled. They are the `decode` parameter: `Some(text)`, or `None` for a decoder error. The Go decoder never fails in practice, but the model keeps the error path that `getString` has.
- `Text.Trim` works on decoded characters, whereas `bytes.Trim(thResp, " ")` works on the UTF-8 bytes. The two agree, because a space is one byte and UTF-8 never puts 0x20 inside a multi-byte character.
- File output is left out (thai-id-card.go:178-185 and 242-254): creating `image`, writing the photo to `Session.PhotoPath`, the early return when that write fails, and writing `data.txt`. The session ends with `Output`, which holds the record text, the photo bytes and the path.
- The segment lemmas (`TextsOfCard`, `PhotoIsConcatenation`, `PhotoPanics` and the session lemmas built on them) describe cards that give one reply per command. A card that runs out of replies mid-read gives an error without consuming a reply, which a `Segment` does not describe; `FetchFieldLocateFault` and `FetchFieldRetrieveFault` cover it read by read.
- The reply to the applet SELECT is ignored, as in the source, and nothing about it is checked.
- Session.RecordRoundTrip: parsing the record back needs values without a newline. main does not check this, so a value holding a newline could make the record ambiguous.
- main is one function in the source. Here it is three methods (`ReadCard`, `ReadSelected`, `ReadRecord`) that run the same statements in the same order.
