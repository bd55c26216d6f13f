# A verified model of the IEC 61850 stack

This project models the Go IEC 61850 stack in Dafny and proves what its layers promise each other: what a decoder
recovers from an encoder, what a receiver recovers from a stream, what the server's names lead back to, and what every
run of the server and of the client keeps. `dafny verify dfyconfig.toml` checks everything.

## What is modelled

The files follow the layers of the stack.

| layer | files |
|---|---|
| octet strings, positional arithmetic, powers of two | Bytes, BerIntegers, Powers |
| BER tags, lengths, TLVs (ITU-T X.690) | Ber |
| readers of a peer: element trees, one-octet parameters | BerTrees, OctetParameters |
| floating-point bit patterns | Floats |
| MMS values: codec, normalisation | MmsValues, MmsValueRoundTrip |
| MMS PDUs: read, write, error, name list | MmsPdus, MmsPduRoundTrip, MmsWire |
| paged name listing | Paging |
| information reports | Reports, ReportRoundTrip, ReportDelivery, ReportMembers, ReportOverflow, ReportReasons, ReportOptions, ReportWire |
| COTP over TPKT (ISO 8073, RFC 1006) | Cotp, CotpStream |
| session, presentation, ACSE | Layers, LayerStack, Acse, LayerFaults, LayerWire, AcseWire |
| GOOSE PDUs, frames, publisher, receiver | Goose, GooseRoundTrip, GooseWire |
| data model, lookup and its cache | Texts, Model, FindNode |
| named variables and their resolution | NameList, NameListing, ListedNames, NameResolution |
| type and value of a logical node | Walks, WalksAgree, WalksNamed, WalkLoops |
| server: connections, control blocks, reports | Server, ServerRuns, ServerRaces, ServerReports, ReportRuns, ConfiguredReports |
| client: outstanding calls | Client, ClientRuns |
| value objects: bits, elements, deep copy | ValueObjects |

Five conventions run through all of them.

* A Go function that can return an error, or slice out of range, returns `Result = Ok | Err | Panic`. `Panic` stands for
  the run-time fault; the code's own length truncations (`byte(n)`, 16-bit length fields, 64-bit wrap-around) are written
  out as `% 256`, `% 0x1_0000` and `Wrap64`.
* A received slice that some parser slices again without a check is a `View`: the octets its length shows, and those its
  capacity reaches behind them. `Cut` slices it as Go does, against the capacity. Theorems about received octets hold
  for every content of the memory behind them.
* A loop of the source is a method with the same loop, proved equal to a recursive specification function; the theorems
  are about that function. Objects whose methods update fields (COTP connection, publisher, subscriber, receiver, data
  model, server, client connection, value) are classes.
* Round trips are stated through an explicit normalisation (`Norm`, `NormTime`, `NormPDU`, `Recovered`), because the
  encoders mask or drop some fields. Where the code meets a property only on part of its inputs, the exact condition is
  proved in both directions.
* A round trip says nothing about what the receiver skips. So what is sent is also read by a peer that shares no
  definition with the program: by element trees with the tags of the standards (`Reads`, in lemmas named `OnWire`), by
  one-octet parameters, by an Ethernet bridge, by bit numbers, by the width octet of a floating-point number.

## Results worth knowing

* A value tree decodes to its normal form if and only if it holds no data-access error. On arbitrary octets
  none of the decoder's slices is out of range.
* The parsers of confirmed PDUs, of connect PPDUs and of AARQs slice without a check. They fault exactly when a length
  reaches past the capacity (`ConfirmedFaultsExactly`, `PpduFaultsExactly`, `AarqFaultsExactly`); when it reaches past
  the slice only, they take what lies behind for part of the PDU (`ConfirmedReadsOn`, `PpduReadsOn`, `AarqReadsOn`). A
  response that is two octets short is read with two trailing octets of its SPDU (`TrailingOctetsRead`).
* For the same reason a PDU can survive truncated lengths. Session over presentation shows the receiver the PDU's length
  modulo 65536, if that is at most 65524; the parser then reads the whole PDU whenever its tag and length are in view
  (`PduCarriedExactly`). The server recovers the initiate PDU of a request with an ACSE password of at most 87 octets, of
  65463 to 65613, and, up to 16 MB, of the same window around every further multiple of 65536, and of no other
  (`PasswordWindows`).
* A report's members, when they all encode, arrive if and only if there are 1 to 1008 of them and the report is
  `Faithful`: no entry ID, no data-access error, references paired with equal values, and behind the first bit string no
  slip between members and reasons. Beyond 1008 members the inclusion field's one-octet length wraps, and the client
  misses at least one member, mostly all of them; a report of an empty data set reads as eight nil values. Members that
  do not encode shift the others (`GapsClose`).
* Of the reasons for inclusion, which the builder puts behind all members and the client expects behind each, the client
  gives the first to the last member and drops the others: they arrive if and only if there is one member
  (`ReasonsArriveExactly`).
* After a client has enabled a block, each change in the block's data set starts one report for it, which is built when
  its turn comes, whatever else happens in between (`ChangeIsReported`); no other update starts one
  (`ReportsHaveCauses`). From a new server on, the client reads the report ID, data set and revision that were configured,
  and the values read when the report was built (`ConfiguredReportArrives`).
* Every MMS PDU travels under the presentation context bound to MMS, and every ACSE PDU under the one bound to ACSE
  (`ContextsBound`).
* Under its constraint and the names on its path a client finds every attribute's value, in the value of a logical node
  with distinct sibling names and no constructed arrays (`AttributeFoundByName`); and these names, with the groups and
  objects above them, are exactly what is listed (`NodeListsExactly`).
* COTP delivers every payload at size codes 2 to 15 and at no others.
* A GOOSE frame is delivered if and only if its PDU has at most 65527 octets and its data hold no data-access error.
* A cached lookup never returns a wrong node, but a reference that was missed before its node existed stays missing.
* Type and value of a logical node agree if and only if object names are distinct under each constraint, no constructed
  attribute is an array, and there is at most one buffered control block.
* "Somebody subscribes exactly when RptEna is true" holds for every run whose handlers are atomic. When `writeVariable`,
  which touches the control block without the lock, is interleaved, it holds throughout a run if and only if every last
  binding of a block finds RptEna as its handler read it; it suffices that between test and binding no subscriber of the
  block leaves and no other handler writes RptEna to it. That a subscriber is connected, the connection limit, and the
  reset of GI survive every interleaving.
* A client call drawn after the read loop has failed is never told of the failure, in any run; it ends by a send error,
  its timeout or the closing of the connection.
* The page loop of the client ends, with the names in order, if and only if every full page ends in a name that is not
  empty and does not occur before; otherwise it collects names twice or goes round for ever.

Where code and comments disagree, the model follows the code. `Config.MaxConnections` says that 0 means the default of
ten; `acceptLoop` then admits nobody (`ZeroAdmitsNobody`). The walks skip constraints that print as `NONE`, but `FC_NONE`
prints as `FC(-1)`, so nothing is skipped (type `FCName`).

## Model

| member | source | states |
|---|---|---|
| `BerIntegers.EncodeIntegerBytes` | pkg/asn1ber/asn1ber.go:251-273 | the shift loop gives the two's-complement content of every int64 |
| `BerIntegers.EncodeBigIntContent` | pkg/asn1ber/asn1ber.go:451-474 | the magnitude, complement and carry route gives the same content for every unbounded integer, so both encoders agree octet for octet on int64 |
| `BerIntegers.Complement` | pkg/asn1ber/asn1ber.go:457-468 | the in-place complement loop with its carry, octet for octet |
| `BerIntegers.MinimalContentUnique` | pkg/asn1ber/asn1ber.go:251-273 | an octet string is the content of v if and only if it has v as its signed value and is minimal (X.690 section 8.3) |
| `BerIntegers.EncodeUnsignedContent` | pkg/mms/encode.go:297-310 | the unsigned encoder of MMS values (and of GOOSE) writes the same minimal content |
| `BerIntegers.EncodeUnsignedTrimmed` | pkg/asn1ber/asn1ber.go:303-317 | the zero-trimming unsigned encoder writes the same minimal content |
| `BerIntegers.DecodeInteger` | pkg/asn1ber/asn1ber.go:276-288 | the shift loop computes the signed value of any content modulo 2^64, and fails on empty content |
| `BerIntegers.IntegerRoundTrip` | pkg/asn1ber/asn1ber.go:246-288 | DecodeInteger inverts encodeIntegerBytes on every int64 |
| `BerIntegers.Uint32RoundTrip` | pkg/asn1ber/asn1ber.go:291-317 | DecodeUint32 inverts the unsigned encoders on every 32-bit number, in at most five octets |
| `Ber.EncodeTag` | pkg/asn1ber/asn1ber.go:82-104 | the two digit loops write the identifier octets of X.690 section 8.1.2 |
| `Ber.DecodeTag` | pkg/asn1ber/asn1ber.go:171-196 | the base-128 loop, on any octets and offset |
| `Ber.TagRoundTrip` | pkg/asn1ber/asn1ber.go:82-196 | any class and any tag number below 2^63 is read back from anywhere in a buffer, and reading stops behind it |
| `Ber.DecodeLength` | pkg/asn1ber/asn1ber.go:142-167 | the length loop, on any octets and offset |
| `Ber.LengthRoundTrip` | pkg/asn1ber/asn1ber.go:107-167 | every length below 2^32 is read back (X.690 section 8.1.3) |
| `Ber.TLVRoundTrip` | pkg/asn1ber/asn1ber.go:207-221 | a TLV anywhere in a buffer is read back whole, and reading stops at its end |
| `Ber.ParseAll` | pkg/asn1ber/asn1ber.go:430-442 | the TLV loop terminates on any octets and returns what it found and whether it reached the end |
| `Ber.ParseAllInvertsEncoding` | pkg/asn1ber/asn1ber.go:412-442 | ParseAll inverts every concatenation of encodable TLVs |
| `Floats.NarrowExact` | pkg/mms/encode.go:78-92 | a 64-bit pattern is sent in 32 bits exactly when widening those 32 bits gives it back |
| `Floats.WidenKeepsNumber` | pkg/mms/encode.go:186-200 | the 64-bit pattern made of a 32-bit one denotes the same number: sign, mantissa and power of two, infinity, or no number |
| `MmsValues.EncodeUTCTime` | pkg/mms/encode.go:313-331 | the buffer filled by index holds seconds, three fraction octets and the quality octet |
| `MmsValues.EncodeElementsLoop` | pkg/mms/encode.go:269-279 | the append loop is the concatenation of the element encodings, or the first error |
| `MmsValues.DecodeElements` | pkg/mms/encode.go:254-266 | the element loop, on any octets |
| `MmsValues.DecodeValue` | pkg/mms/encode.go:148-251 | on arbitrary octets a success moves the offset forward by at least two octets and stays inside the buffer |
| `MmsValues.NormIdempotent` | pkg/mms/encode.go:58-144 | what survives the wire once survives it unchanged |
| `MmsValueRoundTrip.ValueRoundTrip` | pkg/mms/encode.go:58-279 | wherever the encoding of a value stands, decoding stops exactly at its end with the normalised value, and fails if and only if the tree holds a data-access error |
| `MmsValueRoundTrip.ListRoundTrip` | pkg/mms/encode.go:254-279 | the same for the list filling a whole buffer |
| `MmsValueRoundTrip.EncodingInjective` | pkg/mms/encode.go:58-144 | equal octets mean equal normalised values |
| `MmsValueRoundTrip.EncodingPrefixFree` | pkg/mms/encode.go:58-144 | no encoding is a proper prefix of another |
| `MmsValueRoundTrip.ValueNeverFaults` | pkg/mms/encode.go:148-266 | on arbitrary octets no slice or index of the value decoder is out of range |
| `MmsValueRoundTrip.FloatDenotes` | pkg/mms/encode.go:78-92 | a reader that takes the exponent width from the first octet finds in the content of every float the number its 64-bit pattern denotes |
| `MmsWire.ValueOnWire` | pkg/mms/encode.go:58-144 | every value is sent as the element of ISO 9506-2 for its kind, with octets that mean the value leaf by leaf |
| `Ber.TLVNeverFaults` | pkg/asn1ber/asn1ber.go:142-221 | on arbitrary octets no slice of ParseTLV, DecodeTag or DecodeLength is out of range |
| `MmsPdus.EncodeSpecsLoop` | pkg/mms/pdu.go:390-411 | the loop over variable specifications of a request |
| `MmsPdus.ParseReadResponseLoop` | pkg/mms/pdu.go:502-538 | the access-result loop of the client |
| `MmsPdus.ParseWriteRequestContent` | pkg/mms/server_pdu.go:319-363 | the outer loop of the server's write parser, with its section counter |
| `MmsPdus.ParseGetNameListResponse` | pkg/mms/pdu.go:541-570 | the response loop of the client |
| `MmsPduRoundTrip.ConfirmedRoundTrip` | pkg/mms/server_pdu.go:56-88 | invoke ID, service tag and service content survive the confirmed envelope, requests and responses alike |
| `MmsPduRoundTrip.ErrorRoundTrip` | pkg/mms/server_pdu.go:470-502 | an error PDU keeps its invoke ID and always reads as error code 0, whatever the error was |
| `MmsPduRoundTrip.ConfirmedFaultsExactly` | pkg/mms/pdu.go:468-476 | the parsers of confirmed PDUs fault exactly on an empty slice and on a PDU of the expected tag whose length reaches past the capacity of the slice |
| `MmsPduRoundTrip.ConfirmedReadsOn` | pkg/mms/server_pdu.go:56-65 | whenever the length of a PDU is in view, the parsers read it as if everything in memory behind it were in view |
| `MmsPduRoundTrip.PartBody` | pkg/mms/pdu.go:468-476 | of a PDU of which a slice shows the first n octets the parser reads the whole body if and only if its length is in view |
| `MmsPduRoundTrip.ReadRequestRoundTrip` | pkg/mms/pdu.go:390-411 | the server recovers the invoke ID and every requested name in order |
| `MmsPduRoundTrip.NamesRecoveredExactly` | pkg/mms/server_pdu.go:368-415 | names come back unchanged if and only if none has an item behind an empty domain |
| `MmsPduRoundTrip.ReadResponseRoundTrip` | pkg/mms/server_pdu.go:616-637 | the client recovers every mix of failures and normalised values in order, and rejects the response if and only if some success cannot be read |
| `MmsPduRoundTrip.FailureMarkDistinct` | pkg/mms/pdu.go:513-530 | no value encoding starts with the octet that marks a failed access |
| `MmsPduRoundTrip.WriteRequestRoundTrip` | pkg/mms/pdu.go:414-436 | the server recovers every name, and every value up to the first data-access error |
| `MmsPduRoundTrip.DeliverableExactly` | pkg/mms/server_pdu.go:340-363 | all values arrive if and only if none holds a data-access error |
| `MmsPduRoundTrip.NameListContentRead` | pkg/mms/pdu.go:440-464 | object class, scope, domain and continuation point of a name request survive |
| `MmsPduRoundTrip.NameListRead` | pkg/mms/server_pdu.go:658-676 | the names of a page and its moreFollows flag survive |
| `MmsWire.ConfirmedOnWire` | pkg/mms/pdu.go:621-633 | a confirmed PDU is one element around the invoke ID, a universal INTEGER, and the element of its service |
| `MmsWire.ReadRequestOnWire` | pkg/mms/pdu.go:390-411 | read is service 4 around the list of variables in order, each named by domain and item |
| `MmsWire.ReadResponseOnWire` | pkg/mms/server_pdu.go:616-637 | its response holds the results in order, a value that does not encode as access denied |
| `MmsWire.WriteRequestOnWire` | pkg/mms/pdu.go:414-436 | write is service 5 around the variables and then the values |
| `MmsWire.NameRequestOnWire` | pkg/mms/pdu.go:440-464 | a name request is service 1 around object class, scope and continuation point |
| `MmsWire.NameResponseOnWire` | pkg/mms/server_pdu.go:658-676 | its response holds the names in order and whether more follow |
| `MmsWire.ErrorOnWire` | pkg/mms/server_pdu.go:470-502 | an error PDU holds invoke ID, class and code of the error |
| `Paging.CutPage` | pkg/iec61850/server/server.go:846-876 | the continueAfter search and the budget loop cut the page of the specification |
| `Paging.ExchangeIsPage` | pkg/iec61850/server/server.go:822-877 | request, page and response as octets: the client understands exactly the page |
| `Paging.NextPage` | pkg/iec61850/server/server.go:846-876 | behind a clean cut a page starts with the next name, makes progress unless no page can hold that name, and says truly whether more follows |
| `Paging.CutExactly` | pkg/iec61850/server/server.go:846-858 | asking on after a name yields exactly the rest of the list if and only if that name is not empty and does not occur before |
| `Paging.GetNameList` | pkg/iec61850/client/client.go:389-430 | when every full page ends in a clean cut, the client loop over the wire terminates with the names in order, up to the first that no page can hold |
| `Paging.DistinctIsClean` | pkg/iec61850/server/server.go:846-858 | distinct non-empty names make every cut clean |
| `Paging.EmptyNameNeverEnds` | pkg/iec61850/client/client.go:389-430 | a full first page that ends in an empty name is requested and appended again for ever |
| `Paging.RepeatedNameNeverEnds` | pkg/iec61850/client/client.go:389-430 | so is a page that ends in a name of its own beginning, when the page behind the first occurrence ends in it too |
| `Paging.BrowsingExactly` | pkg/iec61850/client/client.go:389-430 | some turn of the loop ends it with the names in order, up to the first that no page can hold, if and only if every full page ends in a clean cut |
| `Paging.EmptyNameListed` | pkg/iec61850/server/server.go:846-876 | a listing whose first page ends in an empty name exists |
| `Paging.RepeatedNameListed` | pkg/iec61850/server/server.go:846-876 | so does one whose page ends in a repeated name |
| `Paging.ServablePrefixExactly` | pkg/iec61850/server/server.go:861-874 | that is the whole list if and only if every name fits the budget |
| `Paging.PageSizeBound` | pkg/iec61850/server/server.go:861-876 | names shorter than 128 octets keep every response PDU within 60022 octets |
| `Reports.MakeInclusionField` | pkg/mms/server_pdu.go:991-1008 | the array filled with ones and masked in its last octet |
| `Reports.BuildInformationReport` | pkg/mms/server_pdu.go:810-920 | the append loops build the report PDU of the specification |
| `ReportWire.TimeKept` | pkg/mms/server_pdu.go:957-983 | days and milliseconds of a report say the second of its time stamp, from 1984 on; before, only the second of the day |
| `ReportWire.ReportOnWire` | pkg/mms/server_pdu.go:810-920 | a report is the list named RPT with the fields that the bits of OptFlds ask for in order, then references, members and reasons |
| `ReportOptions.OptionsRead` | pkg/iec61850/server/server.go:255-284 | both sides read optional fields as configured |
| `ReportOptions.OptionsByBits` | pkg/iec61850/client/client.go:1077-1140 | they stand at bits 1 to 8 of the bit string |
| `ReportOptions.TriggersRead` | pkg/iec61850/server/server.go:233-253 | both sides read trigger options as configured |
| `ReportOptions.TriggersByBits` | pkg/iec61850/client/client.go:1030-1075 | they stand at bits 1 to 5 |
| `Reports.ParseMembers` | pkg/iec61850/client/client.go:1290-1336 | the member loop of the report parser, with its reference and reason skips |
| `ReportRoundTrip.BodyIsItemList` | pkg/mms/server_pdu.go:810-920 | the report body is the encoding of a list of values: fields, references, members, reasons |
| `ReportRoundTrip.ReportIsItemParse` | pkg/iec61850/client/client.go:1175-1341 | what the client reports depends on that list alone |
| `ReportOverflow.ReportDelivered` | pkg/iec61850/client/client.go:1200-1341 | for any number of members: report ID and every optional header field are recovered; if all members encode, they are recovered, normalised and in order, if and only if there are 1 to 1008 and the report is Faithful (or none and an entry ID hides the inclusion field); if not, up to 1008 slots are filled as Found says; no members without entry ID read as eight nil values |
| `ReportOverflow.LongReportEmpty` | pkg/mms/server_pdu.go:985-1008 | beyond 1008 members nothing at all arrives, unless the wrapped length octet of the inclusion field is 0x82 to 0x84 |
| `ReportMembers.PlainReportDelivered` | pkg/mms/server_pdu.go:810-920 | without entry ID and references, and with reasons only if no later member is a bit string, all members are recovered |
| `ReportMembers.GapsClose` | pkg/mms/server_pdu.go:884-889 | in a plain report the members that encode close up and nils fill the last slots, so that the members are recovered if and only if all that do not encode are nil pointers at the end |
| `ReportMembers.UniformSlip` | pkg/iec61850/client/client.go:1306-1336 | with one reason for all, a bit string member shifts members against reasons unnoticed only if every later member equals the reason |
| `ReportMembers.InclusionBits` | pkg/mms/server_pdu.go:991-1008 | bit i of the inclusion field is set for every member of a general interrogation and for none otherwise |
| `ReportMembers.NoneIncluded` | pkg/iec61850/client/client.go:1294-1304 | a report that is no general interrogation delivers no member value |
| `ReportReasons.ReasonsArriveExactly` | pkg/iec61850/client/client.go:1306-1336 | in a report of members other than bit strings the client gives the first member's reason to the last and none to the others, so that the server's reasons arrive if and only if there is one member |
| `Cotp.Conn.Send` | pkg/cotp/cotp.go:142-155 | the slicing loop writes the packets of the specification, or faults at a negative chunk size |
| `Cotp.Conn.Receive` | pkg/cotp/cotp.go:159-175 | the reassembly loop, on any input, with its new read position |
| `Cotp.Conn.ParseCR` | pkg/cotp/cotp.go:276-304 | the option loop records the remote reference and lowers the size code |
| `Cotp.Conn.Accept` | pkg/cotp/cotp.go:124-137 | reads one request and confirms it with the negotiated options |
| `CotpStream.SendsAreReceived` | pkg/cotp/cotp.go:142-175 | at size codes 2 to 15 any sequence of sends is received in order and every octet is consumed |
| `CotpStream.SizeCodesExactly` | pkg/cotp/cotp.go:142-232 | these are exactly the codes at which every payload survives |
| `CotpStream.WireIsPackets` | pkg/cotp/cotp.go:142-155 | what Send writes are the packets of its segments |
| `CotpStream.SegmentShape` | pkg/cotp/cotp.go:142-155 | max(1, ceil(n / chunk)) segments, only the last marked, all but the last full, together the payload |
| `CotpStream.PacketSize` | pkg/cotp/cotp.go:202-211 | no packet exceeds 2^code + 4 octets |
| `CotpStream.HandshakeNegotiates` | pkg/cotp/cotp.go:276-304 | the server learns the client's reference and settles on the smaller code |
| `CotpStream.HandshakeUsable` | pkg/cotp/cotp.go:276-315 | both directions work afterwards if and only if the client proposed 2 to 15 and the server at least 2 |
| `CotpStream.ConnectByTheStandard` | pkg/cotp/cotp.go:235-272 | a request or confirm says its own length and kind, both references, class 0, and as parameters the proposed size and the selectors of caller and called under their codes |
| `CotpStream.KindsByTheStandard` | pkg/cotp/cotp.go:202-331 | packets, data segments, requests and confirms carry the codes, lengths and end marks of RFC 1006 and ISO 8073 |
| `Layers.ExtractUserData` | pkg/isosession/session.go:134-155 | the parameter loop of the session layer |
| `Layers.ParseFullyEncodedLoop` | pkg/isopresentation/presentation.go:322-361 | the element loop of the presentation layer |
| `LayerStack.DataPathExactly` | pkg/isopresentation/presentation.go:204-251 | session over presentation hands on a slice that starts with the MMS PDU and shows as many octets as its length modulo 65536, if that is at most 65524, and nothing otherwise |
| `LayerStack.PduCarriedExactly` | pkg/iec61850/client/client.go:798-826 | the receiver reads the body of an MMS PDU that went through the layers if and only if its length modulo 65536 is at most 65524 and covers tag and length, as for every PDU of at most 65524 octets |
| `LayerStack.SpduYields` | pkg/isosession/session.go:67-202 | a connect or accept SPDU hands on a slice that starts with its presentation PDU and shows as many octets as its length modulo 256, if that fits behind the parameters, and nothing otherwise |
| `LayerStack.SpduExactly` | pkg/isosession/session.go:67-202 | it shows the whole presentation PDU if and only if the length fits one octet |
| `LayerStack.PpduYields` | pkg/isopresentation/presentation.go:120-361 | from the first v octets of a connect or accept PPDU its reader gets a slice of the ACSE PDU, showing its length modulo 65536, exactly when v covers the wrapped lengths |
| `LayerWire.SpduOnWire` | pkg/isosession/session.go:67-187 | a connect or accept SPDU that its one-octet lengths can hold says its length, protocol version, functional unit, the selectors of its kind, and the user data |
| `LayerWire.UserDataOnWire` | pkg/isopresentation/presentation.go:204-251 | an MMS PDU of up to 65524 octets is one presentation data value of context 3 behind the two session headers of a data transfer |
| `LayerWire.PpduOnWire` | pkg/isopresentation/presentation.go:69-152 | connect and accept PPDUs hold mode, selectors, the proposed contexts or as many acceptances, and the ACSE PDU under context 1 |
| `LayerWire.ContextsBound` | pkg/isopresentation/presentation.go:43-293 | for PDUs of every size: MMS data carry the identifier that the connect PPDU binds to the MMS syntax, ACSE data in both directions the one bound to the ACSE syntax, and the two differ |
| `Acse.AarqYields` | pkg/mms/server_pdu.go:90-143 | from the first n octets of an AARQ the server recovers the initiate PDU, with or without a password, if and only if the length of the AARQ is in view |
| `Acse.RequestExactly` | pkg/acse/acse.go:84-118 | through all layers it does so if and only if 22 plus the presentation length fits one octet, or the AARQ has 64 KiB or more and a length modulo 65536 between that of its header and 156; otherwise it returns an error |
| `Acse.ResponseExactly` | pkg/acse/acse.go:122-205 | the client recovers the initiate PDU of a response if and only if 18 plus the presentation length fits one octet, whatever its size, and returns an error otherwise |
| `Acse.PasswordLimit` | pkg/acse/acse.go:84-118 | with the PDUs really sent, the server recovers the initiate PDU of a request with a password if and only if PasswordPasses; the anonymous request and the response always get through |
| `Acse.PasswordWindows` | pkg/acse/acse.go:84-118 | below 16 MB these are the passwords of at most 87 octets, of 65463 to 65613, and of the same window around every further multiple of 65536 |
| `AcseWire.AarqOnWire` | pkg/acse/acse.go:84-118 | a request names the MMS application context, the password under its mechanism if there is one, and carries the PDU under context 3 |
| `AcseWire.PasswordReads` | pkg/acse/acse.go:95-106 | a peer reads the password if and only if it has at most 127 octets |
| `AcseWire.AareOnWire` | pkg/mms/server_pdu.go:428-457 | a response says accepted without diagnostic and carries the PDU likewise |
| `AcseWire.InitiateOnWire` | pkg/mms/pdu.go:230-264 | the initiate PDU proposes 65000 octets, five calls either way, nesting 10, version 1, and the supported parameters and services |
| `LayerFaults.PpduFaultsExactly` | pkg/isopresentation/presentation.go:155-319 | a connect or accept PPDU makes its reader fault if and only if its own length holds but its normal-mode parameters, or the user data inside them, reach past the capacity of the received slice |
| `LayerFaults.PpduReadsOn` | pkg/isopresentation/presentation.go:155-319 | otherwise both are sliced out of memory, past the ends of the PPDU and of the parameters |
| `LayerFaults.ParametersReadOn` | pkg/isopresentation/presentation.go:295-319 | normal-mode parameters that end inside the user data do not keep the reader from it |
| `LayerFaults.AarqFaultsExactly` | pkg/mms/server_pdu.go:90-120 | an AARQ makes the server fault if and only if it claims more than the received slice has capacity for |
| `LayerFaults.AarqReadsOn` | pkg/mms/server_pdu.go:90-120 | otherwise, where its length is in view, it is read as if everything behind it were |
| `LayerFaults.TrailingOctetsRead` | pkg/mms/pdu.go:468-495 | a response of five octets that claims seven, followed by two in its SPDU, is taken for a response to call 1 |
| `Goose.DecodeFields` | pkg/goose/goose.go:201-262 | the field loop of DecodePDU, on any octets |
| `Goose.Publisher.Publish` | pkg/goose/goose.go:353-370 | the state after a publication and the frame handed to the socket, or none on an encoding error |
| `Goose.Publisher.Retransmit` | pkg/goose/goose.go:374-384 | only the sequence number moves, modulo 2^32 |
| `Goose.Subscriber.Dispatch` | pkg/goose/goose.go:422-438 | the listener is called once if both filters match and there is one, and not otherwise |
| `Goose.Receiver.HandleFrame` | pkg/goose/goose.go:501-537 | every registration of a matching subscriber gets the PDU once, every other subscriber nothing |
| `GooseRoundTrip.PduRoundTrip` | pkg/goose/goose.go:133-262 | DecodePDU inverts EncodePDU up to normalisation; it fails if and only if the data hold a data-access error |
| `GooseRoundTrip.TruncatedPduFails` | pkg/goose/goose.go:201-218 | a PDU cut short anywhere is rejected |
| `GooseRoundTrip.FrameRoundTrip` | pkg/goose/goose.go:99-198 | a receiver gets the published PDU, with or without VLAN tag, if and only if it has at most 65527 octets and no data-access error |
| `GooseRoundTrip.RegisteredOnce` | pkg/goose/goose.go:460-464 | a subscriber added once is registered once |
| `GooseRoundTrip.CountersOverRun` | pkg/goose/goose.go:353-384 | over any run StNum counts publications and SqNum the repetitions of the last one, modulo 2^32 |
| `GooseRoundTrip.RepeatsCarrySameState` | pkg/goose/goose.go:374-384 | repetitions change nothing but the sequence number |
| `GooseRoundTrip.PublicationReaches` | pkg/goose/goose.go:353-438 | a publication reaches a listener once if application ID and control block match, and not otherwise, with the values, their number and time, the next state number and the publisher's settings |
| `GooseWire.FrameAddressed` | pkg/goose/goose.go:99-130 | every frame goes to the configured address and comes from the publisher's, with priority and VLAN in a tag exactly when one is not zero |
| `GooseWire.PayloadHeader` | pkg/goose/goose.go:116-130 | behind the Ethernet header: application ID, length, two zero fields, the PDU |
| `GooseWire.PduOnWire` | pkg/goose/goose.go:133-182 | the PDU is one element of application class and number 1 around its fields, each under its own context tag |
| `Model.IedModel.FindNode` | pkg/iec61850/model/model.go:123-144 | one cached lookup: its answer and the new cache, misses included |
| `FindNode.FoundExactly` | pkg/iec61850/model/model.go:187-404 | findInLD, findInLN, findInDO and findInDA find exactly the position whose names are the parts, each the first of its name |
| `FindNode.FindExactly` | pkg/iec61850/model/model.go:123-144 | the same for whole references, device name and separators included |
| `FindNode.FoundPath` | pkg/iec61850/model/model.go:228-381 | the path of a found node is the reference, with `$` read as a dot |
| `FindNode.PathFindsNode` | pkg/iec61850/model/model.go:228-381 | a node with separator-free names is found under its own path if and only if no twin sibling precedes it or an ancestor |
| `FindNode.DistinctSiblingsSuffice` | pkg/iec61850/model/model.go:187-404 | distinct sibling names rule twins out at every depth |
| `FindNode.FoundStays` | pkg/iec61850/model/model.go:77-79 | growing the model never changes what a reference finds once it finds something |
| `FindNode.CacheRefinesSearch` | pkg/iec61850/model/model.go:123-144 | after any run of lookups and growth the cached answer is that of the first lookup, and equals the uncached search unless a miss has since come into existence |
| `FindNode.FixedModel` | pkg/iec61850/model/model.go:123-144 | on a model that no longer grows the cache is invisible |
| `FindNode.MissGoesStale` | pkg/iec61850/model/model.go:105-144 | a device added after it was asked for is not found |
| `NameListing.CollectGroups` | pkg/iec61850/server/server.go:905-925 | whatever order the constraint sets are iterated in, each constraint is listed once with its objects in model order |
| `NameListing.CollectDANames` | pkg/iec61850/server/server.go:965-973 | the recursion appends an attribute and everything below it |
| `NameListing.NamedVariablesForDomain` | pkg/iec61850/server/server.go:889-962 | the nested loops produce the sorted names of the specification, independent of map order |
| `ListedNames.NodeListsExactly` | pkg/iec61850/server/server.go:889-973 | a logical node lists the group of every constraint that occurs, the objects with an attribute of it, these attributes with everything below them, the control block group if there are blocks, and nothing else |
| `ListedNames.DeviceListsExactly` | pkg/iec61850/server/server.go:889-962 | a device lists what its logical nodes list |
| `NameResolution.EntryResolvesExactly` | pkg/iec61850/server/server.go:889-1455 | a listed name resolves to the node, group or control blocks that emitted it, if and only if its constraint is not BR or it names the control block group of a node that has one; a BR group name that an attribute emitted beside a control block therefore resolves to the control blocks |
| `NameResolution.BRAttributeUnreadable` | pkg/iec61850/server/server.go:1426-1429 | an attribute of constraint BR without control blocks is listed and cannot be read |
| `NameResolution.ListingIncreasing` | pkg/iec61850/server/server.go:889-962 | with distinct siblings and no BR attribute beside a control block, the list is strictly increasing and holds exactly the emitted names |
| `NameResolution.Browse` | pkg/iec61850/client/client.go:384-430 | under the same conditions a client that pages through a domain gets the whole listing, up to the first name no page can hold |
| `NameResolution.ReferenceResolves` | pkg/iec61850/client/client.go:877-916 | what the server reads for a client's reference is what the dotted reference names in the device serving the domain |
| `NameList.ReplaceDots` | pkg/iec61850/client/client.go:918-928 | the byte loop replaces dots and nothing else |
| `WalkLoops.CollectRows` | pkg/iec61850/server/server.go:1124-1165 | the type walk's three tables after its nested loops |
| `WalkLoops.BuildTypeSpecLN` | pkg/iec61850/server/server.go:1122-1206 | groups in sorted order with the control block group in its place |
| `WalkLoops.BuildStructureFromLNWithBR` | pkg/iec61850/server/server.go:1826-1895 | the value walk, with its own collection, sorting and placing |
| `WalksAgree.AttributeMatches` | pkg/iec61850/server/server.go:1261-1283 | type and value of one attribute agree if and only if no constructed attribute at or below it is an array |
| `WalksAgree.WalksAgreeExactly` | pkg/iec61850/server/server.go:1122-1206 | type and value of a logical node agree in shape, order and attributes if and only if objects have distinct names and regular attributes under each constraint and there is at most one buffered control block |
| `WalksNamed.AttributeFoundByName` | pkg/iec61850/server/server.go:1122-1895 | with distinct siblings, going down the type by constraint and names and down the value by the same steps leads to the value of every attribute at any depth, unless a constructed array or the control blocks are in the way |
| `WalksNamed.TypeInOrder` | pkg/iec61850/server/server.go:1122-1206 | the type lists exactly the constraints that occur, and BR for control blocks, in ascending order, and under each exactly the objects with an attribute of it in ascending order |
| `Server.IedServer.Accept` | pkg/iec61850/server/server.go:509-540 | one turn of the accept loop: the ID is used up either way, the connection kept only below the limit |
| `Server.IedServer.RemoveConn` | pkg/iec61850/server/server.go:542-554 | in any iteration order, the connection goes and its subscriptions with RptEna are cleared |
| `Server.IedServer.WriteControl` | pkg/iec61850/server/server.go:1672-1704 | the whole new state of a control block write, and the report it starts |
| `Server.IedServer.UpdateAttributeValue` | pkg/iec61850/server/server.go:420-435 | in any iteration order, exactly the listening blocks with data-change trigger and affected data set start a report; a TrgOps that is no bit string faults |
| `Server.IedServer.SendReport` | pkg/iec61850/server/server.go:1587-1662 | a started report is dropped for a departed connection or a missing data set, faults on fields of the wrong type, and is otherwise counted and built with the parameters that BuildInformationReport gets |
| `ServerReports.UpdateStartsExactly` | pkg/iec61850/server/server.go:420-435 | an update adds one task per connection and block that is enabled, has trigger bit 1 set and an affected data set, and no other; it faults if and only if an enabled block's trigger options are no bit string |
| `ServerReports.WriteDoesExactly` | pkg/iec61850/server/server.go:1672-1704 | a write sets one field of one block, GI excepted; RptEna makes the writer the subscriber or nobody; a general interrogation of an enabled block starts one report for the writer |
| `ServerReports.LeaveDoesExactly` | pkg/iec61850/server/server.go:542-554 | a disconnect releases the blocks of its connection and no others |
| `ServerReports.AcceptDoesExactly` | pkg/iec61850/server/server.go:509-540 | a new connection joins the others below the limit |
| `ServerReports.SendDoesExactly` | pkg/iec61850/server/server.go:1587-1668 | a started report is dropped, faults, or is built with the values read and counted in its block |
| `ServerReports.ChangeIsReported` | pkg/iec61850/server/server.go:420-435 | between enabling a block and the report of a later change, whatever steps intervene that leave subscription and triggers alone: the update starts exactly one report for the writer, which is built when its turn comes |
| `ServerReports.InterrogationIsReported` | pkg/iec61850/server/server.go:1695-1701 | so is the report a general interrogation asks for |
| `ServerReports.ReportsHaveCauses` | pkg/iec61850/server/server.go:420-435 | over any run the reports built or pending for a connection and block are no more than the changes in the block's data set and that connection's interrogations |
| `ConfiguredReports.ConfiguredReportArrives` | pkg/iec61850/server/server.go:286-355 | from a new server on, in any run that leaves a block's settings alone, every report its subscriber reads has the configured report ID, data set and revision, its position for a number, and, if it Arrives, the values read by the step that built it |
| `ReportRuns.RunReportsArrive` | pkg/iec61850/server/server.go:1587-1668 | every report that any run builds for a block whose SqNum nobody writes is read by its subscriber if and only if its length modulo 65536 is at most 65524 and covers its tag and length (as for every report of at most 65524 octets), with its header, numbered by its place in the run modulo 65536, and with its members if and only if it Arrives |
| `ServerRuns.RunSound` | pkg/iec61850/server/server.go:509-554 | over every run of atomic handlers: the connection limit, a subscriber exactly when RptEna is true and then connected, GI never pending, for arbitrary written values |
| `ServerRuns.StartSound` | pkg/iec61850/server/server.go:286-355 | a new server, whatever its control blocks are configured to be, is where such runs start: nobody subscribes, nothing is enabled or reported, every block will number its reports from 1 |
| `Server.MakeBlocks` | pkg/iec61850/server/server.go:343-354 | the loop over the configured control blocks: buffered ones only, the later of two with one name |
| `ServerRuns.ZeroAdmitsNobody` | pkg/iec61850/server/server.go:529-534 | a limit of zero admits nobody in any run |
| `ServerRuns.DepartedIsForgotten` | pkg/iec61850/server/server.go:542-554 | from a disconnect on, in every further run: the connection does not come back, no block has it for a subscriber, and no report is built for it, not even one started before |
| `ServerRuns.LeaveDeparts` | pkg/iec61850/server/server.go:542-554 | a disconnect puts a connection into that condition |
| `ServerRuns.NumbersRise` | pkg/iec61850/server/server.go:224-231 | without writes to SqNum the n-th report of a block carries its starting number plus n modulo 65536, whatever other blocks do |
| `ServerRaces.UninterruptedIsWhole` | pkg/iec61850/server/server.go:1672-1704 | the accesses of one write, uninterrupted, make up the atomic write |
| `ServerRaces.FineRunSound` | pkg/iec61850/server/server.go:1684-1701 | over every interleaving of accesses: the connection limit, connected subscribers, GI set only while its reset is pending |
| `ServerRaces.QuietGI` | pkg/iec61850/server/server.go:1695-1701 | with no write in flight GI is never set |
| `ServerRaces.SubscriberWithoutEnable` | pkg/iec61850/server/server.go:1684-1692 | a disconnect between test and binding leaves a subscriber with RptEna false |
| `ServerRaces.StepSettlesExactly` | pkg/iec61850/server/server.go:1684-1692 | a step keeps subscriber and RptEna in agreement on every block nobody is about to bind, if and only if it is not a last binding that finds RptEna changed since its handler read it |
| `ServerRaces.RunSettledExactly` | pkg/iec61850/server/server.go:1684-1692 | over a whole run they agree at every point if and only if every last binding of a block finds RptEna as its handler read it |
| `ServerRaces.QuietScheduleSettles` | pkg/iec61850/server/server.go:1684-1692 | they agree at every point of a run in which, between test and binding, the subscriber of the block does not leave and no other handler writes RptEna to it |
| `Client.IedConnection.DispatchConfirmedResponse` | pkg/iec61850/client/client.go:829-853 | a PDU goes to the call registered under its ID if that call's channel is empty, and is dropped otherwise |
| `Client.IedConnection.FailPending` | pkg/iec61850/client/client.go:776-791 | in any iteration order, exactly the registered calls are told of a read failure |
| `ClientRuns.RunMatched` | pkg/iec61850/client/client.go:702-749 | over every interleaving of up to 2^32 calls the pending map holds exactly the calls in flight, and every reply a call holds or returned carries its own ID |
| `ClientRuns.RegisterExactly` | pkg/iec61850/client/client.go:714-716 | registering keeps the map exact if and only if no call in flight has the same ID |
| `ClientRuns.OutcomeStays` | pkg/iec61850/client/client.go:738-748 | a call that has ended keeps its outcome in every further run, so it receives at most one reply |
| `ClientRuns.LateReplyDropped` | pkg/iec61850/client/client.go:842-847 | a reply to a finished call changes nothing |
| `ClientRuns.ReplyDelivered` | pkg/iec61850/client/client.go:738-853 | a reply to a waiting call is what the call returns |
| `ClientRuns.FirstReplyKept` | pkg/iec61850/client/client.go:842-853 | of several replies with a call's ID the first handed over is the only one the call can return, in any further run |
| `ClientRuns.FailureReachesInFlight` | pkg/iec61850/client/client.go:776-791 | a read failure reaches exactly the calls in flight |
| `ClientRuns.LateCallStranded` | pkg/iec61850/client/client.go:707-748 | a call drawn after the read loop has ended holds neither reply nor failure mark in any further run, and ends only by a send error, its timeout or closing |
| `ClientRuns.LateCallPending` | pkg/iec61850/client/client.go:714-748 | registered, it stays in the pending map exactly until its caller gives up |
| `ClientRuns.LateCallReachable` | pkg/iec61850/client/client.go:714-791 | a new connection whose read loop fails before its first call registers gets there |
| `ClientRuns.DispatchFaultsExactly` | pkg/iec61850/client/client.go:829-853 | a received PDU takes the client down if and only if it is a response or an error whose length reaches past the capacity of the slice it arrived in |
| `ClientRuns.AnswerComesBack` | pkg/mms/pdu.go:468-616 | the ID drawn for a call comes back in every response and every error |
| `ValueObjects.SetBitRefines` | pkg/mms/types.go:407-421 | SetBit changes one boolean of the bit sequence that GetBit reads, and no other |
| `ValueObjects.NeverPanicsExactly` | pkg/mms/types.go:394-404 | no index panics if and only if the slice covers the bit count |
| `ValueObjects.WithBitIsMask` | pkg/mms/types.go:414-420 | setting a clear bit adds its weight, clearing a set one subtracts it |
| `ValueObjects.NegativeSizeRepairedByWire` | pkg/mms/types.go:394-421 | a bit string made with a negative bit count, as option fields and trigger options are, reads false and ignores writes where it was made, while a receiver reads its bits: the two agree on a bit if and only if it is clear |
| `ValueObjects.ValueObject.SetBit` | pkg/mms/types.go:407-421 | the in-place change of the byte slice |
| `ValueObjects.ValueObject.SetElement` | pkg/mms/types.go:443-451 | the in-place change of one element, out-of-range indices ignored |
| `ValueObjects.Clone` | pkg/mms/types.go:462-496 | the copy of an acyclic value spells the same tree out of new objects and slices only, and the original is as it was |
| `ValueObjects.ApplyEdits` | pkg/mms/types.go:407-496 | any sequence of SetBit and SetElement calls on the objects of a copy leaves the original as it was, and the other way round |
| `ValueObjects.CloneAndSetBit` | pkg/mms/types.go:407-496 | after Clone and SetBit the copy spells the tree with one bit changed, the original the tree as it was |
| `ValueObjects.CloneAndSetElement` | pkg/mms/types.go:443-496 | after Clone and SetElement the copy spells the tree with one child replaced, the original the tree as it was |

## Left out

- Sockets, deadlines, goroutine scheduling and logging: a connection is the octets to read with a position, concurrency is steps in any order, a timeout is a step that may happen at any time.
- Capacity behind slices whose length is always checked first (BER, MMS values, GOOSE): these parsers are modelled on octet strings, and shown never to slice past the length.
- Floating-point arithmetic and clock conversion: a float is its bit pattern, a time its stored fields.
- Writes to model attributes (`writeVariable` beyond the control block branch): the item's constraint segment is not removed before the lookup, so there is no useful success to state.
- ErrorRoundTrip: the error code itself is not recovered, because builder and parser disagree on its tag; it always reads 0.
- Types of leaf attributes and zero values: the two walks use different tables by design; only shape and attribute identity are compared.
- Names of the components of a control block, and its contents beyond which field stands where: values carry no names to compare with.
- BuildStructureFromLNWithBR: sorts stably where `sort.Slice` leaves the order of equal names open; the walks disagree in that case anyway.
- ReportDelivered: for option octets of at most 126 octets and reports below 4 GiB; beyond 1008 members nothing is said about a report with members that do not encode, except by LongReportEmpty.
- GetNameList: the method covers the listings for which the loop ends with the names in order, which are exactly those with clean cuts (BrowsingExactly).
- PasswordLimit, RequestExactly: not stated for requests of 4 GiB and more, whose four-octet lengths wrap.
- Array indices and component names of variable specifications: the client never sends them.
- Resolve: uses the uncached search where `resolveVariable` calls the cached one, which `FixedModel` justifies for a model that no longer grows.
- Two devices of one domain name: `findLD` and the model take the first.
- Control block states as separate heap objects, and the object identity of subscribers: states are values in the server's map, connections are their IDs, calls are indices.
- Wrap-around of the 64-bit connection counter, and Stop: not modelled.
- SendReport: what it reads from the model and from the clock (values, references, time) is a parameter of the step.
- Setters of the publisher between publications: a run starts from any PDU with zero counters and consists of publications and repetitions.
- Named variable lists, identify, report handlers, RCB value parsing, finish and abort SPDUs: they add no harder property.
- SetElement: its own contract speaks of the element array, because the new element may reach the array it is put into; CloneAndSetElement speaks of the whole tree, for an element from outside the copy.
- Small tables (error strings, quality and accuracy strings).
- UpdateAttributeValue: which data sets an attribute belongs to (`daInDataSet`) is a parameter of the step.
- AarqOnWire: for passwords of at most 127 octets, beyond which a peer cannot read them (PasswordReads).
- SpduOnWire, UserDataOnWire, PpduOnWire: for lengths that their length octets can hold; for longer ones SpduYields, DataPathExactly and PpduYields say what arrives.
- ReportOnWire: for 1 to 1008 members; beyond, lengths wrap, and ReportDelivered says what the client makes of it.
