# Models of the userspace daemons

A Dafny model of the algorithms in the Qualcomm and Arduino daemons of this device tree, and of
the script that packages its images, with proofs about them. `dafny verify dfyconfig.toml` checks
the whole project.

* **QMI codec** (`Qmi*.dfy`, `Bytes.dfy`). The descriptor-driven encoder and decoder. A C struct is
  the sequence of its members. `QmiWire` states the wire format on its own; the encoder is proved to
  produce it, the decoder to invert it, for frames in any order and with unknown optional frames
  among them. The decoder keeps the high bytes of the previous element count when it reads a
  narrower length; `AnyOrder` says exactly when that makes it refuse a message. `QmiRoom` says
  exactly which structs the encoder takes for a given buffer.
* **MessagePack-RPC bridge** (`Rpc*.dfy`). The incremental parser and its resynchronising buffer
  loop. However `read()` cuts the stream, the same requests are dispatched; fewer than 74 bytes are
  ever kept; each request gets one response that carries its id.
* **Probing tables** (`Probing.dfy`, `HashTable.dfy`, `HashKey.dfy`, `AssocTable.dfy`). The hash table
  of the name service, with deletion markers, and the growing string table of pd-mapper, both
  refining a finite map. `map_reput` takes the first deletion marker on its way, so it makes a second
  entry exactly when a marker lies before the key's own; `Reput` states both sides. `SlotWalk.dfy` and
  `ServiceTables.dfy` say when an iteration over such a table tells what a search answers.
* **Intrusive list** (`IntrusiveList.dfy`).
* **Name service** (`NameService.dfy`, `NameTables.dfy`, `NameServer.dfy`, `Replication.dfy`,
  `Network.dfy`, `Observers.dfy`, `Table*.dfy`). `NameTables` gives, for every control message, the new
  hash tables and the packets, whatever the tables hold; `NameServer` is the code with its loops,
  proved to do just that. `NameService` does the same for a registry, a finite map from node and port.
  `TableRefinement` proves that the tables stand for the registry exactly as long as every registration
  finds its port free or no deletion marker before its entry. `Network` joins any number of name
  services by links that neither lose nor reorder messages and proves replication over every run of
  registries, restarts included; `TableNetwork` carries it over to the tables under that condition.
  `Observers` proves what a client learns from the notices it is sent. Without the condition a port
  gets two entries and a peer can be left with the old one (`TwiceReached`); `RegisterTells` states
  exactly when that happens, and `LeftExact` when BYE then leaves a server behind.
* **JSON parser** (`Json*.dfy`), **TFTP block transfer** (`BlockTransfer.dfy`), **rmtfs shadow
  storage** (`ShadowStorage.dfy`), **GPT patch** (`GptPatch.dfy`).

Where the code and what one would expect of it differ, the model follows the code:

* Two name services answer each other's HELLO with a HELLO for ever (`HelloForever`).
* A server registered again at its port replaces the old one without a DEL notice, so an observer
  can be left believing in a server that is gone (`OutdatedView`); `ObserverExact` states exactly when.
* A table of at most five slots in pd-mapper fills up without growing (`FillSmall`), and a probe for
  a key that is not in it never ends (`ProbeNeverEnds`).
* The QMI encoder does not count the frame header when it tests the room for a string inside a
  struct, and subtracts without a sign when more has been encoded than there is room for, so it can
  take a struct that does not fit (`Overfull`); `OverfullExact` says exactly which structs that is
  possible for.
* The JSON parser does not compare the last letter of a keyword (`LooseKeywords`, `KeywordsExact`),
  drops the character read when a string is full (`StringExact`), takes a missing closing bracket at
  the end of the text for present if the text still ends in one (`UnclosedArray`, `UnclosedObject`),
  and never returns from a text exactly when its last byte is an opening bracket where
  a value is looked for (`EndlessExact`): a file cut short behind the bracket of an array
  (`TruncatedExact`).
* The TFTP server never sends an empty last block, so a receiver that waits for a short one gets it
  from a window that ends exactly when the file is not a whole number of blocks and has fewer than
  65535 whole ones (`EndIsSeen`); an upload does not truncate a longer file (`UploadExact`), and writes
  a packet that comes twice twice (`RepeatedExact`).
* A handle of the rmtfs storage can be used after it was closed: it reads as zeros, and a write gives
  it a buffer without a partition (`Pread`, `Pwrite`).
* When a window would pass block 65535 of a longer file, the TFTP server sends for ever
  (`WindowNeverEnds`).
* A QMI table that opens with a string marked as variable array can be decoded but not encoded.

## Model

| member | source | states |
|---|---|---|
| QmiEncoder.SkipToNextElem | shared/utils/qrtr/lib/qmi.c:119-135 | at the top level the next element of another TLV type, in a nested struct the next element |
| QmiEncoder.EncodeBasicElem | shared/utils/qrtr/lib/qmi.c:206-217 | the used slots laid end to end |
| QmiEncoder.EncodeStringElem | shared/utils/qrtr/lib/qmi.c:276-318 | the text, nested strings behind their length; refused exactly when too long for the element or the buffer |
| QmiEncoder.EncodeStructElem | shared/utils/qrtr/lib/qmi.c:237-258 | the wire format of the used structs one after the other, or EINVAL, exactly by the room they need |
| QmiEncoder.EncodeFlag | shared/utils/qrtr/lib/qmi.c:371-378 | a cleared flag skips its whole group, a set one sends nothing itself; the loop stands where the wire format says |
| QmiEncoder.EncodeLen | shared/utils/qrtr/lib/qmi.c:380-400 | the count in its width; a zero count closes the frame and skips the array |
| QmiEncoder.EncodeDataElem | shared/utils/qrtr/lib/qmi.c:402-446 | basic, struct and string elements contribute exactly their bytes |
| QmiEncoder.EncodeElem | shared/utils/qrtr/lib/qmi.c:356-450 | one turn of the loop keeps the output a prefix of the wire format; a variable array without a count is refused |
| QmiEncoder.Append | shared/utils/qrtr/lib/qmi.c:452-459 | the open frame grows, and its reserved header is filled in when it is complete |
| QmiEncoder.QmiEncode | shared/utils/qrtr/lib/qmi.c:332-463 | the result is the wire format; a struct is encoded if and only if it finds room; otherwise EINVAL |
| QmiRoom.NeedIs | shared/utils/qrtr/lib/qmi.c:371-446 | a nested struct needs room for its bytes, and for all three of a header more if and only if it does not end in a string |
| QmiRoom.FitsAccepts | shared/utils/qrtr/lib/qmi.c:332-463 | a struct that fits always finds room |
| QmiRoom.OverfullExact | shared/utils/qrtr/lib/qmi.c:332-463 | there is a buffer too small for the struct that it finds room in if and only if some group sent ends in a string inside a struct and no later one is basic or begins with a length |
| QmiRoom.FirmAccepts | shared/utils/qrtr/lib/qmi.c:332-463 | for tables no struct of which ends in a string, exactly the structs that fit find room |
| QmiRoom.Overfull | shared/utils/qrtr/lib/qmi.c:430-446 | a concrete input: 160 bytes encoded into room for 4 |
| QmiDecoder.FindEi | shared/utils/qrtr/lib/qmi.c:608-620 | the first element of a TLV type |
| QmiDecoder.DecodeBasicElem | shared/utils/qrtr/lib/qmi.c:480-491 | the slots cut from the input |
| QmiDecoder.DecodeStringElem | shared/utils/qrtr/lib/qmi.c:558-594 | the text with its length checked against the element and the frame |
| QmiDecoder.DecodeStructElem | shared/utils/qrtr/lib/qmi.c:512-539 | the structs decoded one after the other, all bytes accounted for |
| QmiDecoder.DecodeDataElem | shared/utils/qrtr/lib/qmi.c:695-739 | count check and the three data cases |
| QmiDecoder.DecodeNext | shared/utils/qrtr/lib/qmi.c:676-740 | one turn of the loop: flag, length and data of a group |
| QmiDecoder.QmiDecode | shared/utils/qrtr/lib/qmi.c:634-744 | the loop computes the recursive decoder that the theorems below are about |
| QmiOverrun.ListStable | shared/utils/qrtr/lib/qmi.c:634-744 | an answer other than Overrun stays the same whatever bytes follow the input |
| QmiOverrun.OverrunExact | shared/utils/qrtr/lib/qmi.c:634-744 | the decoder reads past its input if and only if the answer depends on what is there |
| QmiRoundTrip.DataInverse | shared/utils/qrtr/lib/qmi.c:695-739 | decoding the bytes of a data element, at any depth, gives back its used slots and consumes just them |
| QmiRoundTrip.GroupInverse | shared/utils/qrtr/lib/qmi.c:676-740 | the same for a length with its array |
| QmiRoundTrip.NestedInverse | shared/utils/qrtr/lib/qmi.c:512-539 | the same for a nested struct, by induction over depth and elements |
| QmiCompat.FrameRefused | shared/utils/qrtr/lib/qmi.c:683-703 | a count left over from a wider array makes the decoder refuse the next length |
| QmiCompat.FramesPass | shared/utils/qrtr/lib/qmi.c:649-741 | decoding passes frames in any order and fails exactly on such a left-over count |
| QmiCompat.AnyOrder | shared/utils/qrtr/lib/qmi.c:634-744 | the frames of a message in any order, unknown optional ones among them, decode to what was sent, to the last byte, or to EINVAL exactly when a count does not fit |
| QmiCompat.SafeTable | shared/utils/qrtr/lib/qmi.c:683-703 | a table whose arrays never outgrow its lengths is never refused |
| QmiCompat.RoundTrip | shared/utils/qrtr/lib/qmi.c:332-463 | decoding the encoding gives back the struct; absent groups stay as they were |
| QmiCompat.UnknownMandatoryRefused | shared/utils/qrtr/lib/qmi.c:659-667 | an unknown type below 0x10 is refused wherever it stands |
| QmiMessage.EncodeMessage | shared/utils/qrtr/lib/qmi.c:757-795 | header and wire format, refused exactly if the struct does not find room, which for tables without a struct that ends in a string means that it does not fit; without a struct an empty message, refused exactly if some group is mandatory; EMSGSIZE without room for the header |
| QmiMessage.MinMsgLen | shared/utils/qrtr/lib/qmi.c:144-189 | the least length of a message is 0 if and only if every group of its table is optional |
| QmiMessage.NothingSent | shared/utils/qrtr/lib/qmi.c:766-773 | the empty message is what a struct with all flags cleared encodes to |
| QmiMessage.DecodeMessage | shared/utils/qrtr/lib/qmi.c:821-843 | type and message id are checked, then the payload is decoded |
| QmiMessage.HeaderRoundTrip | shared/utils/qrtr/lib/qmi.c:797-809 | the header reads back, and its length is accepted exactly for payloads below 65536 bytes |
| QmiMessage.MessageRoundTrip | shared/utils/qrtr/lib/qmi.c:757-843 | an encoded message passes the header check with its id and transaction and decodes to what was sent |
| QmiMessage.Exchange | shared/utils/qrtr/lib/qmi.c:757-843 | a struct of a well-formed table sent and received arrives, whenever it fits the packet and a 16-bit length |
| QmiMessage.ReEncode | shared/utils/qrtr/lib/qmi.c:332-463 | encoding what was decoded sends the same bytes again |
| QmiTables.IovecRequestOk | shared/utils/rmtfs/qmi_rmtfs.c:104-143 | the table is well-formed and safe, so the theorems apply |
| QmiTables.DomainListResponseOk | shared/utils/pd-mapper/servreg_loc.c:75-136 | the table is well-formed and safe, so the theorems apply |
| QmiTables.DomainListResponseFirm | shared/utils/pd-mapper/servreg_loc.c:75-136 | exactly the responses that fit are encoded |
| QmiTables.OpenRequestDecodes | shared/utils/rmtfs/qmi_rmtfs.c:43-53 | any path of at most 256 bytes arrives, a longer one is refused |
| QmiTables.WideThenNarrowRefused | shared/utils/qrtr/lib/qmi.c:683-703 | a well-formed table none of whose encodings is ever decoded |
| RpcParser.Parse | shared/utils/imola-gpio/imola-bridge.c:131-223 | 74 bytes are never incomplete, and a message takes 5 to 74 bytes |
| RpcParser.Stable | shared/utils/imola-gpio/imola-bridge.c:131-223 | an answer other than incomplete is the same on every extension |
| RpcParser.ParsesMessage | shared/utils/imola-gpio/imola-bridge.c:131-223 | every message of the grammar is parsed, whatever follows |
| RpcParser.ParsedSays | shared/utils/imola-gpio/imola-bridge.c:131-223 | whatever is parsed is a message of the grammar |
| RpcParser.CompleteExact | shared/utils/imola-gpio/imola-bridge.c:131-223 | complete with a request if and only if the bytes are a message that says it |
| RpcParser.IncompleteExact | shared/utils/imola-gpio/imola-bridge.c:131-223 | incomplete if and only if under four bytes or a proper prefix of some message |
| RpcStream.Skip | shared/utils/imola-gpio/imola-bridge.c:314-323 | the resync goes to the next 0x94 0x00, or keeps one byte |
| RpcStream.Drain | shared/utils/imola-gpio/imola-bridge.c:300-367 | fewer than 74 bytes are left |
| RpcStream.DrainAppend | shared/utils/imola-gpio/imola-bridge.c:288-368 | draining a prefix first dispatches the same requests |
| RpcStream.ResyncAppend | shared/utils/imola-gpio/imola-bridge.c:314-323 | the same when the prefix ends in the middle of a resync |
| RpcStream.SplitIndependence | shared/utils/imola-gpio/imola-bridge.c:288-368 | however the stream is cut, the requests are those of one pass over it |
| RpcStream.RestIsQuiet | shared/utils/imola-gpio/imola-bridge.c:300-367 | nothing more can be dispatched from the bytes kept |
| RpcStream.NoiseDropped | shared/utils/imola-gpio/imola-bridge.c:314-323 | noise without a 0x94 0x00 before a message is dropped, and nothing else |
| RpcStream.NoisyStreamDelivered | shared/utils/imola-gpio/imola-bridge.c:288-368 | messages with noise between them, cut in any way, are dispatched exactly and in order |
| RpcStream.ResponseRead | shared/utils/imola-gpio/imola-bridge.c:333-355 | a response decodes to the request's id, for every 32-bit id |
| RpcStream.ResponsesRead | shared/utils/imola-gpio/imola-bridge.c:333-355 | one response per request, in order |
| RpcBridge.ReadFixstr | shared/utils/imola-gpio/imola-bridge.c:170-180 | a string of at most 31 bytes, never cut short |
| RpcBridge.ParseRpcParams | shared/utils/imola-gpio/imola-bridge.c:188-222 | the parameters as the parser specifies |
| RpcBridge.ParseRpcRequest | shared/utils/imola-gpio/imola-bridge.c:131-223 | the code computes Parse on the bytes buffered |
| RpcBridge.Bridge.Drop | shared/utils/imola-gpio/imola-bridge.c:364-366 | the bytes behind the first n move to the front |
| RpcBridge.Bridge.ResyncDistance | shared/utils/imola-gpio/imola-bridge.c:315-319 | the loop finds the distance Skip specifies |
| RpcBridge.Bridge.Fill | shared/utils/imola-gpio/imola-bridge.c:291-298 | the bytes read stand behind those buffered |
| RpcBridge.Bridge.Respond | shared/utils/imola-gpio/imola-bridge.c:328-360 | the pin action, if the method asks for one, and one response |
| RpcBridge.Bridge.Turn | shared/utils/imola-gpio/imola-bridge.c:301-367 | one turn takes at least one byte or stops, and leaves to be dispatched what it has not dispatched |
| RpcBridge.Bridge.Receive | shared/utils/imola-gpio/imola-bridge.c:288-368 | dispatches, actions and responses of one drain; the loop ends and the buffer never fills |
| RpcBridge.Bridge.Serve | shared/utils/imola-gpio/imola-bridge.c:288-368 | over any number of reads, what was dispatched, done and answered is one pass over the bytes read; every read takes all that is offered up to 74 bytes below the size of the buffer, so that reads of at most that take the whole stream |
| Probing.FindExact | shared/utils/qrtr/src/map.c:149-171 | a search ends at an entry if and only if the entry has the key |
| Probing.FindAgrees | shared/utils/qrtr/src/map.c:149-171 | a search answers as the finite map does |
| Probing.PlaceExists | shared/utils/qrtr/src/map.c:64-87 | with a slot that is not in use there is a place for every key |
| Probing.CountAgrees | shared/utils/qrtr/src/map.c:200-203 | the number of entries is the number of keys |
| Probing.PlaceIsOwn | shared/utils/qrtr/src/map.c:76-81 | the place of a key is its own entry if and only if no deletion marker comes first |
| Probing.PutUnique | shared/utils/qrtr/src/map.c:64-112 | a put keeps keys distinct if and only if the key is absent or no marker precedes it |
| Probing.PutReachable | shared/utils/qrtr/src/map.c:64-112 | after a put every entry can still be found |
| Probing.PutRepresents | shared/utils/qrtr/src/map.c:64-112 | such a put updates the finite map at that key only |
| Probing.PutDuplicates | shared/utils/qrtr/src/map.c:76-81 | otherwise the key ends up with two entries |
| Probing.RemoveKeeps | shared/utils/qrtr/src/map.c:188-198 | a removal leaves every other key's answer |
| SlotWalk.RehashedIs | shared/utils/qrtr/src/map.c:119-147 | a rehashed table has no markers and distinct keys, each with the value of its last entry, whatever the table was |
| HashTable.HashMap.constructor | shared/utils/qrtr/src/map.c:56-62 | an empty map without slots |
| HashTable.HashMap.Hash | shared/utils/qrtr/src/map.c:64-87 | the place of the key, -1 exactly when the table is full, never -2 |
| HashTable.HashMap.Reput | shared/utils/qrtr/src/map.c:91-112 | on any table the entry goes to its place, in a table rehashed first if and only if it was full; with distinct keys the map is updated and the old value returned, or the key gets a second entry, exactly by the marker condition |
| HashTable.HashMap.Rehash | shared/utils/qrtr/src/map.c:119-147 | 256 more slots, no markers, one entry for every key, the last of several; the same map if keys were distinct; the puts inside do not rehash |
| HashTable.HashMap.FindSlot | shared/utils/qrtr/src/map.c:149-171 | the probe loop computes the search |
| HashTable.HashMap.Get | shared/utils/qrtr/src/map.c:178-186 | what the search finds, on any table; the map's answer if keys are distinct |
| HashTable.HashMap.Remove | shared/utils/qrtr/src/map.c:188-198 | on any table the entry the search finds becomes a marker and no other slot changes; with distinct keys the key leaves the map |
| HashTable.HashMap.Length | shared/utils/qrtr/src/map.c:200-203 | the number of entries; the size of the map if keys are distinct |
| HashTable.HashMap.Clear | shared/utils/qrtr/src/map.c:42-54 | the empty map, every slot empty |
| HashTable.HashMap.IterFrom | shared/utils/qrtr/src/map.c:205-227 | the first entry at or behind a slot |
| HashTable.HashMap.RemoveEach | shared/utils/qrtr/src/ns.c:349-353 | iterating and removing the entry visited meets every entry exactly once and empties the map |
| HashTable.HashMap.ForEach | shared/utils/qrtr/src/map.h:32-33 | the entries of any table in slot order; with distinct keys every key is met exactly once |
| SlotWalk.UniqueTells | shared/utils/qrtr/src/map.c:205-227 | in a table with distinct keys an iteration, later entries replacing earlier ones, tells what a search answers |
| SlotWalk.PutTells | shared/utils/qrtr/src/map.c:64-112 | after a put it still does, for every key, if and only if the key was absent, or had no marker before it, or its old entry lies in an earlier slot, or has the same value |
| SlotWalk.AnnouncedExact | shared/utils/qrtr/src/map.c:205-227 | the entries met for each key are just the answer of a search, if and only if keys are distinct |
| ServiceTables.DumpAgrees | shared/utils/qrtr/src/ns.c:224-244 | a peer that hears a dump agrees with map_get about a port if and only if the iteration tells its key right |
| ServiceTables.RegisterTells | shared/utils/qrtr/src/ns.c:246-287 | after a registration a peer that hears the dump agrees with map_get on every port, exactly under the condition of PutTells |
| ServiceTables.RegisteredTwice | shared/utils/qrtr/src/ns.c:235-271 | tables that break it: NEW 1, NEW 257, DEL 1, NEW 257 again; the peer keeps the old service, and after DEL 257 the node still has it |
| HashKey.Unhash | shared/utils/qrtr/src/hash.c:22-25 | the hash has an inverse on 32 bits |
| HashKey.HashInjective | shared/utils/qrtr/src/hash.c:22-25 | different values never share a hash |
| HashKey.NodeGet | shared/utils/qrtr/src/ns.c:88-116 | the record of that node, made if missing, never another node's |
| AssocTable.Assoc.constructor | shared/utils/pd-mapper/assoc.c:56-64 | an empty table of the given size |
| AssocTable.Assoc.Seek | shared/utils/pd-mapper/assoc.c:107-115 | the probe loop ends at the key's entry or the first empty slot |
| AssocTable.Assoc.Get | shared/utils/pd-mapper/assoc.c:66-79 | the map's answer |
| AssocTable.Assoc.Set | shared/utils/pd-mapper/assoc.c:81-125 | the map updated; 5 fill <= 4 size + 5, so from six slots on one stays empty; five or fewer never grow |
| AssocTable.Assoc.Grow | shared/utils/pd-mapper/assoc.c:89-105 | the same map in a table a quarter larger; the calls inside do not grow it again |
| AssocTable.ProbeEnds | shared/utils/pd-mapper/assoc.c:71-76 | a probe ends if a slot is empty or the key is there |
| AssocTable.ProbeNeverEnds | shared/utils/pd-mapper/assoc.c:71-76 | in a full table a probe for an absent key never does |
| AssocTable.FillSmall | shared/utils/pd-mapper/assoc.c:89-120 | a table of one to five slots is filled by as many keys |
| AssocTable.Assoc.Next | shared/utils/pd-mapper/assoc.c:127-146 | the next entry and the position behind it |
| AssocTable.Assoc.ForEach | shared/utils/pd-mapper/assoc.h:49-52 | every key is met exactly once, with its value |
| IntrusiveList.List.constructor | shared/utils/qrtr/src/list.h:33-37 | the empty list |
| IntrusiveList.List.Append | shared/utils/qrtr/src/list.h:39-48 | the item becomes the last, links right both ways; only the item, the list and the old tail change |
| IntrusiveList.List.InsertAfter | shared/utils/qrtr/src/list.h:59-72 | the item comes directly behind the given one |
| IntrusiveList.List.Remove | shared/utils/qrtr/src/list.h:74-88 | the item is gone, the others keep their order, links right both ways |
| IntrusiveList.List.Pop | shared/utils/qrtr/src/list.h:90-98 | the first item, or null for the empty list |
| IntrusiveList.List.Visit | shared/utils/qrtr/src/list.h:124-125 | what follows is noted before the item may be removed |
| IntrusiveList.List.RemoveMatching | shared/utils/qrtr/src/ns.c:403-412 | exactly the lookups that do not match stay, in their order |
| NameService.MatchAgrees | shared/utils/qrtr/src/ns.c:118-127 | the filter of a lookup's first answer and the test before later notices select the same servers |
| NameService.AfterValid | shared/utils/qrtr/src/ns.c:254-255 | every message keeps service and port of all servers nonzero and all observers local |
| NameServer.Server.constructor | shared/utils/qrtr/src/ns.c:754-758 | nothing registered, nobody watching |
| NameServer.Tables.NodeGet | shared/utils/qrtr/src/ns.c:88-116 | the node's table, made if missing; all slots of all tables stay |
| NameServer.Tables.Walk | shared/utils/qrtr/src/ns.c:235-241 | the entries of the node's table, whatever it holds, in slot order |
| NameServer.Tables.Query | shared/utils/qrtr/src/ns.c:129-153 | the entries of all tables that match the filter, node by node, every node once |
| NameServer.Tables.Add | shared/utils/qrtr/src/ns.c:246-287 | refused without service or port; otherwise the node's table is that behind map_reput, whatever it held, and all other tables stay |
| NameServer.Tables.Unregister | shared/utils/qrtr/src/ns.c:296-301 | the entry map_get finds for the port becomes a marker, whatever the table holds; all other slots and tables stay |
| NameServer.Server.Notify | shared/utils/qrtr/src/ns.c:469-478 | one notice per matching lookup, in list order |
| NameServer.Server.Announce | shared/utils/qrtr/src/ns.c:224-244 | one announcement per entry listed |
| NameServer.Server.Forward | shared/utils/qrtr/src/ns.c:364-375 | a departure is told to each local service |
| NameServer.Server.Delete | shared/utils/qrtr/src/ns.c:289-321 | the entry found for the port is gone, a local removal is broadcast, matching observers told; ENOENT if there is none |
| NameServer.Server.Drop | shared/utils/qrtr/src/ns.c:556-569 | the lookups that match are gone, the others keep their order |
| NameServer.Server.DeleteAll | shared/utils/qrtr/src/ns.c:349-353 | the table and the notices after the whole walk, whatever the table held |
| NameServer.Server.DeleteSlot | shared/utils/qrtr/src/ns.c:349-353 | one turn: what is found for the port of the entry met, which need not be that entry, is removed with its notices, and the walk goes on to the next entry |
| NameServer.Server.HelloCmd | shared/utils/qrtr/src/ns.c:323-333 | the HELLO comes back, then every entry of the local table |
| NameServer.Server.ByeCmd | shared/utils/qrtr/src/ns.c:335-378 | the walk over the node's table, then every entry of the local table is told |
| NameServer.Server.DelClientCmd | shared/utils/qrtr/src/ns.c:380-442 | spoofed messages are refused; lookups and the entry of the client go, the local services are told |
| NameServer.Server.NewServerCmd | shared/utils/qrtr/src/ns.c:444-481 | spoofed and empty registrations are refused; local ones are broadcast, observers told; the table is that behind map_reput |
| NameServer.Server.DelServerCmd | shared/utils/qrtr/src/ns.c:483-509 | spoofed messages are refused, the entry found goes with its notices |
| NameServer.Server.NewLookupCmd | shared/utils/qrtr/src/ns.c:511-547 | only local observers; every matching entry of every table, then the terminator |
| NameServer.Server.Handle | shared/utils/qrtr/src/ns.c:602-648 | for every message, whatever the tables hold, the tables, lookups and packets NameTables specifies, and a negative code exactly for those rejected |
| NameServer.Server.Serve | shared/utils/qrtr/src/ns.c:602-648 | the same for any number of messages |
| NameTables.HandledSound | shared/utils/qrtr/src/ns.c:246-378 | every message keeps, on any tables, each entry reachable, under the hash of its own port and in the table of its own node |
| NameTables.LeftExact | shared/utils/qrtr/src/ns.c:349-353 | the walk of BYE empties the table if and only if no key has an entry both before the end of the table and around it |
| TableRefinement.Refines | shared/utils/qrtr/src/ns.c:224-547 | a message on tables that stand for a registry leaves tables that stand for the new one and sends the same packets, if a registration finds its port free or no marker before its entry |
| TableRefinement.RefinesExact | shared/utils/qrtr/src/ns.c:246-287 | and only then do the tables stand for any registry |
| TableRefinement.FreePort | shared/utils/qrtr/src/ns.c:270-272 | a port that is not registered, or any port of a table without markers, meets the condition |
| TableRefinement.QueryIsMatching | shared/utils/qrtr/src/ns.c:129-153 | the filter of the query selects the servers later notices would be about |
| TableRefinement.GoodTidy | shared/utils/qrtr/src/ns.c:246-287 | tables that stand for a registry meet the conditions of ServiceTables |
| TableRuns.RunRefines | shared/utils/qrtr/src/ns.c:602-648 | over every run that meets the condition the tables stand for the registry and everybody is sent what its service sends |
| TableRuns.ObserverKnowsTables | shared/utils/qrtr/src/ns.c:511-547 | over every such run a client that first asked for everything knows what map_get answers for any node and port |
| TableRuns.TwiceReached | shared/utils/qrtr/src/ns.c:246-321 | five messages of local clients reach the tables of RegisteredTwice |
| Replication.PeerMessage | shared/utils/qrtr/src/ns.c:444-509 | a peer's message changes the view of that peer only |
| Replication.LocalMessage | shared/utils/qrtr/src/ns.c:451-459 | a client's message changes the view of the local node only |
| Replication.LinkOutput | shared/utils/qrtr/src/ns.c:466-467 | what each message puts on the link to a peer: broadcasts of local changes and answers to its HELLO, never a notice |
| Replication.PeersFollow | shared/utils/qrtr/src/ns.c:289-321 | whatever a client does to a registry, a peer that applies what is sent has no wrong server, and all if it had all |
| Replication.HelloCatchesUp | shared/utils/qrtr/src/ns.c:224-244 | a dump of a registry brings a peer that lacks servers up to date |
| Network.EventKeeps | shared/utils/qrtr/src/ns.c:574-655 | client messages, deliveries and restarts keep every link of a network of registries good |
| Network.AlwaysReplicated | shared/utils/qrtr/src/ns.c:224-509 | in every reachable state of any number of registries, each view with what is in flight applied is part of the node's own servers, all of them on a synced link, and otherwise a HELLO is on its way |
| Network.StaysSynced | shared/utils/qrtr/src/ns.c:323-333 | from an empty start, or a HELLO handled, a link stays synced until the receiver restarts |
| Network.SameServers | shared/utils/qrtr/src/ns.c:224-509 | from an empty start, views with what is in flight applied equal the node's own servers throughout |
| TableNetwork.RunMirrors | shared/utils/qrtr/src/ns.c:224-509 | every run of tables in which all registrations find a free port or no marker before their entry is matched by a run of registries, message for message |
| TableNetwork.TablesReplicated | shared/utils/qrtr/src/ns.c:224-509 | so in every state such a run reaches, the table kept of a peer, with what is in flight applied, has only entries of the peer's own table, all of them on a synced link, and otherwise a HELLO is on its way |
| TableNetwork.SameAnswers | shared/utils/qrtr/src/ns.c:224-509 | and on a synced link with nothing in flight both answer the same for every port |
| Network.HellosConserved | shared/utils/qrtr/src/ns.c:323-333 | no event but a restart changes the number of HELLOs in flight between two nodes |
| Network.HelloForever | shared/utils/qrtr/src/ns.c:323-333 | so over any run they never run out |
| Observers.NoticesToward | shared/utils/qrtr/src/ns.c:469-478 | an address is told of a server if and only if one of its lookups matches |
| Observers.LookupAnswered | shared/utils/qrtr/src/ns.c:511-547 | a new lookup gets each matching server and then the terminator, which is never a server |
| Observers.ObserverStep | shared/utils/qrtr/src/ns.c:289-547 | after any message the replayed notices are the registry filtered by the lookups, if and only if no watched server was replaced by one not asked for |
| Observers.ObserverRun | shared/utils/qrtr/src/ns.c:289-547 | so over every run in which none is |
| Observers.ObserverExact | shared/utils/qrtr/src/ns.c:289-547 | after every prefix of a run, if and only if none ever was |
| Observers.OutdatedView | shared/utils/qrtr/src/ns.c:444-481 | a concrete run that breaks it: an observer of service 1 goes on believing in it after service 2 took its port |
| Observers.WholeRegistry | shared/utils/qrtr/src/ns.c:511-547 | an all-zero lookup always knows the whole registry, whatever is replaced; TableRuns.ObserverKnowsTables says when that is what the tables hold |
| Observers.ByeNotices | shared/utils/qrtr/src/ns.c:335-353 | BYE empties the node in the registry, with exactly one notice per removed server and matching lookup |
| JsonParser.Skip | shared/utils/pd-mapper/json.c:63-70 | the cursor stays in the text, and goes back by at most one |
| JsonParser.ParseString | shared/utils/pd-mapper/json.c:72-95 | at most 127 characters, the cursor behind them |
| JsonParser.NumberFrom | shared/utils/pd-mapper/json.c:97-115 | 1 to 19 digits or no match, the cursor in the text |
| JsonParser.ParseKeyword | shared/utils/pd-mapper/json.c:117-148 | a keyword by its first letter, the cursor in the text |
| JsonParser.ParseValue | shared/utils/pd-mapper/json.c:150-182 | the cursor stays in the text and passes at least one character before a comma |
| JsonParser.ParseElements | shared/utils/pd-mapper/json.c:184-225 | a parsed array ends behind its bracket |
| JsonParser.ParseProperties | shared/utils/pd-mapper/json.c:227-266 | a parsed object ends behind its brace |
| JsonParser.ParseProperty | shared/utils/pd-mapper/json.c:268-293 | a parsed property ends behind its key |
| JsonParser.BracketLoops | shared/utils/pd-mapper/json.c:184-203 | an opening bracket at the end of the text, met as a value, is read as its own first element, for ever |
| JsonParser.EndlessExact | shared/utils/pd-mapper/json.c:150-293 | the descent never ends if and only if it looks for a value at the last character and finds an opening bracket |
| JsonParser.AlwaysEnds | shared/utils/pd-mapper/json.c:150-293 | so a text that does not end in an opening bracket is always parsed to an end |
| JsonReader.Reader.SkipWhitespace | shared/utils/pd-mapper/json.c:63-70 | the loop computes Skip |
| JsonReader.Reader.ReadString | shared/utils/pd-mapper/json.c:72-95 | code, value and cursor of ParseString |
| JsonReader.Reader.ReadNumber | shared/utils/pd-mapper/json.c:97-115 | code, value and cursor of NumberFrom |
| JsonReader.Reader.ReadKeyword | shared/utils/pd-mapper/json.c:117-148 | code, value and cursor of ParseKeyword |
| JsonReader.Reader.ReadScalar | shared/utils/pd-mapper/json.c:164-181 | string, number or keyword, in that order, and the white space behind |
| JsonReader.Reader.ReadValue | shared/utils/pd-mapper/json.c:150-182 | code, value and cursor of ParseValue |
| JsonReader.Reader.ReadArray | shared/utils/pd-mapper/json.c:184-225 | code, value and cursor of ParseElements; no match leaves the cursor |
| JsonReader.Reader.ReadObject | shared/utils/pd-mapper/json.c:227-266 | code, value and cursor of ParseProperties; no match leaves the cursor |
| JsonReader.Reader.ReadProperty | shared/utils/pd-mapper/json.c:268-293 | code, value and cursor of ParseProperty |
| JsonReader.Reader.Read | shared/utils/pd-mapper/json.c:317-358 | whenever the descent ends at all, the text is parsed as specified and the cursor is in range |
| JsonRoundTrip.CoreRead | shared/utils/pd-mapper/json.c:150-293 | a printed value inside any text, whatever white space follows, is read back |
| JsonRoundTrip.RoundTrip | shared/utils/pd-mapper/json.c:295-315 | every tree of the accepted subset, printed with any white space, parses to that tree |
| JsonRoundTrip.EveryTree | shared/utils/pd-mapper/json.c:295-315 | every tree with short strings, 1 to 19 digits and no empty container has a text that parses to it |
| JsonRoundTrip.PrintedEnds | shared/utils/pd-mapper/json.c:295-315 | what is printed is among the texts on which the parser ends |
| JsonTruncated.TruncatedExact | shared/utils/pd-mapper/json.c:184-203 | a printed text cut short anywhere is parsed for ever if and only if the cut is right behind the bracket of an array |
| JsonAccepted.KeywordsExact | shared/utils/pd-mapper/json.c:117-148 | a keyword is taken if and only if all its letters but the last are there |
| JsonAccepted.LooseKeywords | shared/utils/pd-mapper/json.c:117-148 | concrete texts: trux and tru |
| JsonAccepted.StringExact | shared/utils/pd-mapper/json.c:72-95 | a string is read as s if and only if s stands there in quotes, or 127 characters s and one more, which is lost |
| JsonAccepted.ValuesExact | shared/utils/pd-mapper/json.c:295-315 | some text is parsed to a tree if and only if it has short strings, 1 to 19 digits and no empty container |
| JsonAccepted.UnclosedArray | shared/utils/pd-mapper/json.c:204-224 | an array without its closing bracket at the end of the text is taken if and only if the text still ends in one |
| JsonAccepted.UnclosedObject | shared/utils/pd-mapper/json.c:246-265 | the same for an object and its brace |
| BlockTransfer.ReadBlock | shared/utils/tqftpserv/tqftpserv.c:91-97 | the bytes of that block, nothing behind the end |
| BlockTransfer.SendWindow | shared/utils/tqftpserv/tqftpserv.c:410-423 | the window of blocks behind the one acknowledged, for every window or file that ends within 16-bit block numbers |
| BlockTransfer.WindowNeverEnds | shared/utils/tqftpserv/tqftpserv.c:413-423 | when neither the window nor the file ends within 16-bit block numbers, the loop never ends |
| BlockTransfer.WindowSends | shared/utils/tqftpserv/tqftpserv.c:410-423 | for a loop that ends, the packets it sends, numbers taken modulo 65536, are those of the window |
| BlockTransfer.WindowCarries | shared/utils/tqftpserv/tqftpserv.c:75-107 | the packet numbered b carries block b - 1 |
| BlockTransfer.AlwaysPrefix | shared/utils/tqftpserv/tqftpserv.c:372-426 | for any acknowledgements, losses, repetitions and order, also when block numbers wrap around in a loop that never ends, an in-order receiver holds a prefix of the file |
| BlockTransfer.WindowAccepted | shared/utils/tqftpserv/tqftpserv.c:410-423 | a whole window takes the receiver as many blocks on, or to the end |
| BlockTransfer.Completes | shared/utils/tqftpserv/tqftpserv.c:372-426 | with a window of at least one block the whole file arrives, if its blocks have 16-bit numbers |
| BlockTransfer.EndIsSeen | shared/utils/tqftpserv/tqftpserv.c:91-97 | some window that ends has a short packet if and only if the file is not a whole number of blocks and has fewer than 65535 whole ones |
| BlockTransfer.ReceiveAll | shared/utils/tqftpserv/tqftpserv.c:535-541 | packets are handled up to the one that ends the upload, and exactly those acknowledged, in order |
| BlockTransfer.UploadExact | shared/utils/tqftpserv/tqftpserv.c:332-338 | the file holds the data uploaded and the end of a longer file before it; just the data if and only if there was none |
| BlockTransfer.RepeatedExact | shared/utils/tqftpserv/tqftpserv.c:453-472 | an upload with repeated packets leaves just the data if and only if only the last was repeated and the file was not longer before |
| BlockTransfer.UploadThenDownload | shared/utils/tqftpserv/tqftpserv.c:372-473 | a fresh file uploaded in blocks of 512 reads back identically at any block and window size |
| ShadowStorage.Storage.constructor | shared/utils/rmtfs/storage.c:67-71 | ten closed handles |
| ShadowStorage.Storage.FindPart | shared/utils/rmtfs/storage.c:88-94 | the first row with the path |
| ShadowStorage.Storage.FindSlot | shared/utils/rmtfs/storage.c:97-110 | the handle open for node and partition, else the first closed one |
| ShadowStorage.Storage.Open | shared/utils/rmtfs/storage.c:76-150 | refused exactly for an unknown path, or when the handle is not open yet and the file is missing or no slot is free; an open handle is shared, a new one shows the partition itself, the others stay |
| ShadowStorage.Storage.Close | shared/utils/rmtfs/storage.c:152-164 | that handle forgets its partition and its buffer, not its node; the others stay |
| ShadowStorage.Storage.Pread | shared/utils/rmtfs/storage.c:198-216 | each byte is the last written through the handle, else the partition's, else zero; open or not |
| ShadowStorage.Storage.Pwrite | shared/utils/rmtfs/storage.c:218-246 | refused from 16 MiB on, otherwise written for that handle only; a gap holds whatever the buffer did; node and partition stay, and a closed handle gets a buffer |
| ShadowStorage.Memory.Fill | shared/utils/rmtfs/sharedmem.c:373-390 | the range is written and nothing else, or nothing at all |
| ShadowStorage.SectorsWritten | shared/utils/rmtfs/rmtfs.c:190-218 | written sectors read as the memory they came from, all other bytes as before |
| ShadowStorage.WriteSector | shared/utils/rmtfs/rmtfs.c:196-200 | one sector from memory is logged as written, unless it is outside memory or the limit; the handle keeps node, partition and buffer, and no other handle changes |
| ShadowStorage.WriteSectors | shared/utils/rmtfs/rmtfs.c:195-218 | exactly the sectors before the first that is outside memory or the limit are written, in order, gaps included; the handle keeps node, partition and buffer |
| ShadowStorage.ReadSectors | shared/utils/rmtfs/rmtfs.c:195-218 | memory gets the last written bytes, else the partition's, else zeros, exactly up to the first sector that is not in memory |
| ShadowStorage.IovecWrite | shared/utils/rmtfs/rmtfs.c:190-218 | succeeds if and only if all sectors of all entries are in memory and below the limit; exactly what comes before the first that is not is written; the handle keeps node, partition and buffer |
| ShadowStorage.IovecRead | shared/utils/rmtfs/rmtfs.c:190-218 | succeeds if and only if all sectors of all entries are in memory; exactly what comes before the first that is not is read |
| ShadowStorage.AllDone | shared/utils/rmtfs/rmtfs.c:190-218 | all entries of a request are done if and only if all their sectors fit |
| ShadowStorage.Iovec | shared/utils/rmtfs/rmtfs.c:183-218 | a request uses the handle of that number and node, open or not, and no other |
| ShadowStorage.EntryBack | shared/utils/rmtfs/rmtfs.c:195-218 | sectors written read back as the memory they came from, whatever was written before |
| ShadowStorage.WriteThenRead | shared/utils/rmtfs/rmtfs.c:190-218 | sectors written, then, after any request through another handle, read to another place: a copy of the sectors, and all other memory as it was |
| GptPatch.PartitionsDisjoint | tools/package_qdl.py:43-69 | the partitions follow one another and end before the backup array |
| GptPatch.Entry | tools/package_qdl.py:102-105 | 128 bytes with type, id, first and last sector in their places and the name cut at 72 bytes |
| GptPatch.HeaderPatched | tools/package_qdl.py:108-119 | the two checksums stored make the header check |
| GptPatch.UpdateHeaderCrc | tools/package_qdl.py:108-119 | the header checks, only its checksum fields change; refused exactly for a wrong header size |
| GptPatch.PatchMain | tools/package_qdl.py:142-155 | done exactly if the header size is proper; then the three new entries are in, all others stay, the primary header checks |
| GptPatch.PatchBackup | tools/package_qdl.py:157-172 | done exactly if the formats agree and the header size is proper; then the backup mirrors the array and its header checks |
| GptPatch.PatchTables | tools/package_qdl.py:122-172 | done exactly if both header sizes are proper and the formats agree; then both arrays are the same, both headers vouch for them, every other entry is as it was |

## Left out

- Sockets, select and poll, failing sends, sysfs, mmap, signals, logging, argument parsing: inputs and outputs are parameters, results or recorded packets.
- Allocation failure, leaks and double frees: memory is assumed to be there.
- assoc_hash and CRC-32: any function will do, nothing depends on their bits.
- QmiEncoder.QmiEncode: the output is a growing sequence, so what C would write behind the end of its buffer is simply there; products and sums of sizes are taken without 32-bit overflow, and OverfullExact asks for less than 2^32 bytes.
- QmiDecoder.QmiDecode: a read past the end of the input is the outcome Overrun, where C leaves the result open; a string is its bytes without the terminator.
- QmiCompat.RoundTrip: asks that no array of a table, at any depth, outgrows a length of that table; AnyOrder says what happens at the top level otherwise, and nested tables that break the rule are left out.
- The OpenOCD commands and the register exchange at the start of the bridge; failing writes of responses.
- NameServer.Server.Handle: the table of nodes is a finite map, as HashKey.NodeGet justifies, and the order in which a query meets the nodes is left open.
- Replication.PeersFollow: states its result on registries; TableRefinement.Refines says when tables stand for one.
- Replication.HelloCatchesUp: the same; ServiceTables.DumpAgrees is about dumps of any table.
- Network.EventKeeps: the same.
- Network.SameServers: the same; TableNetwork.SameAnswers is about tables.
- Observers.WholeRegistry: the same; TableRuns.ObserverKnowsTables is about tables.
- Observers.ByeNotices: the same; NameTables.LeftExact is about tables.
- NameService.AfterValid: control packets are taken as decoded messages; short packets and unknown commands are the message Other.
- Network.AlwaysReplicated: states its result on registries, TableNetwork.TablesReplicated on tables; only name services speak on the links; the DEL_CLIENT that the kernel itself broadcasts when a port closes, and remote clients that write to a control port, are not modelled; a restart loses what is in flight and is announced by BYE.
- map_destroy, list_prepend and insertion before the first item: unused by the daemons.
- AssocTable.Assoc.Set: sizes are not bounded by the width of unsigned long; keys and values share one array of slots.
- JsonReader.Reader.Read: asks that the descent ends, as EndlessExact decides, and leaves out the empty text, on which the cursor leaves the buffer.
- JSON numbers are kept as digits, without strtod; json_get_child and the other getters, and json_free, are left out as easy.
- BlockTransfer.ReceiveAll: block numbers are read as unsigned bytes, as plain char is on the ARM targets.
- The options of a read request, OACK and ERROR packets, and the checks of sender and opcode.
- ShadowStorage.Storage.Get: an id of 2^31 or more, which C takes as a negative index, is the outcome Outside.
- The read-write mode of the storage, storage_sync, and the mode of the shared memory without a mapping: they are file operations.
- GptPatch.PatchMain: asks for 70 to 128 entries of 128 bytes that are all there, as PatchTables does.
- GptPatch.PatchTables: asks for 70 to 128 entries of 128 bytes that are all there; shorter files raise in the unpacking.
- qmi_tlv.c, the other services of pd-mapper and rmtfs, the image and archive builders, and all configuration files.
