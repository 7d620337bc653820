# A verified model of the overlay client

The repository is a VPN overlay client: it reads packets from a TUN device, decides which peer each
one goes to, and learns its peers from protocol messages. This project models the parts of it whose
correctness is hard to see from one function, and proves what they promise:

- **Red-black and splay trees** (`include/libuv/uv/tree.h`): heap classes whose methods rewrite the
  `left`, `right`, `parent` and `color` fields and the head's root as the macros do. `RbShape`,
  `RbFields`, `RbOrder` and `RbBalance` hold what is pure about them (trees and places in them, the
  heap as a value, search order, balance), `RbTree` the operations; `SplayShape` and `SplayTree`
  likewise; `Sides` and `Walks` are what both share. The key type is `int`. The macros write each
  rebalancing, rotating and walking step twice, once for each side; the model writes it once, with
  the side as a parameter (only `RotateLeft` and `RotateRight` are kept apart).
- **One-time initialisation** (`include/protobuf/absl/base/call_once.h`): `CallOnce` is a step
  relation over one control word and any number of threads.
- **The message codec** (`pro/*.pb.cc`): `Wire` holds varints and byte strings, `Codec` the parser,
  serializer, size pass and merge as functions over message descriptors, `CodecLaws` their laws,
  `Schemas` the ten message types with their fields and the order their size pass visits them. The
  generated code repeats one pattern for every type; the model states the pattern once and takes the
  type as a descriptor. `Messages`, `MessageParser` and `MessageObject` are the same operations in
  the generated code's own form, with loops, cached sizes and a message object updated in place,
  each proved equal to the function; `PartialParse` says what malformed input leaves in a message.
  `WireForm` and `SchemaForms` state the bytes themselves, in literal tags, for every kind of field and
  each of the ten types.
- **The CRC** (`include/uvpp/crc.hpp`): `Crc`, the table against bit-by-bit division, and what a
  message with its own checksum behind it amounts to.
- **Routing** (`main/server.cpp`, `main/server.h`): `Routing` is the peer table, the scan, the cache
  and the routes as a state machine over events, and `Packets` what the device reads and where it goes;
  `NotificationLaws` says what the bytes of a notification amount to, `PeerLaws` what its messages become
  in the table, `CacheLaws` and `TapLaws` when the cache agrees with the scan of the table, `RouteLaws`,
  with `Succession`, which routes are installed and where the addresses they cover go, `PrefixLaws` what
  the texts of subnets are read as. `ServerObject` is the server object with its loops, each method
  proved to be a step of that machine; `Masks` is the mask arithmetic; `Text` the string helpers of
  `main/config.h` and `include/uvpp/util.hpp`, and `TextForms` their texts in literal characters.

Parameters of the model: the result of `inet_addr` (a function from text to an address), what a shift
by a count that C leaves undefined gives (a function from the prefix length), the server's
configuration flags, the length of a buffer, and the message that parsing a malformed online
notification leaves, of which `PartialParse.Leaves` holds.

The code and its surroundings differ in four places, and the model follows the code:

- **The address cache.** An online notification replaces the peer table without clearing the cache, so
  a cached answer can differ from the table: `CacheLaws.OnlineGoesStale` gives a run,
  `CacheLaws.OnlineAgrees` the exact condition on the notification. In TAP mode the scan also looks at
  the MAC address while the cache key is the IP address alone: `TapLaws.FrameGoesStale` gives a run,
  `TapLaws.ScanIffSettled` the exact condition on the table, `TapLaws.FrameAgrees` that on a step and
  `TapLaws.TapRunAgrees` that on a run. For TUN packets without online notifications the cache is
  invisible: `CacheLaws.CacheInvisible`.
- **Covered addresses.** Not every address that an installed route covers is resolved by the scan: a
  route whose base has host bits covers addresses that the scan's test never accepts.
  `RouteLaws.MisalignedExample` gives an input (a peer with the subnet 10.0.0.1/24), and
  `RouteLaws.ResolvedIffAligned` the exact condition: for any prefix that can be installed, all it
  covers is resolved in all runs if and only if its base has no host bits.
- **Stale routes.** After an online notification the table has no subnets, so the next mesh
  notification deletes no routes and those of the table before stay installed. `RouteLaws.RouteHistory`
  says over every run exactly which routes are installed.
- **Empty peer lists.** An empty peer list serializes to no bytes, and a notification without bytes is
  ignored (`NotificationLaws.NotifiedOfList`), so a list is not emptied by the bytes of the empty list.
  It is emptied by a notification whose messages all have the subnet "0.0.0.0", or that holds only
  unknown fields:
  `NotificationLaws.EmptiesTable` is the exact condition, `NotificationLaws.EmptyingNotification` an
  input.

## Model

| member | source | states |
|---|---|---|
| `RbTree.RbHead.RotateLeft` | include/libuv/uv/tree.h:342-360 | the exact new fields of every element, and the new root, after a left rotation |
| `RbTree.RbHead.RotateRight` | include/libuv/uv/tree.h:362-380 | the mirror image |
| `RbFields.RotateShape` | include/libuv/uv/tree.h:342-380 | those fields are the fields of the rotated tree, all parent links included |
| `RbTree.RbHead.Rotate` | include/libuv/uv/tree.h:342-380 | at any place of a tree a rotation exchanges the subtree for the rotated one and keeps the in-order sequence |
| `RbTree.RbHead.InsertRound` | include/libuv/uv/tree.h:412-446 | one round of the recolouring loop either moves the only violation two levels up or removes it, keeping order and elements |
| `RbTree.RbHead.InsertColor` | include/libuv/uv/tree.h:407-449 | from a tree whose only fault is one red child of a red element, a valid tree with the same in-order sequence; terminates |
| `RbTree.RbHead.Descend` | include/libuv/uv/tree.h:601-616 | the search ends at the element with the key, or at the one empty place where the key belongs |
| `RbTree.RbHead.Insert` | include/libuv/uv/tree.h:597-626 | a valid tree with exactly one more element; if the key is present, that element is returned and the tree is unchanged |
| `RbBalance.LackSibling` | include/libuv/uv/tree.h:455-528 | where a black element is missing there is a sibling, so the remove loop never reads through a null pointer |
| `RbTree.RbHead.Rebalance` | include/libuv/uv/tree.h:461-490 | a black sibling is recoloured, pushing the lack up, or rotated, ending it; order and elements are kept |
| `RbTree.RbHead.RemoveRound` | include/libuv/uv/tree.h:456-525 | one round, with the red-sibling rotation in front |
| `RbTree.RbHead.RemoveColor` | include/libuv/uv/tree.h:451-528 | from a tree that lacks one black element at one place, a valid tree with the same in-order sequence; terminates |
| `RbTree.RbHead.Successor` | include/libuv/uv/tree.h:541-543 | the leftmost element below the right child |
| `RbTree.RbHead.SpliceSuccessor` | include/libuv/uv/tree.h:544-558 | the successor is taken out of its place, whichever child it was |
| `RbTree.RbHead.Substitute` | include/libuv/uv/tree.h:559-570 | the successor takes the place, fields and colour of the removed element |
| `RbTree.RbHead.MoveSuccessor` | include/libuv/uv/tree.h:539-576 | the two-child case as a whole: the tree it leaves, where a black element may lack, and the elements left |
| `RbBalance.RemovedKeeps` | include/libuv/uv/tree.h:530-594 | what the two-child case leaves is balanced but for a lack of one black element when the successor was black |
| `RbOrder.RemovedSorted` | include/libuv/uv/tree.h:530-594 | and it is still in search order |
| `RbTree.RbHead.RemoveOuter` | include/libuv/uv/tree.h:578-590 | the case of at most one child |
| `RbTree.RbHead.Remove` | include/libuv/uv/tree.h:530-595 | removing any element of a valid tree leaves a valid tree with exactly the other elements |
| `RbTree.RbHead.Find` | include/libuv/uv/tree.h:628-644 | the element with the key, or null when no element has it |
| `RbTree.RbHead.NFind` | include/libuv/uv/tree.h:646-665 | the least element not below the key, or null when all are below |
| `RbTree.RbHead.MinMax` | include/libuv/uv/tree.h:711-724 | the first element in ascending or descending order, or null |
| `RbTree.RbHead.Advance` | include/libuv/uv/tree.h:668-709 | RB_NEXT and RB_PREV: the element right behind the given one in ascending or descending order, or null at the end |
| `RbOrder.OrderedAt` | include/libuv/uv/tree.h:668-709 | the neighbour of an element is the first element of its subtree on that side, or else the nearest ancestor that lies ahead |
| `RbOrder.OrderedAscends` | include/libuv/uv/tree.h:668-687 | the ascending order is the in-order sequence |
| `RbOrder.OrderedDescends` | include/libuv/uv/tree.h:690-709 | the descending order is its reverse |
| `RbOrder.OrderedOnce` | include/libuv/uv/tree.h:738-756 | no element comes twice in either order |
| `RbTree.RbHead.Foreach` | include/libuv/uv/tree.h:738-756 | RB_FOREACH and RB_FOREACH_REVERSE visit exactly the elements, in order, and stop |
| `RbBalance.HeightBound` | include/libuv/uv/tree.h:60-61 | a balanced tree of n elements and height h has 2^h <= (n+1)^2 |
| `RbTree.RbHead.Run` | include/libuv/uv/tree.h:406-626 | any run of inserts and removes from empty leaves a valid tree with exactly the keys of a set run the same way, within the height bound |
| `SplayTree.SplayHead.Rotate` | include/libuv/uv/tree.h:88-98 | the root rotation keeps order, elements and the side trees |
| `SplayTree.SplayHead.Link` | include/libuv/uv/tree.h:100-110 | linking hangs the root at the end of a side tree and goes down |
| `SplayTree.SplayHead.Assemble` | include/libuv/uv/tree.h:112-117 | assembling closes both side trees below the root |
| `SplayShape.AssembledKeeps` | include/libuv/uv/tree.h:112-117 | assembling keeps the in-order sequence of the three trees |
| `SplayShape.AssembledSplayed` | include/libuv/uv/tree.h:209-242 | when the loop stops, the root is next to the key: everything left of it is smaller and everything right of it is larger than the key |
| `SplayShape.SplayedNearest` | include/libuv/uv/tree.h:209-242 | so the root has the key, or the key is absent and the root is its predecessor or its successor |
| `SplayTree.SplayHead.Splay` | include/libuv/uv/tree.h:209-242 | splaying terminates, keeps the in-order sequence exactly and leaves such a root |
| `SplayTree.SplayHead.SplayMinMax` | include/libuv/uv/tree.h:247-278 | the root has no child on the chosen side; order is kept |
| `SplayTree.SplayHead.Find` | include/libuv/uv/tree.h:128-137 | the element with the key, or null when there is none |
| `SplayTree.SplayHead.Next` | include/libuv/uv/tree.h:139-151 | the element right behind the given one, or null at the end |
| `SplayTree.SplayHead.Insert` | include/libuv/uv/tree.h:164-186 | exactly one more element; if the key is present, that element is returned and the elements stay |
| `SplayTree.SplayHead.Remove` | include/libuv/uv/tree.h:188-207 | exactly the elements with other keys; null when the key is absent |
| `SplayTree.RightFree` | include/libuv/uv/tree.h:198-202 | after the second splay the root has no right child, so nothing is lost |
| `SplayTree.SplayHead.SplayBelow` | include/libuv/uv/tree.h:200-202 | the second splay and the re-attached subtree hold all the elements of both |
| `SplayTree.SplayHead.Foreach` | include/libuv/uv/tree.h:292-295 | the traversal visits the in-order sequence and stops |
| `CallOnce.StepKeeps` | include/protobuf/absl/base/call_once.h:133-184 | every step of every thread keeps the protocol's invariant |
| `CallOnce.RunKeeps` | include/protobuf/absl/base/call_once.h:133-184 | it holds at every moment of every interleaving |
| `CallOnce.AtMostOnce` | include/protobuf/absl/base/call_once.h:145-186 | the function is started at most once, and when any call has returned it has finished |
| `CallOnce.NoLostWakeUp` | include/protobuf/absl/base/call_once.h:162-184 | while a thread sleeps, the word is Waiter and a runner is there, or the runner still owes the wake-up |
| `CallOnce.NobodyLeftAsleep` | include/protobuf/absl/base/call_once.h:162-184 | over every run, once the thread that ran the function has returned from its call nobody is asleep |
| `CallOnce.DoneStays` | include/protobuf/absl/base/call_once.h:205-214 | Done is never left, and a call that has returned stays returned |
| `CallOnce.EveryCallerCanReturn` | include/protobuf/absl/base/call_once.h:133-184 | from every reachable state every caller can still come to return by steps of threads that are awake, so a sleeper goes on only when a runner wakes it: no deadlock and no sleep for ever |
| `Wire.VarintRoundTrip` | pro/login.pb.cc:236-244 | reading a written varint gives the value and stops right behind it, whatever follows |
| `Wire.SignedRoundTrip` | pro/login.pb.cc:322-325 | an int32 survives its 64-bit pattern, and a negative one takes ten bytes |
| `WireForm.VarintForm` | include/protobuf/google/protobuf/io/coded_stream.h:899-911 | a varint is its value in seven-bit digits, lowest first, without leading zeros, the high bit set on all bytes but the last |
| `WireForm.ReadVarintForm` | include/protobuf/google/protobuf/parse_context.h:538-559 | reading fails exactly when no byte within the limit ends the varint, and else gives the value of its digits |
| `WireForm.NumberForms` | pro/login.pb.cc:322-325 | numbers on the wire agree with the numbers they stand for modulo 2^64, and read int32 values with the wire modulo 2^32 |
| `CodecLaws.ParseTyped` | pro/login.pb.cc:234-313 | whatever the input, the parser leaves a well-typed message, its unknown bytes in canonical form |
| `CodecLaws.ParseConcat` | pro/login.pb.cc:234-313 | parsing two byte strings in a row is parsing the first and going on with the second |
| `CodecLaws.ParseMerges` | pro/login.pb.cc:821-892 | parsing the bytes of y into x gives the merge of x and y, for any x and y of a type |
| `CodecLaws.RoundTrip` | pro/login.pb.cc:234-363 | parsing the bytes of a message gives the message back |
| `CodecLaws.ConcatMerges` | pro/user_info.pb.cc:637-658 | parsing the bytes of x followed by those of y gives x merged with y |
| `CodecLaws.ParsedSurvives` | pro/keepalive.pb.cc:463-532 | a parsed message is written and read back unchanged, unknown fields included |
| `CodecLaws.MergeIntoEmpty` | pro/login.pb.cc:453-458 | clearing and merging makes an equal message |
| `CodecLaws.MergeTyped` | pro/login.pb.cc:425-451 | merging keeps messages well typed |
| `CodecLaws.SizeIsLength` | pro/user_info.pb.cc:538-629 | the size pass adds up to the number of bytes written, though it visits the fields in another order |
| `CodecLaws.AlongPermutation` | pro/user_info.pb.cc:584-629 | adding up in any order that visits every field once gives the same sum |
| `WireForm.SerNumber` | pro/login.pb.cc:321-325 | a number field is written as the byte 8 * number and a varint, and zero is not written |
| `WireForm.SerString` | pro/login.pb.cc:1554-1558 | a bytes field is written as the byte 8 * number + 2, its length and its bytes, and the empty string is not written |
| `WireForm.SerOption` | pro/login.pb.cc:910-915 | so is a sub-message, with its own bytes |
| `WireForm.SerList` | pro/user_info.pb.cc:572-577 | so is each message of a list, in order |
| `WireForm.ReadNumber` | pro/login.pb.cc:242-250 | whatever the message held, a number field takes the number on the wire, cut to its width |
| `WireForm.ReadString` | pro/login.pb.cc:1507-1514 | whatever the message held, a bytes field takes the bytes on the wire |
| `WireForm.ReadOption` | pro/login.pb.cc:842-850 | a sub-message is parsed into the one that is there or a new one, and fails exactly when that does |
| `WireForm.ReadElement` | pro/user_info.pb.cc:502-514 | a list grows by a message parsed from nothing, and fails exactly when that does |
| `WireForm.UnknownVarint` | include/protobuf/google/protobuf/parse_context.cc:486-490 | a varint under a number that no number field has is kept, byte by byte |
| `WireForm.UnknownBytes` | include/protobuf/google/protobuf/parse_context.cc:499-507 | so are length-delimited bytes under a number that only a number field has, or none |
| `WireForm.UnknownFixed` | include/protobuf/google/protobuf/parse_context.cc:491-522 | so are the eight bytes of wire type 1 and the four bytes of wire type 5 under any number |
| `WireForm.MalformedTags` | include/protobuf/google/protobuf/parse_context.h:882-925 | field number 0, the end of a group and wire types 6 and 7 are malformed |
| `WireForm.StrangerKeepsAll` | pro/login.pb.cc:289-302 | a receiver that knows no field keeps all that any type writes |
| `WireForm.StrangerPassesOn` | pro/login.pb.cc:289-302 | and passes it on unchanged: read behind it, the message is the one that was written |
| `Schemas.TypesKeepTheLaws` | pro/user_info.pb.cc:759-861 | each of the ten types is well formed, and for its messages of at most MAX_SIZE bytes: the size is the length written, the bytes read back, and concatenation merges |
| `Schemas.NetInfoGood` | pro/login.pb.cc:234-417 | NetInfo's fields, numbered and sized in the order of its size pass, meet what the laws ask: distinct one-byte tags and every field sized once |
| `SchemaForms.NetInfoBytes` | pro/login.pb.cc:315-363 | what NetInfo writes, in literal tag bytes and field order, its unknown fields last; and which numbers its fields hold |
| `Schemas.NodeInfoListGood` | pro/login.pb.cc:559-644 | the same for NodeInfoList |
| `SchemaForms.NodeInfoListBytes` | pro/login.pb.cc:601-621 | the same for NodeInfoList |
| `Schemas.LoginGood` | pro/login.pb.cc:821-988 | the same for Login |
| `SchemaForms.LoginBytes` | pro/login.pb.cc:894-937 | the same for Login |
| `Schemas.LoginResGood` | pro/login.pb.cc:1177-1338 | the same for LoginRes |
| `SchemaForms.LoginResBytes` | pro/login.pb.cc:1249-1291 | the same for LoginRes |
| `Schemas.CpeNodeChangeNotifyGood` | pro/login.pb.cc:1501-1602 | the same for CpeNodeChangeNotify |
| `SchemaForms.CpeNodeChangeNotifyBytes` | pro/login.pb.cc:1548-1572 | the same for CpeNodeChangeNotify |
| `Schemas.CustemorInfoGood` | pro/user_info.pb.cc:174-297 | the same for CustemorInfo |
| `SchemaForms.CustemorInfoBytes` | pro/user_info.pb.cc:230-260 | the same for CustemorInfo |
| `Schemas.CustemorPEListGood` | pro/user_info.pb.cc:462-629 | the same for CustemorPEList |
| `SchemaForms.CustemorPEListBytes` | pro/user_info.pb.cc:538-582 | the same for CustemorPEList |
| `Schemas.UserListOnEdgeGood` | pro/user_info.pb.cc:759-844 | the same for UserListOnEdge |
| `SchemaForms.UserListOnEdgeBytes` | pro/user_info.pb.cc:801-821 | the same for UserListOnEdge |
| `Schemas.KeepAliveGood` | pro/keepalive.pb.cc:156-295 | the same for KeepAlive |
| `SchemaForms.KeepAliveBytes` | pro/keepalive.pb.cc:219-255 | the same for KeepAlive |
| `Schemas.KeepAliveResGood` | pro/keepalive.pb.cc:463-621 | the same for KeepAliveRes |
| `SchemaForms.KeepAliveResBytes` | pro/keepalive.pb.cc:534-576 | the same for KeepAliveRes |
| `Messages.ByteSizeLong` | pro/login.pb.cc:939-988 | returns the size, changes nothing but caches, and every message in the tree then caches its own size |
| `Messages.ListFieldSize` | pro/user_info.pb.cc:590-595 | the same for every element of a repeated field |
| `Messages.InternalSerialize` | pro/login.pb.cc:894-937 | with the sizes cached, appends exactly the message's bytes |
| `Messages.WriteMessage` | pro/login.pb.cc:911-915 | the length prefix taken from the cache is the length of what follows |
| `MessageParser.InternalParse` | pro/login.pb.cc:234-313 | the loop over the input accepts what the parser function accepts and leaves the message it describes; from malformed input it leaves the fields in front of the fault, and only the field at fault differs from them |
| `MessageParser.ParseBehindTag` | pro/login.pb.cc:241-302 | the switch on the tag, with its unknown and end-of-group cases |
| `MessageParser.ParseRepeated` | pro/login.pb.cc:567-576 | reading the elements of a repeated field in a row, without going back to the switch, makes no difference |
| `PartialParse.ParseIffNothingLeft` | pro/login.pb.cc:234-313 | parsing fails exactly when some input is left at which no field can be read |
| `MessageObject.MergeFields` | pro/login.pb.cc:996-1020 | merging field by field in the size order is the merge |
| `MessageObject.MergeList` | pro/user_info.pb.cc:643 | the elements of the other list, copied one by one, come behind those there |
| `MessageObject.Message.constructor` | pro/login.pb.cc:752-768 | a new message has every field at its default |
| `MessageObject.Message.Clear` | pro/login.pb.cc:804-819 | the fields are those of a new message |
| `MessageObject.Message.MergeFrom` | pro/login.pb.cc:996-1020 | the object becomes the merge, the other one stays |
| `MessageObject.Message.CopyFrom` | pro/login.pb.cc:1022-1027 | the object equals the other one, also when they are the same |
| `MessageObject.Message.ParseFromString` | main/server.cpp:567-571 | clears the object, then parses into it; fails exactly on malformed input, and then leaves the fields in front of the fault |
| `MessageObject.Message.ByteSizeLong` | pro/login.pb.cc:939-988 | the value stays, the caches are right |
| `MessageObject.Message.SerializeToString` | pro/login.pb.cc:894-988 | sizes first, then bytes: the result is the message's bytes |
| `Crc.TableIsShift8` | include/uvpp/crc.hpp:13-46 | each of the 256 entries is its index after eight steps of division by 0xEDB88320 |
| `Crc.TableStep` | include/uvpp/crc.hpp:57 | a table step is eight steps of the division, for any register and byte |
| `Crc.Remainder` | include/uvpp/crc.hpp:53-58 | the loop computes the bit-by-bit remainder from register 0 |
| `Crc.GetCRC` | include/uvpp/crc.hpp:48-63 | the complement of that remainder, the early return for an empty buffer included |
| `Crc.DivideWord` | include/uvpp/crc.hpp:48-63 | up to four bytes act on the register as one word folded in and shifted through |
| `Crc.BurstDetected` | include/uvpp/crc.hpp:48-63 | equal-length buffers that differ only within four consecutive bytes have different CRCs |
| `Crc.SmallChecksums` | include/uvpp/crc.hpp:48-63 | the empty message has checksum 0xFFFFFFFF, the byte 1 has 0x88F8CF69 |
| `Crc.Residue` | include/uvpp/crc.hpp:48-63 | a message with four bytes behind it has the checksum 0x2144DF1C, whatever the message, if and only if the four bytes are its own checksum, lowest byte first |
| `Text.Strtok` | main/config.h:89-94 | the next token and where the scan resumes |
| `Text.Split` | main/config.h:83-99 | the tokens of the text up to its first NUL |
| `Text.TokensClean` | main/config.h:83-99 | tokens are not empty and hold no delimiter |
| `Text.TokensComplete` | main/config.h:83-99 | in order, they are the text without its delimiters |
| `Text.TokensCut` | main/config.h:83-99 | a delimiter cuts: the tokens before it and those behind it are all the tokens |
| `Text.TokensOfJoin` | main/config.h:83-99 | splitting a join of such tokens gives them back |
| `Text.MacRoundTrip` | include/uvpp/util.hpp:100-115 | printing a 6-byte MAC address, splitting on ":" and reading base 16 restores the bytes |
| `Text.MacError` | main/server.cpp:203-212 | the text printed for any other length never reads as an address |
| `Text.QuadRoundTrip` | include/uvpp/util.hpp:119-129 | a printed dotted quad determines the address it was printed from |
| `TextForms.MacForm` | include/uvpp/util.hpp:100-115 | a MAC address is printed as six pairs of lower-case hexadecimal digits with ":" between them |
| `TextForms.QuadForm` | include/uvpp/util.hpp:119-129 | an address is printed as its four bytes in decimal, the highest first, with "." between them |
| `TextForms.DecimalForm` | include/uvpp/util.hpp:119-129 | the decimal digits of a number below 1000, without leading zeros |
| `TextForms.StrtolForm` | main/server.cpp:375 | a number is read behind blanks and an optional sign, up to what is no digit |
| `TextForms.NoNumber` | main/server.cpp:375 | a text without a number in front reads as 0 |
| `TextForms.HexTexts` | main/server.cpp:203-212 | base 16 takes upper-case digits and the prefix "0x" |
| `TextForms.CStringCuts` | main/config.h:83-99 | only what is in front of the first NUL is read |
| `Masks.ClearHostBits` | main/server.cpp:383-385 | the bit-clearing loop leaves the mask of the prefix length |
| `Masks.MasksAgree` | main/server.cpp:581 | the closed form of the mask is that mask, for lengths 2 to 32 |
| `Masks.MaskBits` | main/server.cpp:383-385 | exactly the n highest bits of the mask are set, for n from 0 to 32 |
| `Masks.MatchIsInterval` | main/server.cpp:159-165 | under an aligned base, matching the mask is lying between the lowest and the highest address |
| `Routing.NodeBounds` | main/server.cpp:150-173 | the two bounds a node is given hold exactly the addresses of its subnet, for prefix lengths 2 to 32 and an aligned subnet address |
| `Routing.ScanIsFirst` | main/server.cpp:362-393 | the scan finds the first entry that matches by address, prefix or MAC, and nothing only if none does |
| `Packets.PacketForm` | main/server.cpp:403-411 | an IPv4 packet is looked up under the four bytes behind its first sixteen, the highest first |
| `Packets.FrameForm` | main/server.cpp:422-452 | an Ethernet frame has its MAC address in front, its protocol at offset 12, high byte first, and its address at offset 30 |
| `Packets.FrameGoes` | main/server.cpp:438-467 | IPv4 frames below 224.0.0.0 are looked up; ARP, RARP, IPX, PPPoE and other multicast or reserved IPv4 frames go to everybody, all else nowhere, and leave the server as it is |
| `Packets.FrameDependsIff` | main/server.cpp:438-467 | where a frame goes depends on the server if and only if it is looked up |
| `Packets.GatewayIsLast` | main/server.h:59 | over every run the gateway is the one set last, or 0 |
| `Packets.GatewayMode` | main/server.cpp:333-357 | in gateway mode every packet and frame goes to that gateway, and nothing is cached |
| `Packets.UnmatchedGoes` | main/server.cpp:395-399 | an address that is not cached and that no entry matches goes to that gateway, or nowhere if the server is itself a gateway |
| `Packets.LookupStores` | main/server.cpp:411-413 | a lookup caches exactly what the scan found for an address not cached before, unless that is 0 or the gateway |
| `Packets.CachedGoes` | main/server.cpp:358-360 | what is cached is where the address goes |
| `Packets.ScannedGoes` | main/server.cpp:362-393 | what is not cached goes where the scan finds it |
| `CacheLaws.CachedIsUncached` | main/server.cpp:351-400 | while the cache agrees with the table, looking up through it makes no difference |
| `CacheLaws.StepAgrees` | main/server.cpp:403-420 | TUN packets, gateway changes and mesh notifications keep the cache in agreement |
| `CacheLaws.RunAgrees` | main/server.cpp:351-420 | over every run of TUN packets, gateway changes and mesh notifications, each cached address maps to what the scan of the current table finds |
| `CacheLaws.CacheInvisible` | main/server.cpp:333-420 | over every such run, every packet goes where a server without a cache would send it |
| `CacheLaws.CacheHistory` | main/server.cpp:403-470 | with TAP frames and online notifications too, each cached id was found by the scan of a table current since the last mesh notification, so no fallback is ever cached |
| `CacheLaws.OnlineAgrees` | main/server.cpp:620-659 | an online notification keeps the agreement if and only if it names the cached id first for every cached address |
| `CacheLaws.OnlineGoesStale` | main/server.cpp:620-659 | a run after which a cached lookup and the scan differ |
| `TapLaws.ScanIffSettled` | main/server.cpp:362-400 | the scan finds one and the same node for all frames to an address if and only if every table entry a frame reaches by MAC address has that id and, unless those hold all MAC addresses, so has the first entry that matches the address |
| `TapLaws.UncachedIffSettled` | main/server.cpp:351-400 | the same for the lookup without a cache, fallback included |
| `TapLaws.NotAllMacs` | main/server.cpp:391-393 | a table of fewer than 256^6 entries does not hold all MAC addresses |
| `TapLaws.LookupIffSettled` | main/server.cpp:351-400 | a cached lookup equals the uncached one for all frames to an address if and only if the table settles the address on the cached id |
| `TapLaws.FrameAgrees` | main/server.cpp:422-436 | after a frame the cache agrees with all frames if and only if it did before and, where the lookup is stored, the table settles the address on the stored id |
| `TapLaws.TapRunAgrees` | main/server.cpp:333-470 | over every run of TAP frames, gateway changes and mesh notifications, the cache agrees with all frames if and only if every lookup stored since the last mesh notification was settled |
| `TapLaws.FrameGoesStale` | main/server.cpp:391-436 | a run of TAP frames after which a cached lookup and the scan differ: the scan looks at the MAC address, the cache key does not |
| `NotificationLaws.InfosAre` | main/server.cpp:578-606 | the rebuilt records are those of the messages with a subnet other than "0.0.0.0" |
| `NotificationLaws.NotifiedOfList` | main/server.cpp:562-571 | a notification carrying the bytes of a list asks for the list's records, unless the bytes are empty |
| `NotificationLaws.EmptiesTable` | main/server.cpp:562-616 | a notification empties the table if and only if it has bytes, they parse, and none of its messages has a subnet other than "0.0.0.0" |
| `NotificationLaws.EmptyingNotification` | main/server.cpp:562-616 | two bytes that do: one unknown field |
| `PeerLaws.TableAfterMesh` | main/server.cpp:562-616 | after a mesh notification the table has, in the order of the messages with a subnet, an entry with the id, the address, the subnets and the MAC address of the message's own fields; the cache is empty and the gateway stays |
| `PeerLaws.MeshIgnored` | main/server.cpp:564-572 | one without bytes or with malformed bytes changes nothing |
| `PeerLaws.TableAtStart` | main/server.cpp:150-173 | the table at the start, entry by entry, with an empty cache and gateway 0 |
| `NotificationLaws.OnlineOfList` | main/server.cpp:620-649 | an online notification carrying the bytes of a list names the nodes of its edges, edge after edge |
| `PeerLaws.TableAfterOnline` | main/server.cpp:620-649 | after an online notification the table has, edge after edge, an entry with the id and the address of each node's own fields, without subnets and MAC address; nothing else changes |
| `NotificationLaws.WholeEdgesStay` | main/server.cpp:622-626 | malformed bytes leave the edges in front of the fault and at most one more, if the tag at fault can be read |
| `RouteLaws.RunRoutes` | main/server.cpp:233-303 | over every run without online notifications, the installed routes are the valid prefixes of the current peers other than self, and the table is that of the records |
| `PrefixLaws.InstalledAre` | main/server.cpp:233-303 | over every run without online notifications, a route is installed if and only if it is a valid prefix in the subnet list of some record other than the server's own |
| `RouteLaws.RouteHistory` | main/server.cpp:233-303 | over every run, online notifications included, a route is installed if and only if the newest peer list that has it is the current one, or an online notification came before the routes of that list could be deleted |
| `RouteLaws.OnlineLeavesRoutes` | main/server.cpp:620-649 | an online notification leaves the routes as they are, which are those of the new table only if there are none |
| `RouteLaws.CoveredIffAligned` | main/server.cpp:383-388 | the scan's test accepts every address a route covers if and only if the route's base has no host bits |
| `RouteLaws.CoveredResolves` | main/server.cpp:351-420 | over every run of TUN packets, gateway changes and mesh notifications of a server that does not send everything to its gateway, an address covered by an aligned installed route goes to a node of the table that matches it, never to the fallback |
| `RouteLaws.CoveredReached` | main/server.cpp:351-436 | over every run without online notifications, TAP frames included, the lookup of such an address, cached or not, gives a node of the current table that matches it by address, prefix or some MAC address |
| `RouteLaws.MisalignedFallsBack` | main/server.cpp:362-399 | with one peer whose only prefix has a base with host bits, the prefix is installed and covers an address that no entry matches and that goes to the fallback |
| `RouteLaws.MisalignedExample` | main/server.cpp:362-399 | such an address for a peer with the subnet 10.0.0.1/24 |
| `RouteLaws.ResolvedIffAligned` | main/server.cpp:351-420 | for every route that can be installed, all it covers is resolved in every run of TUN packets, gateway changes and mesh notifications in which it is installed, if and only if its base has no host bits |
| `RouteLaws.PrefixInstallable` | main/server.cpp:233-266 | every valid prefix in a subnet list can be installed by a list of its own |
| `RouteLaws.PrefixOfText` | main/server.cpp:367-385 | the text of an address, a slash and a length of at most 32 is read as the prefix of that address and length |
| `PrefixLaws.PrefixForm` | main/server.cpp:367-385 | for every length, an address, "/" and the length are that prefix if the length modulo 2^32 is at most 32, and none otherwise |
| `PrefixLaws.NoPrefixForm` | main/server.cpp:367-373 | a part without "/" or with two of them is no prefix |
| `PrefixLaws.NetsOfTwo` | main/server.cpp:365-367 | a subnet list is cut at "," |
| `ServerObject.Server.constructor` | main/server.cpp:50-81 | the table and the routes of the configured peers, an empty cache and gateway 0 |
| `ServerObject.Server.SetGatewayId` | main/server.h:59 | only the gateway changes |
| `ServerObject.Server.InitMeshCpes` | main/server.cpp:150-173 | the peer table is rebuilt from the records, both subnet bounds included |
| `ServerObject.Server.ReadPrefix` | main/server.cpp:370-385 | the base and the mask in one part of a subnet list, or none when it is malformed |
| `ServerObject.Server.AddRouteForNodes` | main/server.cpp:233-266 | the routes of the peers other than self are added |
| `ServerObject.Server.DelRouteForNodes` | main/server.cpp:269-303 | they are removed |
| `ServerObject.Server.AnyNetMatches` | main/server.cpp:367-389 | whether some valid prefix of a node matches the address |
| `ServerObject.Server.GetNodeIDFromIP` | main/server.cpp:351-400 | gateway mode, cache, scan and fallback, in that order |
| `ServerObject.Server.GetDestIDFromTunPacket` | main/server.cpp:403-420 | the destination, and the cache with it unless it is 0, the gateway or there already |
| `ServerObject.Server.GetDestIDFromTapPacket` | main/server.cpp:422-470 | by protocol and address range: looked up and cached, sent to everybody, or dropped |
| `ServerObject.Server.HandlePacketFromDev` | main/server.cpp:333-348 | a packet or a frame is a step of the state machine, and its destination the one of that step |
| `ServerObject.Server.ReplacePeers` | main/server.cpp:573-614 | cache dropped, records and table rebuilt, old routes replaced by new ones |
| `ServerObject.Server.HandleMeshNotify` | main/server.cpp:562-618 | a mesh notification is a step of the state machine; an empty or malformed one changes nothing |
| `ServerObject.Server.HandleOnlineCpesNotify` | main/server.cpp:620-659 | an online notification, parsed from its bytes, is a step of the state machine: only the table changes; what a failed parse leaves is used as it is |

## Left out

- Weak memory order, the scheduling-mode guards and a function that throws in `call_once.h`: steps are sequentially consistent and the function returns.
- The code of the spin-wait and wake helpers, which is not part of this model: a spinning thread repeatedly reads the word and applies the matching transition by compare-exchange, and sleeps only if the word is still Waiter.
- `RB_AUGMENT`, which does nothing by default, and the FROM and SAFE variants of the traversals, which read the next element one step earlier.
- `SPLAY_MINMAX` with an argument of 0, for which its loop has no end; its two callers pass -1 and 1.
- SplayTree.SplayHead.Next: takes an element of the tree; for another element the macro reads that element's own right link.
- Group wire types 3 and 4: the model's parser fails on a start-group field, where the library would keep a well-formed group as an unknown field.
- Limits of the library around the codec: messages beyond 2^31 - 1 bytes, whose cached size is cut to an int, recursion depth, arenas, swapping, default instances and buffer slop.
- Messages.InternalSerialize: sub-messages are held by value in the message that owns them, so two pointers to one sub-message, which the generated code's ownership rules out, cannot be expressed.
- MessageParser.InternalParse: of the field at which malformed input stops the loop, the value is described only where it is a sub-message that is all there; a number, a byte string or a sub-message cut off by the end of its input may be anything of its type, as may the unknown fields.
- MessageObject.Message.ParseFromString: the same.
- `pro/raw.pb.cc`: one more message of the same shape.
- CacheLaws.RunAgrees: for TUN packets and without online notifications; with the others it is false, and `TapLaws.TapRunAgrees`, `CacheLaws.OnlineAgrees` and `CacheLaws.CacheHistory` are what holds.
- CacheLaws.CacheInvisible: for the same runs.
- TapLaws.TapRunAgrees: for runs without online notifications; agreement is with all frames to a cached address, as the condition is on the table.
- RouteLaws.RunRoutes: without online notifications; with them it is false, and `RouteLaws.RouteHistory` is what holds.
- RouteLaws.CoveredResolves: for TUN packets and without online notifications, after which the table has no prefixes; `RouteLaws.CoveredReached` has TAP frames too. With `onlyAcc` set every packet goes to the gateway.
- RouteLaws.ResolvedIffAligned: for the same runs.
- ServerObject.Server.HandlePacketFromDev: takes at least the 20 bytes a read must have, and 34 in TAP mode, so that the header it looks at is there.
- The outcome of the route ioctls: a route is assumed to be added and removed as asked. Routes are pairs of base address and mask.
- Routing.NodeBounds: for prefix lengths 2 to 32; for the others the signed shift is undefined and its result is a parameter.
- Masks.MatchIsInterval: for prefix lengths 2 to 32, where the signed shift is defined.
- `Text.Strtol` without the limits of `long`: the code reads prefix lengths and byte pairs with it.
- Signals, configuration files, devices, sockets, shell commands, logging and data races between the network thread and the device loop: every handler is one atomic step.
- `include/uvpp` wrappers, libuv platform headers, the other absl headers and `main/main.cpp`.
