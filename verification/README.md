# A six-key display pad: model and proofs

The pad is a board with six displays (CircuitPython firmware, and a C module for the board's second core), a
Go daemon on the host that decides what the keys show, and Node clients that send the daemon their lists.
This project models the parts of it that must agree with each other, and proves that they do.

| file | models | main results |
|---|---|---|
| Bits, Huffman, Deflate, Inflate, Adler32, StoredStream | the zlib decoder of the second core | Ok exactly for a legal stream, and then its expansion; what is packed is unpacked |
| Sizes | the numbers that host and board share | |
| Wire, Reader | frames between host and board, read piece by piece | reading undoes writing, for every split, budget and delay |
| Handshake | the variables that two cores share | every interleaving of single accesses is a run of one simple machine |
| Frames, Preload | the host's table of the board's 52 frame slots | a Show names only slots that look as their keys want; the preload list is complete, and in order |
| Reconnect | the same slots across disconnects and wiped boards | every event sent, over every order of actions; every Show names held slots |
| Pages, Layers | the layer tree, paging and navigation | every change keeps the document valid; where presses lead, and which places they reach |
| Renderer, Delivery | a client's diff against the list the daemon keeps, and the daemon that takes its messages | the document shows exactly the wanted list, when the tree has room for it and only then |
| Bus, PushQueue, Drawing, Pad | the firmware's drawing, batches, push queue and shared bus | no newest frame lost, every frame a fresh one, every signal safe |
| StateStore | the daemon's state directory | a crash at any point loses nothing |

Code that changes things step by step is a class with methods, loops and invariants, proved against functions
and predicates of their own: the decoder against a grammar of RFC 1950 and RFC 1951, the reader against the
list of messages sent, the renderer against the Go tree. `Valid` of a class is what every step keeps, and each
`Run`, `ReadAll` or `Step` states what holds over whole runs: what comes out is a function of what came in, and of what
the links, the clocks and the other core did where that is open.

Where the code does not keep what its documentation promises, the code stands, a member gives an input that
shows it, and another gives the condition under which the promise holds:

- A cancel of an inflate that is late leaves a result that nobody collects, and the second core takes no job
  again (`Handshake.LateCancel`). Core 1 can be used again exactly when the cancel answered true
  (`Handshake.Cores.CancelStep`).
- `showPipsAgain` can name a slot whose frame the board lacks, after a store that failed
  (`Reconnect.PipsShowCanMiss`). It is right when the record of every slot it names is of this connection
  (`Reconnect.Reconnecting.ShowPipsAgain`), and only then can it be known to be
  (`Reconnect.Reconnecting.PipsNeedCurrent`).
- A custom glyph of the wrong size is saved and named in keys.json, and then dropped and pruned at the next
  start (`StateStore.SendThenRestart`, with the exact condition; `StateStore.Store.Prune` says when pruning
  keeps every glyph that is named).
- A key state that keeps the picture but names a new color turns a key that shows a cached frame plain
  (`Drawing.ToldThenDrawn`, exactly then).
- A desync can put an old frame of a held key back in the queue while a batch is open (`Pad.HeldFrameWaits`):
  exactly for the keys of a group that ends badly (`PushQueue.Pushes.GroupDone`). What is proved of an open
  batch is that no frame built after it began is queued for a key it holds (`Pad.MacroPad.BeginBatch` and the
  invariant `BatchOk`).
- The inbox renderer knows the daemon's limit of 20 children, and not its limit of 200 nodes. In a full tree a
  channel is on record as shown, the pad does not show it, and it is not sent again
  (`Delivery.FullTreeHidesChannel`). A plan arrives exactly when the key has a place or those values already, the
  values are in order, and the tree has room for the list with the nodes below the channels that stay
  (`Delivery.ShowClosed`, `Delivery.ShowOpen`).
- A Show of more than 32 keys is dropped by the board's reader (`Wire.DecodeEncode`). The pad has six keys.

`dafny verify dfyconfig.toml` checks the whole project.

## Model

| member | source | states |
|---|---|---|
| Inflate.Inflate | tools/usermod/glyphcore/inflate.c:317-385 | the decoder answers Ok exactly for a legal zlib header, a block sequence of the DEFLATE grammar whose expansion fits the output, and the right Adler-32, and the output is then that expansion; every other answer means that no output would be right, and a header error means a bad header; StoredStream.RoundTrip and Adler32.SumsAreTotals say what header and checksum are |
| Inflate.InflatesIff | tools/usermod/glyphcore/inflate.c:317-385 | a stream inflates to an output in the grammar exactly when the decoder ends there with a good trailer: soundness and completeness in one |
| Inflate.InflatesOnce | tools/usermod/glyphcore/inflate.c:317-385 | no stream has two expansions |
| StoredStream.RoundTrip | tools/usermod/glyphcore/inflate.c:317-385 | the partner of the decoder: any bytes, packed into stored blocks of at most 65535 bytes between the header 78 01 and the checksum in its closed form, inflate to those bytes, whatever follows the stream |
| StoredStream.PackedSpells | tools/usermod/glyphcore/inflate.c:179-201 | stored blocks one after the other, each with its final bit, type 0, LEN and NLEN with the low byte first, are spelled by the bits and expand to the bytes |
| Inflate.CheckTrailer | tools/usermod/glyphcore/inflate.c:351-385 | after the last block at most seven bits are buffered, so the big-endian checksum is read at the next whole byte |
| Deflate.BlocksSound | tools/usermod/glyphcore/inflate.c:126-299 | what the decoder accepts is spelled by a block list of RFC 1951 section 3.2.3 whose expansion it returns |
| Deflate.BlocksComplete | tools/usermod/glyphcore/inflate.c:126-299 | every block list that the stream spells and whose expansion fits is found, with the same end |
| Deflate.BodyComplete | tools/usermod/glyphcore/inflate.c:179-299 | one block of any of the three kinds is decoded to the block that spells it |
| Deflate.CodesSound | tools/usermod/glyphcore/inflate.c:126-177 | the literals and matches read from a block of codes are a token list that the bits spell |
| Deflate.CodesComplete | tools/usermod/glyphcore/inflate.c:126-177 | every token list that the bits spell up to the end of block is decoded, unless it does not fit |
| Deflate.NextTokenIff | tools/usermod/glyphcore/inflate.c:126-177 | the next token is read exactly when its length code, extra bits, distance code and extra bits stand there, with a distance into what was written |
| Deflate.ReadTablesSound | tools/usermod/glyphcore/inflate.c:226-299 | the code lengths of a dynamic block are the runs its header spells, under the rules on complete and one-code tables |
| Deflate.ReadTablesComplete | tools/usermod/glyphcore/inflate.c:226-299 | every header that the rules allow gives its code lengths |
| Deflate.NextRunIff | tools/usermod/glyphcore/inflate.c:257-284 | a run of code lengths is read exactly when its symbol and repeat count stand there |
| Deflate.TableSizes | tools/usermod/glyphcore/inflate.c:226-239 | the 14 bits in front of the code lengths are the three sizes, counted from 257, 1 and 4 |
| Deflate.RunCounts | tools/usermod/glyphcore/inflate.c:257-284 | a run that is spelled repeats the last length 3 to 6 times, or a zero 3 to 10 or 11 to 138 times, and changes no length before it |
| Deflate.LengthIsSaid | tools/usermod/glyphcore/inflate.c:32-39 | every match length from 3 to 258 is said by a length symbol and its extra bits, and below 258 by one pair alone |
| Deflate.DistanceIsSaid | tools/usermod/glyphcore/inflate.c:40-48 | every distance from 1 to 32768 is said by exactly one distance symbol with its extra bits |
| Deflate.CompleteIff | tools/usermod/glyphcore/inflate.c:95-124 | Kraft's equation: a code is complete when its codes take all 2 to the 15 patterns of 15 bits, and over-subscribed when they would take more |
| Deflate.UsableIff | tools/usermod/glyphcore/inflate.c:287-297 | the codes of a dynamic block that are taken are the complete ones and those of one symbol alone |
| Deflate.CopyRepeats | tools/usermod/glyphcore/inflate.c:165-172 | an overlapping copy repeats the last `distance` bytes |
| Huffman.DecodeIff | tools/usermod/glyphcore/inflate.c:70-90 | decoding returns a symbol and its end exactly when the canonical code of that symbol, RFC 1951 section 3.2.2, stands there |
| Huffman.RoundTrip | tools/usermod/glyphcore/inflate.c:70-90 | encoding any symbols and decoding gives them back, wherever the code stands in a stream |
| Huffman.CodeFits | tools/usermod/glyphcore/inflate.c:95-124 | lengths that are not over-subscribed give every symbol a code that fits its length |
| Huffman.PrefixIsAbove | tools/usermod/glyphcore/inflate.c:95-124 | no code is a prefix of another |
| Huffman.NthIsUnique | tools/usermod/glyphcore/inflate.c:95-124 | length and rank name one symbol |
| Inflate.Table.Construct | tools/usermod/glyphcore/inflate.c:95-124 | the count and symbol arrays built in place are the tables of the lengths, and the result is negative, zero or positive as the code is over-subscribed, complete or incomplete |
| Inflate.State.ReadBits | tools/usermod/glyphcore/inflate.c:54-66 | the next `need` bits of the stream, low bit first, or nothing taken at the end; at most seven bits stay buffered once the buffer held that few, and it stays below 2 to the 32 |
| Inflate.State.LoadByte | tools/usermod/glyphcore/inflate.c:54-66 | the shifted byte and the buffer with it fit in 32 bits, so the shift drops nothing |
| Inflate.State.DecodeSymbol | tools/usermod/glyphcore/inflate.c:70-90 | the bit-by-bit loop over the tables is the canonical decoder, with its two error answers |
| Inflate.State.CopyFrom | tools/usermod/glyphcore/inflate.c:160-172 | a match that reaches back too far, or past the end of the output, is refused and writes nothing; any other writes the bytes that the grammar copies, overlapping or not |
| Inflate.State.ReadMatch | tools/usermod/glyphcore/inflate.c:140-176 | a match is decoded or refused as in the grammar, with every table index in bounds |
| Inflate.State.RunCodes | tools/usermod/glyphcore/inflate.c:126-177 | the loop ends where the decoder of the grammar ends, with the same output |
| Inflate.State.RunStored | tools/usermod/glyphcore/inflate.c:179-201 | the padding alone is dropped, LEN is checked against NLEN, and the bytes are copied as they are |
| Inflate.State.RunFixed | tools/usermod/glyphcore/inflate.c:203-224 | a fixed block is decoded with the two codes of RFC 1951 section 3.2.6 |
| Inflate.FixedCodesFit | tools/usermod/glyphcore/inflate.c:203-224 | the fixed codes are not over-subscribed, so the ignored result of construct is safe to ignore |
| Inflate.FixedCode | tools/usermod/glyphcore/inflate.c:203-224 | the canonical codes of the fixed lengths are those of the table of RFC 1951 section 3.2.6, symbol by symbol |
| Inflate.State.ReadDynamicTables | tools/usermod/glyphcore/inflate.c:226-299 | both tables are built from the header, or the block is refused, exactly by the rules of the grammar |
| Inflate.State.RunBlocks | tools/usermod/glyphcore/inflate.c:336-350 | all blocks up to the final one, each by its type, and type 3 refused |
| Inflate.PlacesInvert | tools/usermod/glyphcore/inflate.c:49-52 | the order of the code length code names every symbol once: 16, 17, 18, 0, then outward from 8 |
| Adler32.Compute | tools/usermod/glyphcore/inflate.c:301-315 | the 32-bit chunked loop, for any length: its low 16 bits are 1 plus the sum of the bytes modulo 65521, and its high 16 bits the count plus the sum of the bytes, each as often as there are bytes from it to the end, modulo 65521 |
| Adler32.SumsAreTotals | tools/usermod/glyphcore/inflate.c:301-315 | the two sums with a remainder after every byte have that closed form |
| Adler32.ChunkFits | tools/usermod/glyphcore/inflate.c:301-315 | a chunk of at most 5552 bytes keeps both sums below 2 to the 32 |
| Adler32.LongerChunkOverflows | tools/usermod/glyphcore/inflate.c:301-315 | 5553 bytes can overflow: the chunk size is the largest safe one |
| Adler32.LateRemainder | tools/usermod/glyphcore/inflate.c:301-315 | taking remainders once a chunk gives the same remainders as taking them per byte |
| Bits.ValueCut | tools/usermod/glyphcore/inflate.c:54-66 | masking and shifting a bit buffer splits the number its bits spell |
| Bits.ValueJoin | tools/usermod/glyphcore/inflate.c:54-66 | a byte loaded above the buffered bits extends that number |
| Wire.DecodeEncode | firmware/wire.py:503-542 | the board decodes each frame that the host encodes to the message it came from; a Show of more than 32 keys is the one it drops |
| Wire.KnownIff | firmware/wire.py:394-471 | the board knows exactly the types that it takes at some length, and what it takes fits its buffer and carries a glyph or a stream where its type asks for one |
| Wire.EncodeIff | driver/transport/frames.go:68-267 | a message has a frame exactly when its slots, its picture, the length of its stream and its counts are in their ranges; but for a Show the frame is never too long |
| Reader.ReadAll | firmware/wire.py:366-392 | however the bytes arrive and whatever the budgets, on one core or two, the reader returns a prefix of the host's messages in order, unknown frames skipped, and all of them once it has read everything, unless an inflate on the second core ran past its time, which happened as often as its count says; it raises no error, with one core no inflate is late, and no call of `feed` is idle |
| Reader.CustomGlyphReader.Feed | firmware/wire.py:366-392 | one call returns at most one message, and every byte read and every message owed stays accounted for; each call reads, answers, or finds the port or the second core to wait for |
| Reader.CustomGlyphReader.Consume | firmware/wire.py:394-471 | a read never passes the end of the current frame, and a frame the board does not take is thrown away by its declared length |
| Reader.CustomGlyphReader.Finish | firmware/wire.py:473-488 | a whole frame is returned, begun, held behind a running inflate, or was thrown away, in order |
| Reader.CustomGlyphReader.Advance | firmware/wire.py:490-501 | a finished inflate comes before the frame held behind it |
| Reader.CustomGlyphReader.Dispatch | firmware/wire.py:503-542 | a frame becomes its message at once, or its inflate goes to the second core |
| Reader.CustomGlyphReader.Collect | firmware/wire.py:574-594 | a finished inflate is its frame's message; an inflate is dropped exactly when it still runs past its time |
| Reader.CutInOneWay | firmware/wire.py:394-471 | a byte stream splits into frames in one way, so frames and an unfinished rest read from its front are its first frames |
| Reader.FramesSayMessages | driver/transport/wire.go:93-133 | the host's frames, unknown types among them, hold exactly the host's messages |
| Reader.HostIsGood | firmware/wire.py:473-488 | no frame that the host sends is an error to the board, frames of unknown types among them |
| Handshake.Run | tools/usermod/glyphcore/glyphcore.c:69-140 | any interleaving of single memory accesses is the run of a machine in which core 1 turns the stream of the last accepted job into what it inflates to: the state after the moves is that of the machine; so every collected result is what the stream of its own job inflates to, jobs in order, no job runs in a flash call unless that one's wait ended late, and no job in progress writes a buffer that a key's picture comes from |
| Handshake.Cores.Do | tools/usermod/glyphcore/glyphcore.c:69-249 | every access of either core is the move of the machine of that kind, for submits, polls, cancels, flash calls, results collected, and core 1; once a cancel was late, no later job is ever accepted |
| Handshake.LateCancel | tools/usermod/glyphcore/glyphcore.c:128-140 | after one late cancel, whatever moves follow, no other job is accepted, the result is not collected, and the state is not idle |
| Handshake.GoodRun | tools/usermod/glyphcore/glyphcore.c:69-140 | a run in which a submitted stream of a whole glyph is inflated, polled and collected, and is the key's picture |
| Handshake.StepGoesOn | tools/usermod/glyphcore/glyphcore.c:69-249 | a move accepts at most one job and collects at most one result, and a stuck machine stays stuck |
| Handshake.NeverHung | tools/usermod/glyphcore/glyphcore.c:99-118 | a flash call begins beside a job only when its wait ends late |
| Handshake.Cores.CancelStep | tools/usermod/glyphcore/glyphcore.c:128-140 | cancel answers true exactly when the job state is idle again |
| Handshake.Cores.StartSubmit | tools/usermod/glyphcore/glyphcore.c:210-229 | a job is taken exactly when the state is idle and no flash write is on, and aims at the buffer its key's picture does not come from |
| Handshake.Cores.SubmitStep | tools/usermod/glyphcore/glyphcore.c:210-229 | stream, length and target are written only while core 1 sleeps, and the job is queued whole |
| Handshake.Cores.EndPoll | tools/usermod/glyphcore/glyphcore.c:234-249 | a poll that ends hands over the result of the last job accepted, and only a whole glyph becomes a picture |
| Handshake.Cores.Keep | firmware/wire.py:574-594 | the collected buffer becomes the key's current one, every other picture stays |
| Handshake.Cores.FlashStep | tools/usermod/glyphcore/glyphcore.c:99-118 | the flash call starts only when no job is queued or running, or time is up, and which of the two it was is on record |
| Handshake.Cores.Core1Step | tools/usermod/glyphcore/glyphcore.c:62-79 | core 1 changes no buffer but the job's, and never makes the state idle |
| Frames.Controller.FlushFrames | driver/layers/frames.go:230-300 | every slot a flush names in its Show holds on the board the look that its key wants, after failed stores too; keys that look right already are not named, and every other key is named unless a store failed; when all frames are in the table nothing is stored |
| Frames.OneFrameOneLook | driver/layers/frames.go:49-66 | two views share a frame exactly when they look the same: the same tile of words, the same emoji with its strip or on its round, the same icon over the same color, or the same color alone |
| Frames.FrameIsView | driver/layers/frames.go:179-212 | what the board composes for the frame of a view is what the key would show if it were drawn on its own |
| Frames.SettledIff | driver/layers/frames.go:230-240 | a key needs no message exactly when it looks right already, with its pip, or was never drawn and stays blank |
| Frames.Controller.ChooseSlots | driver/layers/frames.go:236-270 | a slot chosen earlier in the flush keeps its frame while later ones are stored |
| Frames.OldestIsUntouched | driver/layers/frames.go:127-158 | the slot an eviction takes is neither pinned nor touched in this flush, as 52 slots are more than 6 pinned and 5 touched |
| Frames.FrameTable.Claim | driver/layers/frames.go:127-158 | the lowest free slot, else with evict the least recently used unpinned one; both maps of the table stay inverse and the ticks distinct |
| Frames.FrameTable.Lookup | driver/layers/frames.go:109-116 | the slot that holds a frame, which is then the most recent |
| Frames.FrameTable.Release | driver/layers/frames.go:161-166 | the frame of a failed store is forgotten and nothing else |
| Frames.Controller.StoreFrame | driver/layers/frames.go:182-210 | a store that fails gives its slot up, so the table never names what the board may lack |
| Frames.Controller.SlotFor | driver/layers/frames.go:240-262 | a frame used since the flush began stays where it is |
| Frames.Controller.FindChanged | driver/layers/frames.go:230-240 | exactly the keys whose look or pip must change need a message (Frames.SettledIff) |
| Frames.Controller.PreloadPass | driver/layers/frames.go:442-484 | preloading evicts nothing; unless a store fails it ends with every needed frame stored or the table full, and what is new in the table is never behind a needed frame that the table lacks |
| Reconnect.Run | driver/transport/reconnect.go:222-287 | over any order of connects, unasked disconnects, failing links, stores, shows, key draws, restores, show misses and pip sheets, with background work of any past connection, each action has exactly the events it should have after what the script stored and after the events before it: each Show sent names only slots that the board, by all the writes since it joined, holds with the frame stored last, and so for the pips' own Show when its slots are known to be held; over a sound link no write fails |
| Reconnect.Act | driver/transport/reconnect.go:191-700 | one action of any kind has the events that `Does` gives for it, changes what the host remembers as `Remember` does, and leaves records that agree with all the events |
| Reconnect.NotedAt | driver/transport/reconnect.go:478-505 | key by key, a Show leaves each key that names a stored slot with that slot and its pip, or with no pip, and every other key as it was |
| Reconnect.ShownAgain | driver/transport/reconnect.go:602-700 | the pips' own Show, and the answer to a Show miss, repeat the slot and the count that the last Show gave the key, and nothing for a key without a pip, or that did not miss |
| Reconnect.DoesIsSafe | driver/transport/reconnect.go:470-700 | any events that an action may have are safe: each Show names only slots that the board holds at that moment, if the slots known to be held do hold the frames on record |
| Reconnect.Reconnecting.KeyDrawn | driver/transport/reconnect.go:313-342 | a key that is drawn on its own is no longer one whose frame or pip is shown again |
| Reconnect.Reconnecting.Show | driver/transport/reconnect.go:470-534 | frames that the board of this connection is not known to hold are stored first, each once; the Show comes last unless a write failed, and names only slots it holds |
| Reconnect.Reconnecting.StoreLocked | driver/transport/reconnect.go:538-558 | a record counts as held by the connection only after the store went through |
| Reconnect.Reconnecting.StoreFrame | driver/transport/reconnect.go:406-427 | a new frame replaces the record, counts as held by nobody, and is sent once when a board is there |
| Reconnect.Reconnecting.Connect | driver/transport/reconnect.go:235-287 | after a connect no record counts as held, whatever the board has in its slots |
| Reconnect.Reconnecting.Disconnect | driver/transport/reconnect.go:218-231 | a board that goes away leaves every record as it was |
| Reconnect.Reconnecting.Missing | driver/transport/reconnect.go:506-519 | exactly the slots of a Show whose record this connection was not sent, each once |
| Reconnect.Reconnecting.RestoreOne | driver/transport/reconnect.go:564-600 | one background store does nothing for a connection that is not the current one |
| Reconnect.WorkEnds | driver/transport/reconnect.go:564-600 | the background work of a connection is never that of a later board: once its board is gone, it does nothing |
| Reconnect.Reconnecting.HandleShowMiss | driver/transport/reconnect.go:640-694 | the slots of the keys that missed count as held by nobody, are stored again in their order, and are shown unless a write failed |
| Reconnect.Reconnecting.ShowPipsAgain | driver/transport/reconnect.go:605-619 | the pips' own Show is sent exactly when the connection is current and there are pips, and names only held slots when the record of every slot it names is of this connection |
| Reconnect.Reconnecting.PipsNeedCurrent | driver/transport/reconnect.go:605-637 | that condition is exact for the keys that this Show names: without it some board about which all that is known is true lacks a slot |
| Reconnect.PipsShowCanMiss | driver/transport/reconnect.go:605-619 | without that condition it can name a slot whose frame the board lacks: a run over which a store fails, in which the Show is sent and the connected board lacks the frame |
| Pages.ChildHasOneHome | driver/layers/pages.go:48-68 | every child is on exactly one key of exactly one page |
| Pages.ChildrenInOrder | driver/layers/pages.go:48-68 | the children of a page stand on its keys in order, from child 4 times the page on |
| Pages.RolesLead | driver/layers/pages.go:48-68 | a page shows only children that exist, and its arrows lead to pages |
| Pages.PageCountIsLeast | driver/layers/pages.go:21-26 | PageCount is the least number of pages that hold the children, 5 on the last one and 4 on every other |
| Pages.ClampIsNearest | driver/layers/pages.go:110-118 | a page is clamped to the nearest one that the layer has |
| Pages.PageLayout | driver/layers/pages.go:48-68 | the array built step by step gives each key the one role of its place |
| Layers.Controller.Apply | driver/layers/controller.go:483-518 | any update, removal or press leaves a valid document or the old one; an update is done exactly when it applies and the tree stays valid, and moves nothing on the pad; a removal always passes the rules, and the new path is the old one cut to the layers still there, each on the page it showed, clamped; a press leads where the key says, and is not done exactly when the key leads nowhere |
| Layers.Controller.Commit | driver/layers/controller.go:483-518 | the change is kept exactly when the tree keeps the rules |
| Layers.RemoveKeepsRules | driver/layers/controller.go:385-405 | every removal from a valid tree leaves a valid tree |
| Layers.UpdateIsSeen | driver/layers/controller.go:306-363 | after an update, of a top-level key in any slot or of a node below, the node named is there with its new fields and its old children |
| Layers.UpdateRules | driver/layers/controller.go:306-363 | a valid tree takes an update exactly when the values are in order and the node is there already, or there is a place below its node and in the 200 nodes of the tree |
| Layers.UpdateKeepsNav | driver/layers/pages.go:74-93 | an update leaves the open path, its page and the parent pages where they are |
| Layers.UpdateElsewhere | driver/layers/controller.go:306-363 | an update changes no node but the one named and those above it |
| Layers.UpdateTakesKey | driver/layers/controller.go:306-363 | an update of a top-level key goes to the key it names, else to the one it has, else to the lowest free one, and is refused when that one is taken; every other node keeps its key |
| Layers.RemoveEmptiesKey | driver/layers/controller.go:385-405 | a removal of a top-level key empties that key and no other |
| Layers.RemoveElsewhere | driver/layers/controller.go:385-405 | a removal changes no node but those above the one named |
| Layers.RemoveIsGone | driver/layers/controller.go:385-405 | after a removal nothing is at the path of what was removed |
| Layers.LiveDepthIsLongest | driver/layers/pages.go:74-93 | the path after settle is the longest prefix whose node still has children |
| Layers.Doc.Settle | driver/layers/pages.go:74-93 | whatever was left of path and pages, the result is a place the pad can show |
| Layers.Doc.Up | driver/layers/pages.go:97-107 | the layer above opens on the page it showed |
| Layers.ValidateChildren | driver/layers/doc.go:286-316 | the recursive check accepts exactly the well-formed trees and counts their nodes |
| Layers.ValidateKeys | driver/layers/doc.go:235-262 | the check of the keys accepts exactly the trees that keep the rules |
| Layers.ValidateNav | driver/layers/doc.go:262-284 | the check of path and pages accepts exactly the places the pad can show |
| Layers.PressKeepsNav | driver/layers/controller.go:425-478 | a press leads from a valid place to a valid place |
| Layers.PressIff | driver/layers/controller.go:425-478 | a press leads to a place exactly when that is the first page of the node with children that the key shows, the page after or before by the arrows, or from a first page the layer above on its page; every other press changes nothing |
| Layers.ReachedIff | driver/layers/controller.go:425-478 | presses reach from the top exactly the valid places whose layers above show, on their pages, the keys that lead there |
| Layers.OpenThenUp | driver/layers/controller.go:425-478 | opening a layer and going up restores path, page and parent pages |
| Layers.RightThenLeft | driver/layers/controller.go:425-478 | right and then left restores path, page and parent pages |
| Layers.SettledStays | driver/layers/pages.go:74-93 | settle changes nothing at a valid place |
| Preload.NeededFrames | driver/layers/frames.go:307-352 | the list holds every frame that any place of the tree can ask for, no other, and each once; up to a cut it has exactly the frames of the first places, and the places come in turn: the top layer, the first pages of all layers breadth first, the second pages, and so on |
| Preload.NavIsPlace | driver/layers/controller.go:521-553 | what a navigation state shows is what one of those places asks for |
| Preload.ArrowsLead | driver/layers/controller.go:521-554 | a key shows the left, right or up picture exactly when a press on it turns back, turns on, or goes up |
| Preload.TopIsSeen | driver/layers/controller.go:521-554 | on the top layer a key is blank exactly when it has no node, or one without a value and without children |
| Preload.ChildIsSeen | driver/layers/controller.go:521-554 | in a layer each key shows the child that a press on it would open |
| Preload.ViewSaysFields | driver/layers/controller.go:555-558 | nodes that differ in a field have different views, and different colors exactly when their statuses differ |
| Preload.DesiredIsProper | driver/layers/doc.go:337-348 | whatever a valid document shows can be drawn: no file stands beside words or emoji |
| Preload.AllLayers | driver/layers/frames.go:311-330 | every node with children is listed once, breadth first: higher layers first, those on one level as their parents stand, those of one parent as its children stand |
| Preload.FlushAfterPreload | driver/layers/frames.go:302-352 | once all needed frames are in the table, a flush for any navigation state stores nothing |
| Renderer.Plugin.PlanClosed | inbox/src/render.js:126-173 | the messages of a closed plan turn a pad that agrees with the record into exactly the first 20 rows, in order, child by child with the fields of its own row; they first take away all but the channels that stay, and then only draw; no list on the way grows beyond the wanted one, and when all that is on record already nothing is sent |
| Renderer.Plugin.Clear | inbox/src/render.js:126-169 | the first half leaves exactly the common start of what stays and what is wanted |
| Renderer.Plugin.PlanOpen | inbox/src/render.js:143-153 | while the layer is open the old list is a prefix of the new one, no message takes a key away, and the pad shows the list, each channel with the fields of its row, or of no row |
| Renderer.RowOfIff | inbox/src/render.js:135-135 | a channel has a row exactly when a row is its, and that row is the one found |
| Renderer.OwnRow | inbox/src/render.js:135-135 | when no two rows have one channel, each row is the row of its channel |
| Renderer.StayIs | inbox/src/render.js:162-162 | what stays is what was shown and is wanted, in the order it had |
| Renderer.CommonIs | inbox/src/render.js:166-168 | the loop stops at the first place where the two lists differ |
| Renderer.ExtendIs | inbox/src/render.js:143-153 | the open list has what it had, then the wanted channels in their order, each once, up to the end of the wanted list or until there are 20 |
| Renderer.Plugin.DrawChild | inbox/src/render.js:86-102 | whether the message is sent or suppressed as unchanged, afterwards the pad shows the channel with these fields, in its place or last, and every other child as before |
| Renderer.Plugin.DropChild | inbox/src/render.js:104-107 | the pad takes the removal, and the cache forgets the channel, so that it is sent again |
| Renderer.Plugin.DropEverything | inbox/src/render.js:156-161 | the first closed plan after a connect clears whatever the pad may hold |
| Renderer.Plugin.DropUnwanted | inbox/src/render.js:162-166 | channels not wanted go, the rest keep their order |
| Renderer.Plugin.DropMoved | inbox/src/render.js:167-169 | from the first channel out of place on, all go |
| Renderer.Plugin.DropMisplaced | inbox/src/render.js:162-169 | what is left is a prefix of the wanted list, and nothing goes when the list was the wanted one |
| Renderer.Plugin.DrawAll | inbox/src/render.js:170-171 | the wanted channels are drawn behind those that stayed |
| Renderer.Plugin.AddNew | inbox/src/render.js:145-150 | a new channel goes at the end while there is a place |
| Renderer.Plugin.Reset | inbox/src/render.js:112-119 | after a connect the renderer assumes nothing about the pad |
| Renderer.UpdateIsSetChild | driver/layers/controller.go:306-363 | the pad of these results is the Go tree: a child's update through it is the renderer's step |
| Renderer.ChildIsTaken | driver/layers/doc.go:286-316 | the tree takes a child exactly when its values are in order and it is there already, or its key has fewer than 20 children and the tree fewer than 200 nodes |
| Renderer.RemoveIsRemoveChild | driver/layers/controller.go:385-405 | a child's removal through the Go tree is the renderer's step |
| Renderer.UpdateIsSetTop | driver/layers/controller.go:306-363 | the key's own update through the Go tree is the renderer's step |
| Delivery.MessageStep | driver/layers/controller.go:306-363 | a message that draws touches no node outside its key, takes no key's place, puts nothing below a channel, and arrives when its key stands, its values are in order and the tree has room for the list |
| Delivery.Deliver | driver/layers/controller.go:483-518 | a whole plan goes through the controller message by message; without removals no layer closes and no page turns |
| Delivery.DrawsArrive | driver/layers/controller.go:306-363 | messages that draw have on the tree the effect that they have on the pad, under a condition that the caller can check before, and leave what is below the channels |
| Delivery.ClearsArrive | driver/layers/controller.go:385-405 | messages that clear leave exactly the children that they do not name, with all below them, whether or not the key gets its values |
| Delivery.ShowClosed | inbox/src/render.js:155-173 | renderer and daemon together: child by child the document shows the first 20 rows, each with the fields of its own row, exactly when the key has a place or its values already, all values are in order, and the tree has room for the list with the nodes below the channels that stay; the same rows again send nothing |
| Delivery.ShowOpen | inbox/src/render.js:143-153 | the same for the list that only grows while the layer is open, where all channels stay, one without a row has the fields of no row, and the pad stays on its layer and page |
| Delivery.ListIsLegal | driver/layers/doc.go:235-262 | a list that stands on a valid tree had values in order, and room |
| Delivery.FullTreeRefuses | driver/layers/doc.go:286-316 | in a tree of exactly 200 nodes, a key with no child at all gets none |
| Delivery.FullTreeHidesChannel | inbox/src/render.js:86-91 | a run that shows it: the channel is on record as shown, the pad does not show it, and the next plan for the same rows sends nothing |
| Bus.ParallelBus.StartGroup | firmware/pio_spi.py:289-308 | a group starts with its own machines, DC high, exactly its panels listening, and each panel, by all that it has heard over the wires, at the first pixel of its full window |
| Bus.ParallelBus.PrepareGroup | firmware/pio_spi.py:273-287 | group machines are built with every CS high |
| Bus.ParallelBus.Write | firmware/pio_spi.py:268-271 | a command goes out with one CS low and no group on the wire; the machines of both modes never coexist |
| Bus.ParallelBus.Done | firmware/pio_spi.py:311-336 | true exactly when no group is on the wire; a group counts as sent only after every follower stalled, and as desynced only after its deadline |
| Bus.Panels.SetupWindow | firmware/st7735.py:175-199 | CASET, RASET and RAMWR go out, commands with DC low and their data with DC high, to this panel alone; afterwards it is at its first pixel and no panel listens |
| Bus.WindowIsSet | firmware/st7735.py:175-199 | a panel that hears those three commands is in write mode at the first pixel of its full window, and no other panel hears any of it |
| Bus.Panels.PreparePush | firmware/st7735.py:201-208 | no frame goes to a panel that took part of another one before: it gets its window first, and a panel that needs none gets nothing |
| Bus.Panels.BeginPush | firmware/st7735.py:210-223 | DC is high and this panel listens beside those of its group |
| Bus.Panels.AbortPush | firmware/st7735.py:246-255 | the panel stops listening, and gets its window again first |
| PushQueue.Pushes.Submit | firmware/app.py:236-242 | a frame replaces the key's queued one in its place, else goes last; a key is queued once, exactly when it has a frame |
| PushQueue.Pushes.StartGroup | firmware/app.py:299-335 | the oldest queued frames, at most three, go on the wire, safely |
| PushQueue.Pushes.RequeueActiveGroup | firmware/app.py:284-297 | the frames of a failed group go to the front in order, but for those a newer frame replaced |
| PushQueue.Pushes.GroupDone | firmware/app.py:260-282 | a group ends exactly when its transfers have, sent or requeued, and no key's newest frame is lost either way; a key with nothing queued has a frame queued afterwards exactly when it was in a group that ended badly |
| PushQueue.Pushes.ServicePushes | firmware/app.py:244-258 | service forgets no newest frame, sends each key's frames in the order of submission, takes a group off the wire once its transfers end, and leaves the bus free only when nothing waits |
| PushQueue.Pushes.Withdraw | firmware/app.py:575-581 | a Begin batch takes a key's queued frame out of the queue, and nothing else |
| PushQueue.WithoutKeeps | firmware/app.py:575-581 | removing a key from the queue keeps the others, each once |
| PushQueue.WithoutCloses | firmware/app.py:575-581 | the others close up in the order they had |
| PushQueue.UnreplacedKeys | firmware/app.py:284-297 | the requeued keys are those of the group without a newer frame, each once |
| PushQueue.UnreplacedInOrder | firmware/app.py:284-297 | they keep the order they had in the group |
| PushQueue.RequeuedKeepsOrder | firmware/app.py:284-297 | a desync keeps every key's order of frames and its newest one |
| PushQueue.FinishedKeepsOrder | firmware/app.py:260-282 | the end of a group keeps every key's order of frames and its newest one |
| Drawing.HasTransparentPixel | firmware/display_render.py:103-123 | the search for two zero bytes at an even place is the scan of all pixels |
| Drawing.FindIsFirst | firmware/display_render.py:117-123 | the byte search finds the first pair |
| Drawing.PanelSees | firmware/display_render.py:126-142 | the panel gets the glyph's own bytes where it has a pixel and the big-endian color elsewhere |
| Drawing.KeyState.BuildFrames | firmware/display_render.py:235-274 | the kept frames are those of the current color, glyph and blink afterwards, whatever came before; only an unchanged key that shows a cached frame keeps it |
| Drawing.KeyState.RenderKey | firmware/display_render.py:331-356 | a key that shows no cached frame is handed the frame drawn afresh for its state and the asked phase |
| Drawing.ShownIsFresh | firmware/display_render.py:331-356 | the frame a drawn key shows equals a fresh compose |
| Drawing.KeyState.ShowCached | firmware/display_render.py:277-301 | the key's state becomes what the slot shows |
| Drawing.ToldThenDrawn | firmware/display_render.py:277-301 | a key state that keeps the picture keeps a cached frame exactly when it names the color the frame was composed over and the key has no picture; otherwise the key is drawn afresh, without a picture in plain color |
| Pad.MacroPad.Step | firmware/app.py:216-234 | after a pass every key's color, emoji, blink and picture, its next pip buffer, the slots and what the open batch waits for are those that the message and the report make of them, and the Show misses are answered; a batch is open after the pass exactly when, after the message and the report, it lacks something and has time left; every key that no batch held at the drawing has as its newest frame the one of its state in the phase of the moment; no frame built since a batch began waits or is on the wire for a key it holds; a buffer changes under a push only when that push read it before |
| Pad.Run | firmware/app.py:216-234 | over any run: the pad ends as all the messages say, key by key, with the misses answered pass by pass; a batch is open exactly when some pass opened one that no Show and no other batch cut short, that always lacked something, and whose two seconds no pass exceeded; the last pass left every key that no batch held drawn; all that went over the lines went safely, the newest frame of every key is queued, on the wire or last sent, and each key's frames were sent in order |
| Pad.BatchLife | firmware/app.py:559-601 | when a batch is open, from the messages and the clock alone, and what it waits for: what its Begin batch named and no pass has brought |
| Pad.StockLife | firmware/frame_cache.py:107-152 | after a run a slot holds a frame exactly when some pass stored one there, and pips are drawn exactly when some pass brought their sheet |
| Pad.PhaseTurns | firmware/app.py:628-628 | blinking keys are on for half a second and off for half a second, by the clock alone |
| Pad.MacroPad.RenderDirtyKeys | firmware/app.py:695-724 | every key that no batch holds ends drawn in the phase of the moment, and a held one waits for the release |
| Pad.MacroPad.BeginBatch | firmware/app.py:559-582 | afterwards no named key has a frame in the queue, and none built later gets there before the release |
| Pad.HeldFrameWaits | firmware/app.py:284-297 | a run in which a held key has a frame in the queue while the batch is open: its frame was on the wire when Begin batch named it, and the group ended badly |
| Pad.MacroPad.ReleaseBatch | firmware/app.py:621-636 | all touched keys are queued in one pass, in one blink phase |
| Pad.MacroPad.ReleaseBatchIfDone | firmware/app.py:584-601 | a batch stays open exactly when it lacks a glyph or a state and its time is not up; a nudge counts, and at most three go out |
| Pad.MacroPad.ApplyKeyState | firmware/app.py:367-398 | the key takes the color, emoji and blink of the state, and loses its picture unless the emoji is the sentinel; it is to be drawn again, no other key changes, and the batch no longer waits for its state |
| Pad.MacroPad.ApplyGlyph | firmware/app.py:428-451 | the key's picture is the glyph, its color and blink stay; it is to be drawn again, no other key changes, and the batch no longer waits for its glyph |
| Pad.MacroPad.ShowFrames | firmware/app.py:505-557 | each named key shows its slot, by the buffer of the slot or by the copy with a pip in the key's next pip buffer, or is answered with a miss; a key that missed or is not named keeps its image; an open batch ends first; a pip is drawn under a push only when its buffer was in use before or a release put frames in the queue |
| Pad.MacroPad.StoreFrame | firmware/app.py:464-476 | the slot takes the color and the picture, and changes under a push only when one read it before and the wait was too long |
| Pad.MacroPad.PipFrame | firmware/app.py:485-503 | a pip goes on a copy in the key's other buffer, and under a push only when one read that buffer before and the wait was too long |
| Pad.MacroPad.WaitForView | firmware/app.py:478-483 | afterwards no push reads the buffer, unless time was up |
| StateStore.Daemon.Record | driver/transport/reconnect.go:351-367 | while no write fails, a crash at any point between writes leaves a directory that names only glyphs that are there, and that restarts to the state before or after |
| StateStore.LoadUndoesSave | driver/transport/statestore.go:100-167 | load gives back the keys and glyphs last saved, but for glyphs that are not whole |
| StateStore.Store.Load | driver/transport/statestore.go:100-167 | the loop reads exactly what the directory means, and moving an older daemon's glyph file changes nothing |
| StateStore.Store.Prune | driver/transport/statestore.go:172-196 | exactly the files of no glyph that a restart would show go; when every deletion goes through, every glyph named is still there exactly if every one named is whole |
| StateStore.Store.SaveGlyph | driver/transport/statestore.go:218-230 | afterwards the glyph has its file, written once |
| StateStore.FewerFiles | driver/transport/statestore.go:172-196 | a file that no restart would show can go |
| StateStore.Daemon.RecordKey | driver/transport/reconnect.go:351-367 | `changed` is false only when the memory is as it was |
| StateStore.Daemon.constructor | driver/transport/reconnect.go:158-179 | the daemon starts with what the directory holds, and keeps it sound |
| StateStore.Daemon.SendCustomGlyph | driver/transport/reconnect.go:378-401 | the key shows the glyph from now on, whatever its size |
| StateStore.Daemon.SendKeyState | driver/transport/reconnect.go:313-342 | the key keeps its glyph exactly when the state names the sentinel |
| StateStore.SendThenRestart | driver/transport/reconnect.go:378-401 | with every write going through, after a restart the key shows the glyph exactly when it is 32768 bytes: the size is not checked before the glyph is saved |

## Left out

- Inflate.Inflate: does not model the cancel flag, which ends a decode early with its own error; Handshake models it.
- Reader.ReadAll: an inflate that takes longer than its time limit is dropped and counted, and the messages are stated for runs without one. How often the port or the second core kept `feed` waiting is counted, not bounded. The start-up cancel of a job left by an earlier run is not modelled.
- Reader.CustomGlyphReader.Feed: the text of the errors raised, the version check of HID reports and the clock; a budget is a number of looks at the clock.
- Wire.DecodeEncode: the compressor and the inflater are a pair of functions that invert each other here; Inflate.dfy has the inflater itself.
- Handshake.Run: memory is sequentially consistent, `alloc` and the buffers it frees are left out, and time is a nondeterministic "late". A reload of the firmware in the middle of a job is left out.
- Frames.Controller.FlushFrames: the pixels of a picture are left out, a look says what is drawn and with which colors, and a file that cannot be read is left out; the tick does not wrap at 64 bits, and a store that went through is taken to be applied by the board, as in Reconnect.
- Reconnect.Run: a write that went through is taken to be applied by the board, whose reader can still drop a frame when its inflate is late (firmware/wire.py:585-590). Replaying key states after a connect and answering an incomplete batch are left out; a link may fail at any send.
- Layers.Controller.Apply: what a press on a child without children tells the plugin that owns it, the form of texts and icon paths (a part of `Node.validate`), saving, timers and logging are left out.
- Renderer.Plugin.PlanClosed: the fields of a row are opaque values, and the pad of this file knows only the limit of 20 children; Delivery adds the daemon's other rules.
- Delivery.ShowClosed: a change by another client between two messages of one plan is left out.
- Bus.ParallelBus.Done: PIO timing and electrical behaviour are left out: a group ends sent, late, or goes on. Machines that cannot be built, and the path without a parallel bus, are left out.
- Bus.Panels.BeginPush: the six panel objects are columns of one object, with the window that firmware/code.py configures; the init sequence at boot is left out; Panel.poll is modelled for the one state in which the queue calls it, with the bus done.
- PushQueue.Pushes.ServicePushes: the unbounded loop takes a finite list of looks at the bus.
- Pad.MacroPad.PipFrame: the drawing of a pip is left open; only which buffer changes, and when, is modelled.
- Pad.MacroPad.Step: switches, debouncing, the backlight, the idle timer and traces are left out, and the nudges of a batch are bounded in `ReleaseBatchIfDone`.
- StateStore.Store.Load: keys.json is a map from keys to states, so the JSON text and repeated keys are left out; SHA-256 is an injective constructor.
- StateStore.Daemon.Record: the claim on restarts needs a directory without an older daemon's glyph files, since a key whose glyph is lost would find one there.
- The apps renderer (inbox/src/plugins/apps.js): the same diff as render.js, one layer deeper.
- Sockets, JSON and base64 shells, the plugin server's registry, SQLite, HID and serial drivers, command lines and installers.
- Fonts, emoji and PNG work on the host.
- Audio, recording, the click resolver, the emulator, measurement tools and the enclosure.
