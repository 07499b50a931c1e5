# Protocols and algorithms of spice-gtk, in Dafny

spice-gtk is a client for remote desktops. Between its calls into libraries it holds a number of
hand-written algorithms and protocols with a good deal of state: a dictionary decoder whose
images live in a shared window, byte streams cut into chunks and put together again, flow control,
queues with one message in flight, a scheduler shared by two threads. This project models them and
proves what they are for, over all inputs and all runs.

To verify: `dafny verify dfyconfig.toml`.

## How the models are built

Code that changes state step by step is a class whose methods follow the code branch by branch.
Every such method is proved equal to a function on values (`ensures View() == F(old(View()))`), and
the theorems are about those functions, about runs (any sequence of events), and about references
that do not mention the implementation: what the pieces of a stream say, the sequential decoder, the
parser of a stream, the ids that the server gave, the reports that are due.

| file | what it models |
|---|---|
| `Common.dfy`, `Arithmetic.dfy` | bytes, options, lists of sequences; remainders |
| `GlzToken.dfy` | the token grammar of the GLZ decoder, its loops, and the inverse encoder |
| `GlzDecode.dfy` | the decoder as a function over any pixel type, overlapping copies, expansion of pixels |
| `GlzFormats.dfy` | RGB, palette and alpha formats; palette and plane homomorphisms |
| `GlzOps.dfy` | what a stream says, piece by piece, without the decoder |
| `GlzLoop.dfy` | the decoding loop that writes the pixel buffer in place; RGBA |
| `GlzWindow.dfy` | the window of decoded images: invariant, adding, gap closing, eviction, runs |
| `GlzTable.dfy` | the window as the table updated in place |
| `GlzImage.dfy` | one image from header to window, and token by token |
| `GlzProtocol.dfy` | several displays sharing the window: confluence, retention, progress, completion |
| `GlzDeadlock.dfy` | a run in which the shared window gets stuck |
| `AgentStream.dfy` | fragmentation and reassembly of agent messages |
| `AgentTokens.dfy` | sending for tokens, and flush tasks |
| `Monitors.dfy` | the alignment of monitors |
| `PortForward.dfy` | both ends of a forwarded connection over two links |
| `Pipe.dfy` | the zero-copy pipe and its sources |
| `Webdav.dfy` | the multiplexer, its output queue, and the frames of the stream |
| `WebdavDemux.dfy` | the demultiplexer, with the port opening and closing at any time |
| `Scheduler.dfy` | the frame scheduler under all interleavings of its two threads |
| `Smartcard.dfy` | the one-in-flight command queue and the naming of readers |

## What the GLZ results assume

- The window starts fresh and ids start at 0; every id arrives once, and each display receives its
  images in increasing order (`GlzProtocol.WellFormed`, `GlzProtocol.Exec`).
- Image k refers only to ids from `k - win_head_dist` to k, `win_head_dist` is at most k, and the
  lower end never moves back as k grows.
- A reference into another image ends inside that image, and every stream decodes with the images
  that its header allows.
- No image is added with an id of `tail_gap + nimages` or more. `GlzWindow.AddKeepsIff` shows that
  this is what the invariant needs: `GlzWindow.GapJumps` gives an image for which the NULL test at
  src/decode-glz.c:130 moves the gap past an id that never arrived.
- Image 15 is not decoded before image 0, unless it may refer down to image 0 (`GlzProtocol.ZeroFirst`).
  This is not a formality; see the first finding. It holds of every run when the two images go to
  one display (`GlzProtocol.InOrderIsTame`).

The last two are assumed of a run only where it is a matter of images being there
(`GlzProtocol.Retention`, `GlzProtocol.Completion`). That every image gets the right pixels
(`GlzProtocol.Confluence`) does not depend on them.

`MAX_COPY` is 32, as implied by the shift of the control byte. Ids stay below 2^62.

## Findings

What the code does not do, each with a concrete input and the exact condition:

- **Eviction before image 0 has arrived.** With `tail_gap` 0, the slot taken for "the image before
  the gap" at src/decode-glz.c:392 is the last slot of the table, because the unsigned subtraction
  wraps. If an image is there, its header decides what is evicted, although it says nothing
  about the ids still missing. `GlzDeadlock.Deadlock` is a run over sixteen small images on two displays
  that keeps every other assumption and leaves both displays blocked for good; in another order the
  same feed decodes completely (`GlzDeadlock.OtherOrderCompletes`).
  `GlzWindow.EvictKeepsIff` and `GlzProtocol.EndInvIff` say exactly when an eviction keeps the
  invariant, and what one that breaks it drops: the images below the head of the last slot's image,
  id 0 being passed before it arrives. Over runs the condition can be read off the order in which
  the images are decoded (`GlzProtocol.TameIffZeroFirst`): no eviction is misled exactly if at no time
  image 15 is decoded and image 0 is not, unless image 15 may refer to it.
- **The gap lags.** Closing the gap stops at the id just added (src/decode-glz.c:130), so that
  `tail_gap` need not be the first missing id: after images 1 and 0 it is 1, although image 1 is there
  (`GlzWindow.LaggingGap`). `GlzWindow.GapLagsIff` says exactly after which additions it lags, whether
  or not it did before; `GlzWindow.LagBeginsIff` is the case in which it did not. The invariant
  `GlzWindow.Valid` allows for it, and the results hold all the same.
- **Two flush tasks on one message: a hazard.** A second flush with the same message last would replace
  the first task in the table, and the first would never return (`AgentTokens.SharedTail`);
  `AgentTokens.WaiterReturnsIff` says exactly which waiters return. The code does not do this: its one
  caller queues a message just before it flushes (src/channel-main.c:1877-1886), and in all such runs
  every waiter returns when its message is sent (`AgentTokens.FlushReturnsIff`,
  `AgentTokens.EveryFlushReturnsIff`).
- **Acknowledgement intervals above the window.** A connection whose peer acknowledges less often
  than once a window stalls for good (`PortForward.NeverStallsIff`); the interval comes from the peer
  and is not checked at src/port-forward.c:473.
- **Readers added while read-only.** On a read-only channel a reader is noted as pending although
  nothing is sent, so that a later answer goes to the wrong reader (`Smartcard.WrongReader`). Of all
  events this is the only one that breaks the invariant (`Smartcard.StepInvIff`).
- **An answer without an id.** An answer that names the undefined id loses a card insertion
  (`Smartcard.LostInsertion`); `Smartcard.KeptInsertionIff` has the condition.
- **Readers removed before their answer.** Such a removal is reported as one of the card, not of the
  reader (src/channel-smartcard.c:517): `Smartcard.LostRemoval` is a run, `Smartcard.KeptRemovalIsOfCard`
  the step. Over all runs the removals sent are exactly those of readers known to the server at the
  time (`Smartcard.RemovalsSent`).
- **The WebDAV port closed during a write to a client.** The end of that write starts demultiplexing
  again (src/channel-webdav.c:305-306). If it comes before the port opens again, the flag is set, no
  read is outstanding, and the channel is dead until the port closes (`WebdavDemux.DeadAfterClose`,
  `WebdavDemux.DeadStays`); if it comes after, a second read is asked for while one is outstanding; the stream refuses it
  (src/vmcstream.c:157), and all is well again (`WebdavDemux.LateEnd`). Two reads are never outstanding,
  whatever the port does (`WebdavDemux.OneRead`).
  `WebdavDemux.StepInvIff` says that closing at such a time, or with a read left over from an earlier
  opening, is the only thing that breaks the invariant. A client that the server does not take also
  stops demultiplexing until the port closes (`WebdavDemux.Refusal`, `WebdavDemux.RefusedStays`).
- **The pipe relies on its writer.** The two ends agree exactly as long as the write that comes back
  brings the bytes that were taken (`Pipe.FaithfulIff`), and a source sleeps beside a ready
  stream exactly if it is created when the stream is ready already (`Pipe.AwakeIff`). Inputs:
  `Pipe.OtherBytes` and `Pipe.Overslept`.

## Model

| member | source | states |
|---|---|---|
| GlzToken.ReadLongLength | src/decode-glz-tmpl.c:203-208 | the loop over the continuation bytes of a length computes what the grammar gives, and stops behind them |
| GlzToken.ReadDistance | src/decode-glz-tmpl.c:216-230 | the loop over the distance bytes computes their little-endian value, scaled and added to the low bits |
| GlzToken.ReadOffsets | src/decode-glz-tmpl.c:209-245 | the branches for short, long and very long offsets compute offset and image distance of the token |
| GlzToken.ReadReference | src/decode-glz-tmpl.c:189-245 | the reference branch as a whole computes the token that the grammar gives, and the position behind it |
| GlzToken.ReadLengthIff | src/decode-glz-tmpl.c:203-208 | a length is read exactly where its continuation bytes stand |
| GlzToken.DistanceIff | src/decode-glz-tmpl.c:217-220 | a distance is read exactly where its bytes stand, and is below the span of that many bytes |
| GlzToken.FieldsOfToken | src/decode-glz-tmpl.c:191-236 | every token in range, cut into bit fields, fits its bytes and is put together again unchanged |
| GlzToken.EncodedParses | src/decode-glz-tmpl.c:189-245 | what the encoder writes parses to the same token, consuming exactly its bytes, whatever follows |
| GlzToken.ParsedIsEncoded | src/decode-glz-tmpl.c:189-245 | whatever parses as a reference is an encoding of that token in one of the forms |
| GlzToken.ReferenceRoundTrip | src/decode-glz-tmpl.c:189-245 | a reference parses exactly where one of its encodings stands |
| GlzToken.ShortReference | src/decode-glz-tmpl.c:209-220 | the length, offset and distance that the bytes of a short reference stand for, byte by byte |
| GlzToken.LongReference | src/decode-glz-tmpl.c:221-229 | the same for a long offset, five bits of which are in the code byte |
| GlzToken.VeryLongReference | src/decode-glz-tmpl.c:232-235 | the same for a very long offset, which has a byte at the end |
| GlzToken.LongLength | src/decode-glz-tmpl.c:203-208 | k bytes of 255 and one that is not add up to the length |
| GlzDecode.CopyBackSplit | src/decode-glz-tmpl.c:277-280 | copying a + b pixels is copying a and then b |
| GlzDecode.CopyBackBlock | src/decode-glz-tmpl.c:277-280 | a copy that does not overlap its source is a block copy |
| GlzDecode.CopyBackPeriodic | src/decode-glz-tmpl.c:266-281 | an overlapping copy of distance d is the d-periodic extension of the last d pixels |
| GlzDecode.CopyBackExpand | src/decode-glz-tmpl.c:247-281 | copying commutes with expanding every pixel into s pixels when distance and length are scaled by s |
| GlzDecode.LiteralsExpand | src/decode-glz-tmpl.c:282-308 | so does reading literals, including where the buffer ends |
| GlzDecode.MatchExpand | src/decode-glz-tmpl.c:247-281 | so does a reference, in the image or into another one, including where it is refused |
| GlzDecode.DecodeExpand | src/decode-glz-tmpl.c:176-318 | so does the decoding of a whole stream, with the same bytes consumed |
| GlzFormats.ColouriserExpands | src/decode-glz-tmpl.c:50-117 | sending bytes through the palette is an expansion by 1, 2 or 8 pixels |
| GlzFormats.EntryShows | src/decode-glz-tmpl.c:48-49 | which byte of a palette entry each channel is |
| GlzFormats.NibblesShow | src/decode-glz-tmpl.c:59-79 | which entries the two pixels of a byte show, high index first or low index first |
| GlzFormats.BitsShow | src/decode-glz-tmpl.c:83-115 | which entry each of the eight pixels of a byte shows, highest bit first or lowest bit first |
| GlzFormats.UnitsShow | src/decode-glz-tmpl.c:154-168 | the pixels of an RGB unit, an alpha unit and a unit of an 8-bit palette |
| GlzFormats.PaletteHomomorphism | src/decode-glz-tmpl.c:57-116 | decoding a palette stream straight to RGB32 is decoding it in bytes and then colouring, earlier images being coloured in the same way |
| GlzDecode.DecodeTrimmed | src/decode-glz-tmpl.c:247-281 | scaled references reach only whole units of other images |
| GlzFormats.BlockHomomorphism | src/decode-glz-tmpl.c:57-116 | decoding straight to RGB32 is decoding in blocks of 1, 2 or 8 pixels and laying them out, with earlier images of any format |
| GlzOps.BackMatches | src/decode-glz-tmpl.c:238-281 | a copy of n units from d units back, its length stored less 2 unless the format is RGB and its distance less 1, repeats those units |
| GlzOps.OtherMatches | src/decode-glz-tmpl.c:238-281 | a copy of n units from another image takes them from its unit o on, which is stored as it is |
| GlzOps.SaidIsDone | src/decode-glz-tmpl.c:188-308 | a piece that paints or copies units is decoded in one step to the pixels that it says |
| GlzOps.DoneIsSaid | src/decode-glz-tmpl.c:188-308 | whatever is decoded in one step is such a piece |
| GlzOps.DecodesIffTold | src/decode-glz-tmpl.c:176-318 | a stream decodes to these pixels and ends there exactly if it is a list of pieces that say these pixels |
| GlzFormats.ColourPlane | src/decode-glz-tmpl.c:151-161 | the colours of a decoded RGB stream are those of the stream decoded without pad bytes |
| GlzFormats.AlphaPlane | src/decode-glz-tmpl.c:163-169 | the alpha stream decodes in bytes to what it puts into the pad bytes |
| GlzLoop.CopyCells | src/decode-glz-tmpl.c:57-97 | the pixels of one input unit are written in order behind what is there, and nothing else changes |
| GlzLoop.CopyLiterals | src/decode-glz-tmpl.c:282-308 | the literal loop reads and writes exactly the literals of the specification |
| GlzLoop.CopyRun | src/decode-glz-tmpl.c:268-275 | the fast path for runs writes what copying at distance 1 gives |
| GlzLoop.CopyNear | src/decode-glz-tmpl.c:276-281 | the copy inside the image, overlapping or not, writes what the specification of copying gives |
| GlzLoop.CopyFar | src/decode-glz-tmpl.c:259-281 | the copy from another image writes that part of it |
| GlzLoop.CopyMatch | src/decode-glz-tmpl.c:238-281 | biases, scaling and the choice of the copy give the match of the specification; where a unit is several pixels the run path is not taken |
| GlzLoop.DecodeToken | src/decode-glz-tmpl.c:188-308 | one turn of the loop is one step of the specification |
| GlzLoop.DecodeTurn | src/decode-glz-tmpl.c:188-315 | a turn of the loop, with the next control byte, leaves exactly the rest of the stream to decode |
| GlzLoop.DecodeStream | src/decode-glz-tmpl.c:176-318 | the loop ends, fills the buffer with the pixels of the specification, returns exactly the bytes consumed, and an alpha pass leaves the colours alone |
| GlzLoop.RgbPass | src/decode-glz.c:377-381 | the colours after the RGB pass are those of the RGB stream alone |
| GlzLoop.AlphaPass | src/decode-glz.c:383-386 | the pad bytes after the alpha pass are those of the alpha stream alone, and the colours stay |
| GlzLoop.DecodeRgba | src/decode-glz.c:377-386 | the two planes of an RGBA image are independent, whatever references each stream uses |
| GlzWindow.ResizeKeeps | src/decode-glz.c:90-114 | doubling the table changes no lookup: no two images collide |
| GlzWindow.GapSlot | src/decode-glz.c:129-131 | within the bound, an occupied slot met by the gap holds the image of the gap, although only NULL is tested |
| GlzWindow.CloseGapKeeps | src/decode-glz.c:129-131 | closing the gap restores the whole invariant |
| GlzWindow.AddKeeps | src/decode-glz.c:116-132 | a bounded addition keeps the invariant, puts the image in and changes no other lookup |
| GlzWindow.AddKeepsIff | src/decode-glz.c:116-132 | exactly the admissible ids can be added that way |
| GlzWindow.BoundAdmits | src/decode-glz.c:121-125 | an id less than a table ahead of the gap is admissible: one doubling always frees its slot |
| GlzWindow.AddReceives | src/decode-glz.c:116-132 | exactly the new id becomes received |
| GlzWindow.GapLagsIff | src/decode-glz.c:129-131 | after an addition the gap lags exactly when it was closed up to the new id and the next id is held, whether or not it lagged before |
| GlzWindow.LagBeginsIff | src/decode-glz.c:129-131 | a gap that does not lag comes to lag exactly when its id arrives after the next one |
| GlzWindow.LaggingGap | src/decode-glz.c:130 | images 1 and then 0 leave the gap at 1, which is held |
| GlzWindow.ReleaseKeeps | src/decode-glz.c:169-179 | releasing drops exactly the images below the bound and keeps the invariant |
| GlzWindow.TailSlotIs | src/decode-glz.c:392 | where the unsigned subtraction leads: the slot before the gap, or the last slot when the gap is at 0 |
| GlzWindow.EvictKeeps | src/decode-glz.c:390-398 | a safe eviction drops exactly what lies before the head of the image before the gap |
| GlzWindow.EvictKeepsIff | src/decode-glz.c:390-398 | eviction keeps the invariant exactly when it is safe; otherwise the oldest id passes id 0, which has not arrived, and exactly the images below the head of the last slot are dropped |
| GlzWindow.GapJumps | src/decode-glz.c:130 | an image too far ahead moves the gap past an id that never arrived |
| GlzWindow.EnterKeeps | src/decode-glz.c:388-398 | adding and then evicting keeps the invariant and says what every lookup gives afterwards |
| GlzWindow.EnterSize | src/decode-glz.c:121-125 | at most one doubling, and only when ids a whole table apart are held together |
| GlzWindow.FoundBefore | src/decode-glz.c:116-179 | whatever is found under an id after add and evict is the new image or was found there before, in any window |
| GlzWindow.RunInvariant | src/decode-glz.c:90-179 | in every run the table is in order, exactly the ids that arrived are received, and what is held arrived |
| GlzWindow.RunSize | src/decode-glz.c:90-132 | in every run the table is at most the maximum of 16 and twice the widest span of ids held together |
| GlzTable.Table.Resize | src/decode-glz.c:90-114 | the loop that moves the images gives the doubled table of the specification |
| GlzTable.Table.CloseGap | src/decode-glz.c:129-131 | the loop moves the gap as the specification does |
| GlzTable.Table.Add | src/decode-glz.c:116-132 | adding in place is adding on values |
| GlzTable.Table.Release | src/decode-glz.c:169-179 | releasing in place is releasing on values |
| GlzTable.Table.Evict | src/decode-glz.c:390-398 | evicting in place is evicting on values, wrapped subtraction included |
| GlzTable.Table.Bits | src/decode-glz.c:149-167 | the lookup after the wait gives the pixels of exactly the image asked for |
| GlzImage.FinishByPass | src/decode-glz.c:377-386 | taking an image token by token gives what taking it pass by pass gives |
| GlzImage.FinishIsPixels | src/decode-glz.c:355-386 | an image taken token by token has the pixels of its passes |
| GlzImage.PixelsIff | src/decode-glz.c:369-386 | an RGBA image has the colours of its first stream and the alpha values of the second, any other the pixels of its one stream |
| GlzImage.AdvanceDepends | src/decode-glz-tmpl.c:254-261 | a token looks at no image but the one it refers to |
| GlzImage.AdvanceNeeds | src/decode-glz.c:139-147 | a token that refers to an image can be taken only when the image is there |
| GlzImage.DecodeImage | src/decode-glz.c:355-399 | decoding gives exactly those pixels for the images held, adds the image, and then evicts |
| GlzProtocol.InitInv | src/decode-glz.c:425-430 | the invariant of the shared window holds at the start |
| GlzProtocol.SequentialIff | src/decode-glz.c:355-386 | an image has these pixels in sequential decoding exactly if they are what its streams say, given the images that it may refer to |
| GlzProtocol.TokenAgrees | src/decode-glz.c:139-167 | the shared window shows a token exactly what decoding in id order would show it |
| GlzProtocol.TokenInv | src/decode-glz-tmpl.c:188-315 | a token keeps the invariant |
| GlzProtocol.EndWindow | src/decode-glz.c:388-398 | the end of an image keeps the window's side of the invariant: nothing that a missing image may refer to is evicted |
| GlzProtocol.EndInv | src/decode-glz.c:388-398 | the end of an image keeps the whole invariant |
| GlzProtocol.EndInvIff | src/decode-glz.c:388-398 | given the bound on ids it does so exactly when the eviction is safe |
| GlzProtocol.SafeIffZeroFirst | src/decode-glz.c:390-398 | the eviction after an image is safe exactly if image 15 is not decoded without image 0 then, or may refer to it |
| GlzProtocol.TameIffZeroFirst | src/decode-glz.c:388-398 | over runs within the bound on ids, no eviction is misled exactly if that holds at every time |
| GlzProtocol.InOrderIsTame | src/decode-glz.c:388-398 | with images 0 and 15 on one display, or 15 referring to 0, every run within the bound is such a run |
| GlzProtocol.RunRight | src/decode-glz.c:139-399 | in every run all that the window holds and all that is done has the right pixels |
| GlzProtocol.RunInv | src/decode-glz.c:139-399 | the invariant holds in every run, whatever the order of the displays' steps |
| GlzProtocol.Confluence | src/decode-glz.c:139-399 | in every run, however the displays interleave and whatever collides or is evicted, every image gets the pixels of sequential decoding in id order |
| GlzProtocol.Retention | src/decode-glz.c:388-398 | in every bounded run with image 0 before image 15, what a missing image may refer to is in the window exactly when it has been decoded |
| GlzProtocol.Progress | src/decode-glz.c:139-167 | the display with the least missing image is not blocked, and its step is one the window expects |
| GlzProtocol.LeastIsWelcome | src/decode-glz.c:388-398 | the least missing image is within the bound and its eviction is safe |
| GlzProtocol.StepDrops | src/decode-glz.c:355-399 | every step brings the end nearer, so that no run goes on for ever |
| GlzProtocol.Completion | src/decode-glz.c:355-399 | every such run can be completed, with all images decoded to the pixels of sequential decoding |
| GlzDeadlock.ExampleWellFormed | src/decode-glz.c:390-397 | the images of the example keep all assumptions on a feed |
| GlzDeadlock.RunStuck | src/decode-glz.c:390-397 | the example runs, within the bound on ids, into the state with image 1 evicted |
| GlzDeadlock.Deadlock | src/decode-glz.c:390-397 | in that state, image 15 having come before image 0, both displays are blocked for good: image 2 waits for image 1, decoded and thrown away |
| GlzDeadlock.OtherOrderCompletes | src/decode-glz.c:355-399 | in another order of its displays the same feed decodes completely |
| AgentStream.ChunksOf | src/channel-main.c:999-1030 | the chunks join to the message, none exceeds the maximum, and all but the last are full |
| AgentStream.HeaderFields | src/channel-main.c:994-997 | protocol 1, the type, zero, and the size stand in the header in this order |
| AgentStream.Sender.QueueBuffer | src/channel-main.c:1013-1030 | the inner loop copies a buffer into chunks, whichever way buffers and chunks overlap |
| AgentStream.Sender.QueueMany | src/channel-main.c:976-1034 | exactly the chunks of the message are queued and none is left over |
| AgentStream.ParseAppend | src/channel-main.c:2110-2143 | a stream can be parsed piece by piece, cut anywhere |
| AgentStream.Receiver.FillHeader | src/channel-main.c:2115-2127 | header bytes are taken, and the payload buffer is made when the header is complete |
| AgentStream.Receiver.FillData | src/channel-main.c:2129-2135 | payload bytes are taken, no more than the message has |
| AgentStream.Receiver.HandOver | src/channel-main.c:2137-2142 | the message is handed over exactly when it is complete |
| AgentStream.Receiver.HandleSome | src/channel-main.c:2110-2143 | every call takes at least a byte, and hands over what the parser finds in the bytes so far |
| AgentStream.Receiver.HandleAll | src/channel-main.c:2168-2171 | the loop ends, having handed over exactly the messages that the piece completes |
| AgentStream.Receiver.HandleData | src/channel-main.c:2146-2172 | with the shortcut the outcome is the same as without it |
| AgentStream.WireParses | src/channel-main.c:976-1034 | the concatenated chunks of any messages parse to these messages and leave nothing over |
| AgentStream.QueueAll | src/channel-main.c:976-1034 | queueing message after message gives their chunks in order |
| AgentStream.Transfer | src/channel-main.c:976-2172 | sent in chunks and received in pieces of any size, the messages are handled in order, each with its protocol, type, size and payload |
| AgentStream.Feed | src/channel-main.c:2146-2172 | however a stream is cut, the handler sees the messages that it parses to |
| AgentTokens.AgentQueue.SendQueue | src/channel-main.c:940-965 | the loop sends while there are tokens, ends with an empty queue or no tokens, and never gets to the clearing of left-over tasks |
| AgentTokens.PumpKeeps | src/channel-main.c:940-965 | a pump keeps the order of the messages and sends one for each token used |
| AgentTokens.StepConserves | src/channel-main.c:901-965 | every event conserves tokens and messages |
| AgentTokens.TokensConserved | src/channel-main.c:901-965 | in every run messages sent plus tokens left are the tokens granted, sending is first in first out, and a pump leaves no message beside a token |
| AgentTokens.RunFiled | src/channel-main.c:901-965 | in every run the flush table holds exactly the last waiter of every unsent message |
| AgentTokens.WaiterReturnsIff | src/channel-main.c:901-965 | a waiter has returned exactly when its message and all before it are sent and no later task took its place |
| AgentTokens.UnsharedReturn | src/channel-main.c:924-957 | with one waiter a message, a waiter has returned exactly when its message is sent |
| AgentTokens.TailIsNew | src/channel-main.c:1840-1886 | after a message is queued no task waits for the tail, whatever pumps follow |
| AgentTokens.FlushReturnsIff | src/channel-main.c:1877-1886 | when every flush follows a message of its own, a waiter has returned exactly when that message and all before it are sent |
| AgentTokens.EveryFlushReturnsIff | src/channel-main.c:901-957 | in such runs every task, whether it had to wait or not, has returned exactly if at least the messages queued before its flush are sent, and once only |
| AgentTokens.FlushAtEmptyReturns | src/channel-main.c:917-922 | in every run a task that flushes when nothing is queued has returned, once, from then on |
| AgentTokens.SharedTail | src/channel-main.c:925 | the function given two waiters on one message would ever return only the second |
| Monitors.Find | src/channel-main.c:1063-1071 | the search ends at an unused equal monitor, without running past the end |
| Monitors.Align | src/channel-main.c:1047-1081 | for any permutation as sorted copy, every monitor is placed once, at the sum of the widths before it, with y 0 and its size unchanged |
| Monitors.FindUnused | src/channel-main.c:1063-1071 | as long as an equal monitor is unused one is found |
| Monitors.MatchNext | src/channel-main.c:1061-1072 | using a monitor leaves enough for the rest of the sorted copy, equal entries included |
| Monitors.PlaceNext | src/channel-main.c:1073-1075 | placing a monitor leaves those placed before alone |
| Monitors.Covering | src/channel-main.c:1047-1081 | the monitors cover exactly the columns from 0 to the sum of all widths, and keep their sizes |
| Monitors.Disjointness | src/channel-main.c:1047-1081 | no two monitors share a column |
| PortForward.Connection.ReadCallback | src/port-forward.c:351-386 | bytes read are sent and counted, and the next read starts only while the window is open |
| PortForward.Connection.WriteCallback | src/port-forward.c:388-432 | written bytes leave the queue, the rest is written on, and an acknowledgement is sent at the interval |
| PortForward.Connection.Receive | src/port-forward.c:490-549 | data is queued and written, acknowledgements open the window again |
| PortForward.ReadKeeps | src/port-forward.c:374-385 | a read keeps the flow invariant of its direction |
| PortForward.DataKeeps | src/port-forward.c:501-511 | so does the arrival of data |
| PortForward.WriteKeeps | src/port-forward.c:404-431 | so does a write of any number of bytes |
| PortForward.AckKeeps | src/port-forward.c:537-544 | so does the arrival of an acknowledgement, whose subtraction does not wrap |
| PortForward.RunInv | src/port-forward.c:351-549 | the invariant of the two ends and two links holds in every run |
| PortForward.Conservation | src/port-forward.c:351-549 | in both directions unacknowledged bytes are those on the link, queued, written or in acknowledgements; the window is bounded; bytes written are a prefix of bytes read |
| PortForward.Intervals | src/port-forward.c:438-534 | the opener acknowledges every 5 MiB, the acceptor at the interval that it was told |
| PortForward.NoUnderflow | src/port-forward.c:538-539 | the subtraction of an acknowledgement never wraps in a run |
| PortForward.Outstanding | src/port-forward.c:380-419 | one read is outstanding exactly while the window is open, one write exactly while something is queued, and the references count them |
| PortForward.NeverStalls | src/port-forward.c:424-430 | with an interval of at most the window, a drained connection has both reads outstanding |
| PortForward.NeverStallsIff | src/port-forward.c:424-544 | no drained connection is stalled exactly when the interval is at most the window |
| PortForward.SendAll | src/port-forward.c:351-432 | with a larger interval any amount up to the window can be written without being acknowledged |
| Pipe.Pair.Read | src/giopipe.c:91-127 | a read takes from the buffer on offer, and wakes the writer |
| Pipe.Pair.Write | src/giopipe.c:283-323 | a write offers its buffer, or reports what was taken from it |
| Pipe.Pair.CloseIn | src/giopipe.c:157-174 | closing the input closes the output, unless an operation is pending there, and wakes it |
| Pipe.Pair.CloseOut | src/giopipe.c:355-372 | closing the output closes the input, unless an operation is pending there, and wakes it |
| Pipe.RunInv | src/giopipe.c:91-323 | a buffer on offer and a count to report never exist together, and what is taken heads the buffer last offered |
| Pipe.ReadTakes | src/giopipe.c:117-120 | a read takes as much as it asks for or as there is, from the beginning of the buffer |
| Pipe.Exchange | src/giopipe.c:91-323 | over a free pipe a write blocks, a read gets its bytes, the returning write reports them, and the pipe is free again |
| Pipe.AfterClose | src/giopipe.c:99-117 | after the output is closed reads find the end and writes are refused; after the input is closed writes are refused and reads get nothing |
| Pipe.OneSideReady | src/giopipe.c:242-427 | while neither end is shut exactly one side is ready |
| Pipe.AwakeIff | src/giopipe.c:150-427 | every step wakes whom it makes ready; a source sleeps beside a ready stream exactly if it is created there |
| Pipe.Overslept | src/giopipe.c:429-440 | a source created for the writer of an idle pipe sleeps beside a ready stream |
| Pipe.NobodyOversleeps | src/giopipe.c:150-427 | with sources created only for blocked operations no wake-up is ever lost |
| Pipe.FaithfulIff | src/giopipe.c:303-322 | a step keeps bytes read equal to bytes reported plus bytes taken exactly when the returning write brings the bytes taken |
| Pipe.RetryingIsFaithful | src/giopipe.c:299-322 | with a writer that retries its buffer this holds in every run, and the assertion never fails |
| Pipe.OtherBytes | src/giopipe.c:303-322 | with other bytes at the same address the two ends disagree |
| Webdav.Mux.OutputQueueIdle | src/channel-webdav.c:129-164 | the idle callback writes one element and starts a flush, and the client's next read after its buffer |
| Webdav.RepliesInv | src/channel-webdav.c:244-266 | a reply keeps the invariant: nothing queued changes |
| Webdav.WriteInv | src/channel-webdav.c:140-154 | writing an element keeps the invariant, and starts a read only into memory no longer queued |
| Webdav.RunInv | src/channel-webdav.c:107-291 | the invariant holds in every run of any clients |
| Webdav.NothingOverwritten | src/channel-webdav.c:244-291 | what is queued by address has, until written, the bytes that it had when queued |
| Webdav.ReadsIff | src/channel-webdav.c:230-291 | a client is being read exactly when nothing of it is queued, unless its last reply was empty or its input was closed when its buffer was written |
| Webdav.Drains | src/channel-webdav.c:107-180 | the queue can always be drained, and then every client that has not stopped can reply again |
| Webdav.FlushesEach | src/channel-webdav.c:135-152 | every element is flushed before the next is written |
| Webdav.FrameFields | src/channel-webdav.c:261-264 | a frame is eight bytes of client, two of size, and the data |
| Common.LeRoundTrip | src/channel-webdav.c:444-471 | ids and sizes read back as they were written |
| Common.LittleEndian | src/channel-webdav.c:444-471 | the numbers that two and four bytes stand for |
| Common.LowFirst | src/channel-webdav.c:444-471 | the first byte is the lowest, whatever the number of bytes |
| Webdav.ParseFrame | src/channel-webdav.c:400-498 | an encoded frame parses to itself, whatever follows |
| Webdav.ParsePrefix | src/channel-webdav.c:400-498 | a prefix of the stream of some frames parses to the first of them |
| Webdav.ParseAppend | src/channel-webdav.c:400-498 | a stream of frames can be parsed piece by piece, cut anywhere |
| Webdav.RoundTrip | src/channel-webdav.c:107-498 | however the clients interleave, what is written parses to the frames replied, in order, and a non-empty queue has an idle callback or a flush outstanding |
| WebdavDemux.Demux.DataReadCb | src/channel-webdav.c:400-426 | the data completes a frame, which goes to its client, new or known, unless the client is refused |
| WebdavDemux.Demux.PortEvent | src/channel-webdav.c:500-514 | opening starts demultiplexing unless it is going on; closing ends the reads of the present opening and forgets the clients |
| WebdavDemux.ClosesInvIff | src/channel-webdav.c:509-513 | closing the port keeps the invariant exactly when no write is outstanding and the outstanding read is of this opening |
| WebdavDemux.StepInvIff | src/channel-webdav.c:296-514 | every event keeps the invariant, but for closing at such a time |
| WebdavDemux.RunInv | src/channel-webdav.c:296-514 | the invariant holds in every run without such a closing, whatever the clients and the port do |
| WebdavDemux.OneOutstanding | src/channel-webdav.c:296-498 | while the port is open exactly one read or write is outstanding, so that the buffer is not refilled while a client is written to, and demultiplexing does not stop unless a client is refused |
| WebdavDemux.DeliversParse | src/channel-webdav.c:400-498 | what is handed to clients is what the stream parses to, in order, without a frame whose client is refused |
| WebdavDemux.DeliversSent | src/channel-webdav.c:244-498 | the stream of some frames is delivered as these frames |
| WebdavDemux.WriterKnown | src/channel-webdav.c:330-398 | a client that is being written to is known |
| WebdavDemux.WriteEndsKnown | src/channel-webdav.c:296-327 | after a write that succeeds its client stays known, after one that fails it is not, and nobody else is affected |
| WebdavDemux.StepClients | src/channel-webdav.c:296-514 | which clients are known after each event |
| WebdavDemux.DeadAfterClose | src/channel-webdav.c:305-306 | a port closed during a write that then ends is dead when it opens again |
| WebdavDemux.DeadStays | src/channel-webdav.c:489-490 | it stays dead until it closes |
| WebdavDemux.LateEnd | src/channel-webdav.c:305-306 | if the write ends after the port has opened again, the second read is refused and the invariant holds again |
| WebdavDemux.OneRead | src/channel-webdav.c:484-498 | in every run at all, at most one read is outstanding |
| WebdavDemux.Refusal | src/channel-webdav.c:377-398 | a client that the server does not take leaves nothing outstanding |
| WebdavDemux.RefusedStays | src/channel-webdav.c:389-397 | that lasts until the port closes |
| Scheduler.Decoder.FetchPendingSample | src/channel-display-gst.c:208-259 | a sample takes its frame from the queue and frees the older ones, or is dropped when none matches |
| Scheduler.Decoder.RemoveThrough | src/channel-display-gst.c:236-245 | the removing loop stops at the first frame of that time |
| Scheduler.Decoder.ScheduleFrame | src/channel-display-gst.c:172-206 | the loops end with what the recursive specification gives |
| Scheduler.Decoder.FetchPending | src/channel-display-gst.c:178-180 | the inner loop fetches until a frame is there or nothing is pending |
| Scheduler.FetchPlaced | src/channel-display-gst.c:208-259 | fetching keeps every frame in exactly one place, and the order |
| Scheduler.FetchTakes | src/channel-display-gst.c:224-253 | a sample brings the first frame with its timestamp and frees those before it; without one nothing changes |
| Scheduler.TimeDiffIs | src/channel-display-gst.c:187 | the difference of two times is the signed 32-bit one, negative exactly if the time is still to come |
| Scheduler.ScheduleSettles | src/channel-display-gst.c:172-206 | scheduling ends with a timer set, or with no frame and no pending sample |
| Scheduler.ScheduleOnTime | src/channel-display-gst.c:187-202 | a timer is set for the time of an early frame, and at once for the last one there is; frames are dropped only when their time has come, and the sink is asked for another |
| Scheduler.ScheduleKeeps | src/channel-display-gst.c:187-194 | a frame that is early, or the last there is, is not dropped |
| Scheduler.RescheduleRestarts | src/channel-display-gst.c:512-530 | rescheduling removes the old timer and sets a new one by the time that it is then |
| Scheduler.ShownCounted | src/channel-display-gst.c:119-169 | a frame is displayed each time that one is shown |
| Scheduler.SamplesCounted | src/channel-display-gst.c:210-275 | samples are pending that were announced and not pulled, unless the sink had none when asked |
| Scheduler.StepInv | src/channel-display-gst.c:119-284 | every step of either thread keeps the invariant |
| Scheduler.RunInv | src/channel-display-gst.c:119-530 | the invariant holds under all interleavings |
| Scheduler.FreedOnceShownInOrder | src/channel-display-gst.c:119-530 | every frame is freed at most once, not while in use, and frames are displayed in the order of arrival |
| Scheduler.NeverFrozen | src/channel-display-gst.c:172-284 | when no thread is about to schedule, either nothing waits or a live timer will display the next frame |
| Scheduler.DestroyFreesTheRest | src/channel-display-gst.c:533-557 | after destruction exactly the frames that arrived have been freed, each once |
| Smartcard.Channel.MessageSend | src/channel-smartcard.c:306-331 | a command is dropped when read-only, sent when nothing is in flight, queued otherwise |
| Smartcard.Channel.HandleAnswer | src/channel-smartcard.c:497-533 | the answer to an addition names the first pending reader and sends what was kept for it |
| Smartcard.AckAttaches | src/channel-smartcard.c:501-520 | an answer names the reader that its command is about and no other, and keeps the invariant |
| Smartcard.AddKeepsIff | src/channel-smartcard.c:377-392 | adding a reader keeps the invariant exactly unless the channel is read-only and the reader is new |
| Smartcard.WrongReader | src/channel-smartcard.c:377-392 | a reader added while read-only takes the id meant for another |
| Smartcard.KeptInsertionIff | src/channel-smartcard.c:511-514 | a kept insertion yields exactly one report at the answer exactly if the answer names an id and the channel is not read-only |
| Smartcard.LostInsertion | src/channel-smartcard.c:372 | an answer with the undefined id loses the insertion of a card |
| Smartcard.KeptRemovalIsOfCard | src/channel-smartcard.c:516-519 | a kept removal of a reader is sent as the removal of a card, and not as that of the reader |
| Smartcard.LostRemoval | src/channel-smartcard.c:517 | a reader added, removed and then acknowledged is never reported as removed |
| Smartcard.StepRemovals | src/channel-smartcard.c:394-404 | the removal of a reader is queued exactly when the server knows the reader at that time |
| Smartcard.RemovalsSent | src/channel-smartcard.c:394-519 | in every run the removals queued are exactly those of readers known at the time |
| Smartcard.EjectionsSent | src/channel-smartcard.c:420-431 | in every run the removals of cards queued are those of cards taken out of attached readers, and one for each reader removed before it was attached |
| Smartcard.AdditionsSent | src/channel-smartcard.c:377-392 | in every run a reader is announced exactly when it comes and is neither attached nor pending |
| Smartcard.RightIds | src/channel-smartcard.c:333-358 | in every run commands carry the undefined id when they add a reader, and else the id of their reader |
| Smartcard.StepInvIff | src/channel-smartcard.c:293-533 | every event keeps the invariant exactly unless it adds a new reader while the channel is read-only |
| Smartcard.StepInv | src/channel-smartcard.c:293-533 | an event that does not add a new reader while read-only keeps the invariant, moves the command answered to the past, and names its reader only |
| Smartcard.StepLog | src/channel-smartcard.c:293-331 | commands are queued at the end and leave in order |
| Smartcard.RunInv | src/channel-smartcard.c:293-533 | in every run that adds no new reader while read-only, an empty slot means an empty queue, pending readers are those of the unanswered commands in order, and readers have exactly the ids that the server gave them |
| Smartcard.ReportsDue | src/channel-smartcard.c:408-520 | in every such run exactly the card reports due are queued: none before attachment, one at attachment exactly if the card is then in, one for each later insertion, none while read-only |
| Smartcard.StaysAttached | src/channel-smartcard.c:501-509 | an id once given is not changed |

## Left out

GLZ decoder:

- GlzFormats.PaletteHomomorphism: earlier images are those coloured in the same way; `GlzFormats.BlockHomomorphism` is the statement for all others.
- The bit replication from RGB16 to RGB32, the variants that decode to other formats than RGB32, and the parsing of image headers.
- Malformed streams: a stream whose decoding the code refuses has no result in the model, and what the buffer then holds is not stated.
- Clearing the window in mid-run (it resets the gap but not the oldest id), cancelled waits, pointer adjustment for images stored bottom-up, and wrap-around of 64-bit ids and of the 32-bit table size.
- A wait is one atomic step that is taken once the image is there; the switching of coroutines is not modelled.
- The refusal of an offset beyond the referenced image (src/decode-glz.c:164) belongs to malformed streams; the model needs the whole reference to lie inside the image.

Agent and monitors:

- The chunk size 2048 and the layout of the 20-byte message header are those of the agent protocol, whose headers are not part of this model.
- AgentStream.Transfer: the 32-bit position counter is unbounded in the model; in the code it wraps for payloads within 20 bytes of 2^32.
- The sender's list of buffers ends with a NULL pointer; the model has no NULL buffer in the middle of the list.
- AgentTokens.TokensConserved: does not cover the reset of the channel, and sending a message is one step.
- Monitors.Align: the bit set of used entries is a set, for at most 32 monitors, and x is not cut to 32 bits; the order in which the sort puts the monitors is not modelled, only that it is a permutation.

Port forwarding:

- Teardown, errors, reuse of connection ids and the table of connections: the model has one established connection that stays in the table.
- The sizes of the agent message and of the data header come from protocol headers that are not part of this model.

Pipe, WebDAV, video, smartcards:

- Pipe.RetryingIsFaithful: the bytes in the writer's buffer do not change while it is on offer; sources are counted as asleep or not, one flag a stream.
- WebdavDemux.DeliversParse: a read delivers exactly the bytes asked for, as the code assumes of its stream, which is not part of this model; a read cancelled by the port ends at once.
- Webdav: write errors and removed clients on the sending side, the server's side of a client, and reference counts on both sides; on the demultiplexing side a client's write may end after the client has been removed (src/channel-webdav.c:309-326, src/channel-webdav.c:512), and whether the client is still there is not modelled.
- Scheduler: GStreamer yields any samples in any order, a pull does not block; frames refused on arrival, streams without a sink, and errors on the bus are not modelled.
- Smartcard.ReportsDue: answers with the undefined id are covered by `Smartcard.KeptInsertionIff` alone.
- Smartcard: commands of the guest to a card and their replies, which bypass the queue; the library behind the readers, of which only the id is kept; the reset of the channel.

Not modelled at all: sockets, TLS, authentication and the link protocol, drawing, audio, USB, clipboard, migration, file transfer accounting, GObject properties and signals.
