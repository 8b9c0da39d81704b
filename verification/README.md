# Verified models of the set-top box programs

The repository is bare-metal C (and a little Python) for a MIPS set-top box. Between its hardware drivers
sit self-contained algorithms and protocols. This project models them in Dafny, in the form the code has
(objects and buffers changed in place, loops with invariants, pure functions for pure expressions), and
proves what they are for. `dafny verify dfyconfig.toml` checks everything.

Each file models one part of the repository:

| file | models |
|---|---|
| Machine.dfy | 32-bit words and a few facts about quotients, sizes and bits |
| FatFile.dfy | the buffered, cluster-merging file reader over a one-sector FAT cache (usbfat.h) |
| FatLookup.dfy | path lookup with the folder cache (usbfat.h) |
| Tcp.dfy | the TCP client over a network that loses, repeats and reorders (netstack.h; RFC 9293, section 3) |
| TcpProgress.dfy | what that client takes, acknowledges and finishes |
| Checksum.dfy | the Internet checksum and the IPv4 header (netstack.h; RFC 1071) |
| MixVoice.dfy | one voice of the SoundFont mixer (bench/ref_sf2.c) |
| AesTables.dfy, Aes.dfy, AesCipher.dfy, KeyWrap.dfy | AES-128 and the RFC 3394 key unwrap (wpa.h) |
| AesSbox.dfy, AesKnown.dfy | the S-box as FIPS 197 defines it, and the published block of its appendix C.1 |
| Sha1.dfy, Wpa.dfy | streaming SHA-1, HMAC, PBKDF2 and the 802.11 PRF (wpa.h) |
| Sha1Words.dfy, Sha1Known.dfy | the functions of SHA-1 on registers, and the published hash of "abc" |
| CivilTime.dfy | seconds to calendar fields and back (sdk/brimod.c) |
| Resample.dfy | the streamed resampler and the flat one (mp3stream.h, wavplay.c) |
| Tlb.dfy | TLB flush, mapping and demand paging (mmutest.c) |
| RxRing.dfy | the EHCI receive ring shared with the controller (ehci.h; EHCI specification, section 4.10) |
| BadApple.dfy | the run-length video: writer, player and round trip (mkbadapple.py, badapple.c) |
| Heap.dfy | the first-fit coalescing heap (gfx_glue.c) |
| Jiffies.dfy | the clock taken over from U-Boot and given back (sdk/runtime.c) |
| Opl.dfy | the FM synthesizer, optimised and reference (sdk/opl.c, bench/ref_opl.c) |
| MusPlayer.dfy | the MUS player's score and timing (doom/dg_music.c) |

The hardware is abstract: sectors are a fixed sequence, the network is the set of everything sent so far,
the EHCI controller and the rest of the system are steps that may come between any two writes of a driver,
room in the audio ring, amounts read from a stick and memory behind a buffer are parameters. The signed
interpolation and gain of the resampler wrap as the MIPS multiply does; those of the mixer are exact integers.

## Where a promise does not hold

The model keeps the code as it is; these lemmas give the exact condition or a concrete failing input.

- `FatReader.AnswerRight`, `FatLargest.LargestFails`: for files larger than 2^32 - 512 bytes the rounding
  in ufs_load wraps in the first sector, and nothing is loaded. A read at position 0 then never ends, and one
  at 1 to 511 hands out what the buffer held before. All other reads of such files are right.
- `Clock.MakeOfSplit`, `Clock.SplitOfMake`: offsets to the west are cut at 1970, and can pass 2106; the
  round trips hold exactly otherwise. Overflow to the east wraps and unwraps.
- `Tlb.Table.FlushAll`, `Tlb.WideMasksStick`, `Tlb.WideKseg0`: the comment in mmutest.c says that no garbage
  covers the tags the flush chooses, and that they lie in kseg0. The flush ends exactly if no entry has all its
  8192 tags covered by the garbage in later entries, which eight of the widest masks do; an entry's tag lies in
  kseg0 exactly if not all 1024 of its tags there are covered, which one such mask does.
- `Tlb.Table.MapPair`, `Tlb.FirstTagComesBack`: mapping a kseg0 page can give two entries the same tag; no
  kuseg page can, and no caller in mmutest.c passes any other.
- `RxModel.InOrderExactly`, `RxModel.GlitchVanishes`: ehci_rx_get takes any error bit for a halt. A
  descriptor that completes with a left-over transaction-error bit loses its packet and restarts a queue
  that is running.
- `RxModel.StartExact`, `RxModel.StartRace`: ehci_qh_start writes the link before it clears the token. A
  controller that visits the queue in between is thrown out of its transfer, and the first packet is read
  after the second.
- `VoiceModel.BlocksExact`, `VoiceModel.NearExact`, `VoiceModel.CutShows`, `VoiceModel.FarStartShows`: block
  boundaries leave samples and position alone exactly for steps no longer than the loop (one sample more if it
  ends with the data) and positions less than a loop length past the loop end. A voice keeps to such positions
  once it is there, but start_voice does not compare the start with the loop. mix_voice itself equals
  per-sample checking in all cases.
- `Heap.Allocator.Malloc`: a request above 0xfffffff0 rounds to 0 and gets a payload smaller than asked.
- `Sha1Spec.PaddingExact`: the 32-bit bit count is that of the standard exactly below 2^29 bytes.
- `Checksum.ChainExact`: given that each part alone fits 32 bits, chained sums differ from one sum exactly when
  the whole sum does not, which no packet of this stack reaches.
- `TcpModel.CallbackGone`: after tcp_read_all data are still acknowledged but handed to nobody.
- `TcpModel.IdleExact`: with a limit of 2^32 - 1 the idle time of tcp_read_all is never up.
- `Mp3Stream.CloseSteps`: rates above 96 kHz would let the index pass the decoded samples; no MP3 has them.
- `Jiffies.LookExact`: a clock not looked at for 2^32 counts shows too little, unless the gap is less than 2^32
  counts past a multiple of 2^32 jiffies.

## Model

| member | source | states |
|---|---|---|
| FatVolume.MergedRun | usbfat.h:507-515 | Clusters whose FAT entries follow one another lie side by side on the disk, so a run read in one go holds the bytes the chain defines, for every position and length |
| FatReader.Stick.FatNext | usbfat.h:306-324 | The next cluster out of the one-sector FAT cache is the one the FAT says, whichever sector was cached; what an entry of either kind means is `FatVolume.EntryOfFat16` and `FatVolume.EntryOfFat32` |
| FatVolume.EntryOfFat16 | usbfat.h:306-324 | For every FAT16 volume, cluster and number: a number stored low byte first at byte 2 c of the FAT is the next cluster of c, and all end marks are one |
| FatVolume.EntryOfFat32 | usbfat.h:306-324 | The same at byte 4 c of a FAT32, for every 28-bit number and whatever the four bits above it are |
| FatVolume.ContentsOfClusters | usbfat.h:330-332 | A file has the bytes its clusters hold, one cluster after the other along the chain, cluster c at sector dataStart + (c - 2) * spc |
| FatReader.EntryFits | usbfat.h:306-318 | An entry of the FAT of a valid volume lies inside one sector of it |
| FatReader.Transfer | usbfat.h:485-526 | The sectors a load transfers are the bytes of the file from the sector of its position on, however clusters were merged |
| FatReader.NeedExact | usbfat.h:516-519 | For every 32-bit size and position: the sectors asked for reach the end of the file and none lies behind it, exactly for sizes up to 2^32 - 512 or positions from 512 on; otherwise no sector is asked for at all |
| FatReader.File.WalkTo | usbfat.h:490-503 | The walk forward, or again from the first cluster, ends at the cluster of the position, wherever the file stood |
| FatReader.File.RunLength | usbfat.h:505-519 | The sectors that may be read at once are all in clusters that follow one another, at most 128 |
| FatReader.File.Load | usbfat.h:485-526 | Afterwards the buffer holds the sector of the position and is what the chain defines there, for every file size; in the first sector of a file above 2^32 - 512 bytes it is empty and its memory as before |
| FatReader.File.Seek | usbfat.h:529-531 | The position becomes the one asked for, or the end of the file |
| FatReader.File.Read | usbfat.h:534-558 | For every file size, chunk buffered and FAT sector cached: the bytes [pos, min(pos + len, size)) of the chain-defined contents, nothing else in the destination changed; a read that begins in the first sector of a file above 2^32 - 512 bytes gives the buffer's old bytes, or at position 0 never ends |
| FatReader.AnswerRight | usbfat.h:534-558 | A read gives the bytes of the file whatever the 64 KB buffer held before exactly if it asks for none, or the size is at most 2^32 - 512, or the position at least 512 |
| FatLargest.LargestFails | usbfat.h:516-556 | On a sound volume with a file of 2^32 - 1 bytes, a read of one byte at position 0 never ends, and one at position 1 gives the wrong byte |
| FatRuns.Run | usbfat.h:485-558 | Any sequence of seeks and reads on any number of open files sharing one FAT cache returns what plain sequences would, but for the reads `FatReader.AnswerRight` excludes, and those do not disturb the others |
| FolderTree.WalkSplit | usbfat.h:760-817 | Walking a path is walking any prefix that ends at a component and going on from there |
| FolderTree.WalkSameName | usbfat.h:560-573 | Two paths equal at every place, but for letters that differ by 32 between A..Z and a..z, lead to the same place |
| FolderTree.AlikeIsSame | usbfat.h:560-573 | Equal after lowering each letter is exactly equal but for letters of which one is A..Z and the other 32 higher |
| FolderTree.FindsFirst | usbfat.h:794-807 | A name is found at the first entry spelt alike, with cluster 0 of a folder standing for the root, and not at all if there is none |
| FolderTree.ComponentsOfSpell | usbfat.h:766-790 | A path of any names with any number of slashes between, before and after them has just these names as components |
| FolderTree.WalkOfSpell | usbfat.h:783-815 | And leads where its names lead one after the other from the root, each looked for only in a folder |
| FolderTree.ComponentsSplit | usbfat.h:760-817 | The components of a path are those of its two halves, cut at any component boundary, with any number of slashes |
| FolderCache.NameEq | usbfat.h:564-573 | True exactly for names of one length equal at every place but for letters that differ by case, and never looking past a terminator |
| FolderCache.Finder.Put | usbfat.h:724-739 | Every line of the cache still says what the walk from the root says |
| FolderCache.Finder.Get | usbfat.h:742-758 | The longest cached folder on the way to the path, with the cluster the walk from the root would give, whatever memory holds behind the path |
| FolderCache.Finder.FindEntry | usbfat.h:794-803 | The first entry of a folder that has the name, or none |
| FolderCache.Finder.Lookup | usbfat.h:760-817 | Found or not, folder or file, and start cluster are those of the walk from the root, whatever earlier lookups cached, for every path with repeated slashes and any letter case; the first cluster handed out leads to that start, with 0 standing for the root |
| FolderCache.Finder.OpenDir | usbfat.h:821-829 | A folder is opened exactly if the walk ends at one, and where it does |
| FolderCache.Finder.OpenFile | usbfat.h:832-839 | A file is opened exactly if the walk ends at one, at its first cluster |
| TcpModel.DeliverInv | netstack.h:525-589 | Any segment of an honest peer, old, duplicated or out of order, keeps the invariant of the connection |
| TcpModel.PeerTakesInv | netstack.h:486-522 | What the peer takes out of any segment of ours keeps it: its bytes stay a prefix of what was written |
| TcpModel.StartChunkInv | netstack.h:630-636 | Numbering the next chunk keeps it |
| TcpModel.NextInv | netstack.h:486-652 | Every step of network, peer and application keeps it |
| TcpModel.EveryRun | netstack.h:486-652 | In every reachable state the delivered bytes are a prefix of the peer's stream, no ACK in the network covers a byte that was not taken, a FIN is counted only at the end, and an acknowledged byte is one the peer has |
| TcpModel.AckForward | netstack.h:559-561 | A late ACK never takes back a newer one |
| TcpModel.ChunkTest | netstack.h:645-647 | With at most 2^31 bytes on their way, the test lets through exactly the ACKs that cover the chunk |
| TcpModel.ChunkArrived | netstack.h:637-650 | A chunk that passes the test is with the peer in order, with everything written before |
| TcpModel.OldDataAfterFin | netstack.h:563-569 | After the FIN an old segment can pass for new data exactly when stream and FIN fill the whole number space |
| TcpModel.CallbackGone | netstack.h:563-569 | Once the callback is gone the rest of any run hands nothing over, and what is counted and acknowledged has all been handed over exactly if no byte was taken since |
| TcpProgress.TakesExactly | netstack.h:562-573 | In an open connection a segment of an honest peer is handed over and counted exactly if it carries the next bytes of the stream, in terms of the peer's stream |
| TcpProgress.FinExactly | netstack.h:575-582 | The FIN is taken, and answered with ours, exactly when the whole stream was taken |
| TcpProgress.ConnectsExactly | netstack.h:545-558 | The connection comes up exactly with the peer's SYN-ACK, at the first byte of the stream, and ends with a reset |
| TcpProgress.AcksExactly | netstack.h:559-561 | With less than 2^31 bytes pending the acknowledged part grows to what an ACK covers, exactly if that is more |
| TcpProgress.Answered | netstack.h:585-596 | Every segment with data or a FIN is acknowledged by the next flush at the latest |
| TcpProgress.AnsweredAtOnce | netstack.h:585-588 | At once, for a short segment, a FIN, data out of order or a second segment |
| TcpProgress.WholeStream | netstack.h:525-589 | Consecutive pieces of the stream handed over once, however cut, are all taken and delivered |
| TcpProgress.WholeConnection | netstack.h:525-589 | With the FIN behind them the connection ends with received, delivered and the peer's stream equal |
| TcpProgress.ChunkTaken | netstack.h:630-650 | A chunk of ours that reaches a peer with all before it gives it everything written |
| TcpSocket.Socket.Rx | netstack.h:525-589 | The receive code, field by field, is the step of the model, keeps its invariant, and so takes and acknowledges what the lemmas of TcpProgress say |
| TcpSocket.Socket.AckFlush | netstack.h:591-596 | The delayed ACK is sent once and keeps the invariant |
| TcpSocket.Socket.Connect | netstack.h:602-626 | 0 means connected with nothing left to acknowledge, over any network |
| TcpSocket.Socket.WriteChunk | netstack.h:631-650 | The chunk is sent under its number, and accepted exactly if an ACK that covers it came; then it is with the peer, over any network that loses, repeats and reorders |
| TcpSocket.Socket.Write | netstack.h:630-652 | 0 means that the peer has every byte in order, until a first failure leaves more than 2^31 bytes pending; -1 that a chunk never got its ACK or the connection is down |
| TcpSocket.Socket.ReadAll | netstack.h:657-674 | The loop ends for every limit below 2^32 - 1, with its 32-bit count; everything taken went to the callback in order, and then the callback goes |
| TcpModel.IdleExact | netstack.h:658-669 | The idle count reaches a limit after some number of silent polls exactly unless the limit is 2^32 - 1 |
| Checksum.NetCsum | netstack.h:37-50 | The one's complement sum of the 16-bit words, carries folded in, for every content and length, with the 32-bit accumulator |
| Checksum.KnownSum | netstack.h:37-50 | The worked example of RFC 1071, section 3; an odd last byte is the high half of a word |
| Checksum.ChainExact | netstack.h:514-520 | Given that each part alone fits 32 bits: carrying the sum of an even-length prefix on equals one sum over the whole exactly when the whole sum fits them too (RFC 1071, section 2) |
| Checksum.WordSumSplit | netstack.h:514-520 | The word sum of a concatenation is the sum of the parts, for an even first part |
| Checksum.ChecksumChecks | netstack.h:155-156 | A message with the complement of its sum stored in it sums to all ones |
| Checksum.ChangeNoticed | netstack.h:323-325 | A changed 16-bit word fails the test exactly unless it changed between all zeros and all ones |
| Checksum.NetRx | netstack.h:317-331 | The first half of net_rx takes a packet apart or drops it, as the reference parser says |
| Checksum.Sender.IpSend | netstack.h:125-159 | Every packet built from up to 1480 bytes passes all tests of net_rx and comes apart into protocol, addresses and payload; larger ones are refused |
| Checksum.ParseBack | netstack.h:317-331 | The parser undoes the header builder for every field and payload |
| Checksum.AnyPacket | netstack.h:317-331 | Every well-formed IPv4 packet, with any type of service, identification, DF bit, life time, options and padding behind it, comes apart into protocol, addresses and payload, and every fragment is dropped |
| Checksum.DamageDropped | netstack.h:323-325 | One changed word of the header behind the first drops the packet, but for a change between the two forms of zero |
| VoiceModel.RunStaysBelow | bench/ref_sf2.c:555-562 | In a run of the computed length the position stays below the loop end and the last sample |
| VoiceModel.BelowRun | bench/ref_sf2.c:555-562 | The computed run length keeps every sample of the run, of up to 32, below the bound |
| VoiceModel.RunPlays | bench/ref_sf2.c:561-573 | An unchecked run below the bound plays what checking before every sample plays |
| VoiceModel.SilentRun | bench/ref_sf2.c:574-579 | The closed form for silent voices moves the position as stepping does, and adds nothing |
| VoiceModel.TurnPlays | bench/ref_sf2.c:538-583 | A whole turn of the loop, with its look at the loop end, plays what sample-by-sample checking plays |
| VoiceModel.PlayInBlocks | bench/ref_sf2.c:584-589 | Cutting the samples into blocks anywhere changes nothing, for steps that do not pass what one look at the loop end reaches |
| VoiceModel.BlocksExact | bench/ref_sf2.c:584-589 | From positions less than a loop length past the loop end, cutting into blocks never changes samples or position exactly for steps no longer than the loop, or one sample more if the loop ends with the data |
| VoiceModel.NearExact | bench/ref_sf2.c:584-589 | With such a step, cutting into blocks changes nothing from a position exactly if it is less than a loop length past the loop end |
| VoiceModel.PlayStaysNear | bench/ref_sf2.c:584-589 | A voice that is there stays there from call to call |
| VoiceModel.FarStartShows | bench/ref_sf2.c:355-388 | A voice that may be started, with a step of one sample but its start further past the loop end, for which a cut is heard |
| VoiceModel.CutShows | bench/ref_sf2.c:584-589 | A voice with a step longer than its loop for which the cut between blocks is heard |
| VoiceModel.SecondLook | bench/ref_sf2.c:543-545 | A second look at the loop end changes nothing exactly within one loop length after it |
| VoiceMixer.MixerVoice.Start | bench/ref_sf2.c:355-394 | The bounds of a started voice are those the mixer relies on; it is less than a loop length past the loop end exactly if its start is |
| VoiceMixer.MixerVoice.Fit | bench/ref_sf2.c:555-562 | The number of samples that fit before the bound, with its 32-bit division |
| VoiceMixer.MixerVoice.MixTurns | bench/ref_sf2.c:538-583 | The loop adds to both buffers what the checked loop adds, never reading at or past the end |
| VoiceMixer.MixerVoice.Release | bench/ref_sf2.c:421-429 | After a release exactly a voice of mode 1 that looped goes on looping, and nothing else of the voice changes, but that one not yet begun is off |
| VoiceModel.PlaysOut | bench/ref_sf2.c:532-549 | A voice that does not loop never goes back, and is active after n samples exactly if the last of them began before the last sample of its data |
| VoiceModel.LoopsBack | bench/ref_sf2.c:542-545 | At the loop end a looping voice is back at the loop's start, and nowhere before it |
| VoiceModel.MixedBetween | bench/ref_sf2.c:564-569 | At full gain a sample on a whole position comes out as it is, and between two never outside them |
| VoiceModel.Panned | bench/ref_sf2.c:564-569 | A side with gain 0 gets zeros only, over any run |
| VoiceMixer.MixerVoice.MixVoice | bench/ref_sf2.c:528-589 | Same buffers, position, fraction and active flag as wrapping once at the loop end, of a voice that loops, and stopping before the end at every single sample; a position less than a loop length past the loop end stays so |
| AesField.AesMul | wpa.h:231-242 | The shift-and-add loop gives the product in the field of FIPS 197, section 4.2: a remainder of the polynomial product modulo x^8 + x^4 + x^3 + x + 1 |
| AesField.MulIsProduct | wpa.h:231-242 | It is the only polynomial of degree below 8 that differs from the product of the two by a multiple of the modulus |
| AesField.MixIsProduct | wpa.h:283-294 | The column code of the encryption is the product with 2, 3, 1, 1 |
| AesField.UnmixMix | wpa.h:315-322 | The column code of the decryption undoes that of the encryption |
| AesField.MixUnmix | wpa.h:315-322 | And the other way round |
| AesTables.SboxInverse | wpa.h:206-223 | The inverse table undoes the S-box for every byte, in both directions |
| AesSbox.SboxIsAffineInverse | wpa.h:206-223 | Every entry of the S-box is the affine map of the inverse of its index in the field (FIPS 197, section 5.1.1) |
| AesRounds.SubShiftUndone | wpa.h:280-282 | Substitution and row shift are undone by their inverses |
| AesRounds.CipherInverse | wpa.h:272-331 | For all round keys and blocks decryption undoes encryption, and encryption undoes decryption |
| AesCode.ExpandKey | wpa.h:245-269 | The key schedule of FIPS 197, section 5.2, whose S-box is pinned by `AesSbox.SboxIsAffineInverse` and whose words by `AesKnown.KnownAnswer` |
| AesCode.Encrypt | wpa.h:272-299 | The code in place is the cipher of which `AesKnown.KnownAnswer` and `AesRounds.CipherInverse` speak |
| AesCode.InverseTable.FillAll | wpa.h:305-309 | The table built on first use is the inverse S-box |
| AesCode.InverseTable.Decrypt | wpa.h:301-331 | The code in place is the inverse of that cipher, with the table filled when it is first needed |
| AesKnown.KnownAnswer | wpa.h:245-299 | Key schedule and cipher turn the block of FIPS 197, appendix C.1, into the published one |
| KeyWrap.StepsUndone | wpa.h:347-360 | Any number of unwrapping steps undo as many wrapping steps, and the reverse |
| KeyWrap.UnwrapOfWrap | wpa.h:334-367 | Unwrapping a wrap gives back the key data and the initial value, for every key and every n (RFC 3394, section 2.2) |
| KeyWrap.AcceptedIsWrap | wpa.h:361-366 | The integrity check accepts exactly the wraps, and what comes out is what was wrapped |
| KeyWrap.ShortCounter | wpa.h:349-351 | The 32-bit counter is the 64-bit one below 2^32 |
| KeyWrap.FirstSteps | wpa.h:334-367 | The first two steps of a wrap of two blocks, written out as RFC 3394, section 2.2.1, has them, counter included |
| KeyWrap.Unwrapper.Unwrap | wpa.h:334-367 | The code in place computes the key data, and 0 exactly for an intact wrap; nothing behind the output changes |
| Sha1Stream.Sha1Block | wpa.h:24-49 | The block function, with its 80-word schedule, as FIPS 180-4 section 6.1.2 defines it |
| Sha1Words.LogicOf | wpa.h:36-44 | For all register contents the bit-by-bit functions of FIPS 180-4, section 4.1.1, are the 32-bit expressions of the code |
| Sha1Words.ConstantsAreRoots | wpa.h:36-44 | The four constants are 2^30 times the roots of 2, 3, 5 and 10, rounded down |
| Sha1Known.KnownAnswer | wpa.h:24-85 | Padding, schedule, all 80 steps and output: the hash of "abc" is the published one |
| Sha1Stream.Sha1State.Feed | wpa.h:60-67 | One byte more of the message, with a block compressed when it is full; the length may wrap |
| Sha1Stream.Sha1State.Update | wpa.h:60-67 | The state is that of the concatenation of everything fed, in whatever pieces |
| Sha1Stream.Sha1State.Final | wpa.h:69-85 | The hash of the whole padded message; the standard's below 2^29 bytes |
| Sha1Spec.PaddingExact | wpa.h:70-81 | The code's padding is that of FIPS 180-4, section 5.1.1, exactly for messages below 2^29 bytes |
| Sha1Spec.ChainPrefix | wpa.h:60-67 | The state after some blocks does not depend on what follows |
| Wpa.HmacSha1.constructor | wpa.h:94-117 | The prepared states hold the two padded keys, long keys hashed first |
| WpaSpec.KeyBlockIs | wpa.h:94-117 | Keys of up to 64 bytes stand unhashed, longer ones hashed, at the front of the block, zeros behind them |
| WpaSpec.EmptyKey | wpa.h:94-141 | With the empty key the two hashes run over 64 bytes 0x36 and 64 bytes 0x5c (RFC 2104, section 2) |
| Wpa.HmacSha1.Run | wpa.h:120-141 | The MAC of the concatenated pieces; the prepared states are not touched |
| WpaSpec.HmacStandard | wpa.h:94-141 | HMAC over the code's hash is RFC 2104's, section 2, below 2^29 bytes |
| Wpa.WpaPmk | wpa.h:153-181 | The first 32 bytes of PBKDF2 with 4096 iterations (RFC 8018, section 5.2) |
| WpaSpec.FirstBlocks | wpa.h:164-167 | Blocks of PBKDF2 are counted from 1, high byte first |
| WpaSpec.FirstIterations | wpa.h:167-176 | And add up their iterations, each the MAC of the one before |
| WpaSpec.Pbkdf2Standard | wpa.h:153-181 | The code's PBKDF2 is the standard's for passwords and salts below 2^29 bytes |
| Wpa.WpaPrf | wpa.h:185-202 | The first bytes of the concatenated MACs, with the one-byte counter, for every length |
| WpaSpec.FirstMacs | wpa.h:195-201 | The MACs of the PRF count from 0 in one byte, behind label, zero and data |
| WpaSpec.PrfStandard | wpa.h:185-202 | The same over the standard's hash |
| WpaSpec.XorTwice | wpa.h:111-114 | Changing the inner pad by both constants gives the outer pad |
| Calendar.DaysFromCivil | sdk/brimod.c:184-192 | The formula counts the days of the Gregorian calendar, defined year by year and month by month |
| Calendar.YearOfEraRight | sdk/brimod.c:174-177 | The year-of-era formula finds the year a day lies in, for every day of the 400 years |
| Calendar.DateOfDay | sdk/brimod.c:173-181 | The date made from a day number is valid and has that day number |
| Calendar.DayNumberTellsDates | sdk/brimod.c:162-182 | No two valid dates share a day number |
| Calendar.WholeYears | sdk/brimod.c:184-192 | The months of every year add up to its days, and any 400 years to 146097 |
| Calendar.KnownDates | sdk/brimod.c:162-195 | Day numbers and weekdays of 1970 and 2000, and three leap days |
| Clock.MakeTimeCounts | sdk/brimod.c:184-195 | For every valid date from March of year 0 on, the seconds since 1970 less the offset, modulo 2^32 |
| Clock.MakeOfSplit | sdk/brimod.c:162-195 | Split and make give utc back exactly when local time was not cut to 1970: an offset to the east, or utc not below it |
| Clock.SplitOfMake | sdk/brimod.c:162-195 | Make and split show the same fields exactly when an offset to the west does not pass the last 32-bit second |
| Clock.SecondsTellFields | sdk/brimod.c:162-182 | At most one set of valid fields shows a second |
| Clock.TimeFields.Split | sdk/brimod.c:162-182 | The fields are always a valid date and time with the right weekday, and show local time |
| FlatPlayer.PlaySplit | wavplay.c:152-176 | Playing in two stretches is playing at once |
| FlatPlayer.PlayWav | wavplay.c:152-176 | The flat loop writes what the interpolation over the whole data defines, for every room the ring shows |
| FlatPlayer.StepIs | wavplay.c:130 | The step is the rate over 48 kHz in 16.16, rounded down, for rates up to 1 MHz, and 1.0 for 48 kHz |
| FlatPlayer.PlayedAsIs | wavplay.c:152-176 | A file at 48 kHz and full volume comes out sample for sample from any place, right before left |
| FlatPlayer.BetweenIs | wavplay.c:162-166 | A sample on a whole position comes out as it is, and between two that differ by less than 2^15 never outside them |
| FlatPlayer.NothingCut | wavplay.c:162-166 | Wherever the products fit the registers, the sample is the exact interpolation times the volume |
| FlatPlayer.Louder | wavplay.c:165-166 | The volume is in 256ths, and never takes a 16-bit sample out of its range |
| Mp3Stream.Stream.NextFrame | mp3stream.h:244-264 | The seam: the place in the stream stays, the next sample is appended, and nothing is got exactly at the end |
| Mp3Stream.Stream.Pump | mp3stream.h:232-299 | The next samples of the flat interpolation, as many as there is room for or until the stream ends, with the step of the frame the next sample is from |
| Mp3Stream.Stream.PumpRun | mp3stream.h:232-299 | Any sequence of pumps writes what the flat loop writes for the same total room |
| Mp3Stream.Stream.Open | mp3stream.h:187-201 | The stream starts at its first sample, or there is none |
| Mp3Stream.Stream.Restart | mp3stream.h:219-229 | After a seek the new frames are a stream of their own |
| Mp3Stream.OneRate | mp3stream.h:181-184 | With one rate throughout the steps are those of the flat loop |
| Mp3Stream.CloseSteps | mp3stream.h:244-253 | Wherever in the buffer the last sample before a seam is taken, the index stays inside the decoded samples and the 32-bit count of those kept is at most 1, exactly for steps up to 2.0 (96 kHz) |
| Mp3Stream.SameAsWav | mp3stream.h:232-299 | An MP3 of one rate, pumped in any way, gives the samples of the same data played as a WAV file |
| TlbEntries.OverlapIsDouble | mmutest.c:106-125 | Two entries agree on the bits both compare exactly when some address matches both |
| TlbEntries.FullConflict | mmutest.c:116-125 | With every bit compared, to conflict is to have the same tag |
| Tlb.SingleMatches | mmutest.c:106-114 | No two entries overlap exactly when no address is a machine check |
| Tlb.Table.TagConflict | mmutest.c:116-125 | True exactly if another entry covers the tag |
| Tlb.Table.FlushAll | mmutest.c:127-148 | From any garbage: the loop ends exactly if for no entry the garbage behind it covers all its tags, and then with 64 invalid entries no two of which overlap; the tag of an entry lies in kseg0 exactly if not all 1024 of its tags there were covered |
| Tlb.CandidatesRepeat | mmutest.c:140-142 | The tags tried repeat after 8192 |
| Tlb.WideMasksStick | mmutest.c:106-142 | Eight entries with the widest mask of the processor, one for each segment of 512 MB, cover all tags of every entry before them, so that the flush never ends |
| Tlb.WideKseg0 | mmutest.c:106-142 | One such entry over kseg0 keeps the tags of every entry before it out of kseg0 |
| Tlb.Pigeonhole | mmutest.c:150-157 | Of 64 tags, 63 other entries leave one free |
| Tlb.FirstFreeIsFree | mmutest.c:150-157 | The first free tag is held by no other entry and lies in kseg0 |
| Tlb.Table.Invalidate | mmutest.c:150-160 | The search ends, the entry gets a free tag in kseg0, and no two entries overlap |
| Tlb.Table.MapPair | mmutest.c:162-172 | No two entries overlap afterwards, exactly unless the search for the old entry comes back to the page itself, which no page of kuseg can be |
| Tlb.FirstTagComesBack | mmutest.c:162-172 | For the first tag of an entry that holds it, as after a flush, the search does come back |
| Tlb.ProbeMatches | mmutest.c:95-102 | The entry the probe gives is the one entry the hardware comparison accepts; without one no entry matches |
| Paging.HitIsHome | mmutest.c:251-264 | Whatever entry an address hits, it lands at its fixed home and is writable |
| Paging.TranslateIsHardware | mmutest.c:251-264 | Translating by the probe gives the one outcome the hardware comparison allows |
| Paging.KnownWords | mmutest.c:44-48 | EntryLo words written out bit by bit, and what the hardware makes of them: frame, valid and writable |
| Paging.Pager.DemandFault | mmutest.c:251-264 | By the hardware comparison, the faulting address has exactly its home as outcome afterwards, for loads and stores, and all invariants are kept |
| Paging.Pager.Run | mmutest.c:251-283 | Through any run of loads, stores, evictions and other mappings the demand region is plain memory, and the rest of RAM is not touched |
| RxModel.DoKeeps | ehci.h:147-191 | Every step of the controller but a glitch keeps the ownership invariant and leaves completed slots alone |
| RxModel.GetKeeps | ehci.h:346-353 | The re-arm after a halt starts the queue at the same slot with everything kept, under any interleaving |
| RxModel.PutKeeps | ehci.h:360-374 | Giving a slot back keeps it under any interleaving, and the restart is never needed |
| RxModel.EveryRun | ehci.h:307-374 | In every run without a glitched packet what was read and what waits is exactly what arrived, in order, none lost or repeated, also after re-arms |
| RxModel.GoesOn | ehci.h:307-374 | The ring never stalls: unless it is full, halted or busy, the controller takes up the next slot |
| RxModel.ReadsNext | ehci.h:338-357 | A packet that waits is what the next round reads, under any interleaving |
| RxModel.Drains | ehci.h:307-374 | With the controller at rest each round reads one packet, until all that arrived are read |
| RxModel.InOrderExactly | ehci.h:307-374 | After any one run, every packet that arrived was read, waits or was glitched, that is completed with an error bit and without a halt; and the run is in order exactly when none was glitched |
| RxModel.GlitchVanishes | ehci.h:346-353 | A good packet with a left-over error bit is dropped: the ring is as if it had never come |
| RxModel.StartExact | ehci.h:183-191 | The ring comes up right exactly when between the two writes of the start no packet is glitched and the controller is at the second not in a transfer, or halted |
| RxModel.StartRace | ehci.h:183-191 | A controller that visits the queue there makes the driver read the second packet first |
| RxQueue.Queue.constructor | ehci.h:317-335 | All descriptors armed in a circle, and the queue started at the first |
| RxQueue.Queue.RxArm | ehci.h:307-314 | The writes of the code, with any controller steps between them, are those of the model |
| RxQueue.Queue.RxGet | ehci.h:338-357 | A packet exactly for a completed descriptor without an error bit; otherwise nothing, and an error re-arms |
| RxQueue.Queue.RxPut | ehci.h:360-374 | The slot goes back and the index moves on |
| RxQueue.Queue.Client | ehci.h:307-374 | Any number of rounds of the client under any schedule is a run of the model |
| RunCode.VarintBack | badapple.c:132-145 | Reading undoes writing for every 32-bit number, at every digit |
| RunCode.NumberBack | mkbadapple.py:31-35 | A number written at the start of any stream is read back, and the rest is left |
| RunCode.KnownLeb | mkbadapple.py:31-35 | The worked example of DWARF 5, section 7.6 |
| RunCode.RunsBack | badapple.c:184-193 | The runs of a well-formed frame toggle exactly the pixels they stand for |
| RunCode.FrameBack | badapple.c:176-193 | And the decoder stops right after the frame |
| RunCode.KnownFrame | badapple.c:176-193 | The bytes 2, 2, 3 leave two pixels and flip three, in every frame and before any rest |
| VideoWriter.Varint | mkbadapple.py:31-35 | The loop writes LEB128 (DWARF 5, section 7.6) |
| VideoWriter.EncodeFrame | mkbadapple.py:38-53 | The bytes of the canonical runs of the changed pixels |
| VideoWriter.RunsRight | mkbadapple.py:38-53 | Those runs tile the frame and toggle exactly the changed pixels |
| VideoWriter.NextFrameBack | mkbadapple.py:72-82 | Decoding the next frame from the one before gives the frame, and leaves the rest of the stream |
| VideoWriter.EncodeVideo | mkbadapple.py:70-84 | The stream of all frames, each coded against the one before, the first against black |
| VideoPlayer.Player.Refill | badapple.c:104-115 | A refill loses nothing, and fails exactly at the end of the stream |
| VideoPlayer.Player.VarintValue | badapple.c:132-145 | The number at the start of any stream, malformed ones included, across refills |
| VideoPlayer.Player.ToggleRun | badapple.c:148-173 | Exactly the pixels of the run are flipped, row by row; those past the last pixel are ignored |
| VideoPlayer.Player.NextVideoFrame | badapple.c:176-193 | For any stream the bitmap and the rest are what the reference decoder says; false exactly at the end |
| VideoPlayer.Play | badapple.c:104-193 | Every frame of every video comes back exactly, wherever the reads cut the stream, and then the end is found |
| HeapLayout.TakeLive | gfx_glue.c:42-51 | A taken block adds one payload to the live ones, at a new address |
| HeapLayout.RoundedIs | gfx_glue.c:37 | The size looked for is the least multiple of 16 that is large enough, for requests whose rounding does not wrap |
| HeapLayout.TakeGood | gfx_glue.c:42-51 | Splitting keeps the tiling and leaves no two free neighbours |
| HeapLayout.ReleaseKeeps | gfx_glue.c:57-70 | Freeing and coalescing removes exactly that payload and keeps the rest of the heap |
| HeapLayout.CoalesceGood | gfx_glue.c:64-69 | After the sweep no two free blocks are neighbours |
| HeapLayout.PayloadsSafe | gfx_glue.c:31-70 | Live payloads are 16-byte aligned, inside the heap, and do not meet, not even with a header |
| HeapLayout.AllFreed | gfx_glue.c:57-70 | With nothing live the heap is the single initial block |
| Heap.Allocator.Malloc | gfx_glue.c:31-55 | First fit over the linked headers; null exactly when no free block is large enough; otherwise one payload more, with less than 80 bytes beyond the rounded request, large enough exactly when the rounding does not wrap; a block is cut only if 64 bytes are left behind a header |
| Heap.Allocator.Free | gfx_glue.c:57-70 | Exactly that payload goes, and the headers in memory are again those of a good row |
| Heap.Allocator.Sweep | gfx_glue.c:64-69 | The loop over the linked headers coalesces the row |
| Heap.Run | gfx_glue.c:24-70 | After any run of calls the heap is good, and whole once everything is given back |
| Jiffies.Clock.TmNow | sdk/runtime.c:916-922 | All jiffies since the last boundary are counted and the boundary moves by them, across wraps of Count |
| Jiffies.Clock.GetTimer | sdk/runtime.c:924-933 | A reading is the whole jiffies since the origin, modulo 2^32, through whichever clock is in charge |
| Jiffies.Clock.Own | sdk/runtime.c:935-963 | The hand-over keeps milliseconds and fraction |
| Jiffies.Clock.Release | sdk/runtime.c:973-988 | So does the hand-over back, Compare included |
| Jiffies.Clock.Run | sdk/runtime.c:906-988 | Any schedule of readings, ticks and hand-overs neither loses nor repeats a jiffy, if each call comes in the range of the clock in charge: 2^32 counts past the last boundary, or U-Boot's window |
| Jiffies.LookExact | sdk/runtime.c:916-922 | For every jiffy length: a look after any number of counts shows the jiffies of all of them exactly if the gap is less than 2^32 counts past a multiple of 2^32 jiffies |
| OplModel.EnvStep | sdk/opl.c:222-253 | The envelope stays within 0 and its maximum, and nothing else of the operator changes |
| OplModel.Tone | sdk/opl.c:255-267 | Every table index is in range, and the output within 4095 either way |
| OplModel.Course | sdk/opl.c:222-253 | The envelope rises until it is at the top, falls to the sustain level exactly, is held there only if held, and falls to the end after release |
| OplModel.OneTurn | sdk/opl.c:257 | The phase runs through the 1024 entries of a wave once in 2^32, and modulation shifts it by entries |
| OplModel.AttenuationIs | sdk/opl.c:256-262 | At the top of the envelope only the total level is taken off, and 511 entries of the gain table at its end |
| OplModel.FullGain | sdk/opl.c:263 | At full gain a tone is the entry of its wave |
| OplModel.PhasesRun | sdk/opl.c:264 | Both phases move on by their steps with every sample, modulo 2^32 |
| OplModel.Heard | sdk/opl.c:292-297 | In a row a muted carrier is silence, side by side the modulator is heard alone with its feedback; a muted modulator leaves the carrier's own tone |
| OplModel.FeedsBack | sdk/opl.c:292-297 | The feedback comes from the modulator's last two tones |
| OplModel.Sides | sdk/opl.c:275-304 | Over all channels, a side on which none is panned stays as it is |
| OplModel.OneSide | sdk/opl.c:298-299 | A channel with gain 1.0 on a side adds its samples to that side, with gain 0 nothing |
| OplModel.ReleaseEnds | sdk/opl.c:242-252 | A released operator is off exactly when its fading reaches the end |
| OplModel.ReleaseBound | sdk/opl.c:242-304 | A released operator is off once ENV_MAX / decay samples, rounded up, were rendered in any number of calls: always as carrier, and as modulator unless its channel is silent already |
| OplModel.VoiceEnvelopes | sdk/opl.c:275-304 | In a rendered voice both envelopes move one step a sample, whatever the tones |
| OplChip.Chip.EnvStepAt | sdk/opl.c:222-253 | The switch in place is the envelope step |
| OplChip.Chip.OpCalcAt | bench/ref_opl.c:255-267 | The operator in place gives its tone and moves on |
| OplChip.Chip.Write | sdk/opl.c:151-220 | A register write has exactly the effect of its register, on one channel at most, and keeps all bounds |
| OplChip.OperatorOffsets | sdk/opl.c:57-70 | The operators by their register offsets: modulators and carriers of the nine channels of a bank in rows of three, and the gaps |
| OplChip.KnownWrites | sdk/opl.c:151-220 | What each kind of register makes of its bits |
| OplChip.Multiples | sdk/opl.c:52-54 | The multiple is 1/2 for 0, and itself but for 11, 13 and 14 |
| OplChip.Octave | sdk/opl.c:126-133 | A block is an octave: the step doubles, but for what is rounded off |
| OplChip.WriteEnvelope | sdk/opl.c:198-214 | An envelope moves by a write only when a key goes down or up |
| OplChip.Chip.RefRender | bench/ref_opl.c:269-291 | The reference, in place, renders every channel that sounds and adds it to both sides |
| OplChip.Chip.Render | sdk/opl.c:275-304 | The version with local copies gives the same buffers and operators as the reference, from every state |
| OplChip.Chip.RenderRun | sdk/opl.c:275-304 | However the samples are split over calls, the envelopes of every channel move one step a sample, silent channels included |
| MusScore.RunEvents | doom/dg_music.c:312-389 | Events run up to a positive delay or the end of the score, each taking at least a byte |
| MusWriter.ReadDigits | doom/dg_music.c:377-382 | A delay of up to 31 bits written as MUS digits is read back, wherever it stands |
| MusWriter.ReadGroup | doom/dg_music.c:312-389 | Events written one after the other come back in order with their channels, values and velocities, and then their delay, wherever the group stands in a score |
| MusClock.Player.RunTheEvents | doom/dg_music.c:312-389 | The loop ends, for any score bytes, with the events, velocities and delay of the reference |
| MusClock.Player.MusicTick | doom/dg_music.c:397-417 | A tick ends after at most one restart, with the song stopped, paused or a positive delay pending |
| MusWriter.PlaysFirst | doom/dg_music.c:397-417 | From its start a song plays its first group at the first tick |
| MusWriter.PlaysAgain | doom/dg_music.c:397-417 | A delay later a song that loops plays again, after silence and a reset, and any other stops |
| MusWriter.LoopsForever | doom/dg_music.c:397-417 | After k delays a song that loops has played its group k times more, for every k |
| MusClock.Player.Render | doom/dg_music.c:445-485 | After N samples exactly floor(140 N / 48000) ticks have run, each at its own sample, and the song is where that many ticks take it |
| MusClock.TickAtIsFirst | doom/dg_music.c:453-484 | The sample of a tick is the first at which that many are due |
| MusClock.EverySecond | doom/dg_music.c:453-484 | 140 ticks in every second of 48000 samples, whatever the number of seconds |
| MusClock.PlayInPieces | doom/dg_music.c:445-485 | However the samples are split over calls, song and events end up the same |

## Left out

- Failed or partial sector reads, chains that end before the file does, mounting, and the parsing of long
  file names in usbfat.h; after a failed read the buffer contents are unspecified.
- TCP ports and header checks, the checksum of received segments (the code does not look at it), timeouts,
  liveness, and the arithmetic of tcp_progress_fn; net_rx after the address filter, ARP, DHCP and DNS.
- VoiceMixer.MixerVoice.MixVoice: interpolation and gain are exact integers; the code's signed multiply can
  exceed 32 bits. Envelopes, pitch and the sum over voices in s_render are not modelled.
- Mp3Stream.Stream.Pump: peak meters and the counters for the overlay; the MP3 decoder is the sequence of
  frames it gives.
- Tlb.Table.FlushAll: address space identifiers are 0 throughout and not compared.
- Paging.Pager.Run: accesses are single bytes; exceptions other than a refill or an invalid entry of the
  region go to code that is not modelled.
- RxModel.EveryRun: the write-back of a descriptor and of the overlay is one controller step; the data
  toggle, cache maintenance and the other endpoints are not modelled.
- OplChip.Chip.Render: left and right are different buffers; opl_init's tables are constants with bounds.
- MusClock.Player.Render: voices and the synthesizer behind the events; the log of events stands for them.
- VideoPlayer.Player.ToggleRun: the 2x drawing on the OSD beside the bitmap.
- Jiffies.Clock.UbGetTimer: U-Boot's own code is not in the repository. It is modelled after the description
  in sdk/runtime.c, and counts while Count is within a window past Compare whose size is a parameter.
- Heap.Allocator.Free: an address the client does not hold, which the C code would corrupt memory with.
- On-screen display, menus, wlan.h, launcher, network services, Doom and lwIP: user interface and glue.
