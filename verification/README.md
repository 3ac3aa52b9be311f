# A verified model of the vban audio tools

`vban_emitter` reads interleaved PCM audio from a device and sends it as VBAN packets over UDP; `vban_receptor` checks
such packets and plays them on a device, for instance on JACK ports. This project models that path in Dafny and proves
what it does with every frame, from the emitter's device to the receptor's.

| file | models |
|---|---|
| `Bytes.dfy`, `Frames.dfy` | bytes, C integers, fixed-width slots; PCM bytes as frames, the frame-level channel map |
| `Protocol.dfy`, `Packet.dfy`, `PacketProofs.dfy` | the VBAN header and tables, the packet codec and validator |
| `ChannelMap.dfy`, `Audio.dfy`, `AudioProofs.dfy` | `audio_map_channels`, the byte-count macros and the audio handle |
| `ChannelList.dfy`, `ChannelText.dfy` | the parser of the `--channels` option |
| `JackRing.dfy`, `Jack.dfy`, `JackProofs.dfy`, `JackSamples.dfy` | the ring of the JACK library, the JACK backend, and its runs |
| `JackFlow.dfy` | when a JACK ring starves |
| `Emitter.dfy`, `EmitterProofs.dfy`, `Receptor.dfy`, `ReceptorProofs.dfy` | the two main loops and their runs |
| `EndToEnd.dfy`, `JackSettings.dfy`, `JackSession.dfy` | the two loops joined by a link, and the JACK ports behind the receptor: at its buffer sizes, and over all the opens of a run |

## How the model is built

Code that updates memory is imperative here too: `Audio.AudioHandle`, `Jack.JackBackend` and `JackRing.RingBuffer` are
classes, the packet is an array whose header and payload are rewritten in place, and the loops are loops. Each such
method is proved equal to a function on values (`SetStream`, `Write`, `Read`, `MapInto`, `InitHeader`, `Stamp`,
`AfterWrite`, `AfterCallback`, `Parse`, and `Step` of either main loop). The main results are lemmas about those
functions over all inputs and all runs.

What the outside world does is an argument: the results of backend opens, closes, reads and writes, of socket reads
and writes, and the JACK period. `AudioState.device` records the configuration of the last successful open, and
`AudioState.opens` every configuration that the backend was asked to open. A backend read is taken to deliver no more
bytes than were asked for, and an open to fail exactly when it returns a negative number.

Preconditions that the C code relies on without testing them:

- bit formats below 6 and 1 to 256 channels wherever a size is divided by (the two last formats have size 0);
- source and destination of a remap at most 1436 bytes, the size of the handle's buffer (`RemapsFitIff` and
  `RequestFitsIff` say which options can never exceed it, and give inputs that do);
- `jack_process_cb` is called with `nframes * nb_channels` below 2^32.

## Results that differ from what one would expect

- **JACK prerolls displace channels.** The preroll is a number of bytes that need not be whole frames. No port ever
  carries a sample of another channel, over all runs, if and only if it is whole frames (`InPlaceIffAligned`). A
  preroll of `p` whole samples rotates `n` channels: written channel `d` comes out on port `(d + p) mod n`
  (`ChannelRotation`). Five 16-bit channels at the default quality are an instance, with the displaced sample
  (`FiveChannelsRotate`); two channels stay (`TwoChannelsStay`).
- **A JACK ring can starve, at once or for good.** `jack_open` multiplies by the channel count of the previous open,
  which is zero the first time, and `jack_write` stores all or nothing. With preroll `P`, capacity `C`, writes of `d`
  bytes and callbacks of `n` bytes, some callback delivers if and only if `n <= P + ((C - P) / d) * d`
  (`FirstDeliveryIff`), and play can always go on if and only if `n + d - g + P mod g <= C`, where `g` is the greatest
  common divisor of `d` and `n` (`NeverStarvesIff`); otherwise after some run no callback delivers any more, whatever
  follows. For writes of whole frames in any sizes both happen exactly up to `P + ((C - P) / f) * f`, for the frame
  size `f` (`WholeWritesPlayIff`). `JackSettings.FirstOpenPlaysIff` gives the conditions for each quality and the
  emitter's full packets, `FullStreamStarves` the silent ports. At the default quality: four 16-bit channels never
  play a period of 1024 frames (`FourChannelsStarve`), five 24-bit channels in full packets never play one of 512
  although it fits the ring (`FiveChannelsStall`), seven 16-bit channels play at first and can stop for good
  (`SevenChannelsStop`), two go on for ever (`TwoChannelsPlay`). After a reopen with the same channel count, writes
  that are not larger than the preroll never starve (`ReopenPlays`).
- **Silence depends on history.** The program's own README (README.md:86) promises silence on channels that do not
  exist, but `audio_map_channels` clears only as many bytes as it reads. One call is exact from every old buffer if
  and only if those bytes cover the silent slots (`ExactFromAnyBuffer`). The receptor keeps the promise over all runs
  if and only if the channel list has at most one entry or names only the first channel (`AlwaysExactIff`); for every
  other list `StaleRun` gives two packets, the second of which is played with old samples on a channel it does not
  have. With one format, or packets that clear enough, all writes of a run are exact (`OneFormatPlayback`,
  `CoveredPlayback`).
- **A mapped partial read can be sent.** `SentReadsExactly` gives the exact condition; the packet then carries the
  complete frames and drops the rest. `PartialReadExample` is a five-byte read of four 8-bit channels with the map
  `1`.
- **A map hides device errors.** The result of a device write is scaled in unsigned arithmetic, so an error code stays
  negative if and only if there is no map or it has one entry (`ErrorResultIff`).
- **The receptor's error branch for device writes is dead.** A negative result never equals the payload size it is
  first compared with, so the loop goes on whatever the device returns (`NeverStopsOnWrites`).
- **A token without a number repeats the channel before it** in a `--channels` list, and ends the list when it comes
  first (`WordRepeatsChannel`, with `1,x,3` and `x,3` in `WordExample`). `WordsIgnoredIff` says exactly when such
  tokens make no difference.

## Model

| member | source | states |
|---|---|---|
| PacketProofs.AcceptedIffEncodable | src/common/packet.c:28-126 | `packet_check` returns 0 for exactly the byte strings that encode some packet: known rate, a format with a size, 1 to 256 channels and frames, matching payload length, and the stream name up to the first NUL |
| PacketProofs.CheckMeaning | src/common/packet.c:40-123 | every mask, range and size test of the validator, decoded for arbitrary bytes; the zero-size formats fall to the payload equation |
| PacketProofs.AcceptedBytes | src/common/packet.c:28-172 | the same on literal bytes: the magic, rate codes below 21, samples of 1, 2, 3, 4, 4 or 8 bytes, the payload that the counts announce; error 22 otherwise; and the configuration read back, its rate a standard one |
| PacketProofs.DecodeEncode | src/common/packet.c:153-207 | encoding a packet loses nothing, so no two packets share an encoding |
| PacketProofs.EncodedAccepted | src/common/packet.c:153-172 | an encoded packet is accepted under its own name only, and `packet_get_stream_config` gives its configuration back |
| PacketProofs.AcceptedIsSafe | src/common/packet.c:89-126 | after a successful check frame and sample sizes are positive and the payload is 1 to 256 whole frames |
| PacketProofs.StampedAccepted | src/common/packet.c:194-207 | a stamped packet passes the check just when its rate is known and its payload is 1 to 256 whole frames: the 8-bit count never wraps unnoticed |
| PacketProofs.MaxPayloadIsMaximal | src/common/packet.c:141-150 | the payload limit is the largest number of whole frames within 256 frames and 1436 bytes |
| PacketProofs.InitializedHeader | src/common/packet.c:174-192 | in a buffer whose byte 23 is zero, as the zeroed one of the emitter, the initial header carries the configuration, number 0 and a name field equal to the stream name as a C string |
| PacketProofs.StampedHeader | src/common/packet.c:194-207 | stamping changes the frame count and adds one to the number modulo 2^32, and nothing else |
| Packet.StrNEqualMeaning | src/common/packet.c:52-56 | the name comparison is equality up to the first NUL |
| Packet.InitHeaderInPlace | src/common/packet.c:174-192 | writing the fields into the buffer gives `InitHeader` of the old buffer |
| Packet.SetNewContent | src/common/packet.c:194-207 | rewriting count and number in the buffer gives `Stamp` of the old buffer |
| Protocol.RateFromValue | src/common/packet.c:210-219 | the loop finds the index of the rate, 21 if there is none |
| Protocol.RateIndexInverts | src/vban/vban.h:44-51 | every table rate is found at its own index |
| Protocol.RateCodes | src/vban/vban.h:44-51 | code `i` stands for 6000, 8000 or 11025 Hz doubled up to six times, and is the code that such a rate is sent as |
| ChannelMap.MapFromSilence | src/common/audio.c:279-322 | from a buffer that is silent where no channel feeds it, the mapped bytes are exactly the mapped frames: slot `c` carries channel `channels[c]`, or zeros |
| ChannelMap.MapKeepsSilence | src/common/audio.c:305-319 | silence is an invariant of the map, over the whole buffer and for every packet size |
| ChannelMap.ExactFromAnyBuffer | src/common/audio.c:305-319 | one call is exact from every old buffer content if and only if the cleared bytes cover the silent slots |
| ChannelMap.NarrowMapCovers | src/common/audio.c:305-319 | they do when the map has no more entries than the stream has channels |
| ChannelMap.MapIntoUnique | src/common/audio.c:302-319 | the mapped slots and the cleared tail determine the buffer, so the order of the copies does not matter |
| Audio.AudioHandle.MapChannels | src/common/audio.c:279-322 | the in-place column-by-column copy, in both directions, equals the row-by-row map; the source and all bytes before the payload are unchanged |
| Audio.AudioHandle.SetStreamConfig | src/common/audio.c:145-186 | new handle state and result for every outcome of close and open, and the configuration that the backend is asked to open |
| AudioProofs.ConfigsMatchScaling | src/common/audio.c:135-143 | the device-side and the packet-side configuration fit the byte counts: `k` frames of the one become `k` frames of the other, in both directions of the handle |
| Audio.AudioHandle.WriteAudio | src/common/audio.c:225-246 | the bytes passed to the backend and the scaled result, 32-bit wrap-around included |
| Audio.AudioHandle.ReadAudio | src/common/audio.c:248-277 | the handle, the payload buffer and the returned size, for data and for errors |
| AudioProofs.ScalingCancels | src/common/audio.c:42-43 | on whole frames the two scaling macros are inverses of each other |
| AudioProofs.ScalingFloors | src/common/audio.c:42-43 | on any other size both round down |
| AudioProofs.WriteResultScales | src/common/audio.c:245 | a device write of `j` whole frames is reported as `j` whole stream frames |
| AudioProofs.ErrorResultIff | src/common/audio.c:245 | an error code of the backend comes back unchanged without a map, and with a map stays negative if and only if the map has one entry |
| AudioProofs.WholeOutputCountsFrames | src/common/audio.c:260-276 | a mapped size of whole frames counts exactly the complete frames that were read |
| AudioProofs.SilentWrite | src/common/audio.c:225-246 | a write from a silent buffer gives the device exactly the mapped frames and leaves the buffer silent |
| AudioProofs.WriteMeaning | src/common/audio.c:225-246 | a write from any buffer gives the device whole frames, which are the mapped frames of the payload if and only if the map was exact |
| AudioProofs.SilentRead | src/common/audio.c:248-277 | a read into a silent buffer whose size is whole frames leaves exactly the mapped complete frames |
| AudioProofs.SetStreamAgrees | src/common/audio.c:145-186 | after success the device is open with exactly the configuration in force; the backend is asked to open only if that is a new one and the close succeeded |
| AudioProofs.CallLeavesNoTrace | src/common/audio.c:154-172 | a call whose close fails, or for the configuration in force, leaves the handle as if it had not been made |
| AudioProofs.FailedOpenIsRetried | src/common/audio.c:178-183 | after a failed open the same configuration is opened again instead of being taken as set |
| ChannelList.ParseMapConfig | src/common/audio.c:47-79 | the loop computes `Parse` |
| ChannelList.ParseUndoesPrint | src/common/audio.c:47-79 | parsing any printed list of numerals and words: each word counts as the numeral before it, or as 0 if there is none; the values before the first one out of range, 256 at most, each minus one |
| ChannelList.ValidListRoundTrip | src/common/audio.c:47-79 | a list of ids from 1 to 256 comes back whole, up to 256 entries |
| ChannelList.WordRepeatsChannel | src/common/audio.c:63-72 | an argument string with a word behind a numeral parses like the one with that numeral twice; a leading word gives an empty list |
| ChannelList.WordsIgnoredIff | src/common/audio.c:58-76 | a list parses to its numerals alone if and only if every word comes after the end of the usable list, or before an unusable first numeral, or where the numerals that follow repeat the one before until the list is full |
| ChannelList.WordExample | src/common/audio.c:63-72 | `1,x,3` selects the channels 1, 1 and 3; `x,3` selects none |
| ChannelText.ParseIgnoresLayout | src/common/audio.c:47-79 | with any commas before, between and behind the tokens, and white space, signs, leading zeros and trailing text in them, an argument parses like the tidy list of its values and words, up to the first blank token |
| ChannelText.EveryArgument | src/common/audio.c:47-79 | every string is such an argument |
| ChannelText.LayoutExample | src/common/audio.c:58-74 | `,1,, 3x,` selects the channels 1 and 3 |
| Jack.JackBackend.Open | src/common/backend/jack_backend.c:118-166 | ring size and zeroed preroll, with the channel count of the previous open |
| Jack.JackBackend.Close | src/common/backend/jack_backend.c:168-208 | a closed backend is inactive until the next callback after an open |
| Jack.JackBackend.Write | src/common/backend/jack_backend.c:210-244 | all or nothing: stored when active and with room, dropped but reported as written before the first callback, 0 otherwise |
| Jack.JackBackend.Process | src/common/backend/jack_backend.c:246-326 | with enough data every port sample is the conversion of its bytes in the concatenation of the two segments, and exactly those bytes are consumed; otherwise ports and ring are unchanged |
| Jack.NextSample | src/common/backend/jack_backend.c:290-319 | one sample from two segments, for every split point and sample size, the straddling sample stitched byte by byte |
| JackSamples.ConvertIsSigned | src/common/backend/jack_backend.c:343-369 | 8, 16 and 24-bit samples are their two's complement value over half the full scale, in [-1, 1) |
| JackSamples.ConvertInjective | src/common/backend/jack_backend.c:343-369 | different sample bytes are different samples at the ports, in every format up to 32 bits |
| JackProofs.Conservation | src/common/backend/jack_backend.c:229-243 | over every interleaving, consumed bytes followed by the ring contents are the initial contents followed by the accepted writes, in order |
| JackProofs.ReportedVersusStored | src/common/backend/jack_backend.c:229-243 | over every run, the bytes that writes report are those stored plus those dropped before the first callback |
| JackProofs.ClosedRefuses | src/common/backend/jack_backend.c:223-227 | a backend that is not open stores nothing, and every write returns -19 |
| JackProofs.AcceptedAreKept | src/common/backend/jack_backend.c:229-243 | the stored writes are a subsequence of all writes, and their bytes in order are the accepted bytes |
| JackProofs.NothingDroppedIff | src/common/backend/jack_backend.c:229-241 | a run stores every write if and only if each comes after the first callback (or to an active backend) and finds room, counting sizes alone |
| JackProofs.AllDeliveredIff | src/common/backend/jack_backend.c:278-282 | when every write is stored, the callbacks deliver all the frames they ask for if and only if each finds its period at the level before it, counting sizes alone |
| JackProofs.FullPlayback | src/common/backend/jack_backend.c:229-323 | then, with a preroll of whole frames, the ports carry exactly as many frames as were asked for: the preroll and then the written frames |
| JackProofs.AcceptedAreKeptFrames | src/common/backend/jack_backend.c:229-243 | the accepted frames are the frames of the stored writes, in order |
| JackProofs.ConsumedWhole | src/common/backend/jack_backend.c:278-323 | the read position stays frame-aligned over every run |
| JackProofs.CallbackFrames | src/common/backend/jack_backend.c:284-323 | what a delivering callback decodes are the next frames of the run |
| JackProofs.PrerollThenFrames | src/common/backend/jack_backend.c:142-151 | with a preroll of whole frames the ports carry that many silent frames and then the accepted frames |
| JackProofs.FrameDelay | src/common/backend/jack_backend.c:142-151 | accepted frame `k` comes out as port frame `p + k` |
| JackProofs.InPlaceIffAligned | src/common/backend/jack_backend.c:142-151 | over all runs every port sample is silence or a sample accepted on the same channel, if and only if the frame size divides the preroll |
| JackProofs.PrerollIsSilent | src/common/backend/jack_backend.c:149-151 | the samples of the preroll are zeros, which the integer formats up to 24 bits play as level 0 |
| JackProofs.SilentDoubles | src/common/backend/jack_backend.c:365-367 | a stream of 64-bit floats is silent on every port in every run |
| JackProofs.BufferSizeIsLeast | src/common/backend/jack_backend.c:142-143 | the preroll is the least size that holds the requested bytes and a period of the previous channel count, counted modulo 2^32 |
| JackProofs.ReopenPreroll | src/common/backend/jack_backend.c:142-151 | after a reopen with the same channel count, for a period of at least the requested size that does not wrap around, the ports carry exactly one period of silence before the first accepted frame |
| JackProofs.ChannelRotation | src/common/backend/jack_backend.c:142-151 | for a preroll of `p` whole samples, channel `d` of accepted frame `k` is sample `p + k * n + d` of the ports and comes out on port `(d + p) mod n`, which is port `d` if and only if `n` divides `p` |
| JackFlow.WholeWritesPlayIff | src/common/backend/jack_backend.c:229-282 | for writes of whole frames in any sizes, some run delivers a period if and only if it is at most the highest level that whole frames reach from the preroll, and then every run can be continued to a delivery |
| JackFlow.FirstDeliveryIff | src/common/backend/jack_backend.c:229-282 | for writes of `d` bytes and callbacks of one period, some callback delivers if and only if the period is at most `P + ((C - P) / d) * d` |
| JackFlow.NeverStarvesIff | src/common/backend/jack_backend.c:229-282 | play can go on from every run if and only if `n + d - g + P mod g <= C`, with `g` the greatest common divisor of `d` and the period's bytes `n` |
| JackFlow.ReopenPlays | src/common/backend/jack_backend.c:142-151 | after a reopen with the same channel count whose period does not wrap around 32 bits, the preroll holds a period, and writes not larger than the preroll never starve |
| Emitter.EmitterMain | src/emitter/main.c:213-263 | set-up and loop on one packet buffer ask the device for the sizes, send the packets and return the result of the value-level run |
| EmitterProofs.EmitterRun | src/emitter/main.c:231-263 | in every run, one packet per turn until the first turn that fails; the `i`-th is exactly the packet of the `i`-th read. The result is the last socket result, 0 before any; after a stop it is -22 for a packet that fails the check, the socket error, or after a failed read what it was before. Every turn asks the device for the same size |
| EmitterProofs.TurnMeaning | src/emitter/main.c:237-257 | one turn: an unknown rate, an empty or fractional read, or an error sends nothing and stops; every other turn sends its packet |
| EmitterProofs.SentPacket | src/common/packet.c:174-206 | the `i`-th packet (from 0) passes the check, fits 1464 bytes, is numbered `i + 1` modulo 2^32, keeps name and configuration, and carries the mapped frames of its read |
| EmitterProofs.WireHeader | src/common/packet.c:174-207 | every packet of every run, byte by byte: magic, rate code, counts, format, padded name and number |
| EmitterProofs.DefaultWireHeader | src/emitter/main.c:94-97 | with the default stream every packet starts with `56 42 41 4E 10`, its frame count minus one, and `01 01` |
| EmitterProofs.PayloadConservation | src/emitter/main.c:235-258 | the payloads of a run, in order, are the mapped frames of the device, in order |
| EmitterProofs.WholeFramesAreSent | src/emitter/main.c:237-252 | every read of one or more whole frames is sent with that many frames |
| EmitterProofs.SentReadsExactly | src/common/audio.c:260-276 | which reads are sent: without a map whole frames only, with a map those whose leftover scales to zero |
| EmitterProofs.PartialReadExample | src/common/audio.c:260-276 | four 8-bit channels with the map `1` and a five-byte read: one packet with the first sample, the fifth byte lost; without the map nothing is sent |
| EmitterProofs.UnknownRateSendsNothing | src/common/packet.c:210-219 | with a rate that is not in the table no run sends anything, and the first turn ends the loop |
| EmitterProofs.RequestFitsIff | src/common/audio.c:260-262 | the bytes asked of the device fit the handle's buffer if and only if a full packet's frame count does in device frames; always without a map, or with one of at least as many entries as the device has channels |
| EmitterProofs.WideRequestExample | src/common/audio.c:260-262 | four 16-bit channels with the map `1`: 2048 bytes are asked for |
| Emitter.RequestIsFrames | src/emitter/main.c:233-237 | the device is asked for exactly as many frames as the payload limit holds |
| Receptor.ComputeSize | src/receptor/main.c:68-107 | three times 512 frames, doubled by every step of quality up to 4; the maximal packet size for any other quality |
| ReceptorProofs.QualityTable | src/receptor/main.c:68-107 | 1536, 3072, 6144, 12288 and 24576 bytes for the qualities 0 to 4, and 1464 for any other |
| Receptor.ReceptorMain | src/receptor/main.c:226-272 | set-up and loop give the device exactly the writes, and the backend exactly the opens, of the value-level run |
| ReceptorProofs.DeviceAgreement | src/receptor/main.c:247-258 | at every write of every run the device was last opened for exactly the current packet's format; the backend's open is called exactly where the configuration changes, and at most once more, by an open that fails |
| ReceptorProofs.PlayedAreHeard | src/receptor/main.c:238-269 | the played packets are the accepted ones, in order, without gaps |
| ReceptorProofs.RunStops | src/receptor/main.c:238-269 | from the turns alone: a run goes on until the first socket error or failing reconfiguration, plays exactly the datagrams accepted before it, opens the device once for each change among them and once more if the last open failed, and does nothing after it |
| ReceptorProofs.StopIndexIsFirst | src/receptor/main.c:240-256 | that turn is the first that ends the loop |
| ReceptorProofs.JunkChangesNothing | src/receptor/main.c:241-246 | a run is the run of its accepted datagrams alone |
| ReceptorProofs.NeverStopsOnWrites | src/receptor/main.c:258-267 | device write results never stop the loop |
| ReceptorProofs.OneFormatPlayback | src/receptor/main.c:238-269 | in a run with one format every write is exactly the mapped frames of its packet, and the handle's buffer stays silent |
| ReceptorProofs.CoveredPlayback | src/receptor/main.c:238-269 | so is every write of a run with any formats, if each packet clears its silent slots |
| ReceptorProofs.StaleRun | src/common/audio.c:305-319 | for every list of two entries or more, one not the first channel: two packets from the start of the receptor, the second played with old samples on a channel it does not have |
| ReceptorProofs.AlwaysExactIff | src/common/audio.c:279-322 | every write of every run is exact, missing channels silent, if and only if the list has at most one entry or names only the first channel |
| ReceptorProofs.RemapsFitIff | src/common/audio.c:301-319 | the remap of every acceptable datagram fits the handle's buffer if and only if the list has at most one entry; 179 frames of one 64-bit channel need 1432 bytes for each entry |
| ReceptorProofs.WholeOutputs | src/common/audio.c:225-246 | every device write of every run is whole frames, as many as its packet has |
| EndToEnd.RouteIsComposition | src/common/audio.c:307-319 | mapping twice is routing once: output `c` carries input `m1[m2[c]]`, or silence if an index is out of range |
| EndToEnd.DeliveredFrames | src/receptor/main.c:238-269 | whatever the link loses, repeats, reorders or mixes in, each delivered packet gives one device write, the routed frames of the read behind it, to a device opened once |
| EndToEnd.LosslessLink | src/emitter/main.c:231-258 | on a lossless in-order link the `k`-th frame played is the `k`-th frame read, routed through both maps |
| EndToEnd.RelayedRun | src/emitter/main.c:231-258 | the same from the options alone: everything sent in any run of the emitter, relayed to the receptor, is played complete and in order |
| EndToEnd.KeptFrames | src/common/backend/jack_backend.c:229-243 | for every interleaving of device writes and callbacks, the frames accepted by the ring are the routed frames of the reads behind the stored writes, in order |
| EndToEnd.JackPlayback | src/common/backend/jack_backend.c:118-326 | for every run of the emitter, every link, the JACK backend left by the receptor's one open, and every interleaving with callbacks: the same, and with a preroll of whole frames the ports carry it and then those frames |
| EndToEnd.NothingDropped | src/common/backend/jack_backend.c:229-282 | on a lossless link, if each write comes after the first callback and finds room, the ports carry a prefix of the preroll and the routed frames of all reads; they carry every frame asked for if and only if each callback finds its period |
| JackSession.StretchesAreOpens | src/common/audio.c:145-186 | the device writes of a run, cut where the configuration changes, are one stretch for each open, all for the device that was opened |
| JackSession.SessionPlayback | src/common/backend/jack_backend.c:118-326 | over a run of the receptor with any formats, with a JACK ring for each open, sized by the channels of the open before: the ring and ports of each open carry the stored writes of its own stretch, after its preroll |
| JackSettings.FirstOpenAlignment | src/receptor/main.c:68-107 | at each quality the first open keeps every channel on its port over all runs if and only if the frame size divides the buffer size |
| JackSettings.FiveChannelsRotate | src/receptor/main.c:68-107 | at the default quality and a period of 256 frames with five 16-bit channels, two full packets that start with ones on channel 0 and twos on channel 1 put the ones out on port 1 |
| JackSettings.TwoChannelsStay | src/receptor/main.c:68-107 | two channels of that format stay in place in every run |
| JackSettings.StereoReopen | src/common/backend/jack_backend.c:142-151 | two 16-bit channels at the default quality and a period of 1024 frames, reopened: 4096 bytes of silence in a ring of 8192 |
| JackSettings.FirstOpenPlaysIff | src/common/backend/jack_backend.c:142-151 | at each quality, for the emitter's full packets and one JACK period: exactly when a first open ever delivers, and exactly when it never starves |
| JackSettings.FullReadsInRhythm | src/emitter/main.c:233-252 | device reads that fill the request give device writes of one size |
| JackSettings.FullStreamStarves | src/common/backend/jack_backend.c:142-282 | from the emitter's device on, over any link: where the first condition fails the ports never carry a frame |
| JackSettings.FourChannelsStarve | src/common/backend/jack_backend.c:142-147 | at the default quality and a period of 1024 frames, no run plays four 16-bit channels after a first open |
| JackSettings.TwoChannelsPlay | src/common/backend/jack_backend.c:142-147 | two channels in full packets never starve there |
| JackSettings.FiveChannelsStall | src/common/backend/jack_backend.c:229-282 | five 24-bit channels in full packets never play a period of 512 frames, which other whole-frame writes would; none play 546 frames, although they fit the ring |
| JackSettings.SevenChannelsStop | src/common/backend/jack_backend.c:229-282 | seven 16-bit channels in full packets at a period of 512 frames deliver at first, and some run stops for good |

## Left out

- Sockets, IP filtering and option parsing other than the channel list: input and output plumbing.
- The ALSA, PulseAudio, pipe and file backends: replaced by the results of their calls.
- JACK client, ports, autoconnect, shutdown callback and memory freeing; `jack_open` is modelled when these succeed.
- Thread memory ordering: `jack_write` and `jack_process_cb` are atomic steps. The JACK ring itself is not part of the
  repository; `JackRing` states its contract and realises it by a circular array.
- Jack.Convert: leaves 32-bit integers and floats uninterpreted, because `1 << 31` depends on the compiler and IEEE
  rounding is not modelled; the integer formats up to 24 bits are exact.
- ChannelList.ScanUnsigned: gives numerals of 2^32 and more their value, where ISO C99 leaves the conversion
  undefined.
- Runs in which a remap would exceed the 1436-byte buffers, excluded by precondition (`RemapsFitIff`,
  `RequestFitsIff`).
- Compilers with unsigned plain `char` and big-endian machines: `Jack.Convert` reads the top byte of a 24-bit sample
  as signed, and `Packet` the header fields as little-endian, as the C code does on the usual platforms.
- Callbacks whose period changes while a ring is open, in the results on writes of one size.
- The state of a device after its close failed: the model keeps the old one; the loops stop there anyway.
- Null-pointer checks, logging, `audio_release`, bit-format names, `vban_sendtext`, the Perl wrapper and build files.
