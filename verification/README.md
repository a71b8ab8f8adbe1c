# The radio paths of a 433 MHz gateway, verified

This project models the firmware that plays and hears pulse trains on one radio pin, and the
text messages through which it talks to the network, and proves what the two are for:

* **Sending** (`Transmit*.dfy`, `BusyWait.dfy`). A timer interrupt and the main loop share four
  volatile variables. Each is an actor of a step system; theorems range over every interleaving,
  and `TransmitWindow` says which ticks can lose a pulse, and which strings are at risk. The class
  `Transmitters.Transmitter` runs the C functions against that step system.
* **Receiving** (`GlitchFilter`, `Receive`, `Ring`, `ForwardScan`, `BackwardScan`). One sample at a
  time goes through a glitch filter, is packed into a 512-byte ring, scanned forwards into
  (level, length) pulses and counted backwards by the parsers. The class `Receive.Receiver` keeps
  the whole bit stream as ghost state that the ring, the cursors and the counters refine.
* **Decoding** (`Arctech`, `Oregon`, `OregonV3`, `Hasta`, `FineOffset` with `Crc`, `Pt2262`,
  `Mandolyn`, `X10` and the `*RoundTrip` files). Encoders are specification functions or relations
  between bits and pulses in tolerance; each decoder gives back exactly what was sent.
* **From the antenna to the message** (`Reception`, `ParserChains`, `StreamChains`, `EndToEnd`).
  Samples of a transmission go through the filter, the ring, and the scan or the backward counts
  of a real `Receiver`, and come out of the parser or decoder as the message sent. For arctech
  the encoder is the repository's own.
* **Live messages** (`LiveText`, `LiveMessage`, `Framing`, `Commands`). The 200-byte buffer as an
  array, its writers, its readers, the automaton that finds a signed frame in a stream of
  characters, and the handler that turns a message into the pulses of a command. The 8-bit cursor
  of the buffer can run past its end; the 56 bytes that it then reaches are part of the model.

`Words`, `Bits`, `Sequences`, `RunLength`, `Pulses` and `Options` hold what the others share.
Numbers of the source are 8-, 16- and 32-bit words; where wrap-around matters it is written out at
the place where it happens, and elsewhere a lemma or an invariant shows that nothing that is used
wraps. Bytes
on which the source shifts and masks are `bv8`. `char` is an unsigned byte, as
firmware/transmit_arctech.c:51-61 needs.

Properties that one might expect do not all hold of the code as it stands. Where one fails, a
theorem gives the exact condition:

* A timer tick that finds the pulse used up between `rfNewTime = 0` and the next `rfNextTime` can
  lose a pulse. It is exactly the expiring ticks there after which some schedule leaves the string
  undeliverable (`TransmitWindow.WindowIsExact`), though each of them can also be survived
  (`TransmitWindow.WindowCanBeSurvived`). A string is at risk if and only if it has two pulses or
  more (`TransmitWindow.SendAtRisk`); `TransmitWindow.LosesSecondPulse` is a schedule that cuts one.
* The glitch filter and the scan are right exactly up to the widths of their 8-bit counters
  (`GlitchFilter.FilterPassesPulses`, `ForwardScan.ScanIsRunLength`).
* Whether the arctech decoder stops at the start pulse depends on the pause before the frame, and
  after the wrong one it can send another number (`ArctechRoundTrip.PauseDecides`,
  `ArctechRoundTrip.PauseSpoils`).
* The 8-bit total by which the Oregon decoder recognises the last bit counts the skipped zero bytes
  too. Over every history it is right if and only if the number of bytes skipped is a multiple of
  32 (`Oregon.AlignedIffLaps`, `OregonRoundTrip.TotalOverHistory`); otherwise the last pulse of a
  packet is not spared its check (`OregonRoundTrip.ZerosDecide`), as after one zero byte
  (`OregonRoundTrip.OneZeroIsNotWaived`).
* The lookup in a live message finds the first entry with the key if and only if no key up to there
  has more than 11 characters (`LiveText.FirstMatchIsFirst`, `LiveText.LongKeyHides`).
* A payload stays inside the buffer, whatever characters come, if and only if the length announced
  is one of 1 to 199 (`Framing.AnnouncementDecides`).

## Model

| member | source | states |
|---|---|---|
| `TransmitTheorems.SendIsExact` | rf/transmit.c:9-57 | In every interleaving in which each next time is posted before the current one expires, the SENDER levels are, tick by tick, the expansion of the string and then its last level for as long as the main loop takes to notice; SENDER ends low |
| `TransmitTheorems.LatenessOnlyStretches` | rf/transmit.c:9-57 | If only no expiring tick falls between clearing `rfNewTime` and posting `rfNextTime`: at every moment the pulses loaded are the first ones of the string, each once and in order, and each held at least its length |
| `TransmitWindow.WindowIsExact` | rf/transmit.c:11-16 | An expiring tick falls in that window if and only if some schedule after it, with no further such tick, leads to a state from which no schedule delivers the string |
| `TransmitWindow.WindowCanBeSurvived` | rf/transmit.c:11-29 | After every such tick some schedule still delivers the whole string |
| `TransmitWindow.SendAtRisk` | rf/transmit.c:31-57 | For every string: `rfSend` has a schedule that makes delivery impossible if and only if the string asks for at least two pulses |
| `TransmitWindow.ExtendedAtRisk` | rf/transmit.c:59-110 | The same for `rfSendExtended` |
| `TransmitWindow.LosesSecondPulse` | rf/transmit.c:9-57 | A schedule for the string 2, 3 at whose end the second pulse has been on the air for one tick |
| `TransmitTheorems.ExtendedIsExact` | rf/transmit.c:59-110 | The exact waveform for `rfSendExtended` on its unpacked string, in-time posting |
| `TransmitTheorems.ExtendedLatenessOnlyStretches` | rf/transmit.c:59-110 | Lateness only stretches pulses in `rfSendExtended` too, whose window lies between one wait and the next post |
| `TransmitTheorems.MarkersNeverEnd` | rf/transmit.c:78-106 | On a table of markers only, no schedule ever brings `rfSendExtended` to its end |
| `TransmitTheorems.SameIntention` | rf/transmit.c:31-101 | `rfSend` and `rfSendExtended` are asked for the same levels and lengths if and only if the string does not begin with a marker |
| `TransmitProofs.TickKeepsInvariant` | rf/transmit.c:9-29 | Every tick outside the window keeps: pulses loaded, posted and still in the program make up the whole string |
| `TransmitProofs.MainKeepsInvariant` | rf/transmit.c:31-110 | Every statement of the main loop keeps the same |
| `Transmitters.Transmitter.TransmitUpdate` | rf/transmit.c:9-29 | The interrupt on its real variables is the tick of the step system |
| `Transmitters.Transmitter.Send` | rf/transmit.c:31-57 | `rfSend` under any number of interrupts between any two statements: it ends, and what it sent satisfies both theorems above |
| `Transmitters.Transmitter.SendExtended` | rf/transmit.c:59-110 | The packed pulse table, two bits a pulse, is played as the unpacked string; a pulse count of zero leaves SENDER alone |
| `Transmitters.PackedIsPlayed` | rf/transmit.c:78-101 | Whatever table of four lengths and codes are packed, two bits a code, the first one highest: the string played is the length that each code names, in order |
| `BusyWait.SendCommand` | firmware/send.c:42-75 | The levels and times that the busy loop drives, and the timer counts between them |
| `BusyWait.SameAsSend` | firmware/send.c:56-72 | The busy loop and `rfSend` drive the same levels for the same times if and only if the string does not begin with a marker and every pulse has no marker, or an odd number of markers, before it |
| `BusyWait.SingleMarkersAreOdd` | firmware/send.c:56-60 | Strings without adjacent markers are such strings |
| `GlitchFilter.FilterPassesPulses` | rf/receive.c:27-51 | For every input: the output at sample t is high exactly when sample t-7 lies in a high run of at least 3, if and only if no run outlasts the 8-bit counter |
| `Receive.Receiver.FilterSample` | rf/receive.c:30-46 | The shift register and its counter compute that output |
| `Receive.Receiver.StoreBit` | rf/receive.c:43-61 | Packing highest bit first and writing into the ring keeps the last 512 completed bytes of the stream in it |
| `Receive.Receiver.Update` | rf/receive.c:26-62 | One interrupt appends one filtered bit to the stream and disturbs nothing that the scan relies on |
| `Receive.Receiver.ScanStep` | rf/receive.c:136-187 | One turn of the scan takes exactly the next bit of the stream, across all wrap-arounds, and hands on the pulse that it ends |
| `Receive.Receiver.ReceiveTask` | rf/receive.c:127-191 | A call reports silence if and only if exactly the required silence is counted at some position that the scan comes to before the cursors meet; it stops at the first such position, and otherwise where they meet, which is behind the last completed byte, or at once if the ring is exactly full |
| `Receive.Interleave` | rf/receive.c:20-187 | From start-up, under every interleaving of samples and scan turns in which the writer stays within a ring of the reader: bits taken are a prefix of the filtered stream, and pulses handed on are its runs |
| `Receive.OvertakenReadsLaterBit` | rf/receive.c:55-60 | Beyond that bound the reader is given a bit from one lap later |
| `Receive.FullLooksEmpty` | rf/receive.c:136-136 | The scan stops exactly when everything is read or the ring is exactly full |
| `ForwardScan.ScanIsRunLength` | rf/receive.c:136-163 | However the scan is cut into calls: pulses handed on, followed by the one being counted, expand to the bits taken, if and only if no run exceeds 255; they are then the maximal runs |
| `Ring.RetreatBit` | rf/receive.c:77-87 | The cursor on its index and mask moves one position back on the 4096-bit ring |
| `Ring.AdvanceBit` | rf/receive.c:165-173 | The inline advance moves one position on |
| `Ring.RetreatUndoesAdvance` | rf/receive.c:77-87 | The two are inverse at every position |
| `Ring.CountSimilar` | rf/receive.c:97-112 | The length of the run at the cursor, or 0 after 255 bits of a longer one, and where the cursor is then |
| `BackwardScan.BackwardIsReverse` | rf/receive.c:97-112 | Counting backwards from any position of the stream gives the runs up to it from the last to the first, while they are in the ring |
| `BackwardScan.BackCountsAreLengths` | rf/receive.c:97-112 | For runs up to 255 these counts are the lengths themselves |
| `BackwardScan.ReadersAgree` | rf/receive.c:127-187 | Counting backwards from the first low sample after a frame gives the reverse of exactly the pulses that the forward scan handed on |
| `TransmitArctech.Sender.SendBits` | firmware/transmit_arctech.c:50-63 | The low bits of a byte, highest first, each as its four segments |
| `TransmitArctech.Sender.SendCommand` | firmware/transmit_arctech.c:65-95 | The segments driven are start pulse, 32 bits and stop pulse, and SENDER ends low |
| `TransmitArctech.FrameSegments` | firmware/transmit_arctech.c:26-95 | These segments, one by one: their levels, and which of them are short, long, and the start pause |
| `TransmitArctech.CommandValue` | firmware/transmit_arctech.c:77-89 | Read as a number, those 32 bits are (house mod 2^26) * 64 + (16 if the method is 1) + unit mod 16 |
| `Arctech.ParseSelflearning` | rf/arctech.c:69-124 | The loop with its sliding 32-bit word accepts from 31 valid groups on and keeps the last 32 read |
| `Arctech.LeadingAreGroups` | rf/arctech.c:19-115 | The bits read are those of the groups of three counts below 10 and one above 15, first or third, up to the first group that is none |
| `Arctech.AcceptsFrom31` | rf/arctech.c:102-112 | A number is sent on if and only if the first 31 groups are such |
| `Arctech.ParseCodeSwitch` | rf/arctech.c:29-67 | Twelve valid groups as a number, which must not be zero |
| `Arctech.DecodesSwitch` | rf/arctech.c:9-58 | Every word of twelve bits sent in tolerance comes back, and only the word of zeros is dropped |
| `Arctech.OnlySwitches` | rf/arctech.c:29-67 | And whatever is sent on was sent so |
| `ArctechRoundTrip.KeepsFirstSent` | rf/arctech.c:78-115 | Of any number of bits from 32 on, read in reverse, the word is made of the 32 sent first |
| `ArctechRoundTrip.DecodesFrame` | rf/arctech.c:69-124 | After every pause that ends the reading, every frame, its pulses anywhere in tolerance, gives the number whose digits were sent |
| `ArctechRoundTrip.PauseDecides` | rf/arctech.c:69-124 | On all 144 counts, for any pulse, any pause and any frame: the reading ends at the start pulse if and only if the pause is 10 to 255 or 265 to 510 samples (or shorter behind a pulse of 10 to 255); what is sent is the word made of the bits read on and the frame's first ones, and it is the right one if and only if these agree with the frame |
| `ArctechRoundTrip.PauseSpoils` | rf/arctech.c:69-124 | After any other pause, as of 256 to 264 or more than 510 samples, every frame that begins with four ones is sent on as another number |
| `Reception.Listen` | rf/receive.c:127-191 | The silence behind a transmission is reported by the call of `rfReceiveTask` with the number that the silences up to it have, and the scan then stands exactly there |
| `EndToEnd.ReceiveCommand` | firmware/transmit_arctech.c:65-95 | For every house, unit and method: the pulses of a command with any jitter in tolerance, sampled after anything that the filter turns into a pulse and a pause that ends the reading, filtered, stored, scanned until a call reports the silence, and counted backwards, make the parser send on exactly that command |
| `EndToEnd.ReceiveBits` | rf/receive.c:26-187 | The same for any 32 bits |
| `ParserChains.ReceiveFineOffset` | rf/fineoffset.c:32-68 | From the samples at the antenna: every five bytes sent in tolerance come out of the parser if they leave no remainder, and else nothing does |
| `ParserChains.ReceivePt2262` | rf/pt2262.c:30-58 | From the samples: every word of twelve digits comes out as its number |
| `ParserChains.ReceiveCodeSwitch` | rf/arctech.c:29-67 | From the samples: every word of twelve bits of a code switch comes out, and only the word of zeros does not |
| `ParserChains.ReceiveX10` | rf/x10.c:22-59 | From the samples: every frame of 32 bits comes out as its number if its complements are right, and else nothing |
| `ParserChains.ReceiveMandolyn` | rf/mandolyn.c:27-69 | From the samples: every frame of 36 bits comes out if it begins with 0xC, and else nothing |
| `StreamChains.TrainHandedOn` | rf/receive.c:136-163 | With the first sample of silence the pulses handed on are the earlier ones and then exactly those of the transmission |
| `StreamChains.HearHasta` | rf/receive.c:136-163 | From the samples to the decoder: every frame of either variant, sent while the decoder is idle, is sent on first, whatever pulses follow it |
| `StreamChains.HearOregon` | rf/receive.c:136-163 | The same for every packet with a known id behind a preamble |
| `StreamChains.HearOregonV3` | rf/receive.c:136-163 | The same for every id of the newer protocol's table |
| `Oregon.Decoder.OregonBit` | rf/oregon.c:33-70 | The pulse state machine on its variables |
| `Oregon.Decoder.OregonByte` | rf/oregon.c:72-92 | Bits into bytes, lowest first, and the counters |
| `Oregon.Decoder.Stream` | rf/oregon.c:94-178 | One pulse through all three machines, keeping their bookkeeping, and what is sent on |
| `Oregon.StepKeepsInv` | rf/oregon.c:94-178 | Over every history: counters in range, everything reset while waiting, and bytes read plus bytes expected are 6 or 8, so that the packet fits the buffer |
| `Oregon.StepKeepsTotal` | rf/oregon.c:85-133 | Over every history: the 8-bit total is that of all bits taken since the id was opened, those of every skipped zero byte included |
| `Oregon.AlignedIffLaps` | rf/oregon.c:85-133 | It counts the bits of the packet and no others if and only if the number of zero bytes skipped is a multiple of 32 |
| `Oregon.WaivedExactly` | rf/oregon.c:43-48 | The relaxed pulse check applies to exactly one kind of bit: the last of the payload byte behind which as many bytes are to come as were skipped, modulo 32 |
| `Oregon.LastBitIsWaived` | rf/oregon.c:43-48 | So it applies to the last bit of the packet if and only if the number of bytes skipped is a multiple of 32 |
| `OregonRoundTrip.RunsOfPacket` | rf/oregon.c:33-70 | Short-long-short bits, neighbouring shorts of equal level fused into a long, are the runs of the half-bits |
| `OregonRoundTrip.HearsIsExact` | rf/oregon.c:33-70 | In every state of the pulse machine: by its samples, which pulse is taken for a short or a long one, and what is made of it |
| `OregonRoundTrip.PreambleDecides` | rf/oregon.c:108-121 | After any number of long pulses and a short one the id is opened if and only if more than 25 were counted in eight bits |
| `OregonRoundTrip.OtherPulsesPass` | rf/oregon.c:108-121 | While the decoder waits, a pulse that is neither long nor short leaves it as it is |
| `OregonRoundTrip.TotalOverHistory` | rf/oregon.c:43-133 | For every sequence of pulses: what the total then counts, and whether the next check is waived |
| `OregonRoundTrip.ZerosDecide` | rf/oregon.c:94-178 | For any number of zero id bytes and then a packet of a known id: exactly that id and payload are sent on if and only if the last pulse is in tolerance or the number of zero bytes is a multiple of 32, and otherwise nothing |
| `OregonRoundTrip.DecodesPacket` | rf/oregon.c:94-178 | For the ids EA 4C with six bytes of payload, and 0A 4D and 1A 2D with eight: a preamble and the pulses in that tolerance (the last of any width) send on exactly that id and payload, whatever the byte register held |
| `OregonRoundTrip.UnknownIdClears` | rf/oregon.c:128-149 | For every other id with a nonzero first byte nothing is sent on, and the decoder waits again |
| `OregonRoundTrip.TableOfIds` | rf/oregon.c:135-149 | These three ids are the table, with these lengths |
| `OregonRoundTrip.OneZeroIsNotWaived` | rf/oregon.c:43-133 | One skipped zero byte and then a packet, at whose last bit the check is not waived |
| `OregonRoundTrip.KnownIdsStartNonZero` | rf/oregon.c:135-149 | No known id begins with the zero byte that would be skipped |
| `OregonV3.Decoder.Stream` | rf/oregonv3.c:87-217 | One pulse through preamble, sync, id and payload |
| `OregonV3.StepKeepsInv` | rf/oregonv3.c:87-217 | The bookkeeping over every history: nibble and byte counters, two half times for each bit of the payload, and bytes read plus bytes expected |
| `OregonV3.KnownIdsFitTheBuffer` | rf/oregonv3.c:93-196 | For an id of the table every byte stored lies in the nine-byte buffer |
| `OregonV3.UnknownIdsEnd` | rf/oregonv3.c:174-216 | Over every history the limit on `halfTime` keeps a payload, whatever its id, at 26 bytes and the signed expected length at -27 or more |
| `OregonV3RoundTrip.RunsOfCode` | rf/oregonv3.c:35-55 | The pulses of a bit sequence are the run-length coding of its half-bits |
| `OregonV3RoundTrip.HearsIsExact` | rf/oregonv3.c:35-55 | For every half time and pulse, by its samples: whether it is taken, what bit it completes, and how `halfTime` goes on in 16 bits |
| `OregonV3RoundTrip.PulsesAreBits` | rf/oregonv3.c:35-85 | For every bit sequence so sent the decoder gets exactly those bits |
| `OregonV3RoundTrip.HalfTimeCounts` | rf/oregonv3.c:35-55 | For every bit sequence and after every one of its pulses, while it reads: `halfTime` has grown, in 16 bits, by two for each bit taken and by one more between the two short pulses of a bit |
| `OregonV3RoundTrip.TableOfIds` | rf/oregonv3.c:144-169 | The nine ids of the table and the length of the payload of each |
| `OregonV3RoundTrip.DecodesPacket` | rf/oregonv3.c:102-217 | For each of these nine ids, given by its bytes, and every payload of its 5, 7, 8 or 9 bytes exactly that id and payload are sent on |
| `OregonV3RoundTrip.DecodesUnknown` | rf/oregonv3.c:154-217 | For every other id that begins with a nonzero byte and every payload of up to 23 bytes, then silence: from 5 bytes on exactly that id and payload, with a zero byte behind it, are sent on, and below nothing |
| `OregonV3RoundTrip.OthersClear` | rf/oregonv3.c:176-190 | Every other pulse that is out of tolerance, or long inside a bit, ends the packet with nothing sent |
| `OregonV3RoundTrip.HeaderBroken` | rf/oregonv3.c:103-130 | Before the id, every pulse that is not the one to come clears the decoder |
| `Hasta.Decoder.Stream` | rf/hasta.c:59-220 | One pulse on the real variables: they hold exactly the progress made, and what is sent is the frame that the pulse completes |
| `Hasta.SentIffFrame` | rf/hasta.c:59-220 | Over every history a message is sent if and only if it ends with a whole frame begun while idle: header and 32 valid pairs, or header and 40 whose five bytes sum to 1 mod 256 |
| `Hasta.NewFrames` | rf/hasta.c:19-38 | The frames of the newer variant and their bits, pulse by pulse in samples |
| `Hasta.OldFrames` | rf/hasta.c:20-33 | Those of the older variant |
| `Hasta.NewFrameSends` | rf/hasta.c:200-218 | For every such frame begun while idle: the number b0 * 2^24 + b1 * 2^16 + b2 * 2^8 + b3 is sent on if b0 + b1 + b2 + b3 + b4 is 1 mod 256, and nothing otherwise |
| `Hasta.OldFrameSends` | rf/hasta.c:187-198 | For every frame of the older variant the number of its four bytes is sent on |
| `Hasta.SentIsFrame` | rf/hasta.c:59-220 | Nothing else is ever sent |
| `Hasta.StepRefines` | rf/hasta.c:48-220 | Mask, byte, counters and sums stand for the bits read so far, and all of them are reset after every emission and every error |
| `Hasta.TotalIsBigEndian` | rf/hasta.c:175-187 | The value sent is the first four bytes, highest first |
| `Hasta.RegistersFit` | rf/hasta.c:40-46 | No history overflows a variable |
| `Crc.CalculateCrc8` | rf/crc.c:3-20 | The loop over a byte is eight steps of the register, for every polynomial |
| `Crc.Linear` | rf/crc.c:8-17 | The step is linear over exclusive or, for every polynomial and length |
| `Crc.AcceptedIffOwnCrc` | rf/fineoffset.c:54-61 | A message and a byte drive the register to zero if and only if the byte is the CRC of the message |
| `Crc.CatchesOdd` | rf/crc.c:3-20 | With 0x31 every odd number of flipped bits is caught, in frames of any length |
| `Crc.CatchesBursts` | rf/crc.c:3-20 | Flips within eight consecutive bits go unnoticed only if there are none |
| `Crc.CatchesPairs` | rf/crc.c:3-20 | Two flips less than 127 bits apart are caught |
| `Crc.MissesPairs` | rf/crc.c:3-20 | Two flips 127 bits apart are not |
| `FineOffset.ReadByte` | rf/fineoffset.c:37-46 | Eight pulse pairs fill a byte from its lowest bit, or one of them is invalid |
| `FineOffset.Parse` | rf/fineoffset.c:32-68 | A message is sent exactly when all forty pairs are valid and the frame leaves no remainder; its bytes are the frame |
| `FineOffset.DecodesFrame` | rf/fineoffset.c:18-61 | Exactly the five-byte frames without remainder come back, each as it was sent |
| `FineOffset.OnlyFrames` | rf/fineoffset.c:18-61 | And whatever is sent on was sent, in pulses of more than 13 or fewer than 11 samples, and left no remainder |
| `FineOffset.DamageIsCaught` | rf/fineoffset.c:15-61 | A frame with one, two, three or any odd number of bits flipped, or with a burst within eight bits, is not accepted |
| `Pt2262.Parse` | rf/pt2262.c:30-58 | Twelve valid groups as a ternary number, lowest digit first |
| `Pt2262.WordsAreNumbers` | rf/pt2262.c:48-49 | Words of n ternary digits and numbers below 3^n stand for each other, both ways |
| `Pt2262.DecodesWord` | rf/pt2262.c:17-50 | Every word of twelve digits sent in tolerance gives its own number, below 3^12, and no other word gives it |
| `Pt2262.OnlyWords` | rf/pt2262.c:17-50 | And whatever is sent on is such a word, in pulses of 6 to 14 and 21 to 29 samples |
| `Mandolyn.MandolynBit` | rf/mandolyn.c:15-25 | One pulse or two, and how far the cursor moves |
| `Mandolyn.Parse` | rf/mandolyn.c:27-69 | 32 bits and a preamble nibble, which must be 0xC |
| `Mandolyn.ReadsSent` | rf/mandolyn.c:15-25 | The one-or-two-pulse code is self-delimiting: whatever follows, the bits sent are the bits read |
| `Mandolyn.DecodesFrame` | rf/mandolyn.c:27-60 | Each of the frames of 36 bits comes back if and only if it begins with the nibble 0xC |
| `Mandolyn.OnlyFrames` | rf/mandolyn.c:15-60 | And whatever is sent on is such a frame, in single pulses of 30 to 40 and pairs of 10 to 20 samples |
| `Mandolyn.SendsInjective` | rf/mandolyn.c:15-25 | No pulse train stands for two frames |
| `X10.Parse` | rf/x10.c:22-59 | 32 valid pairs as a number, if the complement bytes are right |
| `X10.ChecksAreComplements` | rf/x10.c:46-52 | The two masked comparisons hold if and only if the second and fourth byte sent are the complements of the first and third |
| `X10.DecodesFrame` | rf/x10.c:10-52 | Exactly the frames with right complements come back, as the number they are |
| `X10.OnlyFrames` | rf/x10.c:10-52 | And whatever is sent on was sent, in pulses of at most 12 or at least 25 samples, with right complements |
| `X10.DamageIsCaught` | rf/x10.c:46-52 | Any flips confined to one byte are noticed |
| `LiveText.HexInverse` | firmware/common.c:18-60 | `hexToByte` inverts the hexadecimal digits that are written |
| `LiveText.EitherCase` | firmware/common.c:18-60 | `hexToByte` reads every digit in either case, and every other character as 0 |
| `LiveText.IntIsNumber` | firmware/livemessage.c:133-148 | Any number of digits, each in either case: the number they are, modulo 2^32, and the cursor stands behind it |
| `LiveText.IntAtTheEnd` | firmware/livemessage.c:138-146 | Digits that no 's' ends are read to the end of the buffer |
| `LiveText.StringIsNoInt` | firmware/livemessage.c:135-137 | Where a string stands 0 is read, and the cursor stays |
| `LiveText.LengthIsNumber` | firmware/livemessage.c:154-160 | So for the length of a string, modulo 256 |
| `LiveText.IntRoundTrip` | firmware/livemessage.c:66-148 | Every 32-bit integer comes back from its text, and the cursor stands behind it |
| `LiveText.StringRoundTrip` | firmware/livemessage.c:44-172 | Every string that there is room for comes back; otherwise it is refused, and either way the cursor stands behind it (with count 0 every string is skipped) |
| `LiveText.MessageText` | firmware/message.c:18-79 | How the text of one message looks, character by character |
| `LiveText.FirstMatchIsFirst` | firmware/livemessage.c:183-205 | For every list and key the lookup succeeds if and only if some entry has the key and neither it nor one before it has a key of more than 11 characters; it gives the value of the first such entry |
| `LiveText.FindsShortKeys` | firmware/livemessage.c:183-205 | With keys of at most 11 characters that is exactly every key present |
| `LiveText.LongKeyHides` | firmware/livemessage.c:184-190 | A key that is present and not found |
| `LiveMessage.Message.LMAppendChar` | firmware/livemessage.c:31-36 | The text in the buffer grows by the character; a NUL changes nothing |
| `LiveMessage.Message.LMClear` | firmware/livemessage.c:38-42 | The whole buffer is NUL again, cursor and state are reset |
| `LiveMessage.Message.LMAppendString` | firmware/livemessage.c:44-64 | Appends one or two digits of length, a colon and the string |
| `LiveMessage.SignificantDigits` | firmware/livemessage.c:72-82 | The digit array, filled from the lowest place and cut at the leading zeros, holds the hexadecimal digits of the number |
| `LiveMessage.Message.LMAppendInt` | firmware/livemessage.c:66-88 | Appends the number between 'i' and 's' without leading zeros, zero as one digit |
| `LiveMessage.Message.WriteMessage` | firmware/message.c:18-79 | A message written entry by entry is exactly its encoding, in place in the buffer |
| `LiveMessage.Message.LMTakeInt` | firmware/livemessage.c:133-148 | The cursor parser for integers, on any buffer contents |
| `LiveMessage.Message.LMTakeString` | firmware/livemessage.c:150-172 | The cursor parser for strings on any buffer contents, its 8-bit length and cursor included, and what it reads behind the buffer |
| `LiveMessage.Message.TakeName` | firmware/tellsticknet.c:170-173 | From the start of a message its name is read, or refused if it is too long; either way the cursor stands behind it |
| `LiveMessage.Message.EnterEntries` | firmware/livemessage.c:174-181 | There the hash is entered, at its first entry |
| `LiveMessage.Message.LMFindHashString` | firmware/livemessage.c:183-205 | On every association list, the empty one included, the lookup succeeds exactly when there is a first match, and the cursor then stands at its value; only the empty key is found in an empty hash |
| `LiveMessage.Message.FindString` | firmware/tellsticknet.c:76-82 | A text is found if there is a first match, and is given whole if it fits in the room for it, else refused |
| `LiveMessage.Message.ReadCommand` | firmware/transmit_arctech.c:97-109 | House, unit and method are the first matches in the message, the last two cut to 16 bits, or nothing is sent if one is missing |
| `Commands.SendArctechSelflearning` | firmware/transmit_arctech.c:97-120 | From the entries in the buffer to the air: ten frames of the command that they hold, or nothing |
| `Commands.BitsOfValue` | firmware/transmit_arctech.c:65-109 | Whatever numbers the entries hold, the 32 bits of each frame are (house mod 2^26) * 64 + (16 if the 16-bit method is 1) + unit mod 16 |
| `Commands.HandleSend` | firmware/tellsticknet.c:58-105 | The handler of a `send` message: what it asks for, as the first matches of its keys say, and the frames driven if it is an arctech command |
| `Commands.RequestDecided` | firmware/tellsticknet.c:76-95 | Whatever entries a message has: an arctech command is asked for if and only if its protocol and model are "arctech" and "selflearning", raw pulses if and only if it has no protocol and a string S of fewer than 200 characters, and otherwise nothing |
| `Commands.RelayCommand` | firmware/tellsticknet.c:58-105 | From text to air: for every house, unit and method, a message written entry by entry, its name taken, its entries entered and handled, drives ten frames of 32 bits that are the stated number |
| `Commands.RelayPacket` | firmware/tellsticknet.c:58-105 | From text to request: for every string S that fits, with or without a P and an R, exactly these pulses are asked for, R mod 256 times or 10, with P mod 256 ms or 11 in between |
| `LiveMessage.EmptyHashRunsOff` | firmware/livemessage.c:186-194 | In an empty hash the first key read leaves the cursor behind the buffer |
| `LiveMessage.Message.LMParseChar` | firmware/livemessage.c:228-279 | One character on the real buffer is one step of the automaton, while there is room for it and a NUL |
| `LiveMessage.Message.ParseChars` | firmware/livemessage.c:228-279 | So is a whole stream of characters |
| `LiveMessage.Message.ReceiveFrame` | firmware/livemessage.c:228-279 | Character by character through the buffer: header-free noise and a frame end with the payload in the buffer, or with everything cleared |
| `Framing.StepKeepsInv` | firmware/livemessage.c:232-241 | The bounds of the sliding window and of the signature hold after every character |
| `Framing.NoiseKeeps` | firmware/livemessage.c:232-240 | Of noise without a header only the last two characters are kept |
| `Framing.FrameIsReceived` | firmware/livemessage.c:228-273 | For any signature check, any NUL-free noise without "28:" and any frame of 1 to 199 NUL-free characters: message received with exactly the payload if the signature fits it, and the cleared state otherwise |
| `Framing.NextFrameIsReceived` | firmware/livemessage.c:242-279 | A frame that comes while a message is still there takes its place and is judged in the same way, whatever its first three characters are |
| `Framing.SignatureDigits` | firmware/livemessage.c:244-249 | The bytes of the signature are those of its digits, in either case |
| `Framing.SpelledLengthRead` | firmware/livemessage.c:253-261 | Any number of digits of a length, in either case, are read as their number modulo 256 |
| `Framing.NulLeavesNoTrace` | firmware/livemessage.c:228-279 | A NUL changes nothing before a length; in a payload it counts as a character and leaves no text |
| `Framing.FrameFits` | firmware/livemessage.c:24-36 | On the way there is always room in the buffer for the next character and a NUL |
| `Framing.ModestStaysInside` | firmware/livemessage.c:228-279 | Any stream of characters at all stays inside the buffer as long as every length announced is one of 1 to 199 |
| `Framing.AnnouncementDecides` | firmware/livemessage.c:246-263 | While a payload is read there is room for another character, whatever characters come, if and only if the length announced is one of 1 to 199 |

## Left out

- Silence bookkeeping beyond the start position: `stopSilenceP`, `calculateDistance`, the `parsed` flag and the distance checks of rf/receive.c:175-205 are uncalibrated heuristics whose returns are partly commented out.
- The reset of the ring after a match (rf/receive.c:216-219): it leaves `scanBit` where it is, so the refinement of the bit stream is stated from start-up up to the first reset.
- A torn read of the 16-bit `dataP` by the main loop: a scan turn sees one value of it.
- EndToEnd.ReceiveCommand: the parser works on the contents of the ring at the moment of the call; samples that arrive while it runs are not modelled. The same holds of `ParserChains`.
- Receive.Interleave: states which pulses are handed on; `StreamChains` gives them to each of the three stream decoders in order, behind the scan and not from inside it.
- ParserChains.ReceiveFineOffset: speaks of the call at the required silence, with the train still in the ring; like all of `ParserChains` it takes one parser at a time.
- OregonV3.Decoder.Stream: the payload is a sequence of at most 26 bytes in the model, while the source has nine; for ids outside the table it writes on behind them (with `DecodesUnknown`, from payloads of 9 bytes on), and what that overwrites is not modelled.
- Packets of `LMAppendHashHexString` (firmware/livemessage.c:99-118): it compares raw bytes with the character '0' and so drops leading bytes 0x30; there is no round trip to state.
- LiveMessage.Message.LMTakeString: the 56 bytes behind the buffer that the 8-bit cursor can reach are any bytes, but the same throughout; what `instr` overwrites when it is shorter than `count` says is not modelled.
- LiveMessage.Message.LMFindHashString: requires a hash as a writer would encode it, since on other contents, where the cursor wraps round and no entry ends the hash, the loop need not end; the readers it is made of are total.
- Commands.HandleSend: says nothing of messages in which `protocol`, `model` or `S` is a number; the raw pulses of `S` are the result of the handler, and playing them is `Transmitters.Transmitter.Send`.
- LiveMessage.Message.LMParseChar: requires room for the character and a NUL, as the source does not check it before it writes; `Framing.ModestStaysInside` and `Framing.AnnouncementDecides` say which streams leave room.
- Transmitters.Transmitter.Send: asks for a non-empty string, since the source reads behind the NUL of an empty one.
- Transmitters.Transmitter.SendExtended: asks for a table with a pulse that is no marker, if it has any, since otherwise the source does not return, as `TransmitTheorems.MarkersNeverEnd` shows; and for lengths that are not zero, since the interrupt takes a zero for nothing posted and sends no pulse for it.
- Commands.SendArctechSelflearning: the pauses between the ten frames, during which SENDER stays low, and the switching of the transmitter are not modelled.
- SHA-1 and the private key: whether a signature fits is a parameter of `Framing` and `LiveMessage`.
- rf/everflourish.c, which follows the pattern of the other backward decoders; `sendExtendedCommand` in firmware/send.c, which counts markers differently from `rfSendExtended`.
- Microseconds, timer prescalers and the LED: delays are counts of ticks or of samples, and how many samples a delay takes is a tolerance in each theorem.
- Register set-up, UART, EEPROM, UDP and discovery: device and network input and output.
