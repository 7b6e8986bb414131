# Dropbear SSH 2017.75: arithmetic, channels, key exchange and signatures

A Dafny model of four parts of the bundled Dropbear (`tclinux_phoenix/apps/public/dropbear-2017.75`) with
proofs of what they are for. `dafny verify dfyconfig.toml` checks everything.

**Curve25519** (`Bits`, `ModArith`, `Limbs`, `Field25519`, `FieldProduct`, `FieldReduce`, `FieldOps`, `Ladder`,
`Scalar`, `ScalarMult`, `Recip`, `Packing`, `Contract`, `Projective`, `Montgomery`, `Curve25519`). Limb arrays are
arrays of 64-bit integers (`limb`, a newtype, so every operation is proved not to overflow), updated in place as in C.
The specification is small: integers modulo 2^255 - 19 and the ladder of section 5 of RFC 7748. The chain of results
ends in `Curve25519.CurveDonna`; `Montgomery` proves that a ladder step doubles a point of the curve and adds two.

**Channels** (`CircBuffer`, `Channel`, `ChannelTable`; `ChannelModel`, `ChannelInv`, `ChannelFlow`, `ChannelRun`,
`ChannelDelivery`, `ChannelInput`, `ChannelLoss`, `ChannelFinish`, `ChannelTheorems`, `ChannelPeer`). The class
`Channel.Endpoint` works on ring buffers; each method is proved equal to a function of `ChannelModel`. Two such
endpoints are joined by in-order queues, and every event (a turn of channelio with any results of read and writev, or
the delivery of a message) may happen at any time. `ChannelTheorems`, `ChannelLoss` and `ChannelFinish` state what
holds after every sequence of events, and `ChannelPeer` what one endpoint keeps against any peer.

**Key exchange** (`AlgoList`, `AlgoMatch`, `AlgoAgree`, `KexInit`, `KexHash`, `KexKeys`, `KexAgreement`; `KexModel`,
`KexRun`, `KexTheorems`, `KexPeer`, `KexSession`). Name lists printed by one side and cut in place by the other;
transcripts; key derivation over an arbitrary hash; and the state machine of KEXINIT, guessed packets and NEWKEYS for
two peers that may start exchanges and send data at any time, or for one side and any peer.

**Wire encoding and DSA** (`Wire`, `Buffer`, `DssMath`, `Dss`, `DssKey`, `GenDss`). The bounds-checked buffer as a
class whose 32-bit checks are written out, mpint and string formats, signing and verifying over the buffer, and the
shape of generated parameters. mp_* calls are exact integer operations.

Where a program would end (dropbear_exit) a method returns `ok == false`, and a function an `Exit` value. 32-bit
unsigned arithmetic is written out (`U32`).

Where the code and its comments or standards differ, the model follows the code:

- fexpand keeps bit 255 of its input, which section 5 of RFC 7748 masks; the two read the same point exactly when the
  bit is clear (`Curve25519.MaskedPoint`, `Curve25519.TopBitPoint`).
- fcontract's last borrow, which its comment calls for, never moves anything (`Contract.Normalise`).
- libtommath's zero has no digits, so the zero check of buf_putmpint (one digit, which is 0) does not apply and
  zero is written as one zero byte instead of the empty string of section 5 of RFC 4251 (`Wire.MpintConforms`).
- cmult does 256 rounds where the RFC has 255; the results agree (`Curve25519.DonnaIsX25519`).
- send_msg_channel_close passes SHUT_RDWR for errfd, which close_chan_fd treats as a shutdown of the write side;
  `ChannelTheorems.SilentAfterClose` says exactly when that matters. The run theorems assume, as for the channel types of the
  program, that types with separate shutdowns leave errfd closed.
- A guess of the first key exchange packet is judged by position on both sides, and a server's disabled first entry
  shifts its positions (`AlgoAgree.ExactlyOneInit`, `AlgoAgree.DisabledServerHead`, `KexTheorems.BothWait`).
- buf_dss_verify does not ask for r > 0, as FIPS 186 does (`DssMath.FipsExactly`, `DssMath.ZeroRAccepted`).
- A channel whose read and write descriptors are one and not shut down separately (X11, agent), or whose type has its
  own check_close, can lose queued bytes without a write error (`ChannelLoss.LossExactly`).
- A write that fails while data is received closes the descriptor but is not followed by check_close; if it was the read
  descriptor too, EOF is not sent, and two such ends can both stop without a word (`ChannelFinish.RemovedExactly`).

## Model

| member | source | states |
|---|---|---|
| `Limbs.ProductCorrect` | tclinux_phoenix/apps/public/dropbear-2017.75/curve25519-donna.c:101-202 | nineteen limbs that are the doubled convolution of two ten-limb numbers have the product of their values; the doubling of odd-odd terms is what the 25.5-bit positions need |
| `FieldProduct.Mul` | tclinux_phoenix/apps/public/dropbear-2017.75/curve25519-donna.c:102-202 | the cast to 32 bits is exact for limbs up to 2^27 and the 64-bit product does not overflow |
| `FieldProduct.FProduct` | tclinux_phoenix/apps/public/dropbear-2017.75/curve25519-donna.c:101-202 | for even limbs up to 2^27 and odd up to 2^26: the value is the product of the values, no 64-bit overflow anywhere, and each limb is within the size freduce_degree accepts |
| `FieldProduct.FSquareInner` | tclinux_phoenix/apps/public/dropbear-2017.75/curve25519-donna.c:336-392 | the gathered squares are limb for limb the convolution fproduct(a, a) computes, with the same bounds and no overflow |
| `FieldReduce.DivBy26` | tclinux_phoenix/apps/public/dropbear-2017.75/curve25519-donna.c:241-253 | the shift-and-mask form equals division by 2^26 rounding toward zero, for every 64-bit value |
| `FieldReduce.DivBy25` | tclinux_phoenix/apps/public/dropbear-2017.75/curve25519-donna.c:255-266 | the same for 2^25 |
| `FieldReduce.DivS32By25` | tclinux_phoenix/apps/public/dropbear-2017.75/curve25519-donna.c:268-273 | the same for 2^25 in 32-bit arithmetic |
| `FieldReduce.FReduceDegree` | tclinux_phoenix/apps/public/dropbear-2017.75/curve25519-donna.c:205-234 | the ten limbs left represent the nineteen-limb value modulo 2^255 - 19, and are below 2^62 in magnitude; no overflow |
| `FieldReduce.FReduceCoefficients` | tclinux_phoenix/apps/public/dropbear-2017.75/curve25519-donna.c:279-320 | for all limbs below 2^62: the value modulo 2^255 - 19 is kept, every limb fits its width except limb 2, which may reach 2^26; applied to such limbs it makes limb 2 fit too |
| `FieldOps.FSum` | tclinux_phoenix/apps/public/dropbear-2017.75/curve25519-donna.c:70-76 | field addition; the result may enter a product |
| `FieldOps.FDifference` | tclinux_phoenix/apps/public/dropbear-2017.75/curve25519-donna.c:81-86 | field subtraction in - output; the result may enter a product |
| `FieldOps.FScalarProduct` | tclinux_phoenix/apps/public/dropbear-2017.75/curve25519-donna.c:89-94 | field multiplication by any scalar up to 2^34, as large as the 2^62 bound of freduce_coefficients allows |
| `FieldOps.FMulTo` | tclinux_phoenix/apps/public/dropbear-2017.75/curve25519-donna.c:328-334 | field product, reduced, even when output is one of the inputs |
| `FieldOps.FSquareTo` | tclinux_phoenix/apps/public/dropbear-2017.75/curve25519-donna.c:394-401 | field square, reduced |
| `Ladder.EagerIsRfc` | tclinux_phoenix/apps/public/dropbear-2017.75/curve25519-donna.c:610-637 | swapping before each step and back after it computes what the deferred swaps of section 5 of RFC 7748 compute, for all scalars |
| `Montgomery.DoublesPoint` | tclinux_phoenix/apps/public/dropbear-2017.75/curve25519-donna.c:520-567 | on the curve with A = 486662: if x2 : z2 is the coordinate of a point, a ladder step makes it that of the tangent's third point, its double |
| `Montgomery.AddsPoints` | tclinux_phoenix/apps/public/dropbear-2017.75/curve25519-donna.c:520-567 | if x2 : z2 and x3 : z3 are the coordinates of two points and u that of their difference, a step makes x3 : z3 the coordinate of the third point on the line through them, their sum |
| `Montgomery.PowerInverts` | tclinux_phoenix/apps/public/dropbear-2017.75/curve25519-donna.c:647-712 | given Fermat's theorem, z^(2^255 - 21) is the inverse of every z but 0 |
| `Scalar.NextBit` | tclinux_phoenix/apps/public/dropbear-2017.75/curve25519-donna.c:610-637 | the byte shifted left j times, counted from byte 31 down, yields the bits of the little-endian scalar from the top |
| `ScalarMult.FMonty` | tclinux_phoenix/apps/public/dropbear-2017.75/curve25519-donna.c:520-567 | one ladder step of RFC 7748 on the represented elements, from inputs whose pairs may be added, with reduced outputs and no overflow |
| `ScalarMult.SwapConditional` | tclinux_phoenix/apps/public/dropbear-2017.75/curve25519-donna.c:579-589 | exchanges the ten limbs for 1 and keeps them for 0; limbs below 2^31 make the 32-bit casts exact |
| `ScalarMult.LadderBit` | tclinux_phoenix/apps/public/dropbear-2017.75/curve25519-donna.c:611-620 | swap, step, swap back: the four arrays hold the next ladder state, every limb in the bounds the next round needs |
| `ScalarMult.CMult` | tclinux_phoenix/apps/public/dropbear-2017.75/curve25519-donna.c:597-642 | for every 32-byte scalar and expanded point the result is the RFC ladder over integers modulo 2^255 - 19 |
| `Recip.CRecip` | tclinux_phoenix/apps/public/dropbear-2017.75/curve25519-donna.c:647-712 | z^(2^255 - 21) for every reduced z, with reduced intermediates |
| `Packing.FExpand` | tclinux_phoenix/apps/public/dropbear-2017.75/curve25519-donna.c:405-423 | the limbs represent exactly the 256-bit little-endian number (bit 255 is kept) and may enter a product |
| `Contract.BorrowPasses` | tclinux_phoenix/apps/public/dropbear-2017.75/curve25519-donna.c:432-459 | the two passes keep the element and leave all limbs non-negative and within their widths, from reduced limbs of any signs |
| `Contract.Normalise` | tclinux_phoenix/apps/public/dropbear-2017.75/curve25519-donna.c:432-481 | the limbs before the last borrow are already non-negative and within their widths, and it changes none of them, so the source's comment that it is needed does not apply |
| `Contract.FContract` | tclinux_phoenix/apps/public/dropbear-2017.75/curve25519-donna.c:431-509 | 32 bytes below 2^255 that are congruent to the input; no final subtraction of the prime is claimed |
| `Curve25519.Clamp` | tclinux_phoenix/apps/public/dropbear-2017.75/curve25519-donna.c:722-726 | byte 0 loses its low three bits, byte 31 keeps its low six under a set bit 6, all other bytes stay |
| `Curve25519.ClampedRange` | tclinux_phoenix/apps/public/dropbear-2017.75/curve25519-donna.c:722-726 | a clamped scalar is a multiple of 8 between 2^254 and 2^255 |
| `Curve25519.CurveDonna` | tclinux_phoenix/apps/public/dropbear-2017.75/curve25519-donna.c:716-734 | the output is below 2^255 and congruent to the 256-round ladder of the base point and the clamped scalar; given Fermat's theorem and bit 255 of the point clear, to X25519 of the two byte strings as section 5 of RFC 7748 defines it |
| `Projective.LeadingZero` | tclinux_phoenix/apps/public/dropbear-2017.75/curve25519-donna.c:597-642 | given Fermat's theorem, a leading zero bit changes the ladder state only by non-zero factors, so the result is the same |
| `Curve25519.DonnaIsX25519` | tclinux_phoenix/apps/public/dropbear-2017.75/curve25519-donna.c:716-734 | given Fermat's theorem, the 256 rounds of the code give the 255-round function of the RFC for every secret and field element |
| `Curve25519.MaskedPoint` | tclinux_phoenix/apps/public/dropbear-2017.75/curve25519-donna.c:405-423 | the code's 256-bit point and the RFC's masked one are congruent if and only if bit 255 is clear |
| `Curve25519.TopBitPoint` | tclinux_phoenix/apps/public/dropbear-2017.75/curve25519-donna.c:405-423 | 2^255 as a point: 19 for the code, 0 for the RFC |
| `Curve25519.MaskedInputs` | tclinux_phoenix/apps/public/dropbear-2017.75/curve25519-donna.c:716-734 | with bit 255 clear the code's ladder is the RFC's function of the byte strings, given Fermat's theorem |
| `CircBuffer.CursorEquations` | tclinux_phoenix/apps/public/dropbear-2017.75/circbuffer.c:71-87 | the two congruences that cbuf_writelen asserts between its cursors follow from writepos = readpos + used around the ring |
| `CircBuffer.CircBuf.New` | tclinux_phoenix/apps/public/dropbear-2017.75/circbuffer.c:31-48 | null exactly above the size limit; otherwise an empty queue |
| `CircBuffer.CircBuf.WriteLen` | tclinux_phoenix/apps/public/dropbear-2017.75/circbuffer.c:71-87 | the run is within the free space, is all of it or ends at the array's end, and is 0 only when full |
| `CircBuffer.CircBuf.ReadPtrs` | tclinux_phoenix/apps/public/dropbear-2017.75/circbuffer.c:89-102 | the two segments joined are the queue |
| `CircBuffer.CircBuf.WritePtr` | tclinux_phoenix/apps/public/dropbear-2017.75/circbuffer.c:104-116 | allocation on first use does not change the queue; refused exactly when the run is too long |
| `CircBuffer.CircBuf.IncrWrite` | tclinux_phoenix/apps/public/dropbear-2017.75/circbuffer.c:118-127 | the queue gains exactly the bytes stored at the write position |
| `CircBuffer.CircBuf.IncrRead` | tclinux_phoenix/apps/public/dropbear-2017.75/circbuffer.c:129-133 | the oldest bytes leave the queue |
| `CircBuffer.CircBuf.Store` | tclinux_phoenix/apps/public/dropbear-2017.75/circbuffer.c:104-127 | a linear write within the run touches no unread byte |
| `CircBuffer.CircBuf.AppendAll` | tclinux_phoenix/apps/public/dropbear-2017.75/common-channel.c:857-881 | whatever fits is appended, in at most two rounds |
| `Channel.Endpoint.constructor` | tclinux_phoenix/apps/public/dropbear-2017.75/common-channel.c:107-177 | a new channel: empty buffers of the size of the receive window |
| `Channel.Endpoint.CloseChanFd` | tclinux_phoenix/apps/public/dropbear-2017.75/common-channel.c:1075-1114 | refines the value model: which of the three descriptors a shutdown marks closed |
| `Channel.Endpoint.SendMsgChannelClose` | tclinux_phoenix/apps/public/dropbear-2017.75/common-channel.c:386-408 | refines the value model: handler, CLOSE, flags and the three descriptors |
| `Channel.Endpoint.SendMsgChannelEof` | tclinux_phoenix/apps/public/dropbear-2017.75/common-channel.c:411-424 | EOF is sent and marked, and nothing else of the channel changes |
| `Channel.Endpoint.SendMsgChannelData` | tclinux_phoenix/apps/public/dropbear-2017.75/common-channel.c:720-804 | refines the value model: window and packet limits, the three results of read, the early close while flushing; ChannelInput says what the model sends |
| `Channel.Endpoint.RecvMsgChannelWindowAdjust` | tclinux_phoenix/apps/public/dropbear-2017.75/common-channel.c:889-903 | refines the value model, clamps and 32-bit sum included |
| `Channel.Endpoint.WritechannelWritev` | tclinux_phoenix/apps/public/dropbear-2017.75/common-channel.c:457-521 | over the ring buffer: any count that writev returns takes that prefix of queue and new data; an error closes the descriptor |
| `Channel.Endpoint.Writechannel` | tclinux_phoenix/apps/public/dropbear-2017.75/common-channel.c:528-553 | the same, with the window adjust that follows |
| `Channel.Endpoint.CommonRecvMsgChannelData` | tclinux_phoenix/apps/public/dropbear-2017.75/common-channel.c:818-884 | refines the value model: both exits, the dropped case, the immediate write and the copy loop |
| `Channel.Endpoint.CheckCloseChannel` | tclinux_phoenix/apps/public/dropbear-2017.75/common-channel.c:279-355 | the whole decision over buffers and descriptors equals the model's: flushing, reply to CLOSE and removal, closing the write side, EOF, CLOSE; ChannelFinish says what the model brings about |
| `Channel.Endpoint.HasWritePending` | tclinux_phoenix/apps/public/dropbear-2017.75/common-channel.c:266-275 | whether bytes wait for an open descriptor |
| `Channel.Endpoint.RemoveChannel` | tclinux_phoenix/apps/public/dropbear-2017.75/common-channel.c:640-677 | the close handler runs unless it has |
| `Channel.Endpoint.RecvMsgChannelEof` | tclinux_phoenix/apps/public/dropbear-2017.75/common-channel.c:607-620 | the peer's EOF is marked, then the model's check_close |
| `Channel.Endpoint.RecvMsgChannelClose` | tclinux_phoenix/apps/public/dropbear-2017.75/common-channel.c:623-636 | the peer's CLOSE counts as EOF too, then the model's check_close |
| `Channel.Endpoint.Channelio` | tclinux_phoenix/apps/public/dropbear-2017.75/common-channel.c:202-259 | one channel's turn: reads, writes, then check_close if anything happened |
| `ChannelTable.Table.NewChannel` | tclinux_phoenix/apps/public/dropbear-2017.75/common-channel.c:107-177 | the lowest free index, no other slot disturbed; since the table grows from 1 by 3 it is refused exactly when 1000 channels are open |
| `ChannelTable.Table.GetChannel` | tclinux_phoenix/apps/public/dropbear-2017.75/common-channel.c:182-195 | found exactly when the slot is in use |
| `ChannelTable.Table.RemoveChannel` | tclinux_phoenix/apps/public/dropbear-2017.75/common-channel.c:640-677 | only that slot is freed, and the count stays exact |
| `ChannelInv.ReceiveKeeps` | tclinux_phoenix/apps/public/dropbear-2017.75/common-channel.c:607-903 | handling any message keeps the endpoint's invariant: the message grammar, flags against descriptors, and window accounting |
| `ChannelInv.ChannelIoKeeps` | tclinux_phoenix/apps/public/dropbear-2017.75/common-channel.c:202-259 | so does any turn of channelio |
| `ChannelTheorems.WindowLaw` | tclinux_phoenix/apps/public/dropbear-2017.75/common-channel.c:528-553 | in every run of two endpoints, in both directions: sender's window + data in flight + credit in flight + dropped bytes = receiver's window, and window + unannounced + queued + lost bytes = recv_window |
| `ChannelTheorems.NeverOversized` | tclinux_phoenix/apps/public/dropbear-2017.75/common-channel.c:841-855 | arriving data never exceeds the window, nor the window the room, so no exit of the receive path is taken |
| `ChannelTheorems.MessageOrder` | tclinux_phoenix/apps/public/dropbear-2017.75/common-channel.c:279-424 | at most one EOF and one CLOSE; after EOF only window adjusts and CLOSE, after CLOSE nothing; the handler, if there is one, has run exactly once when CLOSE has been sent and not at all before; a channel is gone only after both CLOSEs |
| `ChannelTheorems.StreamLaw` | tclinux_phoenix/apps/public/dropbear-2017.75/common-channel.c:457-521 | bytes written are always a prefix of the bytes that the peer has read, and with the queue and what is in flight all of them while the descriptor is open, under any partial reads and writes |
| `ChannelTheorems.PacketsFit` | tclinux_phoenix/apps/public/dropbear-2017.75/common-channel.c:739-746 | in every run each data packet is non-empty and within the peer's packet limit and the packet buffer |
| `ChannelInput.MaxLenExactly` | tclinux_phoenix/apps/public/dropbear-2017.75/common-channel.c:739-746 | a length is allowed exactly if the window, the peer's packet limit and the packet buffer with its header all allow it |
| `ChannelInput.SendDataSends` | tclinux_phoenix/apps/public/dropbear-2017.75/common-channel.c:720-804 | what read returned is sent, all of it, in its order and as its kind of data, and nothing else |
| `ChannelInput.ChannelIoSends` | tclinux_phoenix/apps/public/dropbear-2017.75/common-channel.c:202-259 | a turn sends exactly what its reads returned, flushing included |
| `ChannelInput.SentIsRead` | tclinux_phoenix/apps/public/dropbear-2017.75/common-channel.c:720-804 | over every run the data an endpoint has sent is the concatenation of what its reads returned |
| `ChannelFinish.CheckCloseFinishes` | tclinux_phoenix/apps/public/dropbear-2017.75/common-channel.c:336-354 | after check_close a channel with nothing more to send has sent EOF, and CLOSE too if nothing can be received, nothing waits to be written and the type allows it |
| `ChannelFinish.CheckCloseFlushes` | tclinux_phoenix/apps/public/dropbear-2017.75/common-channel.c:324-334 | while flushing the read descriptor is closed by a read that does not fill its request |
| `ChannelFinish.CheckCloseStable` | tclinux_phoenix/apps/public/dropbear-2017.75/common-channel.c:279-355 | for types without their own check_close nothing is left undone: the write side is closed after the peer's EOF, EOF and CLOSE are sent when due, and the channel is removed after both CLOSEs |
| `ChannelFinish.TurnFinishes` | tclinux_phoenix/apps/public/dropbear-2017.75/common-channel.c:202-259 | so a turn with a signal, or with a ready descriptor, leaves nothing undone |
| `ChannelFinish.DoneIsRemoved` | tclinux_phoenix/apps/public/dropbear-2017.75/common-channel.c:279-355 | in every run, when nothing is in flight and neither end has anything to read or write, both channels are removed if and only if one end has sent EOF |
| `ChannelFinish.UnsharedSaysEof` | tclinux_phoenix/apps/public/dropbear-2017.75/common-channel.c:336-341 | an end that does not read and write one descriptor always sends EOF when it has no more to read |
| `ChannelFinish.BothStall` | tclinux_phoenix/apps/public/dropbear-2017.75/common-channel.c:457-521 | two ends that each read and write one descriptor, and each fail to write what they receive: neither says EOF, and the channel stays |
| `ChannelFinish.RemovedExactly` | tclinux_phoenix/apps/public/dropbear-2017.75/common-channel.c:202-259 | every run removes what is done if and only if one of the two ends reads and writes different descriptors |
| `ChannelPeer.SendsWithinCredit` | tclinux_phoenix/apps/public/dropbear-2017.75/common-channel.c:739-792 | whatever messages a peer sends: never more data than its window and credit allow |
| `ChannelPeer.QueuesBounded` | tclinux_phoenix/apps/public/dropbear-2017.75/common-channel.c:843-850 | no sequence of messages makes a queue outgrow its buffer |
| `ChannelPeer.ReceivedInOrder` | tclinux_phoenix/apps/public/dropbear-2017.75/common-channel.c:818-884 | for any peer: what was written and queued is a prefix of the data that came, and all of it while the descriptor is open |
| `ChannelPeer.NoDataAfterEnd` | tclinux_phoenix/apps/public/dropbear-2017.75/common-channel.c:830-832 | for any peer: data after EOF or CLOSE ends the program |
| `ChannelPeer.AdjustSaturates` | tclinux_phoenix/apps/public/dropbear-2017.75/common-channel.c:889-903 | the two clamps and the 32-bit sum are one addition that saturates at TRANS_MAX_WINDOW |
| `ChannelPeer.DataRefused` | tclinux_phoenix/apps/public/dropbear-2017.75/common-channel.c:830-850 | data ends the program exactly after EOF or when it does not fit behind the queue of an open descriptor |
| `ChannelPeer.ReadsWhenReady` | tclinux_phoenix/apps/public/dropbear-2017.75/common-channel.c:219-235 | a readable descriptor is read and what it has is sent, up to the limit; no other is read |
| `ChannelPeer.WritesWhenReady` | tclinux_phoenix/apps/public/dropbear-2017.75/common-channel.c:237-246 | a writable descriptor is given the oldest bytes of the queue, as many as it takes |
| `ChannelPeer.DataWritten` | tclinux_phoenix/apps/public/dropbear-2017.75/common-channel.c:857-881 | data goes behind the queue, as much as writev takes is written, and the rest is queued |
| `ChannelPeer.ShutdownExactly` | tclinux_phoenix/apps/public/dropbear-2017.75/common-channel.c:1075-1114 | without separate shutdowns a closed descriptor is gone from all three places, with them only from its side |
| `ChannelTheorems.NoDeadlock` | tclinux_phoenix/apps/public/dropbear-2017.75/common-channel.c:538-548 | with nothing queued, in flight or lost the sender has more than two thirds of the window |
| `ChannelLoss.NothingLost` | tclinux_phoenix/apps/public/dropbear-2017.75/common-channel.c:279-355 | for normal and for extended data, and whatever the sender is: a receiver without its own check_close, whose descriptor is not shared with a read side, has written everything its peer ever read when that descriptor is closed or the channel gone without a write error |
| `ChannelLoss.LossExactly` | tclinux_phoenix/apps/public/dropbear-2017.75/common-channel.c:279-355 | for normal and for extended data: every run writes everything if and only if the receiver is such a channel, for a sender and a receiver that can carry that kind of data |
| `ChannelLoss.SharedDescriptorLoses` | tclinux_phoenix/apps/public/dropbear-2017.75/common-channel.c:1075-1114 | one whole run with a shared descriptor: CLOSE both ways, no write error, and the queued byte is gone with the channel |
| `ChannelLoss.RemovalWaits` | tclinux_phoenix/apps/public/dropbear-2017.75/common-channel.c:307-314 | the step that removes a channel finds CLOSE received and no byte waiting for an open descriptor; the queues are then empty unless a write failed or the channel is not such a one |
| `ChannelTheorems.RunMirrored` | tclinux_phoenix/apps/public/dropbear-2017.75/common-channel.c:202-259 | exchanging the endpoints turns runs into runs, so each law above holds in both directions |
| `ChannelTheorems.SilentAfterClose` | tclinux_phoenix/apps/public/dropbear-2017.75/common-channel.c:386-408 | after CLOSE the endpoint can send data exactly when its type shuts down one way at a time and reads errfd as a descriptor of its own |
| `Wire.MpintLength` | tclinux_phoenix/apps/public/dropbear-2017.75/buffer.c:303-311 | the length computed from the bit count is the number of bytes that follow |
| `Wire.Load32BigEndian` | tclinux_phoenix/apps/public/dropbear-2017.75/buffer.c:250-256 | LOAD32H is the big-endian value |
| `Wire.U32BigEndian` | tclinux_phoenix/apps/public/dropbear-2017.75/buffer.c:259-264 | STORE32H writes the only four bytes with that big-endian value |
| `Wire.MpintConforms` | tclinux_phoenix/apps/public/dropbear-2017.75/buffer.c:289-327 | the encoding is the minimal one of section 5 of RFC 4251, with a clear top bit, exactly for positive numbers; zero is written as one zero byte |
| `Wire.RfcMpintUnique` | tclinux_phoenix/apps/public/dropbear-2017.75/buffer.c:285-327 | the RFC's conditions leave one encoding |
| `Wire.MpintRoundTrip` | tclinux_phoenix/apps/public/dropbear-2017.75/buffer.c:334-359 | buf_getmpint returns what buf_putmpint wrote for numbers below 2^8239 and refuses every other |
| `Wire.StringRoundTrip` | tclinux_phoenix/apps/public/dropbear-2017.75/buffer.c:208-226 | a string is read back if it is no longer than the limit, and ends the program otherwise |
| `Wire.ReadStringExactly` | tclinux_phoenix/apps/public/dropbear-2017.75/buffer.c:208-226 | a string is found if and only if the bytes are its encoding, within the limit |
| `Wire.ReadBack` | tclinux_phoenix/apps/public/dropbear-2017.75/buffer.c:334-359 | any framed bytes as a number: refused exactly if too long or with the sign bit set |
| `Wire.ReadMpintExactly` | tclinux_phoenix/apps/public/dropbear-2017.75/buffer.c:334-359 | a number is found if and only if the bytes are the framing of an unsigned big-endian form of it within the limit |
| `Buffer.Buf.Resize` | tclinux_phoenix/apps/public/dropbear-2017.75/buffer.c:78-90 | contents kept as far as they fit, position and length within the new size |
| `Buffer.Buf.NewCopy` | tclinux_phoenix/apps/public/dropbear-2017.75/buffer.c:94-104 | the same contents in a buffer of that size |
| `Buffer.Buf.SetLen` | tclinux_phoenix/apps/public/dropbear-2017.75/buffer.c:107-113 | pos <= len <= size kept; refused exactly beyond size |
| `Buffer.Buf.IncrLen` | tclinux_phoenix/apps/public/dropbear-2017.75/buffer.c:116-121 | the 32-bit check is exact: no wrap-around |
| `Buffer.Buf.SetPos` | tclinux_phoenix/apps/public/dropbear-2017.75/buffer.c:123-129 | refused exactly beyond len |
| `Buffer.Buf.IncrWritePos` | tclinux_phoenix/apps/public/dropbear-2017.75/buffer.c:132-140 | the 32-bit check is exact; len grows with pos |
| `Buffer.Buf.IncrPos` | tclinux_phoenix/apps/public/dropbear-2017.75/buffer.c:144-152 | for every signed step: accepted exactly when the new position is in 0..len |
| `Buffer.Buf.GetPtr` | tclinux_phoenix/apps/public/dropbear-2017.75/buffer.c:187-193 | accepted exactly when so many bytes are left |
| `Buffer.Buf.GetWritePtr` | tclinux_phoenix/apps/public/dropbear-2017.75/buffer.c:197-203 | accepted exactly when so many bytes fit |
| `Buffer.Buf.GetByte` | tclinux_phoenix/apps/public/dropbear-2017.75/buffer.c:155-163 | the first unread byte |
| `Buffer.Buf.PutByte` | tclinux_phoenix/apps/public/dropbear-2017.75/buffer.c:176-183 | one byte appended at the position, nothing behind it changed |
| `Buffer.Buf.PutBytes` | tclinux_phoenix/apps/public/dropbear-2017.75/buffer.c:281-284 | the bytes appended at the position, nothing behind them changed; refused exactly when they do not fit |
| `Buffer.Buf.GetInt` | tclinux_phoenix/apps/public/dropbear-2017.75/buffer.c:250-256 | the four bytes as a number, most significant first; refused exactly with fewer than four left |
| `Buffer.Buf.PutInt` | tclinux_phoenix/apps/public/dropbear-2017.75/buffer.c:259-264 | four bytes with that value, most significant first |
| `Buffer.Buf.GetString` | tclinux_phoenix/apps/public/dropbear-2017.75/buffer.c:208-226 | reads what the format says, or ends the program |
| `Buffer.Buf.PutString` | tclinux_phoenix/apps/public/dropbear-2017.75/buffer.c:267-272 | length and bytes; refused exactly when they do not fit |
| `Buffer.Buf.PutMpint` | tclinux_phoenix/apps/public/dropbear-2017.75/buffer.c:289-327 | the encoding above for every non-negative number, in the zero check's own terms |
| `Buffer.Buf.GetMpint` | tclinux_phoenix/apps/public/dropbear-2017.75/buffer.c:334-359 | the number, or the refusal or the end of the program exactly where the format says so |
| `DssMath.SignatureAccepted` | tclinux_phoenix/apps/public/dropbear-2017.75/dss.c:159-345 | for g of order dividing q and y = g^x: a signature made with an invertible nonce is accepted if and only if h + x r is invertible modulo q |
| `DssMath.CheckValueExactly` | tclinux_phoenix/apps/public/dropbear-2017.75/dss.c:216-237 | the value compared with r is g to the power (h + x r) / s, mod p mod q, for every pair with an invertible s |
| `DssMath.CheckValueAny` | tclinux_phoenix/apps/public/dropbear-2017.75/dss.c:216-237 | for every key, sound or not, it is g^u1 y^u2 mod p mod q over unreduced powers |
| `DssMath.AcceptedExactly` | tclinux_phoenix/apps/public/dropbear-2017.75/dss.c:186-245 | a pair is accepted if and only if it is the private key's signature for the nonce (h + x r) / s |
| `DssMath.AcceptedIsSigned` | tclinux_phoenix/apps/public/dropbear-2017.75/dss.c:186-245 | equivalently: if and only if s is invertible and some nonce makes the pair a signature |
| `DssMath.WrongPairRejected` | tclinux_phoenix/apps/public/dropbear-2017.75/dss.c:240-245 | a concrete pair that is refused: its check value is 9 and its r is 1 |
| `DssMath.UnverifiableSignature` | tclinux_phoenix/apps/public/dropbear-2017.75/dss.c:256-345 | a concrete key and hash whose signature has s = 0 and is rejected, and one that is accepted |
| `DssMath.FipsExactly` | tclinux_phoenix/apps/public/dropbear-2017.75/dss.c:186-245 | the code's verdict is that of FIPS 186 if and only if it is not the case that r is 0 and q divides the reduced power of g that the hash and s determine; the public value plays no part |
| `DssMath.ZeroRAccepted` | tclinux_phoenix/apps/public/dropbear-2017.75/dss.c:211-216 | a concrete r = 0 that the code accepts and FIPS 186 does not, for every public value |
| `DssMath.SignatureAcceptedPrime` | tclinux_phoenix/apps/public/dropbear-2017.75/dss.c:159-345 | for prime q (Fermat as hypothesis): every nonce works, and a signature is accepted if and only if s is not 0 |
| `Dss.VerifyNumbers` | tclinux_phoenix/apps/public/dropbear-2017.75/dss.c:186-245 | the sequence of temporaries decides acceptance exactly: r and s below q, an inverse of s, and the check value equal to r |
| `Dss.BufDssVerify` | tclinux_phoenix/apps/public/dropbear-2017.75/dss.c:159-251 | success exactly for a 40-byte blob whose halves are accepted |
| `Dss.SignNumbers` | tclinux_phoenix/apps/public/dropbear-2017.75/dss.c:286-311 | r and s solve k s = h + x r modulo q; fails exactly without an inverse of k |
| `Dss.PutPaddedNumber` | tclinux_phoenix/apps/public/dropbear-2017.75/dss.c:316-340 | 20 bytes with leading zeros; a longer number makes the 32-bit padding count overrun the buffer |
| `Dss.BufPutDssSign` | tclinux_phoenix/apps/public/dropbear-2017.75/dss.c:256-345 | writes the name and the blob of such a signature, and never fails with room and a q of at most 160 bits |
| `Dss.SignThenVerify` | tclinux_phoenix/apps/public/dropbear-2017.75/dss.c:159-345 | the blob written by signing is read back and verified if and only if h + x r is invertible modulo q |
| `DssKey.KeyRoundTrip` | tclinux_phoenix/apps/public/dropbear-2017.75/dss.c:46-69 | a written key is read back unless a number reaches 2^8239 or p has fewer than 512 bits |
| `DssKey.BufPutDssPubKey` | tclinux_phoenix/apps/public/dropbear-2017.75/dss.c:136-145 | name, p, q, g and y in the documented order; refused exactly when they do not fit |
| `DssKey.BufGetDssPubKey` | tclinux_phoenix/apps/public/dropbear-2017.75/dss.c:46-69 | reads that format with every failure path |
| `GenDss.CandidateForm` | tclinux_phoenix/apps/public/dropbear-2017.75/gendss.c:108-131 | a candidate is 1 modulo 2q and within 2q below the random number |
| `GenDss.GetP` | tclinux_phoenix/apps/public/dropbear-2017.75/gendss.c:86-143 | the first candidate of the random supply that passes the primality test, with that shape |
| `GenDss.GeneratorOrder` | tclinux_phoenix/apps/public/dropbear-2017.75/gendss.c:145-180 | given Fermat's theorem, every h^((p-1)/q) has order dividing q |
| `GenDss.GetG` | tclinux_phoenix/apps/public/dropbear-2017.75/gendss.c:145-180 | g exceeds 1 and comes from the least h that gives that, which is below p; g^q = 1 modulo p given Fermat's theorem; no result only if all h looked at give at most 1 |
| `GenDss.GenDssPrivKey` | tclinux_phoenix/apps/public/dropbear-2017.75/gendss.c:46-66 | p, g and y together: p = 1 modulo 2q, and given Fermat's theorem for p the key is one for which signatures verify |
| `GenDss.GeneratedKeyVerifies` | tclinux_phoenix/apps/public/dropbear-2017.75/gendss.c:86-193 | from the shape of p and g to the 40 bytes read back: a signature made with a generated key is verified if and only if s is not 0, given Fermat's theorem for p and q |
| `AlgoList.BufPutAlgolist` | tclinux_phoenix/apps/public/dropbear-2017.75/common-algo.c:335-353 | the usable names in order, joined by commas; refused exactly when over 300 bytes or without room |
| `AlgoList.CutJoin` | tclinux_phoenix/apps/public/dropbear-2017.75/common-algo.c:384-399 | cutting a printed list gives back the names, up to the limit of names |
| `AlgoList.CutNames` | tclinux_phoenix/apps/public/dropbear-2017.75/common-algo.c:382-399 | in place: commas become NULs and each address holds its name; fails exactly for a NUL before the twentieth name |
| `AlgoMatch.FindMatch` | tclinux_phoenix/apps/public/dropbear-2017.75/common-algo.c:434-461 | the first client name that the server has, at its first place on the server's side; none only if there is none |
| `AlgoMatch.BufMatchAlgo` | tclinux_phoenix/apps/public/dropbear-2017.75/common-algo.c:360-464 | the choice, the kexguess2 mode and the verdict on a guess, for every list in the buffer |
| `AlgoMatch.GuessMeaning` | tclinux_phoenix/apps/public/dropbear-2017.75/common-algo.c:443-453 | a guess is right exactly if, with kexguess2, the client's first entry is on the server's list, and without it if the first entries of both are the same |
| `AlgoAgree.SidesAgree` | tclinux_phoenix/apps/public/dropbear-2017.75/common-algo.c:335-464 | client and server, each with its own table and the other's printed list, pick the first usable client name that the server can use, or both none |
| `AlgoAgree.VerdictsAgree` | tclinux_phoenix/apps/public/dropbear-2017.75/common-algo.c:443-453 | both sides judge a guess alike if and only if an unusable first entry does not come between them |
| `AlgoAgree.DisabledServerHead` | tclinux_phoenix/apps/public/dropbear-2017.75/common-algo.c:443-453 | a server that has disabled its first entry: in plain mode the client finds its guess right and the server finds it wrong |
| `AlgoAgree.UnusableHeadDiffers` | tclinux_phoenix/apps/public/dropbear-2017.75/common-algo.c:443-453 | the opposite case, of a client's disabled first entry, which this program does not produce: the client finds its guess wrong and the server finds it right |
| `AlgoAgree.ModesAgree` | tclinux_phoenix/apps/public/dropbear-2017.75/common-algo.c:400-411 | both sides find the same kexguess2 mode |
| `AlgoAgree.ExactlyOneInit` | tclinux_phoenix/apps/public/dropbear-2017.75/cli-session.c:219-225 | the server is left with exactly one KEXDH_INIT, that is, the client repeats a guess exactly when the server skips it, if and only if there is no guess or the usable heads of the four tables agree; with none exactly when in plain mode a disabled first entry hides a right guess from the server |
| `AlgoAgree.UsableHeadsAgree` | tclinux_phoenix/apps/public/dropbear-2017.75/common-algo.c:443-453 | they agree when all four are usable, and in kexguess2 mode when the client's are |
| `KexInit.ListsRoundTrip` | tclinux_phoenix/apps/public/dropbear-2017.75/common-kex.c:64-93 | the ten lists of KEXINIT are read back as written |
| `KexInit.PayloadRoundTrip` | tclinux_phoenix/apps/public/dropbear-2017.75/common-kex.c:55-99 | type and cookie, then the receiver of a KEXINIT reads the sender's ten lists in the order of section 7.1 of RFC 4253, the flag and the reserved field |
| `KexInit.SuitesAgree` | tclinux_phoenix/apps/public/dropbear-2017.75/common-kex.c:826-944 | both peers settle on the same methods, each transmits with what the other receives with, and either both go on or both exit, the kexguess2 marker included |
| `KexHash.StartTranscript` | tclinux_phoenix/apps/public/dropbear-2017.75/common-kex.c:471-521 | either side writes V_C, V_S, I_C, I_S in the client's order |
| `KexHash.KexdhCombKey` | tclinux_phoenix/apps/public/dropbear-2017.75/common-kex.c:590-640 | the range check, the secret, and K_S, e, f, K in the client's order; fails exactly out of range or without room |
| `KexHash.RoomForGroup14` | tclinux_phoenix/apps/public/dropbear-2017.75/common-kex.c:471-478 | the buffer's allowance, which includes the five header bytes of the received packet, suffices for 2048-bit groups and host keys up to 1292 bytes, and with full-length values for no longer ones |
| `KexHash.SecretsEqual` | tclinux_phoenix/apps/public/dropbear-2017.75/common-kex.c:610-614 | both powers are the same secret |
| `KexHash.TranscriptsAgree` | tclinux_phoenix/apps/public/dropbear-2017.75/common-kex.c:471-640 | what the client writes and what the server writes are the same bytes, V_C, V_S, I_C, I_S, K_S, e, f and K in this order |
| `KexHash.ExchangeHash` | tclinux_phoenix/apps/public/dropbear-2017.75/common-kex.c:456-640 | one side's buffer from the first field to the hash: the hash of that transcript and the secret; fails exactly for a value out of range or beyond the allowance |
| `KexAgreement.Exchange` | tclinux_phoenix/apps/public/dropbear-2017.75/common-kex.c:285-369 | one side's hash, session id and keys, by the methods, are those the agreement is about; it fails exactly for a value out of range or a transcript or secret beyond its buffer |
| `KexAgreement.FirstHashIsSessionId` | tclinux_phoenix/apps/public/dropbear-2017.75/common-kex.c:285-369 | over any number of exchanges of one side: the session id is the hash of the first, and every key comes from the exchange's own secret and hash and from that id |
| `KexAgreement.SessionsAgree` | tclinux_phoenix/apps/public/dropbear-2017.75/common-kex.c:285-369 | two sides that meet in every exchange of a session hold each other's keys after each of them |
| `KexAgreement.ResultsAgree` | tclinux_phoenix/apps/public/dropbear-2017.75/common-kex.c:252-369 | same choice and matching values: equal secrets, transcripts, hashes and session ids, and keys with directions exchanged |
| `KexAgreement.PeersAgree` | tclinux_phoenix/apps/public/dropbear-2017.75/common-kex.c:456-944 | from tables and private values: same methods, same bytes hashed, same hash and session id, and the client's transmit IV, key, MAC key and algorithms are the server's receive ones, and the reverse |
| `KexHash.TranscriptInjective` | tclinux_phoenix/apps/public/dropbear-2017.75/common-kex.c:471-640 | equal transcripts have equal fields |
| `KexKeys.HashKeys` | tclinux_phoenix/apps/public/dropbear-2017.75/common-kex.c:252-277 | the buffer receives exactly the first outlen bytes of K1 || K2 || ... and nothing behind them |
| `KexKeys.KeyStreamPrefix` | tclinux_phoenix/apps/public/dropbear-2017.75/common-kex.c:264-275 | longer key streams extend shorter ones |
| `KexKeys.KeyStreamBlock` | tclinux_phoenix/apps/public/dropbear-2017.75/common-kex.c:264-275 | block i of the stream is the hash of secret, hash and all blocks before it, block 0 that of letter and session id |
| `KexKeys.GenNewKeys` | tclinux_phoenix/apps/public/dropbear-2017.75/common-kex.c:285-369 | a client transmits with IV A, key C and MAC key E and receives with B, D and F, a server the reverse; the program ends exactly for a secret whose mpint exceeds 532 bytes |
| `KexModel.NewkeysInAnyOrder` | tclinux_phoenix/apps/public/dropbear-2017.75/common-kex.c:123-193 | NEWKEYS sent before or after it is received: the same final state, both new contexts in use and the flags reset; neither direction switches early |
| `KexRun.InitAnswered` | tclinux_phoenix/apps/public/dropbear-2017.75/process-packet.c:87-128 | the server's step on a KEXDH_INIT it does not skip keeps the side's invariant |
| `KexRun.InitSkipped` | tclinux_phoenix/apps/public/dropbear-2017.75/process-packet.c:116-122 | a wrong guess is skipped and the requirement stays |
| `KexRun.InitNotUnderstood` | tclinux_phoenix/apps/public/dropbear-2017.75/process-packet.c:87-114 | one KEXDH_INIT too many is answered with UNIMPLEMENTED and changes nothing else |
| `KexTheorems.HappenKeeps` | tclinux_phoenix/apps/public/dropbear-2017.75/common-kex.c:55-242 | every step of client and server keeps the invariant of the pair |
| `KexTheorems.SameKeysAtBothEnds` | tclinux_phoenix/apps/public/dropbear-2017.75/common-kex.c:123-193 | in every run over any number of exchanges, if the opinions of a guess go together: no side exits, the hash the client computes from its own value is the one the server signed, and each packet is encrypted with the keys its receiver holds when it arrives; with equal opinions no packet is answered with UNIMPLEMENTED |
| `KexTheorems.GoesWellExactly` | tclinux_phoenix/apps/public/dropbear-2017.75/common-kex.c:903-909 | every run goes on and leaves no exchange hanging if and only if there is no guess, both sides judge it alike, or the client repeats with the same method a guess that the server has acted on |
| `KexTheorems.BothWait` | tclinux_phoenix/apps/public/dropbear-2017.75/common-kex.c:949-952 | the client keeps a guess that the server skips: both wait |
| `KexTheorems.OldValueSigned` | tclinux_phoenix/apps/public/dropbear-2017.75/common-kex.c:903-909 | the client repeats the guess for another method with a new value: the reply to the old one is refused |
| `KexTheorems.GatesHold` | tclinux_phoenix/apps/public/dropbear-2017.75/common-kex.c:105-110 | in every run dataallowed is 0 exactly between KEXINIT and NEWKEYS, newkeys exists exactly during an exchange, and the session id is the first exchange hash |
| `KexTheorems.ExchangesComplete` | tclinux_phoenix/apps/public/dropbear-2017.75/common-kex.c:145-158 | whenever nothing is in flight both sides are at rest with matching contexts and the same session id |
| `KexTheorems.SessionIdFixed` | tclinux_phoenix/apps/public/dropbear-2017.75/common-kex.c:789-793 | once set, the session id never changes |
| `KexPeer.NoFault` | tclinux_phoenix/apps/public/dropbear-2017.75/process-packet.c:87-128 | no sequence of packets from any peer makes a side follow a null pointer |
| `KexPeer.EncryptedSinceNewkeys` | tclinux_phoenix/apps/public/dropbear-2017.75/common-kex.c:164-182 | for any peer: a side's packets are encrypted, in its own direction, exactly from its first NEWKEYS on |
| `KexPeer.NoDataInExchange` | tclinux_phoenix/apps/public/dropbear-2017.75/common-kex.c:105-110 | for any peer: between its KEXINIT and its NEWKEYS a side sends nothing of the services |
| `KexPeer.DataOnlyUnderKeys` | tclinux_phoenix/apps/public/dropbear-2017.75/process-packet.c:87-114 | for any peer: packets of the services are taken exactly when the receiving direction has keys and the peer has no exchange under way; otherwise the program ends |
| `KexPeer.KeysChangeOnlySo` | tclinux_phoenix/apps/public/dropbear-2017.75/common-kex.c:123-161 | for any peer: the receiving keys change only with NEWKEYS, to the other half of the sending ones; the sending keys only with KEXDH_INIT on a server and, on a client, with a reply that signs its own value |
| `KexPeer.ReplyExactly` | tclinux_phoenix/apps/public/dropbear-2017.75/common-kex.c:590-640 | a client that waits for a reply takes it if and only if the signed hash is that of its own value and the reply's; otherwise the program ends |
| `KexPeer.NewkeysExactly` | tclinux_phoenix/apps/public/dropbear-2017.75/common-kex.c:185-193 | a side that has sent NEWKEYS takes the peer's: both halves of the keys are then in use and the exchange is over |
| `KexSession.Session.SendMsgKexinit` | tclinux_phoenix/apps/public/dropbear-2017.75/common-kex.c:55-121 | KEXINIT (and a guess) in the old context, data held back, empty new contexts |
| `KexSession.Session.RecvMsgKexinit` | tclinux_phoenix/apps/public/dropbear-2017.75/common-kex.c:456-529 | one's own KEXINIT if it is not out, the wrong guess to be skipped, the next packet required, and the client's KEXDH_INIT unless its guess was right |
| `KexSession.Session.SwitchToNewKeys` | tclinux_phoenix/apps/public/dropbear-2017.75/common-kex.c:123-161 | each direction switches exactly if its NEWKEYS is through and its keys are generated; both reset the exchange; fails exactly outside an exchange |
| `KexSession.Session.SendMsgNewkeys` | tclinux_phoenix/apps/public/dropbear-2017.75/common-kex.c:164-182 | NEWKEYS goes out in the old context, data is allowed, keys are generated and the sending side switches |
| `KexSession.Session.RecvMsgNewkeys` | tclinux_phoenix/apps/public/dropbear-2017.75/common-kex.c:185-193 | the receiving side switches once its keys exist |
| `KexSession.Session.RecvMsgKexdhInit` | tclinux_phoenix/apps/public/dropbear-2017.75/common-kex.c:765-793 | the server's hash, its reply, then NEWKEYS |
| `KexSession.Session.RecvMsgKexdhReply` | tclinux_phoenix/apps/public/dropbear-2017.75/common-kex.c:590-640 | the client's own hash must be the signed one; then NEWKEYS, and the value is used up |
| `KexSession.Session.ProcessPacket` | tclinux_phoenix/apps/public/dropbear-2017.75/process-packet.c:87-128 | the requirement, UNIMPLEMENTED, the skipped packet and the handlers, in the order of process_packet; the program ends exactly where the model exits |
| `KexSession.Session.Kexinitialise` | tclinux_phoenix/apps/public/dropbear-2017.75/common-kex.c:222-242 | the four flags of an exchange and both first_packet_follows flags are cleared |

## Left out

- The elliptic-curve group: that one step doubles and adds is proved (`Montgomery`), that points form a group, so that the whole ladder is a scalar multiple, is not. Primality and Fermat's theorem are hypotheses where used (`Projective.Fermat`, `DssMath.Fermat`).
- Constant-time behaviour of the arithmetic.
- Left shifts of negative limbs are modelled as multiplication, right shifts of signed numbers as division rounding down, as the source's own preprocessor tests demand.
- Projective.LeadingZero: takes Fermat's theorem for 2^255 - 19 as a hypothesis, because its proof is number theory outside the program.
- Curve25519.DonnaIsX25519: the same hypothesis.
- GenDss.GetG: looks at a given number of rounds; the program loops without a bound.
- GenDss.GetP: random buffers come as a finite supply; None stands for going on.
- getq and gen_random_mpint: library primality search and the range 0 < k < q, which is a precondition of signing.
- libtommath, libtomcrypt, hashes and ciphers: exact integers, an arbitrary hash function, contexts named by what they are derived from.
- encrypt_packet and process_packet beyond requirenext and ignorenext: a list of packets with their contexts.
- ECDSA, ECDH and the curve25519 variant of the exchange hash: their key agreement rests on the group law.
- read_kex_algos is modelled by what it selects from each list; the walk over the payload is the parsing function `KexInit.ReadLists`, and languages and the reserved field are not kept.
- KexSession.Session.RecvMsgKexinit: includes the step of cli_sessionloop that follows at once; cli_ses.kex_state, which adds one more exit for an early KEXDH_REPLY, is not kept.
- The rekey with the "none" cipher after authentication (cli-session.c, compiled out) starts an exchange without looking at sentkexinit and is not a step of the model.
- KexTheorems.SameKeysAtBothEnds: a hash is named by the two exchange values it binds, as `KexHash.TranscriptInjective` allows; that a signature of another hash is refused is taken from the signature scheme.
- Server session channels' own check_close is an arbitrary answer, in each of the two calls of check_close; channels before confirmation (in-progress connects) and read_mangler are not modelled.
- remove_channel frees its buffers; the object keeps their last contents for reference.
- Channel.Endpoint.constructor: the descriptors and extrabuf that the channel type's handler sets after newchannel are arguments.
- ChannelLoss.LossExactly: leaves aside channels whose packet limits are 0 or whose descriptors the type has not set.
- ChannelFinish.DoneIsRemoved: runs of types without their own check_close; for the server's sessions, whose answers are arbitrary, `ChannelFinish.CheckCloseFinishes` says what each call brings about.
- ChannelFinish.RemovedExactly: both ends have a read and a write descriptor and none for extended data.
- dropbear_assert, which is compiled out: what common-channel.c asserts of recvwindow holds in every run of two endpoints (`ChannelTheorems.WindowLaw`, `ChannelTheorems.NeverOversized`) and is not claimed for any peer.
- Channel requests, opening messages, priorities, keepalive and idle timers.
- buf_eatstring, buf_getstringbuf, buf_burn, private DSS keys and RSA keys: easy next to what is here.
- zlib, which the configuration disables.
