# A verified model of the firmware update: signer, updater, bootloader

The repository updates the firmware of an STM32F446RE over a serial line. A signer stamps version and
length into an image and appends an AES-128 CBC-MAC to its info block; an updater sends the image in
16-byte chunks; a bootloader erases the application's flash sectors, programs the chunks, checks the MAC
and jumps into the application or resets. This project models that chain and proves what it is for.

The model follows the programs in their own form. The C routines that work in place on buffers, the ring,
the timer, the packet engine, the flash driver, the bootloader's main loop, and the updater's script are
arrays, classes and methods; each is proved equal to a function on values. The theorems about runs are
proved of those functions.

| files | what they hold |
|---|---|
| `GaloisField`, `Columns`, `AesTables`, `Aes`, `AesInPlace`, `KeySchedule` | AES-128 over GF(2^8), in place and as functions (FIPS 197, sections 4.2, 5.1, 5.2, 5.3) |
| `CbcMac`, `LittleEndian`, `Image`, `MacLoop`, `Validation`, `Tampering`, `Verdicts` | the MAC over the image in flash (CBC of NIST SP 800-38A, section 6.2), the loop that computes it in 32-bit arithmetic, and what it detects |
| `Signer`, `SigningAgreement`, `CipherSample`, `FullBlocks` | the signing script, with OpenSSL as CBC with the padding of RFC 5652, section 6.3, its agreement with the device, and images on which the two disagree |
| `Crc8`, `CrcPolynomial`, `CrcDetection` | CRC-8 as a remainder of polynomials over GF(2), and the errors that it detects |
| `RingBuffer`, `RingInterleaving` | the byte ring, and the ring when reader and interrupt handler interleave at single loads and stores |
| `SimpleTimer` | one-shot and periodic timers |
| `Packets`, `Link`, `Framing`, `FrameChecks`, `Comms` | packets, the packet engine as a value, what it makes of streams and of damaged frames, and the engine as it runs |
| `UpdateMachine`, `UpdateCases`, `BlFlash`, `Bootloader` | the main loop as a value, the flash driver, and the main loop as it runs |
| `UpdateRuns`, `FlashAudit`, `UpdateSafety`, `UpdateOutcome`, `UpdateReports`, `UpdateTermination`, `DeviceRuns`, `SyncPhase` | all runs of the main loop, whatever is received |
| `Host`, `Updater` | the updater as a value and as it runs |
| `Transfer`, `TransferDevice`, `Exchanges`, `FrameSession`, `SessionPhases`, `SessionSteps`, `SessionMain`, `SessionLost`, `SessionRuns` | bootloader and updater together, frame by frame, under damage to frames |
| `LineSession`, `LineRuns`, `TransferRuns` | the same byte by byte, and the theorems about whole transfers |
| `LoopSession`, `LoopRuns`, `LoopTransfers`, `EndToEnd` | the same with the main loop in whole turns and its deadlines in force, from power-up to the jump |
| `Retransmission`, `NoisySession` | what a retransmission can make up for, and runs in which it does not |

The main results, in the order in which they build on each other:

1. The block cipher is invertible for every key schedule, so it is injective; so CBC chaining is injective in
   each block; so the device rejects every image that differs from an accepted one in one authenticated block, with
   the length field kept, or in the signature (`EndToEnd.DeviceRejectsChangedBlock`,
   `Tampering.ChangedSignatureRejected`). The length field cannot be dropped from this: a block is proof against
   every change if and only if it is not the info block (`Tampering.ProtectsExactlyWhen`).
2. The device accepts a signed image exactly when it carries the sentinel and the device id and either ends
   in a partial block or its MAC is a fixed point of one more encryption (`SigningAgreement.SignedAccepted`).
   The second case does fail: every image of full blocks can be given a last block with which the device
   rejects it after signing (`FullBlocks.SomeSignedImageIsRejected`).
3. Whatever bytes arrive and whenever: one erase, only after the handshake; contiguous, disjoint
   writes inside the erased sectors; UPDATE_SUCCESSFUL only with a complete, genuine image in flash, and
   then the jump; and a device that has left its loop has sent UPDATE_SUCCESSFUL or NACK last, as that is so or not.
   The main loop is left within a bounded number of turns at which the clock has advanced, with two
   exceptions that are given exactly: it stops at a breakpoint when a packet arrives at a full packet ring, and it
   hangs if and only if all of an announced image is in flash whose length field keeps the check from ending
   (`FlashAudit`, `UpdateSafety`, `UpdateOutcome`,
   `UpdateReports`, `UpdateTermination`, `DeviceRuns`). The main loop on its static variables makes exactly the run that
   its input determines (`Bootloader.PowerUp`).
4. Bootloader and updater on one line, in every interleaving, with any finite number of damaged command and
   data frames: for every image that can be transferred, each frame is queued once and in order, the packet
   ring never overflows, the flash always holds a prefix of the image, and the transfer ends; and
   UPDATE_SUCCESSFUL is sent exactly for images that can be transferred and are genuine (`TransferRuns`).
   Which images can be transferred is a condition on the image alone (`Transfer.Transferable`), and exactly
   the one under which the device takes every frame for what it is (`Transfer.TransferableExactlyWhen`). With any
   other image, a transfer that has come to a standstill has left the flash as it was, or has programmed all but the
   last chunk; and if the device has refused, the updater has given up (`TransferRuns.UntransferableEnds`).
   All of this holds of the main loop in whole turns, with the bootloader's deadlines in force, as long as
   every turn comes less than 5000 ticks after the timer was last armed (`LoopTransfers`).
5. Signing and transferring compose: from power-up on, every updatable image ends up in flash byte for byte,
   with UPDATE_SUCCESSFUL and the jump (`EndToEnd.SignedImageIsInstalled`).
6. A retransmission makes up for a damaged frame if and only if the frame that the sender repeats is as good as
   the damaged one (`Retransmission.MadeUpExactlyWhen`). This is why result 4 is about commands and data, and
   there are runs in which one damaged acknowledgement, or one damaged frame of the bootloader, ends the update of
   any transferable image (`NoisySession`).

Some statements hold on other domains than the repository's documents suggest; the code decides:

- The device pads only a partial last block, although `README.md:271` speaks of PKCS-style padding
  throughout. OpenSSL also pads a full one, so an image whose length is a multiple of 16 is signed with one more
  encryption than the device computes.
- The length byte of a data packet is the number of bytes less one, and the device refuses 0: an image with
  a single byte in its last chunk is never completed.
- A last chunk of the two bytes 0x15 0xff or 0x19 0xff is byte for byte an ACK or a RETX packet, and is lost.
- Retransmission repeats whatever was sent last, which need not be what was lost. A lost control packet is made up for
  by any control packet, a lost command or data frame only by itself with no other one sent since. The updater
  waits after each command and chunk, but neither side waits after an acknowledgement, and the bootloader sends
  several frames in a row.
- The length is under the MAC, but it also decides how much else is: of two images that differ in nothing but one
  byte of the length field, both can be accepted (`Tampering.LengthChangeAccepted`).
- A length field above 0xfffffff0 makes the 32-bit offset of the check skip past the end and run for ever: in the
  main loop, after an update; and after the main loop, in a device that gives up before the erase with such an
  image in flash.
- The packet ring and the byte ring wrap their indices by masking, which is right only for sizes that are powers
  of two; nothing checks that they are.

## Model

| member | source | states |
|---|---|---|
| GaloisField.GfMult | bootloader/src/aes.c:6-36 | the shift-and-reduce loop computes the product `Mul` |
| GaloisField.MulDistributes | bootloader/src/aes.c:6-36 | the product distributes over xor on both sides |
| GaloisField.MulIsTheOnlyProduct | bootloader/src/aes.c:6-36 | any operation with a unit that is additive and commutes with multiplication by x modulo x^8+x^4+x^3+x+1 is this product |
| GaloisField.MulCommutes | bootloader/src/aes.c:6-36 | the product is commutative |
| GaloisField.MulAssociates | bootloader/src/aes.c:6-36 | the product is associative |
| Columns.InvMixInvertsMix | bootloader/src/aes.c:225-249 | the inverse coefficient matrix undoes the forward one on every column |
| Columns.MixInvertsInvMix | bootloader/src/aes.c:225-249 | and the other way round |
| AesTables.TablesInvert | bootloader/src/aes.c:45-86 | the decryption table inverts the encryption table and vice versa, on all 256 entries |
| AesTables.EntryIsSbox | bootloader/src/aes.c:45-64 | every entry is the affine image of the field inverse, as FIPS 197 section 5.1.1 defines the S-box |
| AesTables.InverseExists | bootloader/src/aes.c:45-64 | every nonzero byte has an inverse in the field |
| AesInPlace.DoSubBytes | bootloader/src/aes.c:144-152 | the in-place loop substitutes every byte of the block |
| AesInPlace.DoShiftRows | bootloader/src/aes.c:162-193 | the byte moves rotate row r by r places |
| AesInPlace.DoInvShiftRows | bootloader/src/aes.c:195-223 | the byte moves rotate row r back |
| AesInPlace.DoMixColumns | bootloader/src/aes.c:225-236 | the loop over columns multiplies each by the circulant matrix |
| AesInPlace.DoInvMixColumns | bootloader/src/aes.c:238-249 | the same for the inverse matrix |
| AesInPlace.DoAddRoundKey | bootloader/src/aes.c:251-257 | the loop adds the round key to the block and leaves the schedule alone |
| AesInPlace.EncryptBlock | bootloader/src/aes.c:259-278 | the loop with its moving key pointer refines the Cipher of FIPS 197 |
| AesInPlace.DecryptBlock | bootloader/src/aes.c:280-298 | the loop, whose rounds are cut differently, refines the InvCipher of FIPS 197 |
| Aes.DecryptInvertsEncrypt | bootloader/src/aes.c:259-298 | decryption undoes encryption for every block and every eleven round keys |
| Aes.EncryptInvertsDecrypt | bootloader/src/aes.c:259-298 | encryption undoes decryption likewise |
| CipherSample.SampleIs | bootloader/src/aes.c:259-278 | a known answer: the sixteen bytes of the device's ciphertext of the block of bytes 0x10, under the compiled-in key |
| KeySchedule.KeySchedule128 | bootloader/src/aes.c:101-134 | the loop with its moving pointers and its in-place column fills in the expanded key |
| KeySchedule.DoNextRoundKey | bootloader/src/aes.c:116-133 | one turn of that loop writes the next round key and its last column |
| KeySchedule.ScheduleStartsWithKey | bootloader/src/aes.c:105-106 | the first four words are the key |
| KeySchedule.ScheduleRecurrence | bootloader/src/aes.c:116-133 | the 44 words satisfy the recurrence of FIPS 197 section 5.2 |
| KeySchedule.RoundKeyDeterminesKey | bootloader/src/aes.c:101-134 | the key can be computed from any one round key and its index |
| KeySchedule.ScheduleInjective | bootloader/src/aes.c:101-134 | two keys with one round key in common are equal |
| CbcMac.MacOfFirst | bootloader/src/bootloader.c:184-189 | the first block is encrypted as it is: chaining starts from zeros |
| CbcMac.MacOfSnoc | bootloader/src/bootloader.c:142-152 | every further block is added to the chaining value and encrypted |
| CbcMac.PaddingComesOff | fw-signer/main.py:69-70 | the padding of RFC 5652: the last byte tells how many bytes to take off to get the message back, and all of those are like it |
| CbcMac.MacInjectiveInStart | bootloader/src/bootloader.c:142-152 | with an injective cipher, chaining is injective in the starting value, through any number of blocks |
| CbcMac.MacInjectiveInBlock | bootloader/src/bootloader.c:142-152 | and in any one block |
| CbcMac.MacDetectsOneBlock | bootloader/src/bootloader.c:142-152 | messages that differ in exactly one block have different MACs |
| Image.BlocksPrefixFree | bootloader/src/bootloader.c:184-226 | the MAC blocks of one image are never a proper prefix of those of another, and equal ones mean equal authenticated bytes |
| Image.BlocksDetermineImage | bootloader/src/bootloader.c:184-226 | two images have the same MAC blocks if and only if they have the same bytes outside the signature slot |
| MacLoop.MacOfNextBlock | bootloader/src/bootloader.c:200-205 | a whole block chained at an offset gives the MAC up to the next offset |
| MacLoop.MacOfLastBlock | bootloader/src/bootloader.c:206-224 | the padded last block gives the MAC of the image |
| MacLoop.MacOfSkipped | bootloader/src/bootloader.c:193-197 | skipping info block and signature slot loses nothing of the message |
| MacLoop.LoopEndsExactlyWhen | bootloader/src/bootloader.c:190-226 | in 32-bit arithmetic the loop reaches the end if and only if the length field is at most 0xfffffff0 |
| Validation.AesCbcMacStep | bootloader/src/bootloader.c:142-152 | one chaining step in place leaves the next chaining value in both buffers |
| Validation.AbsorbImage | bootloader/src/bootloader.c:190-226 | followed for any number of turns, the loop has ended if and only if its offset has reached the length by then, and it then holds the recursive CBC-MAC over info, image without info and signature, and padding |
| Validation.ValidateFwImage | bootloader/src/bootloader.c:154-228 | the check ends at once without sentinel and device id, and otherwise when its loop does, followed for any number of turns; it then returns true if and only if sentinel, device id and MAC are right |
| Validation.DeviceCipherInjective | bootloader/src/bootloader.c:55-60 | the cipher under the compiled-in key is injective |
| Validation.EncryptWithDeviceKey | bootloader/src/bootloader.c:142-182 | expanding the compiled-in key and encrypting a buffer in place leave the device's cipher of the block in it |
| Tampering.ChangedBlockRejected | bootloader/src/bootloader.c:142-228 | an accepted image with bytes changed inside one authenticated block, and the length field kept, is rejected |
| Tampering.LengthChangeAccepted | bootloader/src/bootloader.c:184-228 | for every cipher there are two accepted images that differ in one byte of the length field and nowhere else |
| Tampering.ProtectsExactlyWhen | bootloader/src/bootloader.c:142-228 | every change within the block at an offset is rejected in every accepted image if and only if it is not the info block |
| Tampering.ChangedSignatureRejected | bootloader/src/bootloader.c:227 | an accepted image with another signature is rejected |
| Verdicts.VerdictIsAcceptance | bootloader/src/bootloader.c:154-228 | the three-valued verdict is genuine if and only if the image is accepted and the loop ends, and endless only if it does not end |
| Verdicts.Validator.Check | bootloader/src/bootloader.c:154-228 | the check of the image in flash yields the device's verdict |
| Signer.SignFirmware | fw-signer/main.py:46-85 | the script patches version and length, signs the reordered image with the last CBC block and splices it in, and fails exactly if a field or a position is out of range |
| Signer.LastBlockIsMac | fw-signer/main.py:64-72 | the last block of the CBC ciphertext is the MAC |
| SigningAgreement.SignedInfo | fw-signer/main.py:48-49 | the device reads back from a signed image the length, version, sentinel and device id that went in |
| SigningAgreement.SignedByte | fw-signer/main.py:46-85 | signing changes no byte outside the version, the length and the signature |
| SigningAgreement.SplicedMessage | fw-signer/main.py:51-53 | the device authenticates exactly the bytes that the signer signed, in the same order |
| SigningAgreement.SignatureFromDeviceMac | fw-signer/main.py:51-72 | the signature is the device's MAC if the image ends in a partial block, and otherwise the encryption of that MAC xor sixteen 0x10 bytes |
| SigningAgreement.SignedAccepted | bootloader/src/bootloader.c:154-228 | the device accepts a signed image if and only if it carries sentinel and id and either ends in a partial block or has a fixed-point MAC |
| CipherSample.SampleIsNotZero | bootloader/src/bootloader.c:55-60 | the device's cipher, evaluated round by round on the block of bytes 0x10, does not give the zero block |
| FullBlocks.AnyMacOccurs | fw-signer/main.py:51-72 | an image of full blocks can be given any MAC by its last block |
| FullBlocks.SomeSignedImageIsRejected | bootloader/src/bootloader.c:206-228 | of the images of full blocks that agree up to the last block, whatever they carry, one at least is rejected by the device after signing, in every memory |
| Crc8.Crc8Compute | shared/src/core/crc.c:11-34 | the nested loops compute the recursive CRC |
| Crc8.HostCrc8 | fw-updater/index.ts:101-120 | the updater's loop over masked numbers computes the same CRC |
| CrcPolynomial.CrcIsRemainder | shared/src/core/crc.c:11-34 | the CRC is the one byte that is the remainder of message times x^8 modulo x^8+x^2+x+1, for every length |
| CrcDetection.ResidueOfFrame | shared/src/core/crc.c:11-34 | a frame checks if and only if the CRC over all of it is 0 |
| CrcDetection.UndetectedExactlyWhen | bootloader/src/comms.c:139-141 | an error passes the check if and only if its own pattern leaves the register at 0 (xor-linearity) |
| CrcDetection.DetectsOddErrors | shared/src/core/crc.c:11-34 | every odd number of flipped bits is detected |
| CrcDetection.DetectsBursts | shared/src/core/crc.c:11-34 | every burst of at most 8 bits is detected |
| CrcDetection.DetectsTwoFlips | shared/src/core/crc.c:11-34 | two flipped bits are detected if and only if their distance is not a multiple of 127 |
| CrcDetection.CorruptedFrameFails | bootloader/src/comms.c:139-180 | a frame with such an error fails the check at the receiver |
| FrameChecks.WellFormedExactlyWhen | bootloader/src/comms.c:213-216 | a packet carries its CRC if and only if the whole frame on the wire, length byte, data and CRC, leaves a CRC of 0 |
| FrameChecks.AckOnTheWire | fw-updater/index.ts:199 | a known frame: the eighteen bytes of the acknowledgement |
| FrameChecks.FramesStart | bootloader/inc/comms.h:12-25 | the first bytes of every other frame of one byte |
| FrameChecks.SingleByteExactlyWhen | bootloader/src/comms.c:49-73 | a well-formed packet is recognised as the packet of one byte if and only if it is the one that is built for that byte |
| FrameChecks.DeviceIdExactlyWhen | bootloader/src/bootloader.c:78-92 | the device id packets recognised are those that the updater builds, and the one that names this device carries 0x42 |
| FrameChecks.LengthExactlyWhen | bootloader/src/bootloader.c:94-107 | the length packets recognised are those that the updater builds, and announce their four bytes in little-endian order |
| FrameChecks.DamagedExactlyWhen | bootloader/src/comms.c:139-141 | a frame hit by an error arrives as a well-formed packet if and only if the error's own pattern leaves the register at 0, which no odd number of flips, no burst of 8 bits and no two flips at a distance that is no multiple of 127 do |
| FrameChecks.DeviceAsksAgain | bootloader/src/comms.c:113-187 | the device does not queue a frame with such an error, and sends one RETX |
| FrameChecks.UpdaterAsksAgain | fw-updater/index.ts:358-385 | the updater neither |
| FrameChecks.FullRingHaltsExactlyWhen | bootloader/src/comms.c:161-168 | the engine stops at its breakpoint if and only if a well-formed packet other than ACK and RETX completes while seven packets wait, and has then neither queued nor acknowledged it |
| RingBuffer.MaskedNext | shared/src/core/ring-buffer.c:21 | masking with size - 1 wraps an index around, for every power of two |
| RingBuffer.MaskWrapsExactlyWhen | shared/src/core/ring-buffer.c:6-21 | it does so for all indices if and only if the size is a power of two |
| RingBuffer.Ring.Setup | shared/src/core/ring-buffer.c:3-9 | both indices 0 and the mask size - 1 in 32 bits; an empty, working ring if and only if the size is a power of two |
| RingBuffer.Ring.IsEmpty | shared/src/core/ring-buffer.c:11-14 | true if and only if the queue is empty |
| RingBuffer.Ring.Write | shared/src/core/ring-buffer.c:16-30 | appends the byte unless size - 1 bytes wait, and otherwise changes nothing |
| RingBuffer.Ring.Read | shared/src/core/ring-buffer.c:32-43 | takes the oldest byte, if there is one |
| RingBuffer.UartRead | shared/src/core/uart.c:165-186 | copies the oldest bytes in order, as many as asked for or as there are |
| RingInterleaving.RingIsFifo | shared/src/core/ring-buffer.c:16-43 | under every interleaving of single loads and stores, the outcomes of all calls are those of one FIFO of capacity size - 1 |
| RingInterleaving.RingConserves | shared/src/core/uart.c:43-67 | at every moment, bytes accepted are bytes delivered followed by bytes in the ring |
| RingInterleaving.AvailableUntilRead | shared/src/core/uart.c:211-214 | once the availability check has said yes, there is a byte until the reader takes one, and no read finds the ring empty, whatever the interrupt handler does in between |
| SimpleTimer.Timer.Init | shared/src/core/simple-timer.c:19-25 | arms the timer one waiting time ahead |
| SimpleTimer.Timer.HasElapsed | shared/src/core/simple-timer.c:44-63 | reports an expired deadline once and moves a periodic deadline on without drift |
| SimpleTimer.Timer.Rearm | shared/src/core/simple-timer.c:74-77 | arms the timer again |
| SimpleTimer.OneShotFiresOnce | shared/src/core/simple-timer.c:44-63 | a one-shot timer fires at its first check at or after the deadline and at no other |
| SimpleTimer.PeriodicTarget | shared/src/core/simple-timer.c:53-57 | after n firings the deadline is the first one plus n waiting times, however late the checks |
| SimpleTimer.FiresBeforeWrapExactlyWhen | shared/src/core/system.c:13-21 | a one-shot timer can fire before the 32-bit tick counter wraps if and only if its deadline fits |
| Comms.IsSingleBytePacket | bootloader/src/comms.c:49-65 | recognises exactly the canonical single-byte packet |
| Comms.CreateSingleBytePacket | bootloader/src/comms.c:67-73 | builds it, with its CRC |
| Comms.Comms.Setup | bootloader/src/comms.c:87-109 | the initial state of the engine |
| Comms.Comms.SendPacket | bootloader/src/comms.c:194-199 | sends and remembers the packet |
| Comms.Comms.ReceivePacket | bootloader/src/comms.c:201-210 | takes the oldest packet from the ring, and stops at the breakpoint if there is none |
| Comms.Comms.StorePacket | bootloader/src/comms.c:161-168 | appends to the packet ring unless that would overwrite an unread packet |
| Comms.Comms.DispatchPacket | bootloader/src/comms.c:137-181 | ACK, RETX, queueing with acknowledgement, breakpoint and CRC error, as the value-level engine has them |
| Comms.Comms.Update | bootloader/src/comms.c:113-187 | the loop over the waiting bytes refines feeding them one by one to the value-level engine |
| Link.FeedKeepsWellFormed | bootloader/src/comms.c:139-172 | only packets that carry their CRC are ever queued |
| Link.SplittingIsInvisible | bootloader/src/comms.c:113-187 | however a byte stream is split into calls, queue, transmissions and parser state come out the same |
| Framing.FeedFrame | bootloader/src/comms.c:113-187 | a whole frame, from a parser between frames, is handled as that packet |
| Framing.ParsesStream | bootloader/src/comms.c:137-182 | a stream of well-formed packets is parsed into exactly its non-control packets in order, with the right replies, and ends between frames |
| BlFlash.EraseMainApplication | bootloader/src/bl-flash.c:7-13 | the loop over sectors 2 to 7 blanks exactly the application's sectors |
| BlFlash.SectorsOfApplication | bootloader/src/bl-flash.c:4-5 | those sectors begin behind the bootloader's 32 KB and end at 512 KB |
| BlFlash.Write | bootloader/src/bl-flash.c:15-20 | programming clears bits in the given cells and touches no other |
| BlFlash.ProgrammingClears | bootloader/src/bl-flash.c:15-20 | a programmed cell keeps of its old bits those of the new byte, so that a blank cell takes the byte and no bit is ever set |
| Bootloader.CheckDeviceIdPacket | bootloader/src/bootloader.c:78-92 | recognises exactly the device id packets, of any id |
| Bootloader.CheckFwLengthPacket | bootloader/src/bootloader.c:94-107 | recognises exactly the length packets |
| Bootloader.Bootloader.Setup | bootloader/src/bootloader.c:304-309 | the state before the main loop, with the timer armed |
| Bootloader.Bootloader.BootloadingFailed | bootloader/src/bootloader.c:63-68 | NACK, and DONE |
| Bootloader.Bootloader.CheckForTimeout | bootloader/src/bootloader.c:70-76 | fails if and only if the deadline has passed |
| Bootloader.Bootloader.Synchronise | bootloader/src/bootloader.c:313-351 | the turn in SYNC: one byte, the shift register, the flush on a match |
| Bootloader.Bootloader.AwaitUpdateRequest | bootloader/src/bootloader.c:356-381 | the case of the update request |
| Bootloader.Bootloader.RequestDeviceId | bootloader/src/bootloader.c:382-389 | the case that asks for the device id |
| Bootloader.Bootloader.AwaitDeviceId | bootloader/src/bootloader.c:390-412 | the case of the device id |
| Bootloader.Bootloader.RequestLength | bootloader/src/bootloader.c:413-419 | the case that asks for the length |
| Bootloader.Bootloader.AwaitLength | bootloader/src/bootloader.c:420-452 | the case of the length, with the bound |
| Bootloader.Bootloader.EraseFlash | bootloader/src/bootloader.c:453-462 | the erase |
| Bootloader.Bootloader.AwaitChunk | bootloader/src/bootloader.c:463-512 | the case of a chunk: length rule, programming, completion, verdict |
| Bootloader.Bootloader.OnReceive | shared/src/core/uart.c:43-67 | a received byte is stored unless the ring is full |
| Bootloader.Bootloader.OnReceiveAll | shared/src/core/uart.c:43-67 | of the bytes received between turns, as many as find room are in the ring, in order |
| Bootloader.Bootloader.Iterate | bootloader/src/bootloader.c:311-521 | one turn of the main loop on the static variables refines one turn of the value-level machine |
| Bootloader.Bootloader.RunMain | bootloader/src/bootloader.c:304-539 | the main loop and what follows it refine the run of that machine that the inputs make: the bytes that find room and the turns, in order, up to the turn with which the loop ends; and end with its jump or reset |
| Bootloader.NothingIsLost | shared/src/core/uart.c:43-67 | as long as each batch of bytes finds room in the ring, that run has every byte received and every turn |
| Bootloader.PowerUp | bootloader/src/bootloader.c:304-541 | the device with its compiled-in key, from power-up: its flash is that of the run that its inputs make, it stops taking inputs only when it has left its loop or stands still, and if it leaves its loop, it jumps if and only if its own cipher accepts the image in flash and the check ends |
| UpdateRuns.RankNeverFalls | bootloader/src/bootloader.c:311-521 | the rank of the state never decreases in any run |
| UpdateRuns.SwitchRank | bootloader/src/bootloader.c:513-516 | no turn reaches the default label |
| FlashAudit.ErasedOnceAfterHandshake | bootloader/src/bootloader.c:390-455 | an audited log has its one erase right after update request, matching device id and fitting length |
| FlashAudit.WriteIsContiguous | bootloader/src/bootloader.c:471-474 | every write starts where the last one ended, ends at most 15 bytes after max(length, 1), and stays inside the erased sectors |
| FlashAudit.WritesAreDisjoint | bootloader/src/bootloader.c:471-472 | no byte is programmed twice |
| UpdateSafety.EveryRunPassesAudit | bootloader/src/bootloader.c:311-521 | the log of every run, whatever was received, passes that audit |
| UpdateOutcome.FlashHoldsPayload | bootloader/src/bootloader.c:453-474 | in every run the flash is untouched, or holds exactly the programmed bytes from its start and blanks after them |
| UpdateOutcome.EveryRunReportsTruly | bootloader/src/bootloader.c:474-495 | in every run, success is reported at the end if and only if the announced image is complete and genuine, and never before |
| UpdateOutcome.SuccessMeansJump | bootloader/src/bootloader.c:484-541 | a run that sent UPDATE_SUCCESSFUL takes the jump |
| UpdateReports.EveryEndIsReported | bootloader/src/bootloader.c:63-68 | in every run that has left the loop, the last packet sent is UPDATE_SUCCESSFUL if the announced image is complete and genuine, and NACK otherwise |
| UpdateReports.DeadlineTurn | bootloader/src/bootloader.c:70-76 | a turn of any run that finds no packet, or no byte in SYNC, sends exactly one NACK and ends the loop if its time is at or after the deadline, and otherwise does nothing |
| UpdateReports.TurnArmsExactlyWhen | bootloader/src/bootloader.c:311-521 | a turn that goes on arms the timer for 5000 ticks from its time if and only if it changes the state or takes or writes anything |
| UpdateReports.SyncObservedExactlyWhen | bootloader/src/bootloader.c:313-343 | a turn in SYNC that reads a byte goes on if and only if this byte and the three before it are c4 55 7e 10, whatever came before; it then sends SYNC_OBSERVED and drops the bytes that wait |
| UpdateReports.PacketTakenExactlyWhen | bootloader/src/bootloader.c:356-512 | a turn that finds a packet goes on in the protocol if and only if it is the one awaited, given field by field, and otherwise sends NACK and ends the loop, with the flash as it was; a chunk with length byte n puts its first n mod 16 + 1 bytes into the log |
| UpdateTermination.TurnPays | bootloader/src/bootloader.c:311-521 | every turn at which the clock has advanced uses up part of a bounded potential or ends the loop |
| UpdateOutcome.EveryRunStopsTruly | bootloader/src/bootloader.c:474-495 | every run hangs in the check if and only if all of an announced image is in flash whose verdict is endless, and stops at the breakpoint only with a full packet ring |
| UpdateTermination.RunsEnd | bootloader/src/bootloader.c:309-521 | with a clock that neither goes back nor wraps, within a fixed number of advances every run has left the loop, or has stopped at a full packet ring, or has a complete image with an endless check in flash; and it hangs if and only if the last is so |
| DeviceRuns.DeviceRunsEnd | bootloader/src/bootloader.c:309-521 | for the device's own check: the runs that hang are those with a complete image that carries sentinel and device id and whose length no offset of the loop reaches |
| DeviceRuns.DeviceGoesOn | bootloader/src/bootloader.c:535-541 | a device that has left its loop jumps if and only if it accepts the image and its check ends, and hangs if and only if it does not end, which happens only without a completed update |
| UpdateTermination.ArmedAtMost | bootloader/src/bootloader.c:309-521 | the timer is armed at most 8 + max(1, announced length) times |
| SyncPhase.SyncMakesReady | bootloader/src/bootloader.c:313-351 | a run from power-up that observes the sync sequence is in the state from which the transfer theorems start, with its timer armed at that turn |
| SyncPhase.SyncIsObserved | bootloader/src/bootloader.c:313-351 | four turns before the deadline observe a sync sequence that is the first thing received |
| Host.EventsMerge | fw-updater/index.ts:358-409 | however the received bytes are split, into any number of events, the outcome is that of one event |
| Host.MainFailsExactlyWhen | fw-updater/index.ts:434-454 | where main waits for one byte, it gives up and writes nothing if and only if the packet has another length byte or another first byte; otherwise it writes one packet, except after the response to its request, and goes on |
| Host.MainSucceedsExactlyWhen | fw-updater/index.ts:594-606 | main succeeds on the packet of the one byte 0x54 with its filling, and gives up on any other |
| Updater.NewPacket | fw-updater/index.ts:208-224 | the constructor fills up with 0xff and computes the CRC |
| Updater.Updater.WritePacket | fw-updater/index.ts:305-308 | writes the frame and remembers it |
| Updater.Updater.ConsumeFromBuffer | fw-updater/index.ts:329-333 | splits the first bytes off the buffer, or all of it if it is shorter |
| Updater.Updater.HandlePacket | fw-updater/index.ts:376-407 | CRC mismatch, RETX, ACK, and queueing with acknowledgement |
| Updater.Updater.ReceiveData | fw-updater/index.ts:358-409 | the handler's loop over complete frames refines the recursive one |
| Updater.Updater.StartUpdate | fw-updater/index.ts:523-531 | the empty buffer and the update request |
| Updater.Updater.SendChunk | fw-updater/index.ts:571-578 | one turn of the transfer loop |
| Updater.Updater.Wake | fw-updater/index.ts:531-606 | main, from one await to the next, as the value-level host has it |
| Transfer.TransferableExactlyWhen | fw-updater/index.ts:539-576 | an image is transferable if and only if the device takes every frame that the updater makes of it for what it is |
| Transfer.TransferableMeans | fw-updater/index.ts:539-576 | the same condition byte by byte: 0x42 at 0x1b4, at most 0x38000 bytes, no single byte in the last chunk, and not 0x15 0xff or 0x19 0xff alone |
| Transfer.ChunkSizeReadBack | bootloader/src/bootloader.c:468-472 | the device reads the size of a chunk back from the length byte that the updater sends |
| TransferDevice.TakeRequest | bootloader/src/bootloader.c:358-368 | taking the update request leads to the next stage of the transfer |
| TransferDevice.TakeDeviceId | bootloader/src/bootloader.c:392-399 | taking the device id does |
| TransferDevice.TakeLength | bootloader/src/bootloader.c:422-434 | taking the length does |
| TransferDevice.TakeChunk | bootloader/src/bootloader.c:465-500 | taking a chunk extends the prefix of the image in flash by exactly that chunk |
| TransferDevice.TakeLastChunk | bootloader/src/bootloader.c:474-494 | taking the last chunk completes the image, and the device reports its verdict |
| SessionRuns.StepAdvances | bootloader/src/comms.c:137-182 | each step of the two machines together, frame by frame, keeps the session in its protocol and brings the end nearer, or loses an image that cannot be transferred |
| SessionLost.StepLost | bootloader/src/bootloader.c:463-512 | a session that has been refused, with the NACK on its way to the updater or heard by it, or that waits for a chunk taken for a control packet, stays so |
| LineRuns.LineAdvances | fw-updater/index.ts:358-409 | each step on the byte level is, or prepares, a step on the frame level |
| TransferRuns.QueuedOnceInOrder | bootloader/src/comms.c:137-182 | with any finite number of damaged command and data frames, in every interleaving, all frames are queued at the device once and in order, the ring never overflows, and the flash holds a prefix of the image |
| TransferRuns.SuccessOnlyIf | bootloader/src/bootloader.c:463-512 | for every image, success is only reported if the image was transferable, is in flash byte for byte, and is genuine |
| TransferRuns.StandstillIsTheEnd | fw-updater/index.ts:529-606 | a transfer that has come to a standstill has the whole image in flash, and both sides agree on the verdict |
| TransferRuns.UntransferableEnds | fw-updater/index.ts:434-454 | a transfer of any other image that has come to a standstill: refused with NACK as the last packet, the updater has given up, and the flash is as it was or has all chunks but the last; or the device waits for a last chunk that it has taken for a control packet, and the updater has not seen success |
| TransferRuns.SuccessExactlyWhen | bootloader/src/bootloader.c:463-512 | at a standstill, success has been reported if and only if the image is transferable and genuine |
| TransferRuns.TransfersEnd | fw-updater/index.ts:571-606 | only a bounded number of steps of a transfer can change anything |
| TransferRuns.EveryTransferCanFinish | fw-updater/index.ts:571-606 | however a transfer has gone so far, it can be carried on to its end |
| LoopSession.TurnInBytes | bootloader/src/bootloader.c:352-355 | a turn of the main loop after k more bytes is k single bytes and the switch statement of the byte-by-byte model, for the device and for what it sends |
| LoopRuns.LoopStepIsSteps | bootloader/src/bootloader.c:311-521 | each step of loop and updater, if the turn is in time, is a number of steps of the byte-by-byte model, and keeps the timer armed at the latest arming turn |
| LoopTransfers.LoopIsLine | bootloader/src/bootloader.c:311-521 | with every turn before its deadline, a transfer by the main loop in whole turns is one of the byte-by-byte model |
| LoopTransfers.LoopInOrder | bootloader/src/comms.c:137-182 | with deadlines in force, all frames are queued once and in order, no ring overflows, and the flash holds a prefix of the image |
| LoopTransfers.LoopEndsWell | fw-updater/index.ts:529-606 | with deadlines in force, a transfer in which no step in time changes anything has the whole image in flash, and both sides agree on the verdict |
| LoopTransfers.LoopUntransferableEnds | fw-updater/index.ts:434-454 | the same with deadlines in force |
| LoopTransfers.LoopSuccessExactlyWhen | bootloader/src/bootloader.c:463-512 | then success has been reported if and only if the image is transferable and genuine |
| LoopTransfers.LoopTransferEnds | bootloader/src/bootloader.c:311-521 | only a bounded number of turns and host steps can change anything |
| LoopTransfers.LoopCanFinish | bootloader/src/bootloader.c:311-521 | however such a transfer has gone so far, it can be carried on to its end with every turn in time |
| LoopTransfers.LoopDeviceIsRun | bootloader/src/bootloader.c:311-521 | the device of such a transfer is, at every moment, in a run of its main loop from power-up |
| Retransmission.MadeUpExactlyWhen | fw-updater/index.ts:386-390 | the packets that arrive after a damaged frame, with the repeated one at the end, are those sent if and only if the repeated frame is a control packet for a control packet, or the damaged frame itself with no other command or data frame sent since |
| Retransmission.DeviceRecoversExactlyWhen | bootloader/src/comms.c:137-181 | so the device's queue is as it should be after a damaged frame to it exactly then |
| Retransmission.HostRecoversExactlyWhen | fw-updater/index.ts:376-407 | and likewise the updater's queue after a damaged frame to it |
| Retransmission.RepeatQueuedExactlyWhen | fw-updater/index.ts:386-390 | in a session, the repetition adds a packet to the device's queue if and only if the updater's last packet is no control packet |
| NoisySession.DamagedAckEndsUpdate | bootloader/src/bootloader.c:420-447 | for every transferable image, a run from the update request on in which one damaged acknowledgement of the updater makes the device take the device id twice, refuse it, and end the update before the erase |
| NoisySession.DamagedAnswerEndsUpdate | fw-updater/index.ts:438-454 | a run in which one damaged frame of the device makes the updater give up while the device still waits |
| EndToEnd.SignedIsTransferable | fw-signer/main.py:48-85 | signing keeps an updatable image transferable |
| EndToEnd.SignedVerdict | bootloader/src/bootloader.c:154-228 | the device judges a signed updatable image in its flash genuine |
| EndToEnd.SignedImageIsInstalled | bootloader/src/bootloader.c:304-541 | for every updatable image, signed, and every device that has observed the sync sequence in a run from power-up, with the updater's acknowledgement of SYNC_OBSERVED and its update request under way and deadlines in force: the device stays in that run, only a bounded number of steps change anything, and a standstill has the image in flash byte for byte, UPDATE_SUCCESSFUL sent and seen, and the jump |
| EndToEnd.SignedImageCanBeInstalled | bootloader/src/bootloader.c:352-541 | however such a transfer has gone so far, it can be carried on, in time, until the image is installed |
| EndToEnd.DeviceRejectsChangedBlock | bootloader/src/bootloader.c:142-228 | the device with its compiled-in key rejects any accepted image with one authenticated block changed and the length field kept |

## Left out

- Registers, clocks, pins, interrupt controllers, cache resets and teardown: foreign hardware; what remains is erase, program, transmit and tick.
- Blocks and key schedules are flat arrays of 16 and 176 bytes rather than arrays of arrays, and the S-box tables are functions of a byte.
- Validation.AbsorbImage: a loop that may not end is followed for a given number of turns, and its outcome says whether it has ended by then; so is Validation.ValidateFwImage.
- Bytes beyond the application's sectors are an arbitrary function, so bus faults there are not modelled.
- Breakpoint instructions stop the model: a full packet ring, or reading from an empty one, halts the engine for good.
- A turn of the main loop takes its bytes at its beginning and reads the clock once; by SplittingIsInvisible, bytes that arrive during the turn come to the same as bytes before or after it.
- The interrupt handler stores bytes between turns in Bootloader.OnReceive; its interleaving with the reader at single accesses is the subject of RingInterleaving.
- TransferRuns.QueuedOnceInOrder: leaves the device's deadlines aside, which LoopTransfers has in force; and assumes that acknowledgements of the host and frames of the device arrive intact, which cannot be dropped (NoisySession).
- LoopTransfers.LoopInOrder: requires every turn less than 5000 ticks after the timer was last armed; the updater's own waiting times of 5 s are not modelled.
- TransferRuns and LoopTransfers start when the updater has taken SYNC_OBSERVED and sends its update request, with its acknowledgement of SYNC_OBSERVED before it on the line and nothing else; sync bytes that are still under way at that time, damage to that acknowledgement or to SYNC_OBSERVED, and the updater's sync loop are not modelled.
- Images of no bytes and of 2^32 bytes or more are outside TransferRuns and LoopTransfers.
- TransferRuns.UntransferableEnds: does not say that a standstill is reached; over a last chunk that looks like RETX and has been damaged, device and updater can go on asking each other for a retransmission.
- UpdateTermination.RunsEnd: assumes a clock that does not wrap; FiresBeforeWrapExactlyWhen says what a wrap does to a timer.
- The end of the updater's script: after `Failed` or `Succeeded` main does nothing more, but the receive handler goes on acknowledging and repeating frames, where process.exit or uart.close would end it.
- Serial port, files, logging, delays and the subprocess call: I/O; OpenSSL is CBC with padding over the same cipher.
- The CRC-32 routines and the code under `#if 0`: no caller.
- The demo application, build scripts and linker scripts: only their constants are used.
- Timing side channels, key storage, rollback and cryptographic strength: not functional behaviour of this code.
