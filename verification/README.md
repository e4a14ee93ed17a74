# A model of the aes_aca system

The system is a Nios II computer that encrypts blocks with AES-128 and talks to a host over a JTAG
UART.  The project models the parts of its software and logic that decide something hard, and proves
what they are for.  `dafny verify dfyconfig.toml` checks all of it.

- **JTAG UART driver** (`Ring`, `JtagProtocol`, `JtagUart`).  Two circular buffers without locks are
  shared by write(), read() and the interrupt routine, and the device's two FIFOs by the interrupt
  routine and the host.  `JtagProtocol` is a step system in which the four are interleaved in every
  way the hardware allows; what holds in every reachable state is proved by one invariant.
  `JtagUart.Driver` is the code: each access to shared state is proved to be a step of the protocol
  and recorded in a trace, and any number of interrupts and host actions may happen between two of
  them.  So what is proved of all runs of the protocol holds of the code.
- **Serial flash** (`FlashChip`, `SpiMaster`, `EpcsCommands`, `FlashImage`, `EpcsParts`, `EpcsFlash`).
  The chip takes and gives a byte at a time and acts when it is deselected: erase makes a sector 0xFF,
  a page program can only clear bits and wraps within its page, both need the write enable latch and
  take time, and addresses have 3 or 4 bytes.  On top of it are the credit-controlled byte loop, the
  command framing, and the planning of blocks, erases and pages; each layer is proved against the one
  below, down to the bytes on the wire.
- **AES-128** (`Fips197`, `Aes`, `Gf256`, `AesTables`, `AesTableFacts`, `AesInstance`).  `Fips197` is
  the standard, over any tables that satisfy its laws and for any number of rounds; `Aes` is the code,
  in place on byte arrays; the other modules hold the real tables and prove the laws for them, down to
  multiplication in GF(2^8) and the definition of the S-box.
- **Alarms** (`AlarmTime`, `AlarmList`).  A 32-bit tick counter that wraps, a due time and a flag per
  alarm are related to a clock that does not wrap; the list is a circular doubly linked one, walked
  while callbacks start and stop alarms.
- **Time of day** (`TimeOfDay`), **log output** (`LogPrintf`), **file descriptors** (`FdTable`) and
  the **button filter** (`Debouncer`).

Five results are about where the code falls short, with the exact condition:

- An alarm of 2^32 - 1 ticks goes off at once, unless the counter is just about to wrap
  (`AlarmTime.OnTimeIff`).  The documentation of alt_alarm_start() makes no exception.
- settimeofday() computes in 32 bits what gettimeofday() computes in 64, so that an immediate reading
  differs from the time set once the product has overflowed (`TimeOfDay.ReadBackIff`), and with a tick
  rate that does not divide a million the clock is wrong in the first second (`TimeOfDay.SteadyIff`).
- gettimeofday() goes back when the 32-bit tick counter wraps, by 2^32 ticks (`TimeOfDay.LaterReadingIff`).
- alt_fd_lock() does not look at the highest descriptor, and so grants a lock on a device that
  this descriptor has open (`FdTable.LockWronglyGrantedIff`).  As this system is configured, with four
  descriptors, that does not happen (`FdTable.LockRightlyGrantedHere`).  The documentation makes no
  exception.  That nobody can open a locked device, from the granting of the lock on, holds all the same
  (`FdTable.GrantedLockRefuses`).
- alt_epcs_flash_write() returns 0 for a range that does not fit the device, and writes what does
  (`EpcsFlash.WrittenIffItFits`).

What the outside world does is a parameter or an arbitrary choice: when interrupts come, what the host
does, how long a flash write takes, what callbacks do, what a device's own open() returns.  Where the
code waits, the wait is over after some number of looks that may be any number: the interrupt routine
sees a pending bit with nothing behind it, the driver a host that is silent but not yet inactive, and
the byte loop a status register with nothing to do, only so often.  The interrupt routine itself needs
no such bound: no reader runs meanwhile, and the buffer fills up.

## Model

| member | source | states |
|---|---|---|
| `JtagProtocol.RunInv` | software/aes_aca_bsp/drivers/src/altera_avalon_jtag_uart_write.c:98-192 | in every interleaving of writer, reader, interrupt routine and host, no unread slot is overwritten, both directions conserve their characters, and no wakeup is lost |
| `JtagProtocol.StepInv` | software/aes_aca_bsp/drivers/src/altera_avalon_jtag_uart_init.c:117-196 | every single step of any of the four parties keeps that invariant |
| `JtagProtocol.TransmitInOrder` | software/aes_aca_bsp/drivers/src/altera_avalon_jtag_uart_write.c:100-139 | at every moment, what write() accepted is what the host has drained, then the hardware FIFO, then the circular buffer from tx_out to tx_in: nothing lost, doubled or reordered |
| `JtagProtocol.ReceiveInOrder` | software/aes_aca_bsp/drivers/src/altera_avalon_jtag_uart_read.c:115-186 | at every moment, what the host sent is what read() delivered, then the circular buffer from rx_out to rx_in, then the hardware FIFO |
| `JtagProtocol.WaitingWriterIsWoken` | software/aes_aca_bsp/drivers/src/altera_avalon_jtag_uart_init.c:169-194 | a writer that waits on a full buffer waits with WE set, so that the interrupt routine can be entered and moves tx_out as soon as the device has room |
| `JtagProtocol.WaitingReaderIsWoken` | software/aes_aca_bsp/drivers/src/altera_avalon_jtag_uart_init.c:125-167 | a reader that waits on an empty buffer waits with RE set, so that the interrupt routine can be entered and moves rx_in as soon as a character has arrived |
| `JtagProtocol.QuietRun` | software/aes_aca_bsp/drivers/src/altera_avalon_jtag_uart_init.c:132-154 | however many interrupts and host actions happen, a foreground that stands still loses no unread character, and its own indices, buffer slots and counts are untouched |
| `JtagProtocol.WriteCommitConserves` | software/aes_aca_bsp/drivers/src/altera_avalon_jtag_uart_write.c:122-126 | moving tx_in appends exactly the chunk that was copied, even though the interrupt routine has moved tx_out since the indices were read |
| `JtagProtocol.IsrSendConserves` | software/aes_aca_bsp/drivers/src/altera_avalon_jtag_uart_init.c:174-184 | one turn of the transmit loop moves the oldest unsent character to the FIFO |
| `JtagProtocol.ReceivedIntoFreeSlot` | software/aes_aca_bsp/drivers/src/altera_avalon_jtag_uart_init.c:132-154 | whatever the step, a character leaves the receive FIFO only when there is a free slot in the buffer, and goes there |
| `JtagProtocol.IsrReceiveInv` | software/aes_aca_bsp/drivers/src/altera_avalon_jtag_uart_init.c:132-154 | one turn of the receive loop keeps the invariant: nothing is lost or reordered, and what a reader is copying is not touched |
| `Ring.Append` | software/aes_aca_bsp/drivers/src/altera_avalon_jtag_uart_write.c:106-126 | a chunk no longer than the free run computed from a snapshot, once committed, extends the unread characters by itself |
| `Ring.Take` | software/aes_aca_bsp/drivers/src/altera_avalon_jtag_uart_read.c:122-141 | a chunk no longer than the run of unread characters is a prefix of them, and committing it leaves the rest |
| `Ring.NoRoom` | software/aes_aca_bsp/drivers/src/altera_avalon_jtag_uart_write.c:109-117 | the computed run of free slots is empty if and only if the buffer is full |
| `Ring.NothingAvailable` | software/aes_aca_bsp/drivers/src/altera_avalon_jtag_uart_read.c:125-131 | the computed run of unread characters is empty if and only if the buffer is |
| `Ring.RunsAreWhole` | software/aes_aca_bsp/drivers/src/altera_avalon_jtag_uart_write.c:109-117 | either run is as long as it can be without wrapping around |
| `JtagUart.Driver.Write` | software/aes_aca_bsp/drivers/src/altera_avalon_jtag_uart_write.c:83-215 | a positive result is the number of characters appended to the stream, any other one appends none and is -EWOULDBLOCK or -EIO; a write comes up short only if it found the buffer full, and a blocking one only if after that a slot was freed or the host found inactive, and the host is silent at the end; a non-blocking write does not wait; WE is set on return if anything is unsent |
| `JtagUart.Driver.WriteTurn` | software/aes_aca_bsp/drivers/src/altera_avalon_jtag_uart_write.c:100-189 | one turn of the outer loop, with interrupts between any two accesses to shared state: what it takes is appended in order, and with characters left over in blocking mode it waits until a slot is freed or the host inactive, and goes round again only for a host that is there |
| `JtagUart.Driver.Fill` | software/aes_aca_bsp/drivers/src/altera_avalon_jtag_uart_write.c:103-127 | the inner loop appends a prefix of what is left, all of it unless the buffer was full |
| `JtagUart.Driver.CopyChunkIn` | software/aes_aca_bsp/drivers/src/altera_avalon_jtag_uart_write.c:122 | the copy may be interrupted between any two characters and still leaves the whole chunk in the free slots |
| `JtagUart.Driver.WaitForRoom` | software/aes_aca_bsp/drivers/src/altera_avalon_jtag_uart_write.c:183-184 | the wait ends once tx_out has moved or the host is inactive |
| `JtagUart.Driver.Read` | software/aes_aca_bsp/drivers/src/altera_avalon_jtag_uart_read.c:100-203 | the result is a prefix of the stream that follows on what was delivered before: all that was waiting, or as much as there is space for; an error consumes nothing; a blocking read returns one only after a moment at which nothing was unread and the host had been inactive for the timeout, and a non-blocking read does not wait; RE is set on return unless the buffer is full |
| `JtagUart.Driver.ReadTurn` | software/aes_aca_bsp/drivers/src/altera_avalon_jtag_uart_read.c:115-179 | one turn of the outer loop goes round again only if it delivered nothing and characters have come in since; in blocking mode it delivers nothing and ends only after a moment at which nothing was unread and the host had been inactive for the timeout |
| `JtagUart.Driver.Empty` | software/aes_aca_bsp/drivers/src/altera_avalon_jtag_uart_read.c:120-142 | the inner loop delivers the unread characters in order, and ends with an empty buffer or no space |
| `JtagUart.Driver.WaitForData` | software/aes_aca_bsp/drivers/src/altera_avalon_jtag_uart_read.c:173-178 | the wait ends once rx_in has moved or the host is inactive |
| `JtagUart.Driver.Close` | software/aes_aca_bsp/drivers/src/altera_avalon_jtag_uart_init.c:241-254 | 0 only once the buffer has run empty or the host is inactive; -EWOULDBLOCK only for a non-blocking call with characters unsent and the host there, after a single look |
| `JtagUart.Driver.Irq` | software/aes_aca_bsp/drivers/src/altera_avalon_jtag_uart_init.c:105-197 | the interrupt routine ends, however much the host sends and drains meanwhile; all it does are steps of the protocol; it reads the control register until that shows nothing pending, and not once more |
| `JtagUart.Driver.Serve` | software/aes_aca_bsp/drivers/src/altera_avalon_jtag_uart_init.c:119-195 | one turn serves the halves whose pending bits the control register showed, and uses up free slots, unsent characters or enabled interrupts if there is anything behind the bits |
| `JtagUart.Driver.IrqReceive` | software/aes_aca_bsp/drivers/src/altera_avalon_jtag_uart_init.c:125-167 | characters are moved until the FIFO is empty or the buffer full; RE is cleared only in the second case |
| `JtagUart.Driver.IrqSend` | software/aes_aca_bsp/drivers/src/altera_avalon_jtag_uart_init.c:169-194 | characters are moved until the buffer is empty or the room that the control register showed is used up; WE is cleared if and only if room is left over |
| `JtagUart.Driver.ReceiveTurn` | software/aes_aca_bsp/drivers/src/altera_avalon_jtag_uart_init.c:132-154 | one turn of the receive loop: with a full buffer the data register is not read; the loop ends when the buffer is full or there is no character |
| `EpcsFlash.Flash.Write` | software/aes_aca_bsp/drivers/src/altera_avalon_epcs_flash_controller.c:292-358 | the memory becomes the image of the data at the offset, as far as the device reaches, whatever the regions that tile it; 0 is returned in any case |
| `FlashImage.ImageMeaning` | software/aes_aca_bsp/drivers/src/altera_avalon_epcs_flash_controller.c:279-291 | in such an image the range holds the data, blocks outside it are unchanged, and the rest of a block in it is unchanged if the block held the data already and 0xFF otherwise |
| `EpcsFlash.WrittenIffItFits` | software/aes_aca_bsp/drivers/src/altera_avalon_epcs_flash_controller.c:303-357 | after a write the memory holds the data if and only if the range lies within the device or is empty; otherwise it holds every byte that fits, and none if the offset is negative, and no error is returned |
| `EpcsFlash.WriteCutShort` | software/aes_aca_bsp/drivers/src/altera_avalon_epcs_flash_controller.c:303-357 | two bytes at the last address of an EPCS64 are not both written |
| `EpcsFlash.Flash.WriteAndReadBack` | software/aes_aca_bsp/drivers/src/altera_avalon_epcs_flash_controller.c:292-506 | what has been written is what is read back |
| `EpcsFlash.Flash.WriteRegion` | software/aes_aca_bsp/drivers/src/altera_avalon_epcs_flash_controller.c:310-354 | the loop over the blocks of a region leaves the image of what has been written so far, and either all is written or the next region goes on where this one ends |
| `EpcsFlash.Flash.WriteInBlock` | software/aes_aca_bsp/drivers/src/altera_avalon_epcs_flash_controller.c:314-351 | one block is brought up to date: min(rest of the block, rest of the data) bytes |
| `EpcsFlash.Flash.UpdateBlock` | software/aes_aca_bsp/drivers/src/altera_avalon_epcs_flash_controller.c:326-339 | a block is erased and programmed only if the comparison found a difference |
| `FlashImage.ImageStep` | software/aes_aca_bsp/drivers/src/altera_avalon_epcs_flash_controller.c:317-351 | writing one more block turns the image of what has been written so far into the image of that and the block |
| `EpcsFlash.Flash.WriteBlock` | software/aes_aca_bsp/drivers/src/altera_avalon_epcs_flash_controller.c:445-476 | what the chip is sent are page programs for the pages that the data is cut into, each after a write enable, and the memory is what they make of it, whether or not the range fits; -EIO, and nothing sent, for a start outside the device |
| `FlashImage.PagesPartition` | software/aes_aca_bsp/drivers/src/altera_avalon_epcs_flash_controller.c:462-474 | the pages are not empty, lie within one page of the chip each, follow on each other, and make up the data |
| `FlashImage.PagesInRange` | software/aes_aca_bsp/drivers/src/altera_avalon_epcs_flash_controller.c:445-476 | within the device, programming them ands the range with the data and changes nothing else |
| `EpcsFlash.Flash.WritePages` | software/aes_aca_bsp/drivers/src/altera_avalon_epcs_flash_controller.c:462-474 | the loop sends the programs for those pages, in order, and no others |
| `EpcsFlash.Flash.WritePage` | software/aes_aca_bsp/drivers/src/altera_avalon_epcs_flash_controller.c:464-473 | one page program, which is not empty, stays within its page and ends at a page boundary or with the data |
| `FlashImage.ProgrammedInPage` | software/aes_aca_bsp/drivers/src/altera_avalon_epcs_flash_controller.c:464-468 | a program that does not cross a page boundary does not wrap |
| `FlashImage.OverlaidAppend` | software/aes_aca_bsp/drivers/src/altera_avalon_epcs_flash_controller.c:462-474 | contiguous page programs add up to one |
| `EpcsFlash.Flash.EraseBlock` | software/aes_aca_bsp/drivers/src/altera_avalon_epcs_flash_controller.c:420-435 | the sector becomes 0xFF; -EIO, and nothing done, outside the device |
| `EpcsFlash.Flash.Read` | software/aes_aca_bsp/drivers/src/altera_avalon_epcs_flash_controller.c:483-506 | the bytes from the offset on, going on at the start at the end of the device; -EIO outside it |
| `EpcsFlash.Flash.Memcmp` | software/aes_aca_bsp/drivers/src/altera_avalon_epcs_flash_controller.c:226-277 | 0 if and only if the bytes read from the offset on are the data and no 32-byte chunk starts beyond the device, for any range; so within the device, if and only if the memory holds the data |
| `EpcsFlash.Flash.TestAddress` | software/aes_aca_bsp/drivers/src/altera_avalon_epcs_flash_controller.c:392-412 | 0 if and only if the address lies within the device; the unsigned comparison turns negative offsets away |
| `EpcsFlash.Flash.Query` | software/aes_aca_bsp/drivers/src/altera_avalon_epcs_flash_controller.c:80-224 | the first part in the table that matches the electronic signature or the device id; its size and block size are those that the answers of the chip tell, byte by byte; 4-byte mode if and only if it has more than 2^24 bytes; -ENODEV if the answers tell none |
| `EpcsFlash.Flash.QueryGenuine` | software/aes_aca_bsp/drivers/src/altera_avalon_epcs_flash_controller.c:80-224 | on every known part it leaves the device ready for use, with regions that tile its memory |
| `EpcsFlash.PartByAnswers` | software/aes_aca_bsp/drivers/src/altera_avalon_epcs_flash_controller.c:102-214 | what the answers tell: signature s stands for 2^(s+1) bytes, the ids 20 BA k for 2^k, and else the last id byte for 2^24, 2^25, 2^26 or 2^27; which agrees with the table and its order for all answers |
| `EpcsFlash.SignatureRegion` | software/aes_aca_bsp/drivers/src/altera_avalon_epcs_flash_controller.c:102-131 | the parts that are known by their electronic signature |
| `EpcsFlash.IdRegion` | software/aes_aca_bsp/drivers/src/altera_avalon_epcs_flash_controller.c:145-168 | the parts that are known by their device id |
| `EpcsFlash.DensityRegion` | software/aes_aca_bsp/drivers/src/altera_avalon_epcs_flash_controller.c:169-214 | the parts that are known by the last byte of the device id, and which of them need 4-byte mode |
| `EpcsParts.PartsAddUp` | software/aes_aca_bsp/drivers/src/altera_avalon_epcs_flash_controller.c:102-210 | the blocks of every part add up to its size |
| `EpcsParts.FirstMatch` | software/aes_aca_bsp/drivers/src/altera_avalon_epcs_flash_controller.c:102-214 | the order in which the parts are tried matters, and is kept |
| `EpcsCommands.WriteBuffer` | software/aes_aca_bsp/drivers/src/epcs_commands.c:190-254 | the sessions that the chip sees are a write enable and one with opcode, address and data, between the switches to 4-byte mode and back if need be; they program one page; on return the write is over and the chip is back in 3-byte mode with its latch clear |
| `EpcsCommands.SectorErase` | software/aes_aca_bsp/drivers/src/epcs_commands.c:65-108 | the same for a sector erase, with the sessions that are sent |
| `EpcsCommands.ReadBuffer` | software/aes_aca_bsp/drivers/src/epcs_commands.c:110-153 | a read waits for a write in progress, returns the memory from the offset on in one session, and leaves the chip as it was, 4-byte mode off |
| `EpcsCommands.AwaitWritten` | software/aes_aca_bsp/drivers/src/epcs_commands.c:57-63 | polling ends when the write in progress does, and changes nothing else |
| `EpcsCommands.ReadStatus` | software/aes_aca_bsp/drivers/src/epcs_commands.c:35-55 | the low bit is 1 if and only if a write is in progress |
| `EpcsCommands.WriteEnable` | software/aes_aca_bsp/drivers/src/epcs_commands.c:155-167 | sets the write enable latch and nothing else |
| `EpcsCommands.EnterFourByteMode` | software/aes_aca_bsp/drivers/src/epcs_commands.c:293-311 | the mode command is enabled first, and uses the latch up |
| `EpcsCommands.ExitFourByteMode` | software/aes_aca_bsp/drivers/src/epcs_commands.c:313-331 | the same, back to 3-byte mode |
| `EpcsCommands.ReadSignature` | software/aes_aca_bsp/drivers/src/epcs_commands.c:257-273 | returns the electronic signature |
| `EpcsCommands.ReadDeviceId` | software/aes_aca_bsp/drivers/src/epcs_commands.c:275-291 | returns the three id bytes as one number, the first one most significant |
| `EpcsCommands.AddressRoundTrip` | software/aes_aca_bsp/drivers/src/epcs_commands.c:198-214 | the chip decodes the address bytes to the offset, up to the width of the mode |
| `EpcsCommands.WireInThreeByteMode` | software/aes_aca_bsp/drivers/src/epcs_commands.c:79-149 | the bytes on the wire for erase, program and read in 3-byte mode, opcodes included, address high byte first |
| `EpcsCommands.WireInFourByteMode` | software/aes_aca_bsp/drivers/src/epcs_commands.c:79-149 | the same in 4-byte mode: write enable, enter, the command after its own write enable, write enable, exit |
| `EpcsCommands.ProgramSession` | software/aes_aca_bsp/drivers/src/epcs_commands.c:216-238 | a program session sent in two merged halves is one program command |
| `EpcsCommands.ReadAnswers` | software/aes_aca_bsp/drivers/src/epcs_commands.c:122-145 | the answers after the command bytes are the memory from the address on |
| `EpcsCommands.EraseSession` | software/aes_aca_bsp/drivers/src/epcs_commands.c:89-100 | an erase session with the latch set erases the sector of its address, and clears the latch |
| `EpcsCommands.StatusSession` | software/aes_aca_bsp/drivers/src/epcs_commands.c:35-50 | the status can be read while a write is in progress, and no other command is needed for that |
| `SpiMaster.Spi.Command` | software/aes_aca_bsp/drivers/src/altera_avalon_spi.c:41-134 | the chip sees the bytes to write, then a zero for every byte to read, in one selection that lasts into the next command if they are merged; what is returned are the last answers |
| `SpiMaster.Spi.Shift` | software/aes_aca_bsp/drivers/src/altera_avalon_spi.c:79-120 | the byte loop ends, and the bytes sent and the answers kept are those |
| `SpiMaster.Spi.Turn` | software/aes_aca_bsp/drivers/src/altera_avalon_spi.c:79-120 | one turn: credits and the bytes on their way make up 1, and the turn uses up a byte |
| `SpiMaster.Spi.SendNext` | software/aes_aca_bsp/drivers/src/altera_avalon_spi.c:89-102 | there is always a byte to send when there is a credit, so the branch that sets the credits to -1024 is never taken |
| `SpiMaster.Spi.ReceiveNext` | software/aes_aca_bsp/drivers/src/altera_avalon_spi.c:104-112 | answers to the bytes of the command are dropped, the others kept in order |
| `SpiMaster.Spi.Poll` | software/aes_aca_bsp/drivers/src/altera_avalon_spi.c:82-87 | the status loop ends when there is something to send or to receive |
| `FlashChip.ClockedOneMore` | software/aes_aca_bsp/drivers/src/altera_avalon_spi.c:89-112 | a run of bytes is one byte after the other |
| `FlashChip.AndErased` | software/aes_aca_bsp/drivers/src/altera_avalon_epcs_flash_controller.c:437-444 | an erased byte takes on any value that is programmed |
| `AesInstance.DecryptionUndoesEncryption` | software/aes_aca/aes.c:176-326 | for every block and every schedule of any content, the inverse cipher on the real tables undoes the cipher |
| `Fips197.InvCipherUndoesCipher` | software/aes_aca/aes.c:176-326 | the same for any number of rounds, and any tables that satisfy the laws |
| `AesInstance.TablesAreValid` | software/aes_aca/aestab.c:28-731 | the twelve real tables satisfy every law that the proofs rest on |
| `AesInstance.RoundTrip` | software/aes_aca/aes.c:43-326 | either key expansion and either encryptor, then Decrypt under the other expansion: the block comes back |
| `AesInstance.EncryptBothWays` | software/aes_aca/aes.c:119-192 | the table-driven encryptor and the plain one give the same block for every block and schedule, that of section 5.1 of FIPS 197 |
| `AesInstance.ExpandBothWays` | software/aes_aca/aes.c:43-113 | the two key expansions fill the same schedule for every key, that of section 5.2 of FIPS 197 |
| `AesInstance.MixAndUnmix` | software/aes_aca/aes.c:239-360 | InvMixSubColumns undoes MixSubColumns on every state |
| `AesInstance.CombinedStepUndone` | software/aes_aca/aes.c:239-360 | the inverse of the combined step, as transformations of the state |
| `AesInstance.ExampleRound` | software/aes_aca/main.c:44-45 | for the key and the block of the main program, which are those of appendix B of FIPS 197, the first column after round 1 is a49c7ff2, as it is there |
| `AesInstance.ExampleKey` | software/aes_aca/main.c:45 | for that key the first word of the second round key is a0fafe17, as it is there |
| `Aes.EncryptPlain` | software/aes_aca/aes.c:176-192 | the cipher of section 5.1 |
| `Aes.EncryptTables` | software/aes_aca/aes.c:119-165 | the same cipher out of the four word tables |
| `Aes.Decrypt` | software/aes_aca/aes.c:276-292 | the inverse cipher of section 5.3 |
| `Aes.KeyExpand128` | software/aes_aca/aes.c:43-73 | sixteen bytes a step with a running round constant: the schedule of section 5.2, which begins with the key |
| `Aes.ExpandKey` | software/aes_aca/aes.c:78-113 | a word a step with a table of round constants: the same schedule, which begins with the key |
| `Aes.MixSubColumns` | software/aes_aca/aes.c:239-271 | SubBytes, ShiftRows and MixColumns in one |
| `Aes.InvMixSubColumns` | software/aes_aca/aes.c:329-360 | InvMixColumns, InvShiftRows and InvSubBytes in one, by scattered stores |
| `Aes.SubShiftRows` | software/aes_aca/aes.c:205-236 | SubBytes and ShiftRows by rotations in place |
| `Aes.InvSubShiftRows` | software/aes_aca/aes.c:295-326 | InvShiftRows and InvSubBytes by rotations in place |
| `Aes.AddRoundKeyInPlace` | software/aes_aca/aes.c:196-202 | exclusive or with one round key |
| `Aes.LastRoundPermutation` | software/aes_aca/aes.c:149-164 | the index (i*5) mod 16 of the last round is ShiftRows |
| `Aes.SubMixedBlock` | software/aes_aca/aes.c:239-271 | the columns that MixSubColumns computes are MixColumns after ShiftRows after SubBytes |
| `Aes.TableUnmixedBlock` | software/aes_aca/aes.c:329-360 | the scattered bytes that InvMixSubColumns computes are InvShiftRows after InvMixColumns |
| `Aes.TableColumnIsSubMix` | software/aes_aca/aestab.c:97-616 | four table words, exclusively or-ed, are a column of MixColumns after SubBytes |
| `Aes.RconTable` | software/aes_aca/aes.c:84-86 | the table of round constants holds the repeated doublings that the other expansion computes |
| `Fips197.ExpansionIsUnique` | software/aes_aca/aes.c:43-113 | a schedule is determined by its key |
| `Fips197.ScheduleBeginsWithKey` | software/aes_aca/aes.c:48-54 | the first round key is the key itself |
| `Fips197.InvMixColumnsAfterMixColumns` | software/aes_aca/aes.c:329-360 | InvMixColumns undoes MixColumns |
| `Fips197.InvShiftRowsAfterShiftRows` | software/aes_aca/aes.c:205-326 | InvShiftRows undoes ShiftRows |
| `Gf256.UnmixMix` | software/aes_aca/aestab.c:621-731 | multiplying by 0e, 0b, 0d, 09 undoes multiplying by 02, 03, 01, 01, by linearity alone |
| `AesTableFacts.InvSboxAfterSbox` | software/aes_aca/aestab.c:28-94 | InvSbox undoes Sbox |
| `AesTableFacts.SboxAfterInvSbox` | software/aes_aca/aestab.c:28-94 | Sbox undoes InvSbox |
| `AesTableFacts.SboxDefinition` | software/aes_aca/aestab.c:28-59 | Sbox is the affine transformation of the inverse in GF(2^8), section 5.1.1 of FIPS 197 |
| `AesTableFacts.Xtime3SboxMultiplies` | software/aes_aca/aestab.c:640-658 | Xtime3Sbox is 3 times Sbox in GF(2^8) |
| `AesTableFacts.Xtime9Multiplies` | software/aes_aca/aestab.c:661-676 | Xtime9 is multiplication by 9 |
| `AesTableFacts.XtimeBMultiplies` | software/aes_aca/aestab.c:679-694 | XtimeB is multiplication by 11 |
| `AesTableFacts.XtimeDMultiplies` | software/aes_aca/aestab.c:697-712 | XtimeD is multiplication by 13 |
| `AesTableFacts.XtimeEMultiplies` | software/aes_aca/aestab.c:715-731 | XtimeE is multiplication by 14 |
| `AesTableFacts.SBox0Is` | software/aes_aca/aestab.c:97-224 | aestab_SBox0 holds the words 2S, S, S, 3S |
| `AlarmTime.OnTimeIff` | software/aes_aca_bsp/HAL/src/alt_alarm_start.c:80-98 | an alarm started with nticks first goes off exactly nticks + 1 ticks later, whatever the counter, if and only if nticks is not 2^32 - 1 or the counter is about to wrap |
| `AlarmTime.TooEarly` | software/aes_aca_bsp/HAL/src/alt_alarm_start.c:82-96 | in the other case it goes off at the next tick |
| `AlarmTime.RepeatsOnTime` | software/aes_aca_bsp/HAL/src/alt_tick.c:115-138 | an alarm that went off when it was due goes off again exactly as many ticks later as its callback asked for, whatever the period |
| `AlarmTime.StartedRight` | software/aes_aca_bsp/HAL/src/alt_alarm_start.c:82-96 | the time is the due tick modulo 2^32, and the flag is set if that is in the next round of the counter |
| `AlarmTime.TickRight` | software/aes_aca_bsp/HAL/src/alt_tick.c:95-115 | a tick keeps that relation, and finds the alarm expired if and only if it is due |
| `AlarmTime.RearmedRight` | software/aes_aca_bsp/HAL/src/alt_tick.c:127-138 | so does setting it again |
| `AlarmTime.GoesOffWhenDue` | software/aes_aca_bsp/HAL/src/alt_tick.c:109-115 | an alarm in that relation goes off when it is due, not before and not after |
| `AlarmList.Scheduler.Tick` | software/aes_aca_bsp/HAL/src/alt_tick.c:87-141 | every alarm in the list when the tick begins has exactly one turn, but for those that a callback stops before; it is called in it if and only if its time has come, which for an alarm set in time is when it is due; it is due again exactly as many ticks later as its callback asked for, and leaves the list if that asked for none; the rest keep their due tick; nothing else comes into the list but what callbacks start; the list stays linked and the walk ends, whatever alarms the callbacks start and stop |
| `AlarmList.Scheduler.Visit` | software/aes_aca_bsp/HAL/src/alt_tick.c:102-140 | one alarm has its turn: it is called if and only if its time has come, set again for as many ticks later as its callback returned, and stopped if that returned 0 |
| `AlarmList.Scheduler.Look` | software/aes_aca_bsp/HAL/src/alt_tick.c:109-115 | the flag is cleared when the counter wraps, and the alarm found expired if and only if it is due |
| `AlarmList.Scheduler.Rearm` | software/aes_aca_bsp/HAL/src/alt_tick.c:127-138 | time and flag are right for the new due tick |
| `AlarmList.Scheduler.Callback` | software/aes_aca_bsp/HAL/src/alt_tick.c:117 | what callbacks may do: start alarms that are not running, and stop any but the one that comes next |
| `AlarmList.Scheduler.Start` | software/aes_aca_bsp/HAL/src/alt_alarm_start.c:64-112 | the alarm is put first in the list with its due tick and the setting for it; -EINVAL without an alarm, -ENOTSUP without a clock |
| `AlarmList.Scheduler.Stop` | software/aes_aca_bsp/HAL/src/alt_tick.c:66-73 | the alarm leaves the list, the order of the others is kept; stopping it again changes nothing |
| `AlarmList.Insert` | software/aes_aca_bsp/HAL/inc/sys/alt_llist.h:90-98 | the entry becomes the first one of a ring linked in both directions |
| `AlarmList.Remove` | software/aes_aca_bsp/HAL/inc/sys/alt_llist.h:105-117 | the ring is closed without the entry, which points to itself; removing it again changes nothing |
| `TimeOfDay.ReadBackIff` | software/aes_aca_bsp/HAL/src/alt_settod.c:80-84 | reading the time in the tick in which it was set gives it back if and only if the high word of the 32-bit product is a multiple of 15625, or the time was 0 and the reading is cut off there |
| `TimeOfDay.ReadBackFails` | software/aes_aca_bsp/HAL/src/alt_settod.c:82-84 | at 1000 ticks a second the reading is wrong by 967296 microseconds after 4294968 ticks |
| `TimeOfDay.LaterReadingIff` | software/aes_aca_bsp/HAL/src/alt_gettod.c:76-112 | with a rate that divides a million, and as long as the right time fits 32 bits, a reading is exactly the time set plus (n - n0) * (10^6 / rate) microseconds, n and n0 counted without wrapping, if and only if the product was harmless, the 32-bit counter has not wrapped in between (or there is one tick a second), and the second before the borrow fits; or the time was 0, read at once, and is cut off there |
| `TimeOfDay.LaterReadingFails` | software/aes_aca_bsp/HAL/src/alt_gettod.c:76-112 | at 1000 ticks a second the reading is right a day later, and after 2^32 ticks it is the time that was set |
| `TimeOfDay.OnlyIfHolds` | software/aes_aca_bsp/HAL/src/alt_gettod.c:91-112 | the other way round: an exact reading is exact for one of those reasons |
| `TimeOfDay.SteadyIff` | software/aes_aca_bsp/HAL/src/alt_gettod.c:91-93 | every tick adds 10^6 / rate microseconds if and only if the rate divides a million |
| `TimeOfDay.FirstSecond` | software/aes_aca_bsp/HAL/src/alt_gettod.c:91-93 | otherwise the first full second counts twice |
| `TimeOfDay.FractionsAgreeIff` | software/aes_aca_bsp/HAL/src/alt_settod.c:83-84 | when the 32-bit product of settimeofday and the 64-bit one of gettimeofday agree |
| `TimeOfDay.ElapsedExact` | software/aes_aca_bsp/HAL/src/alt_gettod.c:91-93 | seconds and microseconds together are the number of ticks times the microseconds in a tick |
| `TimeOfDay.Clock.GetTimeOfDay` | software/aes_aca_bsp/HAL/src/alt_gettod.c:71-124 | in 32-bit arithmetic throughout, on the tick count modulo 2^32, the two normalising loops end in the normal form of the sum, or in 0 where there are too few seconds to borrow; -ENOTSUP without a clock |
| `TimeOfDay.Clock.SetTimeOfDay` | software/aes_aca_bsp/HAL/src/alt_settod.c:72-96 | what is kept is the time less what the ticks so far amount to; -1, and nothing kept, without a clock |
| `LogPrintf.Log.PrintInteger` | software/aes_aca_bsp/HAL/src/alt_log_printf.c:205-297 | for every 32-bit word, signedness, base, flag and width, what is printed is the text of the number, of which the next lemmas say what it is |
| `LogPrintf.ZeroFlagMeans` | software/aes_aca_bsp/HAL/src/alt_log_printf.c:259-266 | with the zero flag a sign comes first, and all the rest are digits, so there are no spaces |
| `LogPrintf.NoZeroFlagMeans` | software/aes_aca_bsp/HAL/src/alt_log_printf.c:268-279 | without it there are but spaces before the sign and the digits, none of which is to spare |
| `LogPrintf.NumberMeans` | software/aes_aca_bsp/HAL/src/alt_log_printf.c:238-245 | a signed word stands for the number of the same residue modulo 2^32 from -2^31 to 2^31 - 1 |
| `LogPrintf.IntegerRoundTrip` | software/aes_aca_bsp/HAL/src/alt_log_printf.c:205-297 | that text is read back as the number, the smallest one included |
| `LogPrintf.ConversionReadsBack` | software/aes_aca_bsp/HAL/src/alt_log_printf.c:202-317 | what each number conversion prints is read back, in its base, as the argument, signed for d and i |
| `LogPrintf.ConversionDigits` | software/aes_aca_bsp/HAL/src/alt_log_printf.c:287-291 | X prints A to F, the others a to f |
| `LogPrintf.TextConversions` | software/aes_aca_bsp/HAL/src/alt_log_printf.c:318-332 | c and s print the character or the string whole, at the right end of the width, after spaces |
| `LogPrintf.DigitsMinimal` | software/aes_aca_bsp/HAL/src/alt_log_printf.c:247-255 | there is at least one digit, and no leading zero but in 0 |
| `LogPrintf.TextLength` | software/aes_aca_bsp/HAL/src/alt_log_printf.c:257-280 | the text is as long as the width, or as the digits and the sign if they need more |
| `LogPrintf.LeadingRoundTrip` | software/aes_aca_bsp/HAL/src/alt_log_printf.c:259-280 | sign and padding of either kind can be skipped when the number is read back |
| `LogPrintf.Log.CountDigits` | software/aes_aca_bsp/HAL/src/alt_log_printf.c:247-255 | the loop counts the digits, and the place value that it builds up does not overflow |
| `LogPrintf.Log.PrintDigits` | software/aes_aca_bsp/HAL/src/alt_log_printf.c:282-297 | dividing by ever smaller place values prints the digits, most significant first |
| `LogPrintf.FirstDigit` | software/aes_aca_bsp/HAL/src/alt_log_printf.c:282-296 | the quotient by the largest place value is the first digit, and the remainder has the others |
| `LogPrintf.DigitsRoundTrip` | software/aes_aca_bsp/HAL/src/alt_log_printf.c:282-297 | the digits stand for the number in every base |
| `LogPrintf.Log.PrintLeading` | software/aes_aca_bsp/HAL/src/alt_log_printf.c:257-280 | sign and padding, in the order that the zero flag asks for |
| `LogPrintf.Log.StripSign` | software/aes_aca_bsp/HAL/src/alt_log_printf.c:238-245 | the magnitude and the sign of the word |
| `LogPrintf.Log.RepChar` | software/aes_aca_bsp/HAL/src/alt_log_printf.c:106-110 | a character so many times, or not at all for a negative count |
| `LogPrintf.Log.Printf` | software/aes_aca_bsp/HAL/src/alt_log_printf.c:114-340 | the three-state interpreter prints what the format means when it is read as literal characters, %% and directives of a zero flag, flag characters and a letter |
| `LogPrintf.LiteralText` | software/aes_aca_bsp/HAL/src/alt_log_printf.c:136-154 | a format prints what comes before its first per cent sign as it is |
| `LogPrintf.DirectivePrints` | software/aes_aca_bsp/HAL/src/alt_log_printf.c:156-335 | a directive prints its conversion, with the zero flag if a zero follows the per cent sign, and takes an argument if its letter is one of those that print |
| `LogPrintf.PerCent` | software/aes_aca_bsp/HAL/src/alt_log_printf.c:163-167 | two per cent signs print one |
| `LogPrintf.UnfinishedPrintsNothing` | software/aes_aca_bsp/HAL/src/alt_log_printf.c:131-175 | a directive that the format breaks off prints nothing |
| `LogPrintf.UnknownLetterPrintsNothing` | software/aes_aca_bsp/HAL/src/alt_log_printf.c:200-336 | an unknown letter prints nothing and takes no argument |
| `LogPrintf.WidthReads` | software/aes_aca_bsp/HAL/src/alt_log_printf.c:172-195 | the width is the decimal number before the point, and there is none if nothing comes before it |
| `LogPrintf.Log.FlagChar` | software/aes_aca_bsp/HAL/src/alt_log_printf.c:172-199 | the width is the number made of the digits before the point |
| `LogPrintf.Log.Convert` | software/aes_aca_bsp/HAL/src/alt_log_printf.c:202-335 | what each conversion letter prints |
| `LogPrintf.LetterEnds` | software/aes_aca_bsp/HAL/src/alt_log_printf.c:196-202 | a directive ends at the first character that is not a flag character |
| `FdTable.ExclusiveOverRuns` | software/aes_aca_bsp/HAL/src/alt_open.c:64-92 | over any run of open, close, lock, unlock and redirect in which a descriptor keeps its lock on a device, it goes on holding it, and no other descriptor comes to refer to the device |
| `FdTable.OpensRefusedOverRuns` | software/aes_aca_bsp/HAL/src/alt_open.c:143-168 | every open of the device in such a run fails, and leaves the descriptors as they were |
| `FdTable.GrantedLockRefuses` | software/aes_aca_bsp/HAL/src/alt_fd_lock.c:54-75 | once a lock has been granted, every later open of the device is refused until the descriptor is unlocked, closed or redirected |
| `FdTable.GrantedLockHolds` | software/aes_aca_bsp/HAL/src/alt_fd_lock.c:69 | a granted lock is held, and nothing else has changed |
| `FdTable.UnlockEnds` | software/aes_aca_bsp/HAL/src/alt_fd_unlock.c:52-56 | an unlocked descriptor no longer holds its device, and goes on referring to it |
| `FdTable.OpenedIff` | software/aes_aca_bsp/HAL/src/alt_open.c:116-171 | a name is opened if and only if it is known, some descriptor is free, nobody holds the device and its own open succeeds; it gets the lowest free descriptor, without the lock, and no other one changes; -ENODEV, -EMFILE and -EACCES tell why not |
| `FdTable.ClosedIsReused` | software/aes_aca_bsp/HAL/src/alt_close.c:71-90 | a descriptor above 2 that has been closed, whatever the driver returned, is free to be opened again |
| `FdTable.NegativeDescriptor` | software/aes_aca_bsp/HAL/src/alt_close.c:67-100 | what a failed open returned is not followed: -EBADFD or -1, and nothing changed |
| `FdTable.RedirectedMeans` | software/aes_aca_bsp/HAL/src/alt_io_redirect.c:58-72 | a redirected standard descriptor refers to the device, and uses up no other descriptor |
| `FdTable.RunValid` | software/aes_aca_bsp/HAL/src/alt_get_fd.c:77-89 | in every run the mark covers every descriptor that is open once one has been handed out, and free descriptors are clear |
| `FdTable.StepKeepsOut` | software/aes_aca_bsp/HAL/src/alt_open.c:79-88 | no single operation that does not concern the holder takes its lock away or lets anybody in |
| `FdTable.StepValid` | software/aes_aca_bsp/HAL/src/alt_release_fd.c:44-51 | every operation keeps the table in order |
| `FdTable.LockWronglyGrantedIff` | software/aes_aca_bsp/HAL/src/alt_fd_lock.c:61-69 | a lock is granted although another descriptor refers to the device if and only if the highest descriptor is the only other one that does |
| `FdTable.LockGrantedIff` | software/aes_aca_bsp/HAL/src/alt_fd_lock.c:61-69 | a lock is granted if and only if no descriptor but the one at the mark shares the device; -EACCES, and nothing changed, otherwise |
| `FdTable.LockWronglyGranted` | software/aes_aca_bsp/HAL/src/alt_fd_lock.c:61-69 | a run of four descriptors that ends in such a lock: standard input is redirected to a device, the device is opened again, and standard input is granted it |
| `FdTable.LockRightlyGrantedHere` | software/aes_aca_bsp/HAL/src/alt_fd_lock.c:61-69 | with four descriptors, the standard ones on one device, as this system is configured, every lock that is granted is granted rightly |
| `FdTable.Files.Open` | software/aes_aca_bsp/HAL/src/alt_open.c:105-171 | -1 with the descriptors restored unless the name is known, a descriptor is free, nobody else holds the device and its own open succeeds; otherwise the first free descriptor |
| `FdTable.Files.FileLocked` | software/aes_aca_bsp/HAL/src/alt_open.c:64-92 | the scan up to the mark finds out whether any other descriptor holds the device |
| `FdTable.Files.GetFd` | software/aes_aca_bsp/HAL/src/alt_get_fd.c:54-101 | the first free descriptor, never a standard one, or -EMFILE with nothing changed |
| `FdTable.Files.FdLock` | software/aes_aca_bsp/HAL/src/alt_fd_lock.c:54-75 | granted if and only if no other descriptor below the mark refers to the device; then the descriptor holds the device |
| `FdTable.Files.FdUnlock` | software/aes_aca_bsp/HAL/src/alt_fd_unlock.c:52-56 | only the lock of that descriptor is cleared |
| `FdTable.Files.Ioctl` | software/aes_aca_bsp/HAL/src/alt_ioctl.c:106-168 | lock requests are for devices only; the driver sees to the others |
| `FdTable.Files.Close` | software/aes_aca_bsp/HAL/src/alt_close.c:64-101 | the descriptor is freed whatever the driver returns, unless it is a standard one |
| `FdTable.Files.ReleaseFd` | software/aes_aca_bsp/HAL/src/alt_release_fd.c:44-51 | standard descriptors are never freed |
| `FdTable.Files.OpenFd` | software/aes_aca_bsp/HAL/src/alt_io_redirect.c:58-72 | a standard descriptor takes over what was opened, or stays as it is |
| `Debouncer.AssignedIff` | bounce_filter.vhd:43-51 | once the input of a lane has changed, its output is assigned at an edge if and only if the last 2^w + 1 samples are equal, w being the counter width |
| `Debouncer.LastingChange` | bounce_filter.vhd:43-51 | a change that lasts that long reaches the output at exactly that edge |
| `Debouncer.ShortPulse` | bounce_filter.vhd:43-51 | a shorter pulse never does |
| `Debouncer.UnstableInputIsIgnored` | bounce_filter.vhd:43-51 | as long as the input keeps changing sooner than that, the output stays as it is |
| `Debouncer.CounterSince` | bounce_filter.vhd:43-47 | the counter tells how long the input has been stable |
| `Debouncer.BounceFilter.Clock` | bounce_filter.vhd:30-54 | after any number of edges each lane is where its own samples take it: lanes do not affect each other |
| `Debouncer.BounceFilter.RisingEdge` | bounce_filter.vhd:30-54 | one edge: all processes read the registers as they were before it |
| `Debouncer.EighteenBits` | bounce_filter.vhd:22-25 | counters of 18 bits count 2^18 edges, which is more than the 200000 of 10 ms |

## Left out

- SpiMaster.Spi.Command: a command that neither writes nor reads a byte is excluded, because its loop never ends; no caller sends one. The slave select register and the flag that releases the chip after every byte are not modelled; the flash stack uses slave 0 and never that flag.
- SpiMaster.Spi.Shift: data is passed as sequences, not through pointers into the caller's buffers, so aliasing is not captured; the same holds for the buffers of EpcsFlash, JtagUart and LogPrintf.
- EpcsFlash.Flash.Write: what it does with a negative length, which its int parameter allows, is not modelled; regions whose block size is not the sector size of the chip are excluded; registering the device with the file system, and the routine that hands out the region table, are left out.
- EpcsFlash.Flash.WriteBlock: ranges that end within a page of 2^31, where the address of the next page overflows, are excluded.
- EpcsCommands.ReadBuffer: in 4-byte mode the chip must not be busy, because the switch of mode, which the code sends before it polls, would be ignored; every routine that starts a write waits for its end.
- EpcsCommands.ReadStatus: writing the status register is left out; nothing in the flash stack does it.
- JtagProtocol.RunInv: one reader and one writer, as the semaphores are empty in this build; the variants for small memory and for an operating system are left out, and so is the option to ignore a full FIFO.
- JtagUart.Driver.Read: that the host is still silent when an error is returned is not promised, since it may come back before the result is computed.
- JtagUart.Driver.Interrupts: the once-a-second routine that counts how long the host has been silent is an arbitrary change of that count; the ioctl that sets the limit is left out.
- AlarmList.Scheduler.Start: starting an alarm that is in the list, which would break the links, is excluded.
- AlarmList.Scheduler.Stop: stopping an alarm that was never started, which follows a null pointer, is excluded.
- AlarmList.Scheduler.Callback: callbacks do not stop the alarm that the tick goes on to, after which the walk would not end, and do not restart the alarm whose callback they are, whose due time would be spoilt. Callback and context pointers are not modelled.
- AlarmList.Scheduler.Tick: the hook of the operating system at the end of a tick is left out.
- TimeOfDay.Clock.GetTimeOfDay: carrying seconds beyond 2^31 - 1, which C leaves undefined, wraps.
- TimeOfDay.Clock.SetTimeOfDay: the error number is left out.
- TimeOfDay.LaterReadingIff: times before 1970, which the code cuts off at 0 in some cases and not in others, and times that do not fit 32 bits are excluded.
- TimeOfDay.ReadBackIff: the microseconds set have to be between 0 and 999999, as for any time value.
- LogPrintf.Log.Printf: a width too large for an int is not modelled; the wait for the output device before each character is left out, and so are the logging macros around it.
- FdTable.Files.Open: finding the device that a name refers to, and what the open, close and ioctl routines of devices do, are parameters; the private pointer of a descriptor is left out.
- FdTable.Files.Close: a descriptor that is not open is excluded, because the code then follows a null pointer.
- FdTable.Files.Ioctl: of the requests, only the two for locking are modelled; a descriptor that is not open is excluded, because the code then follows a null pointer.
- Debouncer.BounceFilter.RisingEdge: the metavalues of std_logic are not modelled; the registers power up in any state instead.
- Aes.KeyExpand128: a key that is the beginning of the schedule array itself is excluded, because arrays do not overlap in part; the same holds for Aes.ExpandKey.
- Aes.ExpandKey: the branch for keys of more than six words is left out, as the key has four; source and schedule may not be the destination array.
- Aes.EncryptTables: words are four bytes, so that the byte order of the processor plays no part.
- The main program, the drawing and scrolling on the LED display, and the custom instruction, whose hardware description is not part of this model.
- The timer, performance counter, system id and parallel port drivers: register accesses only.
- Heap growth, profiling, cache, exception entry, boot code and the stubs for processes: assembly, or one branch each.
