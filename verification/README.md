# Wheelson: verified models of the robot firmware and its clients

Dafny models of the Investigator firmware (queues, camera path, command and update
channels, motion controller), of the Python programs at the other end of its
connections, of the motor board, and of the over-the-air update helpers and the
magnetometer driver that ship with it. Each part is written twice: as functions or a
transition system, about which the theorems are stated, and as classes and loops on
mutable state in the form of the original, whose methods are proved to do exactly what
those functions say.

| files | part |
|---|---|
| `FifoModel`, `FifoSafety`, `FifoCalls`, `FifoWakeup`, `FifoLostWakeup`, `FifoSleepers`, `FifoWaitBound`, `FifoSystem` | the blocking PDU queue, for any number of threads and any interleaving of their statements |
| `PingPong`, `PingPongProgress`, `PingPongTokens`, `PingPongTable` | the camera buffer table, one writer and one reader |
| `CameraCutter`, `CameraBounds`, `CameraWire`, `CameraTask`, `CameraSystem`, `JpegFramer`, `VideoPipeline`, `StrayMarkers` | the camera path from the camera FIFO to the client's images |
| `Pdu`, `PduCodec`, `UpdateLink` | the PDU wire format, in C and in Python, over fragmented streams, and the update link from queue to client |
| `Motion`, `MoveLog`, `DeadReckoning`, `ControlTask` | MOVE commands under obstacle alarms, and what the real robot does meanwhile |
| `MotorBoard`, `MotorRun`, `MotorTask` | the H-bridge driver and its main loop, interrupted by the UART |
| `OtaWindow`, `OtaVerdict`, `OtaTermination`, `OtaTask` | the sliding receive window of an update |
| `Base64`, `Base64Decoder`, `JsonScan` | base64 decoding (RFC 4648, section 4) and object scanning |
| `Tlv`, `TlvTask` | the argument list handed to web services |
| `AutoRange` | the auto-ranging loop of the magnetometer |
| `Common`, `Sequences` | bytes, remainders, ends and joins of sequences |

Conventions. A concurrent program is a total step function folded over a schedule; a
thread that is scheduled while blocked stays where it is, so a theorem over all
schedules covers all interleavings. Semaphores are natural numbers. History fields
(what was put, taken, flushed, received) exist for the statements only. Inputs the code
reads from outside (alarm, sensor, network, archive parser) are parameters, and the
theorems hold for all their values.

Where the code does not do what it is meant to do, the model follows the code and a
theorem gives the exact condition:

- A wake-up of the PDU queue can be lost, exactly with two slots, two threads on the
  waiting side and one on the other (`FifoLostWakeup.LostWakeupExactly`); the thread then
  sleeps until its own side has used up the room (`FifoSleepers.AsleepWhileRoom`). The
  transmit queue has two putters (controlHandler.c:345 and sensorHandler.c:98). The
  system as a whole still never deadlocks.
- The camera cutter writes one byte past its buffer exactly when some frame in the
  camera FIFO is one byte longer than a whole number of buffers
  (`CameraBounds.StoresInBounds`); camHandler.c:96 tests for the end of the frame before
  the bound. Those lengths are excluded from the end-to-end theorem.
- An EOI pair behind a frame overwrites the first byte of the frame's last part
  (camHandler.c:97). The frame still comes out exactly when there is none or that byte was
  the same (`StrayMarkers.ComesOutExactly`); the end-to-end theorem asks for that.
- Of several frames in one capture all but the last lose their last part, since each
  starts at the beginning of the buffer again (`CameraWire.CaptureOnWire`).
- A command arrives as sent exactly when its announced length is at most 32, so that it
  fits the receive buffer, and no NUL is sent inside it (`PduCodec.CommandRoundTrip`).
- A MOVE ends at its destination exactly when no alarm shows in the pass after arrival
  (`Motion.MoveArrivesExactly`), and stays recorded there exactly when no alarm shows
  before the next wait (`Motion.AlarmWhileWaiting`); otherwise uninitialised coordinates
  are recorded.
- Every MOVE drives one cell further than it records, and the turn from north to west
  (0 to 270) is one left turn, which leaves the robot facing the opposite way
  (`DeadReckoning.JourneyLaw`, `DriftLaw`, `HeadingLaw`, `BadTurnExample`). This takes a
  left turn to add 90 degrees, as the rotation code does for every other turn
  (controlHandler.c:436-458); with the opposite convention that turn would be right and
  all other quarter turns wrong.
- `turnOffMotor(MOTOR1)` stops timer A0, although motor 1 is on A1 (motorDriver.c:186);
  the pins still go low. A STOP inside the set-up of a move is lost exactly while a pin is
  still to be handed to its timer (`MotorBoard.StopInSetUp`).
- A letter that arrives while a move runs is forgotten with it, and the timer of motor 1
  counts on after the move (`MotorRun.MoveEnds`).
- No motor ever has both inputs high exactly when at boot no motor has both output latches
  high (`MotorBoard.FullInterlockExactly`); initMotors does not set them.
- Unless the network announces more data for ever, the update loop fails to end exactly
  when from some pass on bytes wait near the end of the file and the parser neither fails
  nor finishes nor takes any (`OtaTermination.EndlessExactly`).
- The reported percentage is the true one exactly while a hundred times the bytes taken
  fits 32 bits; beyond, it falls back to 0 (`OtaWindow.PercentTrueExactly`,
  `MonotoneExactly`); and past the announced length it wraps at 256 (`PastTheEnd`).
- The base64 decoder accepts texts that are not canonical; it is lossless exactly on the
  canonical ones (`Base64.LosslessExactly`).
- A JSON object split over two buffers, which the scan of both together would end at a
  place in the second, is ended there exactly when the part in the first buffer was
  balanced (`JsonScan.ResumeExactly`); it is not when the object is closed, or still
  nested, at the end of the first buffer.
- The object scan depends on the byte behind the received data exactly when the object is
  closed and only white space follows (`JsonScan.EndByteExactly`).
- The room for a string value is cut to eight bits: every string is kept whole exactly
  when it is less than 256 bytes (`Tlv.AllArriveExactly`).
- An argument list is readable exactly with fewer than 256 records, and a string record
  exactly with fewer than 255 bytes (`TlvTask.ArgList.Visit`, `PutString`).
- The gain written when the magnetometer is initialised goes to the rate register
  (LSM303DLH.c:133); the driver's record and the loop do not depend on it.

## Model

| member | source | states |
|---|---|---|
| `FifoSafety.QueueSafety` | ccs_workspace/0_Investigator/shared.c:105-173 | for any number of threads and every interleaving: what getters took is a prefix of what putters put, `avail` is the difference and stays between 0 and `size`, and with the lock free `head` is `avail` slots past `tail` and the ring read from `tail` is exactly what is still queued |
| `FifoSafety.StepRefines` | ccs_workspace/0_Investigator/shared.c:122-173 | every single step of every thread is a step of an abstract bounded queue: enqueue only below capacity, dequeue only the oldest |
| `FifoSafety.InHand` | ccs_workspace/0_Investigator/shared.c:131-132 | a thread scheduled outside gets into its call; the PDU counted in is the one put was called with, and the one counted out is the one get copied |
| `FifoCalls.OnePduPerCall` | ccs_workspace/0_Investigator/shared.c:122-173 | one call, one PDU, over every schedule: what the queue takes in during a thread's turns is exactly the arguments of its calls of put so far, in order, less the one still in hand; what it gives out is exactly what its calls of get return; begun and returned calls differ by the one it is in |
| `FifoSafety.StepInv` | ccs_workspace/0_Investigator/shared.c:124-170 | mutual exclusion, ring contents and counters survive every step, also in the middle of a critical section |
| `FifoWakeup.NoDeadlock` | ccs_workspace/0_Investigator/shared.c:122-173 | with at least one putter and one getter, at every point of every interleaving some thread can move |
| `FifoWakeup.WakeStep` | ccs_workspace/0_Investigator/shared.c:124-141 | if all threads of one side sleep, that side has no room, or a token exists, or one is about to be posted; every step keeps this |
| `FifoLostWakeup.LostWakeupExactly` | ccs_workspace/0_Investigator/shared.c:124-141 | some interleaving leaves a thread asleep beside free room, with no token, and everybody else outside the queue or asleep, if and only if the queue has two slots, its side two threads and the other side one |
| `FifoLostWakeup.StrandSomeone` | ccs_workspace/0_Investigator/controlHandler.c:345 | the construction behind it, for any such team; the transmit queue has two putters, the control and the sensor thread |
| `FifoLostWakeup.StrandedOnlyIf` | ccs_workspace/0_Investigator/shared.c:153-169 | a single waiter on its side is never stranded, and neither is anyone on a one-slot queue |
| `FifoSleepers.AsleepWhileRoom` | ccs_workspace/0_Investigator/shared.c:124-141 | such a thread sleeps exactly as long as its side has room: every schedule that leaves room after each turn leaves it asleep, and some schedule wakes it |
| `FifoSleepers.StillAsleep` | ccs_workspace/0_Investigator/shared.c:137-139 | the step behind it: asleep beside room, without a token and without a post under way, stays so after every step that leaves room |
| `FifoWaitBound.SleepsAtMost` | ccs_workspace/0_Investigator/shared.c:125-129 | from any reachable state, a call by the only thread of its side sleeps at most (tokens at its start) + 1 times |
| `FifoSystem.SharedFifo.constructor` | ccs_workspace/0_Investigator/shared.c:105-115 | initialisation gives the empty queue with the lock free and no tokens |
| `FifoSystem.SharedFifo.PutTurn` | ccs_workspace/0_Investigator/shared.c:122-144 | each statement of put on the mutable queue is the transition the theorems are about |
| `FifoSystem.SharedFifo.GetTurn` | ccs_workspace/0_Investigator/shared.c:151-173 | the same for get |
| `FifoSystem.SharedFifo.Execute` | ccs_workspace/0_Investigator/shared.c:122-173 | any schedule executed on the mutable queue yields the state of the transition system |
| `FifoSystem.SharedFifo.Serve` | ccs_workspace/0_Investigator/shared.c:122-173 | first in, first out, and the ring contents, on the mutable queue under any schedule |
| `PingPong.LoanSafety` | ccs_workspace/0_Investigator/pingpong_ipc.c:69-127 | one writer, one reader, every interleaving: they never hold the same buffer, the reader sees exactly the bytes handed over, and the bytes sent are a prefix of the buffers handed over, in order |
| `PingPong.Ownership` | ccs_workspace/0_Investigator/pingpong_ipc.c:69-91 | although get claims nothing, the writer's buffer is none of those still to be sent |
| `PingPong.RunInv` | ccs_workspace/0_Investigator/pingpong_ipc.c:60-127 | lock, counters, contents, ownership, script and wake-up invariants hold after every schedule |
| `PingPong.StuckIsDone` | ccs_workspace/0_Investigator/pingpong_ipc.c:74-84 | no wake-up is lost: when neither side can move, everything has been written and sent |
| `PingPongTokens.OneTokenEach` | ccs_workspace/0_Investigator/pingpong_ipc.c:105-126 | over every interleaving each semaphore has been posted exactly once for each time the table stopped being empty, or full, less a post about to be made, and each wake-up has taken one token |
| `PingPongTokens.OneLoanPerCall` | ccs_workspace/0_Investigator/pingpong_ipc.c:69-127 | the reader gives back exactly one buffer for each call of get, and a scheduled reader outside a call begins one |
| `PingPongTable.BufferTable.constructor` | ccs_workspace/0_Investigator/pingpong_ipc.c:47-58 | the initial state, with the counters the initialiser leaves to the zeroed global |
| `PingPongTable.BufferTable.WriterGet` | ccs_workspace/0_Investigator/pingpong_ipc.c:81-90 | the statements of get for the writer, on the mutable table |
| `PingPongTable.BufferTable.ReaderGet` | ccs_workspace/0_Investigator/pingpong_ipc.c:73-90 | the statements of get for the reader |
| `PingPongTable.BufferTable.WriterUpdate` | ccs_workspace/0_Investigator/pingpong_ipc.c:115-126 | the statements of update for the writer |
| `PingPongTable.BufferTable.ReaderUpdate` | ccs_workspace/0_Investigator/pingpong_ipc.c:105-126 | the statements of update for the reader |
| `PingPongTable.BufferTable.ReaderHold` | ccs_workspace/0_Investigator/tcpHandler.c:87-89 | the socket task sends the whole lent buffer |
| `PingPongTable.BufferTable.Execute` | ccs_workspace/0_Investigator/pingpong_ipc.c:69-127 | any schedule of both tasks on the mutable table yields the state of the transition system |
| `PingPongTable.BufferTable.Serve` | ccs_workspace/0_Investigator/pingpong_ipc.c:69-127 | loan safety and the order of what was sent, on the mutable table under any schedule |
| `CameraCutter.CaptureCut` | ccs_workspace/0_Investigator/camHandler.c:81-123 | one capture of a frame puts the frame on the wire, the first byte of its last part overwritten if a stray EOI pair follows it, then a stale tail that never contains a SOI pair, and leaves the reused buffers fit for the next capture |
| `StrayMarkers.ComesOutExactly` | ccs_workspace/0_Investigator/camHandler.c:96-99 | the frame then reaches the client if and only if no stray EOI pair follows it, or the overwritten byte was the same |
| `CameraBounds.StoresInBounds` | ccs_workspace/0_Investigator/camHandler.c:81-123 | whatever the camera FIFO holds, one capture stays inside its buffers if and only if no frame in it is one byte longer than a whole number of buffers |
| `CameraWire.CaptureOnWire` | ccs_workspace/0_Investigator/camHandler.c:81-123 | whatever the camera FIFO holds, if it stays in bounds: the whole buffers of every frame go out in order, then those of a frame cut off at the end, then one more buffer that starts with the rest of that frame or of the last complete one |
| `CameraCutter.CaptureInBounds` | ccs_workspace/0_Investigator/camHandler.c:95-114 | for a capture of one frame: if and only if that frame is not |
| `CameraTask.CameraBuffers.CamCapture` | ccs_workspace/0_Investigator/camHandler.c:81-123 | the capture loop on the reused two-dimensional array performs exactly the script of stores and hand-overs |
| `CameraSystem.CaptureBeside` | ccs_workspace/0_Investigator/camHandler.c:81-123 | any number of captures, after any earlier ones: the shared table always holds what the part of the script done so far makes of the initial buffers, the capture loop on its own makes of them what the whole script does, and once the writer is through the two agree |
| `CameraTask.CameraBuffers.Flush` | ccs_workspace/0_Investigator/camHandler.c:108-122 | handing a buffer over freezes its contents and moves on to the next one |
| `JpegFramer.FramerMeetsSpec` | Python/final_app/jpeg_client.py:71-110 | on every byte stream there is exactly one leftmost non-overlapping framing by SOI (FF D8) and EOI (FF D9) pairs, and the framer emits its images and nothing else |
| `JpegFramer.JpegClient` | Python/final_app/jpeg_client.py:54-110 | the receive loop emits the images of the joined stream, however it is split, also inside a marker |
| `JpegFramer.FramesPrefix` | Python/final_app/jpeg_client.py:71-110 | more input never takes back or changes an emitted image |
| `VideoPipeline.VideoEndToEnd` | ccs_workspace/0_Investigator/camHandler.c:81-123 | end to end, for any captures of one frame with a usable length and unchanged by stray EOI pairs, any number of buffers, any interleaving and any chunking: the client has emitted a prefix of the captured frames and nothing else, and all of them once nothing can move and all bytes have arrived |
| `VideoPipeline.VideoCompletes` | ccs_workspace/0_Investigator/tcpHandler.c:86-91 | and that point is reached: any schedule can be continued, within the bounded number of effective turns, to one after which nothing can move and every captured frame has come out |
| `PingPongProgress.BoundedWork` | ccs_workspace/0_Investigator/pingpong_ipc.c:69-127 | in no schedule do more than (size + 26) turns per operation of the script, and size + 7 more, change anything |
| `VideoPipeline.CapturesFramed` | ccs_workspace/0_Investigator/tcpHandler.c:86-91 | the sent buffers, stale tails included, frame into exactly the captured frames |
| `VideoPipeline.ScriptsNested` | ccs_workspace/0_Investigator/camHandler.c:89-122 | the camera code always alternates get, stores and update, as the table requires |
| `PduCodec.FillBuffer` | ccs_workspace/0_Investigator/shared.c:179-185 | a block is 5E FF, then command, x, y, length and the 32 message bytes |
| `PduCodec.ReadBuffer` | ccs_workspace/0_Investigator/shared.c:190-198 | a block that starts with 5E FF yields the PDU whose fields follow in that order, the one it is the encoding of; any other is refused and the old PDU stays |
| `PduCodec.ClientPdu.GetBuff` | Python/final_app/cmd_client.py:44-61 | the client takes its fields from behind the first start marker, changes nothing without one, and says when a short buffer raises |
| `PduCodec.Connection.Receive` | Python/final_app/wheelsonTCP.py:52-67 | exactly one block is taken from the stream, however the network cuts it |
| `PduCodec.UpdateProcess` | Python/final_app/cmd_client.py:157-170 | update channel round trip: for every list of PDUs and every fragmentation the client decodes the same list and stays aligned |
| `UpdateLink.UpdateLinkEndToEnd` | ccs_workspace/0_Investigator/tcpHandler.c:158-169 | the whole update link: for any threads, interleaving and fragmentation, and whatever part of the bytes has arrived, the client has decoded exactly the first PDUs put into the transmit queue, in order, one per whole block |
| `PduCodec.PutBuff` | Python/final_app/cmd_client.py:63-77 | what the client sends: six header bytes, the first length - 1 characters and a NUL (seven bytes for length 0); it raises exactly when the message is shorter than that |
| `PduCodec.CommandRoundTrip` | ccs_workspace/0_Investigator/tcpHandler.c:235-242 | command channel round trip, whatever the receive buffer held before: command, coordinates, length and the first length - 1 characters as a C string come back if and only if the length is at most 32 and none of these characters is NUL; that length is also when nothing is left for the next receive |
| `Motion.MoveConverges` | ccs_workspace/0_Investigator/controlHandler.c:254-330 | under any pattern of alarms that is clear in the pass after arrival, the recorded positions form one x-first walk of unit steps ending at the destination, with one forward command per cell and one more |
| `Motion.MoveArrivesExactly` | ccs_workspace/0_Investigator/controlHandler.c:254-330 | a MOVE ends at its destination whatever uninitialised memory holds if and only if the alarm is clear in the pass after arrival |
| `Motion.EntryAtDestination` | ccs_workspace/0_Investigator/controlHandler.c:266-315 | entered at its destination, the handler records whatever `next_x` and `next_y` hold and drives one cell on |
| `Motion.AlarmWhileWaiting` | ccs_workspace/0_Investigator/controlHandler.c:139-178 | between commands, for any alarms: the recorded positions stay as they are, whatever uninitialised memory holds, if and only if no alarm shows in the test before waiting; otherwise the last MOVE is entered again and that memory is recorded |
| `Motion.OneAlarmWhileWaiting` | ccs_workspace/0_Investigator/controlHandler.c:142-144 | one such alarm, concretely: uninitialised coordinates recorded, and one forward command |
| `MoveLog.MoveCommands` | ccs_workspace/0_Investigator/controlHandler.c:254-330 | what any MOVE sends under any alarms: every turn and every forward command is followed at once by a stop, every rotation is opened by one, and the last cell comes without a rotation |
| `MoveLog.IdleHalts` | ccs_workspace/0_Investigator/controlHandler.c:139-178 | the same for what alarms make of the last MOVE between commands |
| `MoveLog.QuarterTurns` | ccs_workspace/0_Investigator/controlHandler.c:436-461 | on the compass, one left turn for each quarter to a larger heading, except one for three quarters, and one right turn for each quarter to a smaller one |
| `MoveLog.AlarmLaw` | ccs_workspace/0_Investigator/controlHandler.c:139-178 | the first alarm of a MOVE, test by test: at the top of the control loop it is waited out; inside the handler the cells taken are half the clear tests before it, the robot faces where it was to go next if it had turned, and the MOVE goes on from there two tests later; without one it takes two tests a cell and three more |
| `MoveLog.AlarmAgain` | ccs_workspace/0_Investigator/controlHandler.c:139-178 | an alarm before waiting, then three clear tests: uninitialised coordinates recorded, and the robot waits as before with what the alarm shows then |
| `ControlTask.Controller.RotateToHeading` | ccs_workspace/0_Investigator/controlHandler.c:419-483 | the rotation code sends the modelled turns and updates the stored heading, and refuses headings outside 0 to 360 |
| `ControlTask.Controller.MovePass` | ccs_workspace/0_Investigator/controlHandler.c:279-317 | one pass of the handler, alarm test included, on the globals |
| `ControlTask.Controller.ExeHandler` | ccs_workspace/0_Investigator/controlHandler.c:254-330 | the do loop on the globals, for a MOVE and for any other command |
| `ControlTask.Controller.MoveCommand` | ccs_workspace/0_Investigator/controlHandler.c:139-178 | the control loop from the handler's turn back to waiting, with detours through the collision handler |
| `DeadReckoning.MoveLanding` | ccs_workspace/0_Investigator/controlHandler.c:286-315 | closed form of where the real robot ends after one MOVE, interrupted or not |
| `DeadReckoning.RotationTurns` | ccs_workspace/0_Investigator/controlHandler.c:428-465 | a rotation turns the robot as recorded, except that north to west turns it the opposite way |
| `DeadReckoning.HeadingLaw` | ccs_workspace/0_Investigator/controlHandler.c:419-513 | over any sequence of MOVEs the stored heading stays on the compass, and the robot faces as recorded if and only if the number of north-to-west turns is even, otherwise the opposite way |
| `DeadReckoning.JourneyLaw` | ccs_workspace/0_Investigator/controlHandler.c:254-330 | after any sequence of MOVEs the real cell is a signed sum over the record: each leg and each extra cell counts forwards or backwards by the parity of the north-to-west turns so far |
| `DeadReckoning.DriftLaw` | ccs_workspace/0_Investigator/controlHandler.c:286-315 | without such turns, real cell minus recorded cell is the sum of the final-heading unit vectors, at most one cell per MOVE |
| `DeadReckoning.BadTurnExample` | ccs_workspace/0_Investigator/controlHandler.c:438-440 | the north-to-west turn at work, on a concrete MOVE |
| `MotorBoard.InterlockAlways` | Daniel Code/MotorBoardFirmware/motorDriver.c:104-251 | from boot, whatever arrives and between whatever register operations the interrupt comes, no motor has both inputs driven while its timer counts |
| `MotorBoard.FullInterlockExactly` | Daniel Code/MotorBoardFirmware/motorDriver.c:104-251 | counting plain outputs too, no motor ever has both inputs high, whatever arrives and wherever the interrupt comes, if and only if at boot no motor has both output latches high |
| `MotorBoard.StopHolds` | Daniel Code/MotorBoardFirmware/main.c:83-101 | a STOP that finds no pin still to be handed to a timer turns all inputs off and keeps them off until another move is set up |
| `MotorBoard.StopInSetUp` | Daniel Code/MotorBoardFirmware/motorDriver.c:202-208 | a STOP inside the set-up of a move: the board is soon idle for good, with all inputs off if and only if the last pin had already been handed over, which is after its twelfth operation, and driving a motor otherwise |
| `MotorBoard.StopCases` | Daniel Code/MotorBoardFirmware/main.c:50-70 | every reachable state is covered by one of these two laws |
| `MotorRun.MoveDrives` | Daniel Code/MotorBoardFirmware/motorDriver.c:202-251 | a received letter, whatever other bytes but STOP arrive: for 655350 turns exactly the inputs it asks for (table in `MotorRun.Inputs`) are on counting timers and the others low |
| `MotorRun.MoveEnds` | Daniel Code/MotorBoardFirmware/motorDriver.c:230-237 | 13 turns later all inputs are plain outputs driven low, the letter and all bytes since are forgotten, the board idles for good, and only the timer of motor 1 counts |
| `MotorRun.OtherBytesForgotten` | Daniel Code/MotorBoardFirmware/main.c:52-70 | any other byte is forgotten without touching a register |
| `MotorRun.PinsChangeHandsStill` | Daniel Code/MotorBoardFirmware/motorDriver.c:114-181 | whatever the registers were, no pin changes hands while its motor's timer counts |
| `MotorTask.Board.constructor` | Daniel Code/MotorBoardFirmware/motorDriver.c:13-73 | the registers after initialisation |
| `MotorTask.Board.TurnOffMotors` | Daniel Code/MotorBoardFirmware/motorDriver.c:184-199 | turning both motors off leaves every input low, whatever was set before, and starts no timer |
| `MotorTask.Board.Turn` | Daniel Code/MotorBoardFirmware/main.c:83-101 | one operation of main loop or interrupt on the mutable registers and flags |
| `MotorTask.Board.MainTurn` | Daniel Code/MotorBoardFirmware/main.c:50-71 | the main loop's share of it |
| `MotorTask.Board.Serve` | Daniel Code/MotorBoardFirmware/main.c:50-101 | any pattern of interrupts keeps the interlock on the mutable board, the full one if the latches were apart |
| `OtaWindow.WindowLaw` | ccs_workspace/out_of_box_CC3235S_LAUNCHXL_tirtos_ccs/link_local_task.c:805-987 | for any parser and any network: taken bytes are a prefix of the received ones, every received byte is taken or waiting, and the buffer is never overrun |
| `OtaWindow.ProgressLaw` | ccs_workspace/out_of_box_CC3235S_LAUNCHXL_tirtos_ccs/link_local_task.c:838-983 | while the parser takes no more than the announced length and a hundred times what it took fits 32 bits, the reported percentage never falls and never exceeds 100 |
| `OtaWindow.PercentExact` | ccs_workspace/out_of_box_CC3235S_LAUNCHXL_tirtos_ccs/link_local_task.c:838 | in that range the reported byte is at most 100, and 100 exactly when the file is complete |
| `OtaWindow.PercentTrueExactly` | ccs_workspace/out_of_box_CC3235S_LAUNCHXL_tirtos_ccs/link_local_task.c:838 | the reported byte is the true percentage if and only if a hundred times the bytes taken fits 32 bits |
| `OtaWindow.MonotoneExactly` | ccs_workspace/out_of_box_CC3235S_LAUNCHXL_tirtos_ccs/link_local_task.c:838 | over a whole file the report never falls if and only if a hundred times its length fits 32 bits |
| `OtaWindow.PercentFalls` | ccs_workspace/out_of_box_CC3235S_LAUNCHXL_tirtos_ccs/link_local_task.c:838 | the two counts between which it falls to 0, for every longer file; from 99 for a file of 42949673 bytes |
| `OtaWindow.PastTheEnd` | ccs_workspace/out_of_box_CC3235S_LAUNCHXL_tirtos_ccs/link_local_task.c:974 | the report is one byte: a parser that takes three times the announced length ends at 44 |
| `OtaVerdict.VerdictExactly` | ccs_workspace/out_of_box_CC3235S_LAUNCHXL_tirtos_ccs/link_local_task.c:843-987 | the verdict on the events alone: complete with 100 if and only if the last pass received what was due, was not refused and the parser was done; failed with the report unchanged if and only if that pass did not receive, was refused or the parser failed; otherwise the report is the percentage of all that was taken |
| `OtaVerdict.GoesOnExactly` | ccs_workspace/out_of_box_CC3235S_LAUNCHXL_tirtos_ccs/link_local_task.c:843-845 | when the loop goes on, in plain integers, unsigned wrap of the difference included |
| `OtaTermination.PassesBounded` | ccs_workspace/out_of_box_CC3235S_LAUNCHXL_tirtos_ccs/link_local_task.c:843-987 | for any parser and any network, the loop makes at most one pass for each received byte, one for each pass in which the parser takes nothing, and one to leave |
| `OtaTermination.EndlessExactly` | ccs_workspace/out_of_box_CC3235S_LAUNCHXL_tirtos_ccs/link_local_task.c:843-987 | unless the network announces more data for ever, the loop runs for ever if and only if, from some pass on, bytes are waiting near the end of the file and the parser neither fails nor finishes nor takes any |
| `OtaTermination.EndlessFromStart` | ccs_workspace/out_of_box_CC3235S_LAUNCHXL_tirtos_ccs/link_local_task.c:805-987 | such a run from the start, for every buffer of two bytes or more |
| `OtaTermination.TakingNothingLoops` | ccs_workspace/out_of_box_CC3235S_LAUNCHXL_tirtos_ccs/link_local_task.c:843-852 | a pass of that kind leaves everything but the place of the waiting bytes as it was, and the next one leaves everything |
| `OtaTask.OtaPut.MoveDown` | ccs_workspace/out_of_box_CC3235S_LAUNCHXL_tirtos_ccs/link_local_task.c:848-852 | the waiting part is moved to the start of the buffer intact, although source and target overlap |
| `OtaTask.OtaPut.Receive` | ccs_workspace/out_of_box_CC3235S_LAUNCHXL_tirtos_ccs/link_local_task.c:854-861 | a chunk lands behind it and disturbs nothing else |
| `OtaTask.OtaPut.ReceiveAndParse` | ccs_workspace/out_of_box_CC3235S_LAUNCHXL_tirtos_ccs/link_local_task.c:843-987 | one pass on the mutable buffer and counters |
| `OtaTask.OtaPut.Download` | ccs_workspace/out_of_box_CC3235S_LAUNCHXL_tirtos_ccs/link_local_task.c:805-987 | the whole loop on the mutable buffer and counters |
| `Base64.DecodeInvertsEncode` | ccs_workspace/out_of_box_CC3235S_LAUNCHXL_tirtos_ccs/ota_json.c:135-195 | decoding the RFC 4648 section 4 encoding of any non-empty byte string gives it back with its length, in all three padding cases |
| `Base64.LosslessExactly` | ccs_workspace/out_of_box_CC3235S_LAUNCHXL_tirtos_ccs/ota_json.c:135-195 | the decoder loses nothing if and only if the text is canonical in the sense of RFC 4648; other texts are accepted but not reproduced |
| `Base64.TableInverts` | ccs_workspace/out_of_box_CC3235S_LAUNCHXL_tirtos_ccs/ota_json.c:107-133 | the decode table inverts the alphabet, is zero on every other byte, and the padding character is no letter |
| `Base64.TestVectors` | ccs_workspace/out_of_box_CC3235S_LAUNCHXL_tirtos_ccs/ota_json.c:107-195 | the three padding cases of the test vectors of RFC 4648, section 10 |
| `Base64Decoder.B64.Init` | ccs_workspace/out_of_box_CC3235S_LAUNCHXL_tirtos_ccs/ota_json.c:107-133 | the table-filling loops produce exactly the alphabet and its inverse, zero elsewhere |
| `Base64Decoder.B64.Decode` | ccs_workspace/out_of_box_CC3235S_LAUNCHXL_tirtos_ccs/ota_json.c:135-195 | the decode loop writes exactly the decoded octets and reports their number, for any text with a length divisible by four, with every access in bounds, also when decoding in place |
| `Base64Decoder.GroupAt` | ccs_workspace/out_of_box_CC3235S_LAUNCHXL_tirtos_ccs/ota_json.c:160-191 | each group of four characters has its own place in the output |
| `JsonScan.FindEndObject` | ccs_workspace/out_of_box_CC3235S_LAUNCHXL_tirtos_ccs/ota_json.c:471-499 | the scan returns a position if and only if it is the first byte above space behind the first point where closing braces exceed opening ones by one, no NUL in between |
| `JsonScan.SkipsOneObject` | ccs_workspace/out_of_box_CC3235S_LAUNCHXL_tirtos_ccs/ota_json.c:471-499 | equivalently, it skips exactly one object of any nesting depth: the rendering of properly nested text and its closing brace |
| `JsonScan.SkipAllSpaces` | ccs_workspace/out_of_box_CC3235S_LAUNCHXL_tirtos_ccs/ota_json.c:94-105 | the skip stops at the first byte above space, and nowhere if NUL or the end comes first |
| `JsonScan.EndByteExactly` | ccs_workspace/out_of_box_CC3235S_LAUNCHXL_tirtos_ccs/ota_json.c:94-105 | the scan reads the byte at the end pointer; its result does not depend on that byte if and only if the object is not closed and followed by white space only up to there |
| `JsonScan.ResumeExactly` | ccs_workspace/out_of_box_CC3235S_LAUNCHXL_tirtos_ccs/ota_archive.c:413-427 | when the scan of two buffers together would end at a place in the second, the scan of the second alone, which starts again at depth one, returns that place if and only if the first part was balanced |
| `TlvTask.ArgList.Append` | ccs_workspace/out_of_box_CC3235S_LAUNCHXL_tirtos_ccs/link_local_task.c:2131-2310 | appending behind the existing records adds exactly the given ones |
| `TlvTask.ArgList.Visit` | ccs_workspace/out_of_box_CC3235S_LAUNCHXL_tirtos_ccs/link_local_task.c:1112-1163 | a reader visits the appended records in order and stops at the append point if and only if there are fewer than 256 |
| `TlvTask.ArgList.Skip` | ccs_workspace/out_of_box_CC3235S_LAUNCHXL_tirtos_ccs/link_local_task.c:2131-2144 | fast-forwarding lands behind the records counted so far |
| `TlvTask.ArgList.Search` | ccs_workspace/out_of_box_CC3235S_LAUNCHXL_tirtos_ccs/link_local_task.c:759-775 | the search stops at the first record of the type, or compares the bytes left over at the append point |
| `TlvTask.ArgList.Put` | ccs_workspace/out_of_box_CC3235S_LAUNCHXL_tirtos_ccs/link_local_task.c:2438-2445 | one record is written behind the list, type low byte first, then its length and value, and nothing behind it is touched |
| `Tlv.BytesInjective` | ccs_workspace/out_of_box_CC3235S_LAUNCHXL_tirtos_ccs/link_local_task.c:2189-2310 | different record lists have different bytes |
| `TlvTask.ArgList.PutString` | ccs_workspace/out_of_box_CC3235S_LAUNCHXL_tirtos_ccs/link_local_task.c:2202-2258 | as much of a string is kept as the length cut to eight bits has room for; the record is the intended one, with the cursor where a walker expects it, if and only if that is fewer than 255 bytes |
| `Tlv.ArrivesWhole` | ccs_workspace/out_of_box_CC3235S_LAUNCHXL_tirtos_ccs/link_local_task.c:2202-2258 | of a string behind its name as much is kept as fits into the real room modulo 256; it is readable as a record if and only if it is kept whole and shorter than 255 bytes |
| `Tlv.AllArriveExactly` | ccs_workspace/out_of_box_CC3235S_LAUNCHXL_tirtos_ccs/link_local_task.c:2202-2254 | every string is kept whole if and only if the room is less than 256 bytes |
| `Tlv.TypeExactly` | ccs_workspace/out_of_box_CC3235S_LAUNCHXL_tirtos_ccs/link_local_task.c:1811-1821 | two element types agree if and only if the element, one bit of isValue and seven bits of requestIdx agree |
| `Tlv.TypeLayout` | ccs_workspace/out_of_box_CC3235S_LAUNCHXL_tirtos_ccs/link_local_task.c:1811-1821 | the element is the low byte, bits 8 to 14 are requestIdx and bit 15 is isValue |
| `Tlv.TypeInjective` | ccs_workspace/out_of_box_CC3235S_LAUNCHXL_tirtos_ccs/link_local_task.c:1811-1821 | so they are distinct on the ranges the services use |
| `AutoRange.OrientLaw` | Libs/LSM303DLH/LSM303DLH.c:199-268 | one call ends for any readings; all passes but the last had an axis at 2040 counts or beyond; a field is reported if and only if the last was ready, within scale or at the last gain, each axis from its own register pair divided by its own counts per gauss |
| `AutoRange.RunLaw` | Libs/LSM303DLH/LSM303DLH.c:199-268 | over any run of calls the gain never falls, and passes exceed calls by exactly the gain steps |
| `AutoRange.FreshRun` | Libs/LSM303DLH/LSM303DLH.c:85-99 | so from a fresh record n calls make at most n + 6 passes |
| `AutoRange.Lsm303.SetGain` | Libs/LSM303DLH/LSM303DLH.c:275-312 | setting the gain sets both matching scales |
| `AutoRange.Lsm303.GetOrientation` | Libs/LSM303DLH/LSM303DLH.c:199-268 | the retry loop on the mutable record |

## Left out

- Fairness: no statement says a runnable thread is ever scheduled; "no deadlock" means that some thread can move, and for the camera link the number of effective turns is bounded.
- Queue roles: each thread only puts or only gets on one queue; a thread that uses both queues is two threads here.
- pdu_t layout: the 36-byte packed struct of cmd_client.py:20 is assumed, that is, a one-byte enum.
- Compiler and memory ordering: each modelled statement is atomic, and semaphore counts do not overflow.
- Integer widths in the queue and the table: `avail`, `head` and `tail` are unbounded, which their proved bounds make harmless.
- Connections: the stream theorems are about a connection that stays up; failed or partial sends drop the item in hand, and reconnecting is not modelled.
- Bad frames on the command channel: tcpHandler.c:238 ignores the refusal and queues the previous PDU again; only well-formed commands received in one piece are covered.
- PduCodec.Connection.Receive: the bytes asked for are in flight; the original loops for ever once the peer has closed, which is not modelled.
- PingPong.LoanSafety: a store past the end of a buffer is ignored, where the original overwrites the next one; `CameraBounds.StoresInBounds` says when that happens.
- VideoPipeline.VideoEndToEnd: captures with no frame, a cut-off frame, several frames, a length one more than whole buffers, or a frame changed by a stray EOI are excluded; `CameraWire.CaptureOnWire` says what goes on the wire for them.
- CameraTask.CameraBuffers.CamCapture: stays inside its buffers, so frames one byte longer than whole buffers are left to `StoresInBounds`.
- Motion.MoveConverges: the alarm shows a finite list of values and is clear afterwards; uninitialised coordinates hold one fixed pair for the whole MOVE.
- Motion.Drive: the stop commands and messages that col_handler, wait_handler and safetyHandler send are not in the command log, since they change neither position nor heading; the laws of `MoveLog` are about what exe_handler sends.
- Controller commands other than MOVE: direct drive, RESET, compass recalibration and ST_REROUTE (used but not declared) are not modelled.
- Compass, ultrasonic sensor, display, speaker and all timing (`Task_sleep`, delay loops of the main loop) are not modelled.
- put_buff_new_heading: it overwrites its last byte and nothing on the robot reads it.
- MotorBoard.FullInterlockExactly: a pin on a stopped timer counts as low, whatever level the timer stopped at.
- MotorBoard: compare values and enable pins are not modelled; the interrupt routine is not interrupted itself.
- OtaWindow.PercentTrueExactly: the signed product `accumulatedLen * 100` wraps at 32 bits here, where C leaves it undefined beyond the largest signed 32-bit integer.
- OtaWindow.MonotoneExactly: for lengths a signed 32-bit count can reach, `accumulatedLen` being `int32_t`.
- OtaWindow and OtaTask: a positive file length; without a content-length record `fileLen` stays 0 (link_local_task.c:741) and line 838 divides by zero.
- OtaArchive_Process, the network and the report server are arbitrary events; the copy inside the buffer is taken as ascending and safe for overlap, as sl_Memcpy is not part of this model.
- Base64Decoder.B64.Decode: the empty text is excluded, because the original then reads in front of its input.
- JsonScan.FindEndObject: the byte at the end pointer must be readable, as in the original; braces inside string literals count like any others.
- TlvTask.ArgList.Append: the buffer must have room, which the original does not check, and tokenising the phrase is not modelled.
- parseHttpRequestMetadata: a second content-length header is appended relative to a cursor that has already moved; only the first is modelled.
- AutoRange: scale factors and fields are real numbers, not floats; bus transfers are not modelled.
- Socket set-up, Wi-Fi, TI drivers, the web pages, the other Python scripts and the vendor libraries are left out.
