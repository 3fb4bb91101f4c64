# Parking checkpoint: access decisions and payment

A model of a parking checkpoint made of three programs sharing one store of
records. The **entry lane** reads a plate and either lets the car in or
refuses it. The **payment lane** reads "PLATE,BALANCE" reports from the
controller on a serial link and settles the plate's open record with it.
The **exit lane** lets a car out only shortly after it has paid.

The store is an immutable value: parking records and denial incidents in
insertion order. Time in the store is whole seconds (`now`). The serial link
is a script of timestamped inbound lines, with times in milliseconds from the
start of a payment attempt; an attempt reports what it wrote back and how
many of those lines it read.

| file | module | models |
|---|---|---|
| `options.dfy` | `Options` | an optional value |
| `text.dfy` | `Text` | the string built-ins the code relies on: `strip`, `split(',')`, `isalpha`, `isdigit`, `in`, `int()` of digits, `str()` of a number |
| `store.dfy` | `RecordStore` | `DatabaseManager`: records, incidents, denial suppression |
| `plates.dfy` | `Plates` | `validate_rwandan_plate`, the `detect_plates` filter, and the three-reading consensus buffer |
| `gate.dfy` | `Gate` | gate commands and the distance gate in each lane's loop |
| `payment.dfy` | `Payment` | the fee, the report parser, both waits, `process_payment`, and the payment lane's report guard |
| `entry.dfy` | `EntryLane` | `_handle_entry` and the entry frame pipeline |
| `exit.dfy` | `ExitLane` | `_handle_exit` and the exit frame pipeline |
| `checkpoint.dfy` | `Checkpoint` | properties that span lanes, runs of all three lanes, and worked examples |

Behaviour of the code that a reader might not expect, and that the model keeps:

- **Exit window.** The exit query keeps paid exits *strictly* after `now - 5 min`. So a car is let out for less than 300 s after paying, not up to and including 300 s.
- **Plate format.** The accepted format is "RA", then a letter, three digits and a letter. The first seven characters of the reading are kept, and anything after them is ignored.
- **Check order.** The entry lane checks for an unpaid record before the cooldown. So a car shown again 10 s after entering still has its open record and is refused as *unpaid*, not for the cooldown (`Checkpoint.EnterPayReenter`). The cooldown decides only when the record was settled in between (`Checkpoint.PaidEarlyThenCooldown`).
- **Fee rate.** The fee is 500 per started hour. The constructor's `rate_per_minute` argument is never used.
- **Zero distance.** A distance reading of exactly 0 is falsy, so it is replaced by 51 and is out of range, even though 0 lies inside [0, 50].

## Model

| member | source | states |
|---|---|---|
| RecordStore.HasRecentDenial | modules/database_utils.py:49-59 | true exactly when an incident with the same plate and reason lies strictly after `now` minus the window |
| RecordStore.AddDenialIncident | modules/database_utils.py:61-71 | suppressed (no id, store unchanged) exactly when a recent matching incident exists; otherwise appends exactly one incident stamped `now`, with id = count + 1; records are never touched, and the log is append-only |
| RecordStore.AddEntry | modules/database_utils.py:73-81 | appends exactly one record (entry `now`, no exit, nothing due, unpaid) with id = count + 1; earlier records and incidents are unchanged |
| RecordStore.HasUnpaidRecord | modules/database_utils.py:83-90 | true exactly when some record has the plate and is unpaid |
| RecordStore.GetUnpaidRecord | modules/database_utils.py:92-101 | nothing exactly when the plate has no open record; otherwise an open record of the plate that is in the store and whose entry time no other open record of the plate exceeds |
| RecordStore.UpdateExitAndPayment | modules/database_utils.py:103-113 | every open record of the plate gets exit time `now` and the amount due; every other record and all incidents stay as they were |
| RecordStore.MarkAsPaid | modules/database_utils.py:115-124 | every open record of the plate becomes paid and nothing else changes; afterwards the plate has no open record |
| RecordStore.MarkAsPaidIdempotent | modules/database_utils.py:115-124 | marking paid twice equals marking paid once |
| RecordStore.HasRecentPaidExit | modules/database_utils.py:126-138 | true exactly when a paid record of the plate has an exit time strictly after `now - minutes*60` |
| RecordStore.AddEntryOpensRecord | modules/database_utils.py:73-90 | after an entry the plate has an open record, and every other plate's open-record status is unchanged |
| RecordStore.PaidExitWindow | modules/database_utils.py:103-138 | stamping and then marking paid at `paidAt` yields a recent paid exit at every later time less than 300 s after it |
| RecordStore.AddEntryKeepsOneOpen | modules/database_utils.py:73-90 | an entry for a plate without an open record keeps every plate at one open record at most |
| RecordStore.StampKeepsOneOpen | modules/database_utils.py:103-113 | stamping exit and fee keeps every plate at one open record at most |
| RecordStore.MarkKeepsOneOpen | modules/database_utils.py:115-124 | marking paid keeps every plate at one open record at most |
| RecordStore.AddDenialKeepsSpacing | modules/database_utils.py:49-71 | when the clock does not run backwards, incidents with the same plate and reason stay at least 300 s apart |
| RecordStore.RepeatDenialSuppressed | modules/database_utils.py:49-71 | after an incident is written, the same plate and reason less than 300 s later write nothing and leave the store unchanged |
| Plates.ValidatePlate | modules/ocr_utilis.py:30-40 | no result when the text does not start with "RA" or is shorter than 7; a result exactly when characters 0-2 are letters, 3-5 digits and 6 a letter; the result is the text's first seven characters |
| Plates.ValidatedPlateIsFixedPoint | modules/ocr_utilis.py:35-39 | a validated plate validates to itself, also with any text appended |
| Plates.DetectedPlates | modules/ocr_utilis.py:52-61 | keeps only readings that validate, each as a well-formed seven-character plate; every reading that validates is kept; one reading gives its plate when it validates and nothing otherwise |
| Plates.DetectedPlatesAppend | modules/ocr_utilis.py:52-61 | the plates of two batches of readings are the plates of the first followed by those of the second, so the kept plates are exactly the valid readings, in reading order |
| Plates.MostCommon | modules/ocr_utilis.py:70 | the result is in the buffer, no element outnumbers it, and it occurs first among the most frequent elements |
| Plates.FirstModeUnique | modules/ocr_utilis.py:70 | these conditions determine the consensus uniquely |
| Plates.MajorityWins | modules/ocr_utilis.py:70 | a reading held by a strict majority is the consensus |
| Plates.ConsensusOfThree | modules/ocr_utilis.py:69-70 | for three readings, the consensus is the repeated reading if there is one, else the first |
| Plates.Observe | modules/ocr_utilis.py:65-73 | below the threshold, returns nothing and appends the reading; at the threshold, returns the first-seen mode of the buffer plus the reading and empties the buffer; a buffer shorter than 3 stays shorter than 3 |
| Plates.ObserveFewThan3 | modules/ocr_utilis.py:67-73 | fewer than three readings from an empty buffer emit nothing and are all kept |
| Plates.ObserveQuiet | modules/ocr_utilis.py:67-73 | readings that leave the buffer short of three emit nothing and are appended to it, in order |
| Plates.EmitsEveryThird | modules/ocr_utilis.py:65-73 | from an empty buffer, exactly every third call returns a value, which is the vote of the last three readings; the buffer keeps the readings not yet voted on |
| Gate.Wire | modules/gate_control.py:53-70 | the bytes a sequence of commands writes are one byte per command plus one per gate opening |
| Gate.WireAppend | modules/gate_control.py:53-70 | commands sent one batch after another write their bytes one after the other |
| Gate.WireCounts | modules/gate_control.py:53-70 | on the wire, the number of '1's and of '0's is the number of gate openings, and the number of '2's is the number of alerts |
| Gate.InTriggerRange | car_entry.py:47-49 | a frame is processed exactly when a reading is present and lies in (0, 50]; a missing reading is never in range |
| Text.Split | modules/payment_processor.py:24 | one field more than there are separators; no field contains the separator; joining the fields gives back the string |
| Text.KeepDigits | modules/payment_processor.py:29 | only digits are kept; the result is empty exactly when there is no digit; a string of digits is kept whole; a single non-digit gives nothing |
| Text.KeepDigitsAppend | modules/payment_processor.py:29 | the digits of `a + b` are those of `a` followed by those of `b`, so the result is every digit of the string, in order |
| Text.NatToString | modules/payment_processor.py:56 | the decimal digits of a number, read back to the same number, with no leading zero unless the number is 0 |
| Text.StripKeepsWord | modules/payment_processor.py:82-83 | a word without whitespace occurs in the stripped string exactly when it occurs in the string |
| Payment.ParkingFee | modules/payment_processor.py:14-19 | a multiple of 500 covering the stay: `3600*(fee/500 - 1) < elapsed <= 3600*(fee/500)` |
| Payment.FeeMonotone | modules/payment_processor.py:17-19 | a longer stay never costs less |
| Payment.FeeForHours | modules/payment_processor.py:17-19 | `hours*500` is charged exactly for stays in `(3600*(hours-1), 3600*hours]` |
| Payment.FeeExamples | modules/payment_processor.py:17-19 | 1 s and 3600 s cost 500; 3601 s and 7200 s cost 1000; 0 s costs 0 |
| Payment.ParseReport | modules/payment_processor.py:21-35 | a report exactly when the stripped line has one comma and a digit after it; the plate is the stripped text before the comma, and the balance is the number formed by the digits after it |
| Payment.ParseFormatRoundTrip | modules/payment_processor.py:21-33 | a report written as `plate,balance` (plate without comma or surrounding blanks) parses back to that plate and balance |
| Payment.DoneIgnoresStrip | modules/payment_processor.py:82-83 | looking for DONE in the stripped line is looking for it in the line |
| Payment.WaitFor | modules/payment_processor.py:66-86 | answered by a matching line read before the deadline, with every earlier line read in time and not matching; or timed out, with the lines read so far not matching and the next line read too late |
| Payment.TimedOutIffNoTimelyAnswer | modules/payment_processor.py:69-74 | a wait times out exactly when no matching line can be read before its deadline |
| Payment.ReplyBytes | modules/payment_processor.py:49-56 | no reply writes nothing; a refusal writes `I\n`; a new balance is written as decimal digits that read back as that balance, then CR LF |
| Payment.RepliesDistinct | modules/payment_processor.py:49-56 | no two different replies are written as the same bytes |
| Payment.HandshakeOutcome | modules/payment_processor.py:54-86 | the handshake is confirmed exactly when READY comes within 5 s and DONE within 10 s after it; it ends "not ready" exactly when no READY comes in time |
| Payment.ExchangeReplies | modules/payment_processor.py:54-64 | the device exchange ends paid, not ready or unconfirmed; it writes nothing when the device is not ready, and the new balance otherwise |
| Payment.StampSettles | modules/payment_processor.py:44-60 | stamping leaves the plate's open records settled but still open; marking them paid afterwards settles and closes them |
| Payment.ExchangeSettles | modules/payment_processor.py:44-62 | after the stamp, the exchange leaves every record settled, paid exactly when it reports success; success is exactly leaving the plate with no open record |
| Payment.ProcessPayment | modules/payment_processor.py:37-64 | incidents are untouched; "no unpaid record" exactly when the plate has no open record; "insufficient balance" exactly when it has one and the balance is below its fee; no more lines are read than the link offers |
| Payment.PaymentSettles | modules/payment_processor.py:39-62 | without an open record nothing changes; otherwise every open record of the plate gets exit `now` and the fee whatever happens next, and becomes paid exactly when the attempt succeeds; other records stay as they were; success is exactly the plate ending with no open record |
| Payment.PaymentReplies | modules/payment_processor.py:39-64 | without an open record: nothing written and no line read; a short balance: `I\n` written and no line read; device not ready: nothing written; otherwise the new balance, balance minus fee, is written |
| Payment.ReadyWait | modules/payment_processor.py:66-75 | the READY wait succeeds exactly when the first READY line is read within 5 s, and it stops at that line |
| Payment.DoneWait | modules/payment_processor.py:77-86 | the DONE wait succeeds exactly when some later line containing DONE is read within 10 s of the READY |
| Payment.ExchangeOutcome | modules/payment_processor.py:54-64 | the exchange settles exactly when the handshake succeeds, and reports the device not ready exactly when no READY comes in time |
| Payment.PaymentSucceedsIff | modules/payment_processor.py:37-64 | `True` exactly when an open record exists, the balance covers its fee, and READY and then DONE arrive in time |
| Payment.PaymentExamples | modules/payment_processor.py:37-64 | READY at 4.9 s settles; READY at 5.1 s is "device not ready"; a balance of 499 against 500 sends `I\n` and leaves the record open |
| Payment.HandleReportLine | process_payment.py:33-41 | a payment is attempted exactly for a line that parses to a report with a non-empty plate, and with that report's plate and balance |
| Payment.ReportStartsPayment | process_payment.py:36-40 | a well-formed report line starts a payment for exactly the plate and balance it names |
| Payment.EmptyPlateIgnored | process_payment.py:37 | a report with an empty plate starts nothing, whatever its balance |
| EntryLane.HandleEntry | car_entry.py:78-118 | refused as unpaid exactly when the plate has an open record; refused for cooldown exactly when it has none and it is the last plate let in less than 300 s ago; granted exactly when neither holds and nothing fails; a grant inserts one record, opens the gate for 15 s and remembers (plate, now); a refusal sounds the alert and logs its reason with suppression; a failure logs "Processing error: ..." and keeps the row only when it failed after the insert; the memory changes only on a grant |
| EntryLane.CooldownBoundary | car_entry.py:91-92 | for the plate last let in, the cooldown refuses exactly when less than 300 s have passed; at 300 s, or for any other plate, a plate without an open record is let in |
| EntryLane.GrantBlocksUntilPaid | car_entry.py:83-114 | after a grant, the plate's next attempt is refused as unpaid, at any later time and whatever fails |
| EntryLane.EntryKeepsOneOpen | car_entry.py:83-118 | the entry policy never gives a plate a second open record, whatever fails |
| EntryLane.EntryAppendsOnly | car_entry.py:78-118 | the entry policy only appends records and incidents |
| EntryLane.Consider | car_entry.py:67-72 | below the threshold a reading only extends the buffer; at the third reading the consensus of the three goes through `_handle_entry`, whose store, memory and gate commands are applied, and the buffer empties; at most one open record per plate is kept when it held before |
| EntryLane.Admit | car_entry.py:71-72 | handing a consensus plate to `_handle_entry` applies its store, memory and commands and leaves the buffer alone |
| EntryLane.EntryFrame | car_entry.py:46-50 | out of range, the frame changes nothing; in range, plates that leave the buffer short are appended to it; the buffer stays short, at most one open record per plate is kept when it held before, records, incidents and commands only grow, and every new record has a well-formed plate |
| EntryLane.ConsiderAll | car_entry.py:63-72 | the plates of a frame go through the buffer one at a time, in order: a single plate is exactly one `Consider`; plates that leave the buffer short are appended to it; the buffer stays short, records, incidents and commands only grow, at most one open record per plate is kept when it held before |
| EntryLane.ConsiderAllAppend | car_entry.py:63-72 | considering two batches of plates one after the other is the same as considering them together, so the loop carries the buffer, store, memory and commands from one plate to the next |
| EntryLane.EntryFrameAppend | car_entry.py:46-50 | in range, the frame of readings `a + b` is the frame of `a` followed by the plates of `b` taken one at a time, so the consensus can complete in the middle of a frame and the rest of its plates go on from there |
| EntryLane.OneFrameThreeReadingsEnter | car_entry.py:63-72 | three valid readings of one plate in a single in-range frame, from an empty buffer, reach `_handle_entry` once: the buffer empties and the store, memory and commands are exactly those of `_handle_entry` for that plate |
| EntryLane.ThreeSightingsEnter | car_entry.py:46-76 | a plate read in three in-range frames from an empty buffer reaches `_handle_entry` on the third, and its decision is applied; without an open record or cooldown the gate opens and one open record is added |
| EntryLane.EntryWire | modules/gate_control.py:53-70 | the entry lane writes '1' then '0' on a grant, a lone '2' on a refusal, and nothing on a failure |
| EntryLane.NoiseIsIgnored | car_entry.py:63-72 | a frame none of whose readings validates changes nothing |
| ExitLane.HandleExit | car_exit.py:74-92 | granted exactly when a paid record of the plate has an exit time strictly after `now - 5 min`; a grant opens the gate and writes nothing; otherwise a "No valid payment" incident is logged with suppression and the alert sounds; records are never changed |
| ExitLane.PaidThenExit | car_exit.py:77-86 | a plate stamped and marked paid is let out at any time less than 300 s later |
| ExitLane.UnpaidNeverExits | car_exit.py:88-92 | a plate with no paid record is never let out; each refusal adds one incident unless one was logged in the last 5 minutes |
| ExitLane.Consider | car_exit.py:63-68 | below the threshold a reading only extends the buffer; at the third reading the consensus of the three goes through `_handle_exit`, whose store and gate commands are applied, and the buffer empties; records stay unchanged, incidents and commands only grow |
| ExitLane.Decide | car_exit.py:67-68 | handing a consensus plate to `_handle_exit` applies its store and commands and leaves the buffer alone |
| ExitLane.ExitFrame | car_exit.py:42-46 | out of range, the frame changes nothing; in range, plates that leave the buffer short are appended to it; records stay unchanged, incidents and commands only grow, and the buffer stays short |
| ExitLane.ConsiderAll | car_exit.py:63-68 | the plates of a frame go through the buffer one at a time, in order: a single plate is exactly one `Consider`; plates that leave the buffer short are appended to it; records stay unchanged, incidents and commands only grow |
| ExitLane.ConsiderAllAppend | car_exit.py:63-68 | considering two batches of plates one after the other is the same as considering them together |
| ExitLane.ExitFrameAppend | car_exit.py:42-46 | in range, the frame of readings `a + b` is the frame of `a` followed by the plates of `b` taken one at a time |
| ExitLane.OneFrameThreeReadingsExit | car_exit.py:63-68 | three valid readings of one plate in a single in-range frame, from an empty buffer, reach `_handle_exit` once: the buffer empties and the store and commands are exactly those of `_handle_exit` for that plate |
| ExitLane.ThreeSightingsExit | car_exit.py:42-68 | a plate read in three in-range frames from an empty buffer reaches `_handle_exit` on the third, and its decision is applied |
| ExitLane.ExitWire | modules/gate_control.py:53-70 | the exit lane writes '1' then '0' when it lets a car out and a lone '2' otherwise, so a refusal never writes '1' |
| Checkpoint.PaymentKeepsOneOpen | modules/payment_processor.py:44-62 | a payment attempt never gives a plate a second open record |
| Checkpoint.PaidRecordsFrozen | modules/database_utils.py:103-124 | no entry, payment attempt or exit changes a paid record |
| Checkpoint.IncidentsAppendOnly | modules/database_utils.py:61-71 | every lane only appends to the incident log |
| Checkpoint.StepKeepsUnpaid | modules/database_utils.py:73-124 | an unpaid record survives any entry, exit or payment attempt, except a payment for its own plate that goes through |
| Checkpoint.UnpaidUntilPaid | modules/database_utils.py:73-124 | along any run of the three lanes, a plate keeps an unpaid record until a payment for it goes through |
| Checkpoint.RefusedUntilPaid | car_entry.py:83-86 | after a grant the plate is refused as unpaid at any later attempt, whatever other entries, exits and payment attempts happen in between, until a payment for it goes through |
| Checkpoint.PaymentOpensExit | car_exit.py:77-86 | a payment that succeeds at `now` opens the exit for that plate at any time in `[now, now + 300)` |
| Checkpoint.EnterPayReenter | car_entry.py:83-114 | RAB123C enters at 0, is refused as unpaid at 10 s, pays at 301 s, is let in again at 301 s and may leave at 400 s |
| Checkpoint.PaidEarlyThenCooldown | car_entry.py:91-97 | a car let in at 0 and settled at 5 s is refused for the cooldown at 10 s and let in at 300 s |

## Left out

- Vision and OCR (`preprocess_image`, `extract_text`, the model call in `detect_plates`): their results are taken as the sequence of text readings of one frame.
- Camera capture, preview windows, the `q` key, logging and image files: they do not affect any decision.
- `Gate.Wire`: the 15 s hold between '1' and '0', port discovery and connection are left out. The model assumes a connected controller; without one the code writes nothing.
- `Gate.InTriggerRange`: distances are reals without NaN or infinities. The float parsing of the sensor line and decode errors are modelled only as a missing reading.
- `Text` character classes are ASCII. The code's `isalpha`, `isdigit` and `strip` also accept other Unicode characters. A report whose balance uses decimal digits of another script (Arabic-Indic "١٠٠", say) is read by the code as that number, while the model gives no balance digits for it and so no report. Other characters that `isdigit` accepts but `int()` rejects (a superscript '²', say) make `int()` raise, which `parse_arduino_data` turns into no report, as in the model.
- Time is whole seconds in the store and whole milliseconds on the link. Sub-second stamps, timezone and text formatting of timestamps are left out.
- `Payment.ParkingFee`: the code subtracts an entry stamp stored to the whole second from an unrounded `datetime.now()`. A stay whose whole-second stamps differ by exactly 3600·k seconds is therefore billed k+1 hours unless the payment falls exactly on a whole second, and a "0 s" stay costs 500. The model bills whole seconds, so these stays cost 500·k, and 0 s costs 0.
- Undecodable serial lines: `.decode()` raises on a line that is not UTF-8. In the two waits this ends `process_payment` after the exit stamp has been written, and in the report loop the outer handler ends the payment lane. The model's lines are already text and cannot express this.
- `EntryLane.EntryFrame` and `ExitLane.ExitFrame` use one `now` for the whole frame. The code reads the clock again at each `_handle_*` call, and `open_gate` sleeps 15 s between '1' and '0', so later plates of the same frame are handled at later times.
- `Payment.WaitFor`: the 0.1 s polling sleep and the serial read timeout are left out. A line is read as soon as it has arrived and the line before it has been read.
- `Payment.ProcessPayment`: the time between looking up the record and starting the first wait is taken as zero.
- `RecordStore.GetUnpaidRecord`: among open records with equal entry times, the model picks the earliest-inserted. The query leaves that order unspecified. The fee reads only the entry time, which is the same for all of them.
- `EntryLane.Consider`: exceptions inside the policy are modelled on `HandleEntry` through its `Fault` parameter, but not inside a frame. Frames run the policy without faults.
- Exceptions in the store calls of the refusal branches and of the exit lane are not modelled. In the code they would end the lane's loop.
- `Payment.ProcessPayment`: an exception from the store or the serial link during a payment (modules/payment_processor.py:39-60) is not modelled. In the code it reaches the handler of process_payment.py:47, which ends the payment lane.
- `EntryLane.HandleEntry`: a failure of the closing write of `open_gate`, after '1' has gone out and the record is in, is not one of its faults. In the code the gate is then left open, the row stays and a "Processing error" incident is logged; the model's `FailsAfterInsert` keeps the row and logs the incident but sends no command.
- `EntryLane.EntryWire`: "nothing on a failure" holds for the modelled faults only. With the failure just described the code has written a lone '1'.
- Concurrency between the lanes: each operation is atomic on the shared store.
- The payment lane's mode dispatch and its outer polling loop; `dashboard/main.py`; the superseded scripts under `old/`.
- `modules/logger.py` and `modules/image_manager.py` are not part of this model.
