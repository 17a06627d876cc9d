# Lumitek device firmware: verified model

This project models the core of the firmware Lumitek wrote for its LPB100 switch modules, and proves
what that code is for.

- **AES with CBC** (`aes.c`, and the padding of socket data in `itoCommon.c`). The lookup tables are
  literal. `GaloisField`, `Words`, `Fips197`, `KeyExpansion` and `SboxReference` hold the algorithm of
  FIPS 197 and its algebra over any S-box and MixColumns with inverses; `Tables` proves that the tables
  implement it for all arguments. Class `Aes` in `AesCipher` is `struct Aes`, with the in-place key
  expansion and the cipher loops; `AesReference` states key expansion and cipher once more, as formulas
  for one byte built from the S-box and the field operations alone, and proves that the structure computes
  them; `AesAnswers` is the worked example of FIPS 197. `AesCbc` chains blocks over byte buffers, `Cbc` is the mode itself,
  `CbcBuffers` says what a chaining loop makes of the buffers, and `SocketCrypt` adds the padding. The
  end of this part is that `SocketDataDecrypt` gives back every message `SocketDataEncrypt` was given.
- **Calendar and clock** (`lumTimeData.c`). `Calendar` relates `lum_gmtime` to the Gregorian calendar;
  `Clock` follows the wrapping millisecond counter against true time.
- **Minute scheduler** (`lumTimer.c`). `WeekMask`, `Alarms`, `Absences` and `Countdowns` say what one
  check does and what that means on the axis of absolute minutes; `AbsenceCheck` and `AbsenceRuns` treat
  the absence state machine with the check it starts within itself; `CatchUp` treats the replay of missed
  minutes; `AbsenceActions` says what an absence check does to the switch, `AbsenceCommands` what setting
  and deleting a window does; class `Timer` in `MinuteTimer` is the code over its records and globals, `DeviceChecks` says
  what its methods make of them as values, and `DeviceRuns` follows the device over runs of callbacks
  with commands in between. `DeviceLog` describes everything a check adds to the log of the switch and
  when the next toggle comes. `AbsenceMinutes` and `DeviceAbsences` put the absence on the axis of absolute
  minutes, and `ClockedRuns` joins the runs of the device to its clock.
- **Retransmission queue** (`socketSendList.c`). `SendQueue` is the queue as a sequence of packets;
  `SendList` is the linked list on the heap, whose traversals are proved to read no freed node.
- **Message list** (`asyncMessage.c`). `MessageRuns` is the state machine of inserts and the consumer;
  `MessageList` and `MessageThread` are the heap list and the thread, a refinement of that machine.
  `LinkedNodes` and `Removal` are shared by both lists.

The tables of `AesTables` are written as decisions on the bits of the index, one leaf for each entry.

## Conventions and readings of the source

- `XMEMCPY(d, s, l)` copies its second argument into its first, although the names of its parameters in
  the header suggest the opposite. `aes->reg` and `aes->tmp` are kept as the bytes their words occupy on
  a little-endian machine, which is the configuration the byte-reversing code is compiled for.
- Whether two addresses are word-aligned, which decides between the two loops of `xorbuf`, is a parameter.
- Readings of the clock, values of `rand()`, socket readiness, the results of transmissions and memory
  allocation are parameters or arbitrary functions; every theorem holds for all of them.
- U8, U16, U32 and S32 arithmetic is written out where it can wrap. Time fields and minutes that provably
  stay in range are natural numbers.
- The comment in `lum_getDayOfWeek` says that months count from 0; the code counts them from 1, and so
  does the model.
- The count of the message list decides whether an insert finds it empty. The bound is one better than a
  count of 255 suggests: 256 messages may be queued, and it is the insert that finds 256 that loses them.
- `lum_minuteCheckProtect` reads the clock a second time before it replays minutes. If the minute changed
  in between, one minute is skipped and another handed on twice; `CatchUp.HandsEveryMinuteIff` gives the
  exact condition.
- A non-repeating alarm that is set before its stop time of the day closes at that stop time and is then
  off, even if it has not opened yet; `Alarms.OneShotActions` gives the exact condition.
- The clock starts at 1388505600, which is midnight of 2014-01-01 in UTC+8 and 16:00 of the day before in
  UTC, the zone the calendar computes in.
- A non-repeating absence window whose start and end agree never reports its end, so it is never switched
  off; `Absences.EndIsReported` says so.
- The C functions are cut into smaller methods where a loop body or a branch has a contract of its own.
- The absence does not always run exactly when a window is at its start or inside. While minutes are
  replayed, switching a window off starts a check at the later time of the clock, and that can switch off
  the window the outer check has just counted; the absence then runs on without a window, and a second
  check of the minute would stop it. `DeviceRuns.MisledReplay` is such a replay,
  `AbsenceRuns.RunsIffInsideIff` and `SecondCheckChangesNothingIff` give the exact condition.
- A packet that was attempted and stays queued is not due again within 8 seconds, unless the U32 time
  wraps; `SendQueue.AttemptLeaves` says so.
- Members that model `itoCommon.c` and `messageDispose.c`: `SocketCrypt.PaddingFill` and `PaddingRemove`
  are the two PKCS5 functions (itoCommon.c, lines 1442 to 1478; `PadBytes` says what each byte added is),
  `NewCipher` is `setAesKey` (1579 to 1596), `SocketDataDecrypt` and `SocketDataEncrypt` are the functions
  of those names (1631 to 1687; `CiphertextBlock` says what each block of the ciphertext is),
  `Timer.AbsenceEmptyPlace`, `SetAbsenceData` and `DeleteAbsenceData` are in lines 470 to 616, and
  `GetRandomNumber` is `getRandomNumber` in lines 40 to 47 of messageDispose.c.

## Model

| member | source | states |
|---|---|---|
| SboxReference.SboxIsAffineOfInverse | LPB100-HSF/src/LumitekITO/src/aes.c:274-339 | for every byte, the S-box read from `Te[4]` is the affine map of the inverse in GF(2^8) (FIPS 197, section 5.1.1) |
| Tables.InvSboxUndoesSbox | LPB100-HSF/src/LumitekITO/src/aes.c:274-674 | the box read from `Td[4]` undoes the one read from `Te[4]`, for all 256 bytes |
| Tables.EncColumnIsMixSub | LPB100-HSF/src/LumitekITO/src/aes.c:8-273 | four lookups in `Te[0..3]` give MixColumns of SubBytes of a column, for all bytes |
| Tables.DecColumnIsInvMixSub | LPB100-HSF/src/LumitekITO/src/aes.c:342-607 | four lookups in `Td[0..3]` give InvMixColumns of InvSubBytes of a column, for all bytes |
| Tables.StaticTablesImplementAes | LPB100-HSF/src/LumitekITO/src/aes.c:8-674 | the ten lookups the code makes compute the layers of FIPS 197 for all arguments |
| Fips197.EqInvCipherUndoesCipher | LPB100-HSF/src/LumitekITO/src/aes.c:753-1181 | for any S-box with inverse and any invertible MixColumns, any number of rounds, keys and block: the equivalent inverse cipher under the inverse schedule undoes the cipher (section 5.3.5) |
| Words.LoadThenReverse | LPB100-HSF/src/LumitekITO/src/aes.c:698-722 | reading four bytes as a little-endian word and byte-reversing it puts the first byte highest |
| Words.ReverseThenStore | LPB100-HSF/src/LumitekITO/src/aes.c:1031-1041 | storing a byte-reversed word little-endian writes its highest byte first |
| AesCipher.RconEntry | LPB100-HSF/src/LumitekITO/src/aes.c:677-683 | entry i of `rcon` is x^i in the highest byte |
| AesCipher.Aes.constructor | LPB100-HSF/src/LumitekITO/src/aes.c:8-674 | a fresh structure has 60 schedule words and the tables implement AES |
| AesCipher.Aes.LoadUserKey | LPB100-HSF/src/LumitekITO/src/aes.c:761-764 | the key is copied into the first words of the recurrence, each word big-endian |
| AesCipher.Aes.Expand16 | LPB100-HSF/src/LumitekITO/src/aes.c:767-785 | 128-bit keys: the rolled loop writes exactly the words of the recurrence of section 5.2 up to index 43 |
| AesCipher.Aes.Expand24 | LPB100-HSF/src/LumitekITO/src/aes.c:787-805 | 192-bit keys: likewise up to index 51 |
| AesCipher.Aes.Expand32 | LPB100-HSF/src/LumitekITO/src/aes.c:807-835 | 256-bit keys: likewise up to index 59, with the extra SubWord step |
| KeyExpansion.KeyScheduleOf | LPB100-HSF/src/LumitekITO/src/aes.c:753-835 | the expanded words, taken in fours, are the key schedule of section 5.2 |
| AesReference.KeyIsExpanded | LPB100-HSF/src/LumitekITO/src/aes.c:753-835 | after a key was set for anything but decryption, byte j of word i of the array: the key itself first, then the byte of word i - Nk plus that of word i - 1, which is substituted, taken from byte (j + 1) mod 4 and, for j = 0, added to x^(i/Nk - 1) when i is a multiple of Nk, and substituted in place in the middle of a step of eight |
| AesAnswers.WordsAnswer | LPB100-HSF/src/LumitekITO/src/aes.c:753-785 | for the key of FIPS 197, appendix A.1, words 4 and 43 of the array are a0fafe17 and b6630ca6 |
| AesCipher.Aes.ReverseRoundKeys | LPB100-HSF/src/LumitekITO/src/aes.c:841-862 | the in-place swap loop leaves round key r where round key Nr - r was, and nothing behind them changes |
| AesCipher.Aes.UnmixRoundKeys | LPB100-HSF/src/LumitekITO/src/aes.c:863-886 | InvMixColumns is applied to the words of round keys 1 to Nr - 1 and to no other word |
| AesCipher.InverseSchedule | LPB100-HSF/src/LumitekITO/src/aes.c:841-886 | both loops together give the schedule of the equivalent inverse cipher |
| AesCipher.Aes.SetIV | LPB100-HSF/src/LumitekITO/src/aes.c:742-751 | the register becomes the IV, or stays when there is none |
| AesCipher.Aes.SetSchedule | LPB100-HSF/src/LumitekITO/src/aes.c:753-887 | the array holds the schedule the direction calls for; words behind it are unchanged |
| AesCipher.Aes.SetKey | LPB100-HSF/src/LumitekITO/src/aes.c:892-900 | keys of 16, 24 or 32 bytes give the schedule and the register; any other length gives BAD_FUNC_ARG, which is -173, and changes nothing |
| AesCipher.Aes.EncLoop | LPB100-HSF/src/LumitekITO/src/aes.c:935-1000 | the loop of two rounds per iteration computes Nr - 1 rounds of section 5.1 |
| AesCipher.Aes.Encrypt | LPB100-HSF/src/LumitekITO/src/aes.c:902-1041 | the output block is Cipher of the input block under the present schedule; the buffers may be the same; without a usable schedule nothing is written |
| AesReference.EncryptedByte | LPB100-HSF/src/LumitekITO/src/aes.c:902-1041 | each byte of the output block is that of a formula on the bytes of the block and of the array: rows shifted by index, columns mixed with the product of GF(2^8) |
| AesAnswers.EncryptionAnswer | LPB100-HSF/src/LumitekITO/src/aes.c:753-1041 | the block of FIPS 197, appendix B, encrypts to the ciphertext given there |
| AesCipher.Aes.DecLoop | LPB100-HSF/src/LumitekITO/src/aes.c:1077-1142 | the loop computes Nr - 1 rounds of the equivalent inverse cipher |
| AesCipher.Aes.Decrypt | LPB100-HSF/src/LumitekITO/src/aes.c:1044-1181 | the output block is EqInvCipher of the input block under the present schedule |
| AesCipher.DecryptUndoesEncrypt | LPB100-HSF/src/LumitekITO/src/aes.c:753-1181 | for every key of 16, 24 or 32 bytes and every block, decryption returns the block that was encrypted |
| AesCbc.XorBuf | LPB100-HSF/src/LumitekITO/src/aes.c:724-740 | the word loop and the byte loop have the same effect: the bytes are exclusive-ored with the mask |
| AesCbc.CbcEncrypt | LPB100-HSF/src/LumitekITO/src/aes.c:1183-1198 | for every length and wherever the output lies, also anywhere in the buffer of the input, buffers and register are those after encrypting block by block; as long as writing does not overtake reading the output holds the CBC chain of the blocks the input held at the call, the register its last block, and nothing else changes; without a usable schedule the blocks are chained only |
| AesCbc.CbcDecrypt | LPB100-HSF/src/LumitekITO/src/aes.c:1200-1216 | likewise for decryption; without a usable schedule the chaining is taken off what the output held |
| CbcBuffers.EncryptAllIsCbc | LPB100-HSF/src/LumitekITO/src/aes.c:1183-1198 | block by block through one shared buffer or two, as long as writing does not overtake reading: exactly the CBC chain is written |
| CbcBuffers.DecryptAllUnchains | LPB100-HSF/src/LumitekITO/src/aes.c:1200-1216 | likewise the deciphered blocks with the chaining taken off |
| AesCbc.UnchainedUnderSchedule | LPB100-HSF/src/LumitekITO/src/aes.c:1200-1216 | which under a usable schedule is CBC decryption with the equivalent inverse cipher |
| Cbc.DecryptUndoesEncrypt | LPB100-HSF/src/LumitekITO/src/aes.c:1183-1216 | CBC decryption from the same register undoes CBC encryption for every message, over any inverse pair of block functions (SP 800-38A, section 6.2) |
| AesCbc.CbcRoundTrip | LPB100-HSF/src/LumitekITO/src/aes.c:753-1216 | that round trip for the two schedules of one key, for every key, register and message |
| Cbc.EncryptSplit | LPB100-HSF/src/LumitekITO/src/aes.c:1183-1198 | two calls split at any block boundary are one call, in output and register |
| Cbc.EncryptedBlock | LPB100-HSF/src/LumitekITO/src/aes.c:1183-1198 | each ciphertext block is the block function of the message block added to the ciphertext block before it, the first one to the register |
| Cbc.DecryptSplit | LPB100-HSF/src/LumitekITO/src/aes.c:1200-1216 | likewise for decryption, in output and register |
| Cbc.DecryptedBlock | LPB100-HSF/src/LumitekITO/src/aes.c:1200-1216 | each decrypted block depends only on its own ciphertext block and the one before |
| Cbc.RegistersAgreeAfterOneBlock | LPB100-HSF/src/LumitekITO/src/aes.c:1200-1216 | decryptors with different IVs agree from the second block on |
| Calendar.DayOfWeekCountsDays | LPB100-HSF/src/LumitekITO/src/lumTimeData.c:56-62 | for every date the congruence equals counting days from Thursday, 1970-01-01 |
| Calendar.SubtractYears | LPB100-HSF/src/LumitekITO/src/lumTimeData.c:75-83 | the year loop ends in the year that contains the second |
| Calendar.SubtractMonths | LPB100-HSF/src/LumitekITO/src/lumTimeData.c:87-95 | the month loop ends in the month that contains it; the index never passes 11 |
| Calendar.Gmtime | LPB100-HSF/src/LumitekITO/src/lumTimeData.c:65-108 | the result is the one date that shows the second: fields in range, weekday right, year at most 2106 |
| Calendar.CivilIsUnique | LPB100-HSF/src/LumitekITO/src/lumTimeData.c:65-108 | a second is shown by one date only, and rebuilding the seconds from the date gives the second back |
| Calendar.CivilIsMonotone | LPB100-HSF/src/LumitekITO/src/lumTimeData.c:65-108 | later seconds show lexicographically later dates, and the other way round |
| Calendar.LeapDayOf2000 | LPB100-HSF/src/LumitekITO/src/lumTimeData.c:65-108 | second 951827696 is 12:34:56 on Tuesday, 2000-02-29 |
| Calendar.LeapDayOf2012 | LPB100-HSF/src/LumitekITO/src/lumTimeData.c:65-108 | second 1330473600 is 00:00:00 on Wednesday, 2012-02-29 |
| Calendar.LastOfFebruary2100 | LPB100-HSF/src/LumitekITO/src/lumTimeData.c:65-108 | second 4107542399 is 23:59:59 on Sunday, 2100-02-28 |
| Calendar.FirstOfMarch2100 | LPB100-HSF/src/LumitekITO/src/lumTimeData.c:65-108 | and the next second is the first of Monday, 2100-03-01 |
| Calendar.MinuteOfCivil | LPB100-HSF/src/LumitekITO/src/lumTimer.c:469-484 | hour and minute are the absolute minute modulo 1440, the weekday is (minute / 1440 + 4) modulo 7 |
| Calendar.YearOfSeconds | LPB100-HSF/src/LumitekITO/src/lumTimeData.c:73-83 | no U32 second leaves the ranges of the U16 and U8 fields |
| Clock.TimeDateInfo.constructor | LPB100-HSF/src/LumitekITO/src/lumTimeData.c:170-175 | the clock starts at second 1388505600, midnight of 2014-01-01 in UTC+8, with the counter as anchor |
| Clock.StartOf2014 | LPB100-HSF/src/LumitekITO/src/lumTimeData.c:170-175 | that second is 16:00 on 2013-12-31 in UTC |
| Clock.TimeDateInfo.SyncNetworkTime | LPB100-HSF/src/LumitekITO/src/lumTimeData.c:133-138 | a sync sets both anchors |
| Clock.TimeDateInfo.ReceiveNetworkTime | LPB100-HSF/src/LumitekITO/src/lumTimeData.c:141-167 | only answers after 1970 are taken, converted from 1900 |
| Clock.ServerEpoch | LPB100-HSF/src/LumitekITO/src/lumTimeData.c:141-167 | the conversion subtracts 86400 times the Gregorian days from 1900 to 1970 |
| Clock.TimeDateInfo.GetSystemTime | LPB100-HSF/src/LumitekITO/src/lumTimeData.c:178-202 | value and new anchor, with the branch for a wrapped counter and U32 arithmetic |
| Clock.RunLag | LPB100-HSF/src/LumitekITO/src/lumTimeData.c:133-202 | over every run since a sync whose reads come less than 2^32 ms after the anchor, each value lags true time by 0 to 1000 k + 999 ms after k wraps |
| Clock.RunIsMonotone | LPB100-HSF/src/LumitekITO/src/lumTimeData.c:133-202 | in such a run the reported time never decreases, across wraps too |
| Clock.ReadInTimeIff | LPB100-HSF/src/LumitekITO/src/lumTimeData.c:178-202 | a read gives the elapsed time to a second if and only if less than 2^32 ms passed since the anchor |
| Clock.MissedPeriod | LPB100-HSF/src/LumitekITO/src/lumTimeData.c:178-202 | one whole missed period is lost entirely |
| WeekMask.CompareIsOnDay | LPB100-HSF/src/LumitekITO/src/lumTimer.c:37-55 | the shifted test is membership of the weekday in the mask, for every mask and day |
| WeekMask.RotationIsNextDay | LPB100-HSF/src/LumitekITO/src/lumTimer.c:153-157 | the rotated mask holds on a day exactly when the mask holds on the day before |
| WeekMask.DaysOfMask | LPB100-HSF/src/LumitekITO/src/lumTimer.c:37-55 | which bit of the mask is which day: Monday bit 0 to Sunday bit 6; a mask without days holds on every day |
| WeekMask.FlagOfMask | LPB100-HSF/src/LumitekITO/src/lumTimer.c:81-88 | the active flag is bit 7, and switching off clears it and nothing else |
| MinuteTimer.Timer.CompareAlarm | LPB100-HSF/src/LumitekITO/src/lumTimer.c:115-171 | record and switch actions, in order, of one check, with both branches, one-shot alarms and suppression by an absence |
| MinuteTimer.Timer.CheckInactiveAlarm | LPB100-HSF/src/LumitekITO/src/lumTimer.c:81-88 | only the active bit of that record is cleared |
| MinuteTimer.Timer.CheckAlarm | LPB100-HSF/src/LumitekITO/src/lumTimer.c:174-182 | all records are checked in order, and the switch actions are theirs in that order |
| DeviceChecks.LastAlarmDecides | LPB100-HSF/src/LumitekITO/src/lumTimer.c:174-182 | of several alarms in one minute the last that acts decides, and closing wins over opening within one alarm |
| Alarms.ClosesAfterOpening | LPB100-HSF/src/LumitekITO/src/lumTimer.c:115-171 | a set alarm closes at absolute minute m exactly when it opens one duration before, for every mask and every m, across midnight too |
| Alarms.OpensOnItsDays | LPB100-HSF/src/LumitekITO/src/lumTimer.c:135-151 | every record, malformed ones too, opens exactly at its start time on the days of its mask |
| Alarms.ClosesOnItsDays | LPB100-HSF/src/LumitekITO/src/lumTimer.c:152-170 | every record closes exactly at its stop time, on the days after those of its mask if both bytes of its start time are set and the stop time is not later, and on those of its mask otherwise |
| Alarms.SwitchedOffIff | LPB100-HSF/src/LumitekITO/src/lumTimer.c:135-170 | every record is switched off exactly when it names no weekday and closes, or opens with a byte of its stop time unset; nothing else of it changes |
| Alarms.ClosesOnlyIff | LPB100-HSF/src/LumitekITO/src/lumTimer.c:152-170 | without a start time, for every mask: it closes at its stop time on the days of the mask and never opens |
| Alarms.OpensOnlyIff | LPB100-HSF/src/LumitekITO/src/lumTimer.c:135-151 | without a stop time, for every mask: it opens at its start time on the days of the mask and never closes |
| Alarms.RepeatingStays | LPB100-HSF/src/LumitekITO/src/lumTimer.c:115-171 | no check of a repeating alarm ever switches it off |
| Alarms.OneShotEnds | LPB100-HSF/src/LumitekITO/src/lumTimer.c:147-150 | a set non-repeating alarm checked every minute is active exactly through its first stop time |
| Alarms.OneShotActions | LPB100-HSF/src/LumitekITO/src/lumTimer.c:135-170 | it closes once, at that time, and opens once if and only if its first start time does not come later |
| Alarms.OpensOnce | LPB100-HSF/src/LumitekITO/src/lumTimer.c:135-151 | a non-repeating alarm without a stop time opens once, at its first start time, is off from then on and never closes |
| Alarms.ClosesOnce | LPB100-HSF/src/LumitekITO/src/lumTimer.c:152-170 | a non-repeating alarm without a start time closes once, at its first stop time, is off from then on and never opens |
| MinuteTimer.Timer.constructor | LPB100-HSF/src/LumitekITO/src/lumTimer.c:28-34 | the initial globals are valid and the absence registers agree: not running, no next toggle, no minute checked |
| Absences.ReportedIffRunning | LPB100-HSF/src/LumitekITO/src/lumTimer.c:201-262 | a window is reported exactly when today's or yesterday's occurrence, on a day of the mask, contains the minute |
| Absences.RunningIffSomeOccurrence | LPB100-HSF/src/LumitekITO/src/lumTimer.c:201-262 | likewise over all days |
| MinuteTimer.Timer.CompareAbsence | LPB100-HSF/src/LumitekITO/src/lumTimer.c:201-262 | the status and all effects, including the nested check that switching a window off starts |
| MinuteTimer.Timer.CheckInactiveAbsence | LPB100-HSF/src/LumitekITO/src/lumTimer.c:185-198 | a window without weekdays is switched off and the absences are checked again at the clock's time |
| MinuteTimer.Timer.SetAbsenceData | LPB100-HSF/src/LumitekITO/src/lumTimer.c:185-198 | a record goes to its index or to the first unused place, one without a place is refused, the two windows that are commands of the log are not stored; after a change the absences are checked at once at the time of the clock; the registers still agree |
| MinuteTimer.Timer.DeleteAbsenceData | LPB100-HSF/src/LumitekITO/src/lumTimer.c:559-583 | the record is cleared, the absences are checked at once if the change is saved, and the registers still agree |
| AbsenceCommands.DeleteLeavesUnused | LPB100-HSF/src/LumitekITO/src/lumTimer.c:559-583 | a deleted record is unused afterwards, whatever the check does to the others, and a later record without an index finds a place; an index behind the records changes nothing |
| AbsenceCommands.PlaceIs | LPB100-HSF/src/LumitekITO/src/lumTimer.c:185-198 | a record goes to its index, or to the first unused one; without one it has no place |
| AbsenceCommands.NotStored | LPB100-HSF/src/LumitekITO/src/lumTimer.c:185-198 | a record without a place and the windows 07:15-08:16 and 08:16-09:17 change nothing |
| AbsenceCommands.Stored | LPB100-HSF/src/LumitekITO/src/lumTimer.c:185-198 | every other record is stored as it is, and the absences are checked at once |
| AbsenceCommands.CheckedInTime | LPB100-HSF/src/LumitekITO/src/lumTimer.c:559-583 | what that check leaves while the clock stays in its minute: each window, whether the absence runs, the switch and the next toggle |
| AbsenceCommands.AddedRunsAtOnce | LPB100-HSF/src/LumitekITO/src/lumTimer.c:559-583 | so a window that covers the present minute runs at once, and opens the switch if no absence ran |
| MinuteTimer.Timer.ChangeSwitchByAbsence | LPB100-HSF/src/LumitekITO/src/lumTimer.c:265-299 | switch action, next toggle and random interval |
| MinuteTimer.Timer.GetRandomNumber | LPB100-HSF/src/LumitekITO/src/lumTimer.c:279-286 | a number from the half-open interval between the two bounds |
| AbsenceCheck.EveryNumberIsDrawn | LPB100-HSF/src/LumitekITO/src/lumTimer.c:279-286 | every number of that interval is drawn, by draws that repeat with its length |
| MinuteTimer.Timer.CheckAbsence | LPB100-HSF/src/LumitekITO/src/lumTimer.c:302-375 | the re-entrant check terminates, and its final state is that of the function `AbsenceActions.CheckActs` and the theorems of `AbsenceRuns` are about |
| MinuteTimer.Timer.CheckAbsenceWhileChange | LPB100-HSF/src/LumitekITO/src/lumTimer.c:559-583 | the check at the time the clock shows |
| AbsenceRuns.CheckKeepsRegisters | LPB100-HSF/src/LumitekITO/src/lumTimer.c:302-375 | after every check, whatever the clock and the random numbers: not running iff the next toggle is 0xFFFF; running iff some status counted; a running absence toggles at another minute of the day |
| AbsenceRuns.CheckSettles | LPB100-HSF/src/LumitekITO/src/lumTimer.c:185-375 | whatever minute is checked, and whatever one minute the clock shows at the readings during the check: exactly which windows the check and the checks within it switch off, and when it leaves the absence running |
| AbsenceRuns.RunsIffInsideIff | LPB100-HSF/src/LumitekITO/src/lumTimer.c:185-375 | with the clock at any one minute during the check: after it the absence runs exactly when an enabled window is at its start or inside, if and only if the check was not misled: some window ends, one before it counts, and all that count end at the minute of the clock |
| AbsenceRuns.CheckAnyClock | LPB100-HSF/src/LumitekITO/src/lumTimer.c:185-375 | however the clock moves during the check: if some window counts and ends at no moment the clock shows, the absence runs and that window counts afterwards; if none counts, neither holds |
| AbsenceRuns.CheckInTime | LPB100-HSF/src/LumitekITO/src/lumTimer.c:185-375 | when no window ends or the clock still shows the minute checked, exactly the ended windows without weekdays are switched off, and the absence runs exactly when an enabled window is at its start or inside |
| AbsenceRuns.SecondCheckIff | LPB100-HSF/src/LumitekITO/src/lumTimer.c:302-375 | for every clock: a second check of the same minute changes nothing if and only if the first left the absence running just when an enabled window is at its start or inside |
| AbsenceRuns.SecondCheckChangesNothingIff | LPB100-HSF/src/LumitekITO/src/lumTimer.c:302-375 | with the clock at any one minute during the first check: if and only if that check was not misled |
| AbsenceRuns.CheckDecides | LPB100-HSF/src/LumitekITO/src/lumTimer.c:185-375 | in time, a check with all the checks it starts within itself acts on the switch and the registers exactly as one decision does |
| AbsenceActions.CheckActs | LPB100-HSF/src/LumitekITO/src/lumTimer.c:265-375 | and that decision is: a check in time opens the switch when it starts the absence, closes it when it ends the absence, turns it over when its minute is the next toggle, and leaves it alone otherwise; the next toggle stays, or is set 20 to 29 minutes ahead after opening and 30 to 49 after closing |
| AbsenceRuns.SecondCheckChangesNothing | LPB100-HSF/src/LumitekITO/src/lumTimer.c:302-375 | a second check of a minute changes nothing when the first was in time |
| AbsenceRuns.QuietUntilNext | LPB100-HSF/src/LumitekITO/src/lumTimer.c:302-375 | while checks are in time and inside a window, nothing happens before the next toggle, whatever other windows end meanwhile |
| AbsenceRuns.TogglesAtNext | LPB100-HSF/src/LumitekITO/src/lumTimer.c:265-375 | the toggle comes exactly then; the next one 20 to 29 minutes after opening, 30 to 49 after closing |
| AbsenceMinutes.CountsIffCovered | LPB100-HSF/src/LumitekITO/src/lumTimer.c:201-262 | a window counts exactly at the absolute minutes that an occurrence on a day of its mask covers, from its start up to but not including its end |
| AbsenceMinutes.RunsIffCovered | LPB100-HSF/src/LumitekITO/src/lumTimer.c:302-375 | after a check of minute m in time the absence runs exactly when an occurrence of some window covers m |
| AbsenceMinutes.WindowsEvolve | LPB100-HSF/src/LumitekITO/src/lumTimer.c:185-375 | over any number of minutes checked in time each window evolves by itself: without weekdays it stays exactly through the first minute of its end time |
| AbsenceMinutes.RunsOverMinutes | LPB100-HSF/src/LumitekITO/src/lumTimer.c:302-375 | so minute by minute the absence runs exactly when an occurrence covers the minute, of a window not yet switched off |
| MinuteTimer.Timer.CompareCountdown | LPB100-HSF/src/LumitekITO/src/lumTimer.c:413-454 | record, switch action and clock readings of one check |
| MinuteTimer.Timer.CheckCountdown | LPB100-HSF/src/LumitekITO/src/lumTimer.c:457-466 | all records in order |
| Countdowns.DueIffSameMinute | LPB100-HSF/src/LumitekITO/src/lumTimer.c:439-445 | the comparison of the two dates holds exactly in the minute of the count |
| Countdowns.ExpiredIff | LPB100-HSF/src/LumitekITO/src/lumTimer.c:429-436 | exactly which counts the 32-bit test drops |
| Countdowns.ReplayActsIff | LPB100-HSF/src/LumitekITO/src/lumTimer.c:413-454 | in its minute a countdown is carried out if and only if the clock is at most 60 s past the count; it is inactive afterwards either way |
| Countdowns.StaysIff | LPB100-HSF/src/LumitekITO/src/lumTimer.c:413-454 | over checks for consecutive minutes, in time or not, an active countdown stays until its minute is checked or the clock is more than 60 s past it |
| Countdowns.CarriedOutIff | LPB100-HSF/src/LumitekITO/src/lumTimer.c:413-454 | in such a run it is carried out exactly at the check of its minute, if and only if the clock is then at most 60 s past the count |
| Countdowns.TooFarAheadIsDropped | LPB100-HSF/src/LumitekITO/src/lumTimer.c:429-436 | counts more than 2^31 s ahead are dropped by the first check |
| CatchUp.HandsEveryMinuteIff | LPB100-HSF/src/LumitekITO/src/lumTimer.c:487-533 | one callback hands on exactly the minutes since the last check if and only if these are 1 to 10 and the second clock reading, when one is taken, is still in the minute of the first |
| CatchUp.SecondReadingShifts | LPB100-HSF/src/LumitekITO/src/lumTimer.c:518-528 | when the minute changes between the two clock readings, the first missed minute is skipped and the new one handed on early |
| CatchUp.RunHandsEveryMinute | LPB100-HSF/src/LumitekITO/src/lumTimer.c:487-556 | over every regular run the minutes handed on are every absolute minute once, in order, across hours, days, months and years |
| CatchUp.FirstRunHandsEveryMinute | LPB100-HSF/src/LumitekITO/src/lumTimer.c:498-501 | likewise from the first callback ever |
| CatchUp.PeriodKeepsStep | LPB100-HSF/src/LumitekITO/src/lumTimer.c:549 | a callback less than 590 s late keeps the run regular; less than 50 s late needs no catch-up |
| CatchUp.OnTimeIsRegular | LPB100-HSF/src/LumitekITO/src/lumTimer.c:536-556 | every run of callbacks set by `TimerPeriod` and each less than 590 s late is regular |
| MinuteTimer.Timer.MinutesToCheck | LPB100-HSF/src/LumitekITO/src/lumTimer.c:498-517 | the number of minutes from the minute fields alone |
| MinuteTimer.Timer.Replay | LPB100-HSF/src/LumitekITO/src/lumTimer.c:522-528 | the replays are the checks of the seconds of `Handed`, in order |
| MinuteTimer.Timer.MinuteCheckProtect | LPB100-HSF/src/LumitekITO/src/lumTimer.c:487-533 | the device after the checks of one callback |
| MinuteTimer.Timer.CheckTimer | LPB100-HSF/src/LumitekITO/src/lumTimer.c:469-484 | alarms, then absences, then countdowns |
| MinuteTimer.Timer.CheckTimerCallback | LPB100-HSF/src/LumitekITO/src/lumTimer.c:536-556 | a callback takes the device and the last minute to `AfterCallback`, of which the run theorems speak; its period; the absence registers still agree |
| DeviceChecks.StartOf2015 | LPB100-HSF/src/LumitekITO/src/lumTimer.c:536-556 | a clock not past 16:00 on 2014-12-31 in UTC has not been set |
| DeviceChecks.ChecksKeepRegisters | LPB100-HSF/src/LumitekITO/src/lumTimer.c:469-533 | every sequence of checks keeps the absence registers in agreement |
| DeviceRuns.EventsKeepRegisters | LPB100-HSF/src/LumitekITO/src/lumTimer.c:469-583 | so does every run of callbacks with absences set and deleted in between |
| DeviceRuns.RunHands | LPB100-HSF/src/LumitekITO/src/lumTimer.c:487-556 | the checks such a run of the device makes are, in order, those of the seconds its callbacks hand on |
| DeviceRuns.EventsCheckEveryMinute | LPB100-HSF/src/LumitekITO/src/lumTimer.c:487-556 | if its callbacks are regular, these are a check for every minute since the last one, and they lead from the first state of the device to the last |
| DeviceRuns.FirstEventsCheckEveryMinute | LPB100-HSF/src/LumitekITO/src/lumTimer.c:498-556 | likewise from the start of the device |
| DeviceRuns.AlarmsSeeEveryMinute | LPB100-HSF/src/LumitekITO/src/lumTimer.c:469-533 | over a run with a check for every minute each alarm record of the device evolves as the alarm theorems say |
| DeviceRuns.EventsLeaveAlarms | LPB100-HSF/src/LumitekITO/src/lumTimer.c:469-556 | so after regular callbacks each alarm is what the minutes between make of it, whatever happened to the absences |
| DeviceRuns.CountdownsFollow | LPB100-HSF/src/LumitekITO/src/lumTimer.c:413-533 | over every run, replays included, each countdown record of the device evolves as the countdown theorems say |
| DeviceRuns.CountdownInCheck | LPB100-HSF/src/LumitekITO/src/lumTimer.c:413-484 | one check does to countdown i what one comparison does, and logs Open if its action is 1 and Close otherwise, unless an absence runs |
| DeviceRuns.CountdownCarriedOutIff | LPB100-HSF/src/LumitekITO/src/lumTimer.c:413-533 | over a run with a check for every minute the device carries a countdown out exactly at the check of its minute, if and only if the clock is then at most 60 s past the count |
| DeviceRuns.AlarmInLog | LPB100-HSF/src/LumitekITO/src/lumTimer.c:115-182 | what an alarm asks for in a check stands in the log of the switch, in one piece and behind what was there |
| DeviceLog.LogOfCheck | LPB100-HSF/src/LumitekITO/src/lumTimer.c:115-484 | with the absences in time, a check adds to the log exactly: for each alarm in order, Open at its start time and Close at its stop time on their days unless an absence runs; what the absence does; for each countdown in order, Open if its action is 1 and Close otherwise, in its own minute, unless the clock has dropped it or an absence runs |
| DeviceLog.LogOfAnyCheck | LPB100-HSF/src/LumitekITO/src/lumTimer.c:115-484 | whatever the clock shows, the alarms stand first and the countdowns last |
| DeviceLog.CountdownRecord | LPB100-HSF/src/LumitekITO/src/lumTimer.c:413-454 | the record of a countdown after a check: inactive after its own minute or when the clock has dropped it, and otherwise as it was |
| DeviceLog.NextToggle | LPB100-HSF/src/LumitekITO/src/lumTimer.c:265-533 | over a run with a check for every minute, in time and without commands: from a start or a toggle on the log stays as it is until the next toggle, which comes 20 to 29 minutes after opening, so after every start, and 30 to 49 after closing, and turns the switch over |
| DeviceRuns.CloseFollowsOpen | LPB100-HSF/src/LumitekITO/src/lumTimer.c:115-182 | over a run with a check for every minute, a repeating alarm enters its Close in the log at minute m exactly when it entered its Open one duration before m, unless an absence suppresses one of them; the Open stands before |
| DeviceRuns.MisledReplay | LPB100-HSF/src/LumitekITO/src/lumTimer.c:185-556 | a callback at 00:10 on 2015-01-01 that replays 00:08 and 00:09, with two of the ten windows set: the check of 00:08 switches both off and leaves the absence running |
| DeviceAbsences.DeviceWindowsEvolve | LPB100-HSF/src/LumitekITO/src/lumTimer.c:185-533 | over a run of the device with a check for every minute, in time and without commands, each window record evolves as by itself |
| DeviceAbsences.DeviceRunsIffCovered | LPB100-HSF/src/LumitekITO/src/lumTimer.c:302-533 | and after each of these checks the absence runs exactly when an occurrence covers the minute, of a window not yet switched off |
| DeviceAbsences.CallbacksUndisturbed | LPB100-HSF/src/LumitekITO/src/lumTimer.c:487-556 | a run of callbacks alone is such a run without commands |
| DeviceAbsences.CallbacksUnattended | LPB100-HSF/src/LumitekITO/src/lumTimer.c:487-556 | and between its checks nothing happens to the absences but that the clock is read |
| ClockedRuns.ReadsAreSteady | LPB100-HSF/src/LumitekITO/src/lumTimeData.c:178-202 | between two syncs timely reads of the clock never go back, and stay near every count their ends are near to |
| ClockedRuns.ClocksAreSteady | LPB100-HSF/src/LumitekITO/src/lumTimer.c:413-533 | so what a device shows to its countdowns over a run is steady when its readings are such reads |
| ClockedRuns.CountdownOnItsClock | LPB100-HSF/src/LumitekITO/src/lumTimer.c:413-533 | on such a clock the device carries a countdown out exactly at the check of its minute, if and only if it then shows at most 60 s past the count |
| SendQueue.SocketsNext | LPB100-HSF/src/LumitekITO/src/socketSendList.c:282-320 | the packets a poll keeps are, in order, exactly those of the two sockets |
| SendQueue.PollLeaves | LPB100-HSF/src/LumitekITO/src/socketSendList.c:282-376 | a poll attempts the first packet that is due on a ready socket, at most one; the packets of sockets before it stay in order and keep all but their due time, which for those that were due comes again once more than 4 seconds have passed; packets of no socket before it are dropped, and those behind it stay |
| SendQueue.AttemptLeaves | LPB100-HSF/src/LumitekITO/src/socketSendList.c:341-372 | what an attempt leaves: the packet with its counters, due again once more than 8 seconds have passed, or nothing after the fourth success that waits for a reply, any other success, or the fourth failure in a row |
| SendQueue.PollCosts | LPB100-HSF/src/LumitekITO/src/socketSendList.c:341-372 | a poll takes what it uses up from what is left: attempts from the sum of 4 (4 - sendCount) - faildTimes over the queue or over one packet, transmissions of one packet from 4 - sendCount |
| SendQueue.RunIsBounded | LPB100-HSF/src/LumitekITO/src/socketSendList.c:269-378 | over every interleaving of polls, inserts and deletions, what was used up and what is left never exceed what was there and what was brought in |
| SendQueue.AttemptsAreBounded | LPB100-HSF/src/LumitekITO/src/socketSendList.c:269-378 | so at most 16 attempts are made per packet queued or inserted, and when all of them were made the queue is empty |
| SendQueue.PacketIsBounded | LPB100-HSF/src/LumitekITO/src/socketSendList.c:269-378 | a packet queued with zero counters is attempted at most 16 times and sent at most 4 times, or once if it needs no reply, whatever is polled, inserted and deleted around it |
| SendQueue.Drains | LPB100-HSF/src/LumitekITO/src/socketSendList.c:269-378 | polls more than 8 s apart, of packets due at the first: once as many of them found every socket ready as attempts were left at the start, the queue is empty, whatever the sockets were in the others and whether or not the transmissions succeed |
| SendQueue.BoundIsReached | LPB100-HSF/src/LumitekITO/src/socketSendList.c:341-372 | a run of polls attempts a packet 16 times and sends it 4 times, and then the queue is empty |
| SendList.List.constructor | LPB100-HSF/src/LumitekITO/src/socketSendList.c:32-42 | the list is empty |
| SendList.List.InsertSendListNode | LPB100-HSF/src/LumitekITO/src/socketSendList.c:46-71 | the node is appended; all other nodes keep their packets |
| SendList.List.DeleteSendListNode | LPB100-HSF/src/LumitekITO/src/socketSendList.c:86-131 | exactly that node is taken off and freed, if it is in the list; otherwise nothing changes |
| SendList.List.DeleteRequestSendNode | LPB100-HSF/src/LumitekITO/src/socketSendList.c:135-151 | the first packet with the number is removed, if there is one |
| SendList.List.AddSendDataToNode | LPB100-HSF/src/LumitekITO/src/socketSendList.c:154-174 | packets of the two sockets are appended; others, and those without memory, are refused |
| SendList.List.DelAllTcp | LPB100-HSF/src/LumitekITO/src/socketSendList.c:245-265 | what stays is exactly the packets of other origins, in order; no freed node is read; queued plus freed nodes are those added |
| SendList.NotTcpNext | LPB100-HSF/src/LumitekITO/src/socketSendList.c:245-265 | going through the packets in order, what stays is lengthened by each packet that is not of the TCP socket and by no other |
| SendList.List.SendSocketData | LPB100-HSF/src/LumitekITO/src/socketSendList.c:269-378 | queue and result after a poll are those of `SendQueue.Poll`; no freed node is read; queued plus freed nodes are those added |
| LinkedNodes.CountIsModulo | LPB100-HSF/src/LumitekITO/src/asyncMessage.c:61-85 | the count of a list header, incremented and decremented with wrap-around, is the length modulo one more than its largest value: 256 for the message list, 65536 for the send list |
| MessageList.List.constructor | LPB100-HSF/src/LumitekITO/src/asyncMessage.c:41-51 | the list is empty |
| MessageList.List.InsertListNode | LPB100-HSF/src/LumitekITO/src/asyncMessage.c:54-87 | the three cases: a list whose count is 0 is replaced, a head insert takes the place of the first node and leaves the count wrong, a tail insert appends |
| MessageList.List.DeleteListNode | LPB100-HSF/src/LumitekITO/src/asyncMessage.c:104-154 | exactly that node is taken off and freed, if it is in the list |
| MessageList.List.ConsumeOne | LPB100-HSF/src/LumitekITO/src/asyncMessage.c:506-781 | an undisturbed pass dispatches and deletes the head |
| MessageThread.Thread.constructor | LPB100-HSF/src/LumitekITO/src/asyncMessage.c:506-525 | the thread starts in the initial state of the machine |
| MessageThread.Thread.Insert | LPB100-HSF/src/LumitekITO/src/asyncMessage.c:54-87 | an insert by another thread is the insert step of the machine |
| MessageThread.Thread.Consume | LPB100-HSF/src/LumitekITO/src/asyncMessage.c:524-770 | each step of the thread over the heap is the consume step of the machine; no freed node is read |
| MessageRuns.FifoExactlyOnce | LPB100-HSF/src/LumitekITO/src/asyncMessage.c:54-154 | over every interleaving in which inserts find fewer than 256 messages: dispatched exactly once and in insertion order, and the count agrees |
| MessageRuns.NoneLostIff | LPB100-HSF/src/LumitekITO/src/asyncMessage.c:61-65 | no message is ever lost if and only if no insert finds 256 messages queued |
| MessageRuns.Drains | LPB100-HSF/src/LumitekITO/src/asyncMessage.c:524-770 | left alone, the consumer dispatches everything ever inserted, in order |

## Left out

- AesCbc.CbcEncrypt: the buffers are not the register inside the structure itself, and for `CbcDecrypt` not its saved block either; no caller reaches those.
- SocketCrypt.PaddingRemove: requires that the last byte does not exceed the length; beyond that the C code writes outside the data.
- SocketCrypt.SocketDataDecrypt: states the plaintext for ciphertext of a padded message under the same key; what other ciphertext decrypts to is said by `AesCbc.CbcDecrypt` alone.
- Malformed records, alarms with one byte of a time unset and active absences whose times are no times of day: the contracts of `CompareAlarm` and `CompareAbsence` cover them, the theorems over minutes do not.
- MinuteTimer.Timer.SetAbsenceData: windows that only some build options take for commands (upgrade, flash log, energy meter, factory test) are stored like any other, and `LUM_ADD_ABSENCE_DATA_FAST` is off.
- DeviceRuns.EventsCheckEveryMinute: between the callbacks absences may be set and deleted; alarms and countdowns that are set meanwhile begin a new run, because they begin a new record.
- SendQueue.Drains: counts the polls that find every socket ready; a socket that is never ready keeps its packets in the queue, and putting a packet off costs no attempt.
- MessageRuns.FifoExactlyOnce: inserts and the steps of the consumer are atomic, although `deleteListNode` does not take the lock.
- The second switch (`TWO_SWITCH_SUPPORT`): its records, registers and pin selection repeat those of the first.
- Command handlers behind the message switch, message checks before and after decryption: each is one dispatch step.
- Sockets, `select`, reconnecting, DHCP, the time server, upgrade and boot code: only their results appear, as parameters.
- Flash storage, GPIO pins, buzzer, energy metering and radio: the switch is the sequence of the actions on it, storing a record is an assignment.
- Hardware timers: `CheckTimerCallback` returns the period instead of setting it, and `PeriodKeepsStep` relates it to the next callback.
- Payload ownership in the lists: the data of a node goes with the node.
- Selection of the key for a message and the headers around the secret part: the key is a parameter.
- `lum_checlCaliDateByApp` sets the clock from a date the application sends, as a sync does; the formatting of dates only prints them. No property here depends on either.
