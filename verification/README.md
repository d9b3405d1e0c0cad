# powermon, verified

powermon is firmware for an ESP8266 that counts the pulses of an electricity
meter. This project models the parts of it that carry state, arithmetic and
text processing, and proves what they promise:

- **The settings store.** Settings live in a 200-byte EEPROM image: text in
  fixed slots guarded by an XOR checksum, integers as decimal text, flags as
  single bits. The byte-level methods are proved against a closed form of the
  image, the image against a record of independent fields, and saving followed by
  loading has a closed form for every configuration, from which the exact set of
  those that survive follows.
- **The pulse detector.** A hysteresis and debounce machine with two 8-bit
  counters that wrap. It is proved to count exactly the pulses of the history
  of readings, where a pulse is defined by quantifiers over that history alone.
- **The request pipeline and the main loop.** Form arguments change the
  configuration in RAM, are saved and reloaded. RAM always agrees with what a
  reboot would load, and the counter, the buffer and the pushes obey their laws,
  over every run of the loop with requests interleaved.
- **Text.** The nineteen replace-all passes of the form decoder equal one scan;
  the JSON array of readings parses back.
- **The push timer** keeps its distance across rollovers of the 32-bit clock.

## How the model is laid out

`char` is an unsigned 8-bit value, so bytes are `bv8` and a string is a sequence
of them; `int` and `long` are
32 bits and wrap (in C a signed overflow is undefined; it can occur in `toInt` and
in ten times the factor only). Pure specifications sit in `Bytes`,
`Decimal`, `Slots`, `Layout`, `PulseFactor`, `GeneralSettings`, `SaveAndLoad`,
`WiFiSettings`, `Forms`, `Detector`, `Ring`, `PushTimer`, `Requests`,
`Credentials` and `Firmware`. The code that changes state is written in its own form, with
classes for the EEPROM (`EepromStore.dfy`, a RAM copy and the flash behind it), the
global variables (`Globals.dfy`) and the WiFi record (`SettingsIo.dfy`), and loops
where the source has loops; every method states its whole effect in terms of
the specifications, and `MainLoop.dfy` proves that set-up, each request and each
pass of the main loop take exactly the step of the state machine.

Some inputs come from outside and are parameters: the ADC reading (0 to 1023),
the clock at each look, whether a connection succeeds, and the stray bytes that
lie behind the one byte that `saveSettings` sets in its two-byte placeholder
(`Tails`). Form values contain no NUL, because the web server cuts each one out
as a C string; the laws that need this say so. An argument list has at most 255
entries: with more the source's `char` loop index would never reach the end.

## What the proofs say about the firmware

These hold of the code as it is, and some differ from what its documentation
suggests:

- Posting a measurement period of 0 does not put it in force, although README.md
  of the repository recommends 0 for running without delay: a zero byte makes an
  empty string, empty strings are not written, and the old period stays. There are
  two exceptions: the old period was 0 already, or a text in the same form is so
  long that its wrapped end clears the period's bytes, which puts 0 in force
  whatever was posted. `Requests.PostedPeriodIff` gives the exact condition.
- A multiplication factor from 1000 to 9999 is multiplied by ten by one save and
  load unless the XOR of its digits exceeds 9; 5660, the built-in default, becomes
  56600 and then 99999 (`PulseFactor.DefaultFactorDrifts`). Set-up replaces every
  default by what the EEPROM holds before anything can be saved, so this happens
  to a 5660 that was posted or already stored. `PulseFactor.FixedIff` gives
  exactly the factors that survive.
- The push URL is decoded for the reserved characters of RFC 3986 only, so other
  escapes such as `%20` and `%25` stay as they are (`Escape.TableIsReserved`,
  `Escape.DecodeLaw`).
- Writing a text stays inside its slot exactly when its end position, formed in
  one byte, has not wrapped (`Slots.WriteStaysInsideIff`). A longer text clears
  the bytes between: a push URL of 175 bytes erases both networks' credentials
  (`Credentials.LongURLErasesCredentials`), and
  `Credentials.SaveSparesNetworksIff` says exactly which texts do such harm.
- The reboot law needs none of these exclusions: it holds of every image and
  every run of requests (`Requests.RebootChangesNothing`).

## Model

| member | source | states |
|---|---|---|
| Decimal.ToIntPrint | src/Settings.ino:106-124 | text that starts with a printed number reads back from that number on, whatever follows |
| Decimal.ToIntSigned | src/Settings.ino:112 | blanks before a number and other text after it do not matter, and a sign in front counts |
| Decimal.ToIntOfNothing | src/Settings.ino:112 | text that begins with neither digit, sign nor blank, or is empty, is 0 |
| Decimal.XorPrint | src/Settings.ino:82-85 | the checksum of decimal text is the XOR of its digits, plus the code of '0' for an odd number of digits |
| Slots.AcceptedIffXorIsZero | src/Settings.ino:33-53 | reading passes its check exactly when the XOR of all slot bytes is zero |
| Slots.ChangeUndetectedIff | src/Settings.ino:25-53 | a change to an accepted slot goes unnoticed exactly when the XOR of the byte differences is zero |
| Slots.OneByteChangeDetected | src/Settings.ino:25-53 | any change of one byte of an accepted slot makes it read as empty |
| Slots.DecodeEncode | src/Settings.ino:21-55 | text that leaves room for a NUL comes back; text that fills the slot is followed by its non-zero checksum |
| Slots.ReadAfterWrite | src/Settings.ino:61-97 | what a slot reads as after a write does not depend on its earlier contents, for text of any length |
| Slots.SlotLaw | src/Settings.ino:21-97 | the string slot law for text whose end position does not wrap |
| Slots.RoundTripIff | src/Settings.ino:73-95 | a non-empty text comes back exactly when it is two shorter than the slot, or up to the slot's length with a zero XOR |
| Slots.WriteStaysInsideIff | src/Settings.ino:77-95 | a write touches nothing outside its slot, for every image, exactly when the end position has not wrapped below the slot |
| Slots.SlotAfterWrite | src/Settings.ino:73-95 | all bytes of a slot after a write, for text of any length, wrapped ends included |
| Slots.IntegerStorageLaw | src/Settings.ino:102-126 | integers are clamped to 0..99999; four digits survive; five digits gain the checksum as a sixth when the digit XOR is at most 9 |
| PulseFactor.ReloadedValue | src/Settings.ino:353-354 | the factor in force after one save and load, case by case |
| PulseFactor.FixedIff | src/Settings.ino:383-384 | the factors that survive are exactly 0..999, four-digit ones with digit XOR above 9, and 99999 |
| PulseFactor.SettlesInTwoRounds | src/Settings.ino:353-384 | saving and loading reaches a fixed point within two rounds |
| PulseFactor.SettlesInThreeRounds | src/Settings.ino:383-384 | three rounds suffice even when ten times the factor wraps in 32 bits |
| PulseFactor.DefaultFactorDrifts | src/Settings.ino:407 | the default factor 5660 becomes 56600 after one save and load and 99999 after two |
| Layout.SetBitLaw | src/Settings.ino:131-177 | writing one bit sets it and leaves the other seven as they were |
| Layout.RunSlot | src/Settings.ino:61-97 | after any sequence of writes at all, wrapped or not, each field's bytes are those of its own last text, cut where later fields' ends wrapped to |
| Layout.RunFlagExactly | src/Settings.ino:61-177 | after any sequence of writes at all each flag is as last written, or off where a wrapped end cleared it since |
| Layout.RunText | src/Settings.ino:61-97 | after any sequence of contained writes every text field reads as the stored form of its own last non-empty text |
| Layout.RunFlag | src/Settings.ino:153-177 | after any sequence of contained writes every flag reads as last written to it |
| Layout.RunRest | src/Settings.ino:373-397 | no setting write touches bytes 137..199 |
| GeneralSettings.SettingsAt | src/Settings.ino:344-368 | which bytes and bits of the image each setting is loaded from |
| SaveAndLoad.LoadAfterSave | src/Settings.ino:344-397 | loading after saving, in closed form for every configuration and image: what each setting becomes, including what the wrapped end of a long text clears, whatever the stray bytes behind the placeholders |
| SaveAndLoad.UnwrappedAfterSave | src/Settings.ino:344-397 | when no text wraps the result is the saved configuration, its integers and texts as stored and its zeros and empty texts replaced by the old values; nothing else of the old image matters |
| SaveAndLoad.RestoredIff | src/Settings.ino:344-397 | a configuration is restored from every prior image exactly when its bytes are non-zero, its integers storable and its texts fit |
| SaveAndLoad.WrappedTextIsLost | src/Settings.ino:393-394 | a URL or argument whose end position wraps loads as the empty string |
| WiFiSettings.WiFiRoundTrip | src/Settings.ino:182-245 | complete credentials of 1 to 14 bytes come back exactly, whatever was stored before |
| WiFiSettings.OtherNetworkUnchanged | src/Settings.ino:230-311 | writing one network's credentials leaves the other's alone |
| EepromStore.Eeprom.Commit | src/Settings.ino:96 | after a commit the flash holds what the RAM copy holds |
| SettingsIo.ReadString | src/Settings.ino:6-56 | the reading loop returns the decoded slot |
| SettingsIo.WriteBytes | src/Settings.ino:76-85 | the text loop lays down the text and returns its XOR |
| SettingsIo.WriteZeros | src/Settings.ino:87-88 | the padding loop clears the rest of the slot |
| SettingsIo.WriteString | src/Settings.ino:61-97 | the whole image after a write, including the wrapped end position and the unwritten empty string; written bytes are committed |
| SettingsIo.ReadInt | src/Settings.ino:102-113 | an integer is the number its text begins with, or 0 for no text |
| SettingsIo.WriteInt | src/Settings.ino:118-126 | an integer is clamped and written as decimal text |
| SettingsIo.ReadBoolean | src/Settings.ino:131-148 | a flag is its bit of its byte |
| SettingsIo.WriteBoolean | src/Settings.ino:153-177 | only the flag's bit of only its byte changes, and is committed |
| SettingsIo.GetWiFiSettings | src/Settings.ino:182-225 | a fresh record with the stored credentials, or null when either text is missing |
| SettingsIo.PutWiFiSettings | src/Settings.ino:230-245 | the three writes of a record, or none for null |
| SettingsIo.GetWiFiClientSettings | src/Settings.ino:250-256 | the client network has credentials only when both texts are stored |
| SettingsIo.GetWiFiAPSettings | src/Settings.ino:268-304 | the access point always has credentials, the built-in ones when none are stored |
| Globals.LoadDefaultSettings | src/Settings.ino:402-419 | the defaults, with the detector's counters cleared and the pulse count kept |
| Globals.LoadSettings | src/Settings.ino:344-368 | every configuration variable is replaced by what the image holds, and nothing else changes |
| Globals.SaveSettings | src/Settings.ino:373-397 | the ten writes in order, committed |
| Forms.LastValueIs | src/Other.ino:149-153 | the value that counts is that of a matching argument that no later one overrides |
| Forms.GeneralFormPermuted | src/Other.ino:149-214 | with no recognised key given twice, the order of the arguments does not matter |
| Forms.WiFiFormPermuted | src/WiFiFunctions.ino:153-178 | the same for the credentials of a form |
| Forms.GeneralFormSets | src/Other.ino:141-215 | each setting is the last value given under its own letter in second place of a name: bytes cut off at 0 and 255, the factor at least 1, the frequency from 5 to 1000, flags on exactly for the number 1, the URL decoded; with none given it stays, and a flag goes off |
| Other.UpdateGeneralSettings | src/Other.ino:141-215 | the loop over the arguments leaves the configuration that the form means, which Forms.GeneralFormSets spells out |
| WiFiForms.UpdateWiFiSettings | src/WiFiFunctions.ino:137-193 | credentials given in full are written for their network, incomplete ones are ignored, and the result says whether any were given; Credentials.CredentialsByName and CompleteIff spell out which arguments these are |
| Requests.RebootChangesNothing | src/WebContent.ino:248-262 | after any run of general, client and access point requests from any image, a reboot gives the same configuration |
| Requests.ReadingChangesNothing | src/WebContent.ino:254-262 | from any state that power-up or a request leaves, a request that is not a post to a settings page changes neither the EEPROM nor the configuration |
| Requests.OnlyPostsMatter | src/WebContent.ino:144-262 | in any run from power-up the requests that are not posts to a settings page can be left out |
| Requests.WiFiPostKeepsGeneral | src/WebContent.ino:151-202 | a request of either WiFi page changes neither the general configuration nor any byte from 66 on |
| Requests.LoadReadsGeneralOnly | src/Settings.ino:344-368 | loading depends on no byte before 66 |
| Requests.PostedSettings | src/WebContent.ino:254-262 | the configuration in force after posting the general form, exactly, for every form and image |
| Requests.PostedPeriodIff | src/WebContent.ino:254-262 | a posted period takes effect exactly when it is non-zero or the old one was 0, unless a text's end wraps to byte 68 or below, when 0 is in force whatever was posted |
| Credentials.SaveBelow | src/Settings.ino:77-97 | a byte before the general settings is kept by a save, or zeroed by a text whose end wrapped to it or below |
| Credentials.SaveSparesNetworksIff | src/Settings.ino:373-397 | a save leaves bytes 0..65 alone, for every image, exactly when neither text's end wraps among them |
| Credentials.LongURLErasesCredentials | src/Settings.ino:393 | saving a push URL of 175 bytes leaves no credentials for either network |
| Credentials.GeneralFormSparesNetworks | src/WebContent.ino:272-291 | posting only the general form's own field names, with texts whose ends do not wrap into the credentials, leaves bytes 0..65 unchanged |
| Credentials.CredentialsAreLastPosted | src/WiFiFunctions.ino:137-193 | after any run of tame requests each network's credentials are exactly those last posted in full |
| Credentials.CredentialsByName | src/WiFiFunctions.ino:153-192 | after a form with both, a network's name is the last "cs" or "as" value, its password the last "cp" or "ap" value, each cut to 14 bytes, and its flag what the last "ce" or "ae" says |
| Credentials.CompleteIff | src/WiFiFunctions.ino:180-189 | a form gives a network's credentials exactly when its last name and its last password argument are not empty |
| Credentials.IncompleteIsIgnored | src/WiFiFunctions.ino:180-189 | any other form leaves that network's credentials alone |
| Credentials.PostedByName | src/WebContent.ino:151-202 | the same credentials are stored after such a post to any of the three settings pages, if no text wraps into them |
| Credentials.CredentialsAt | src/Settings.ino:193-225 | the bytes a network's credentials are loaded from; when either text is unreadable there are none |
| Credentials.DamagedCredentialsAreRefused | src/Settings.ino:193-225 | changing any one byte of a stored name or password makes the network have no credentials |
| Detector.CountsThePulses | src/Other.ino:47-65 | for thresholds up to 254 the wrapping machine counts exactly the maximal high runs longer than the high threshold that occur while armed |
| Detector.NoPulseAt255 | src/Other.ino:54 | with a high threshold of 255 nothing is ever counted |
| Detector.OnePulseAt255 | src/Other.ino:62 | with a debounce threshold of 255 at most one pulse is counted |
| Detector.LowerThresholdsCountMore | src/Other.ino:49-65 | on the same levels, thresholds no higher in any cycle never count fewer pulses, wraparound included |
| Detector.CountIsMonotone | src/Other.ino:49-65 | the same for constant thresholds from the initial state |
| Detector.PulseRate | src/Other.ino:49-65 | P pulses in n samples satisfy P*(H+D+2) <= n+D+1, for all 8-bit thresholds |
| Detector.PulseRateAttained | src/Other.ino:49-65 | for every P some history meets the rate bound with equality |
| Ring.HoldsTheLastSamples | src/Other.ino:48-68 | read in time order the buffer is the last `size` of as many zeros followed by all samples |
| Ring.CellsByIndex | src/Other.ino:67-68 | after n samples the position is n mod size, sample i of the last `size` is in cell i mod size, and unreached cells are 0 |
| Other.Detect | src/Other.ino:49-65 | one detector step, with counters modulo 256 and pulses modulo 2^32 |
| Other.AddADCValueToBuffer | src/Other.ino:47-69 | one reading goes into the buffer and through the detector as the state machine does it, which Firmware.PassLaw spells out; the configuration and the timer are untouched |
| PushTimer.ClockDifference | src/Other.ino:101 | the unsigned clock difference never exceeds the real time gone by |
| PushTimer.LogGrowsIff | src/Other.ino:101-135 | in any run in real-time order an attempt pushes exactly when it succeeds and, modulo 2^32, more than its period has gone by since the last push |
| PushTimer.DueAttemptPushes | src/Other.ino:101-135 | a successful attempt more than one period and less than 2^32 ms after the last push always pushes |
| PushTimer.PushesAreSpaced | src/Other.ino:101-135 | each successful push comes more than the period then in force after the one before, for any frequencies changing at any time and across rollovers |
| PushTimer.PushesTakeTime | src/Other.ino:101-131 | while every period is at least `gap`, the k-th push comes no earlier than k*(gap+1) ms |
| PushTimer.FailuresLeaveTheTimer | src/Other.ino:121-135 | failed connections anywhere in a run change nothing about the other pushes |
| Other.CheckWhetherToPushData | src/Other.ino:88-136 | the timer moves to the time of the connection exactly when the attempt succeeds and, modulo 2^32, more than the period has gone by since the noted time |
| Firmware.PeriodNeverOverflows | src/Other.ino:101 | in every reachable state the period in milliseconds fits in 32 bits |
| Firmware.LoopSettings | src/Main.ino:66-85 | the settings of the running loop are those of its requests alone |
| Firmware.RebootDuringLoop | src/Main.ino:18-26 | a power cycle between any two passes of the loop brings back the same settings |
| Firmware.PassLaw | src/Other.ino:47-69 | a pass with monitoring on replaces the cell at the position by a quarter of the reading, rounded down, and takes one detector step, high exactly when the reading is at least four times the limit in force; one with monitoring off does neither |
| Firmware.PowerUpIsClear | src/Main.ino:17-30 | power-up has the stored settings, cleared counters, no pulses, a zeroed buffer and a timer at 0 |
| Firmware.PassesAre | src/Main.ino:66-85 | each pass of a run samples under the configuration that its requests so far have left |
| Firmware.LoopMeter | src/Main.ino:66-85 | in every run, requests included, the detector's state is that of the readings taken while monitoring was on, each with the thresholds then in force |
| Firmware.LoopRing | src/Main.ino:66-85 | in every run the ring buffer is that of the values stored while monitoring was on |
| Firmware.BufferSincePowerUp | src/Main.ino:30-85 | from power-up, whatever requests are served, the buffer in time order holds a quarter, rounded down, of each of the latest readings taken, after zeros while there are too few |
| Firmware.PulsesSincePowerUp | src/Main.ino:30-85 | from power-up, whatever requests are served, the counter is, modulo 2^32, the number of pulses in the history of readings, each high when at least four times the limit then in force, if they were all taken with the same thresholds up to 254 |
| Firmware.LoopPulseRate | src/Main.ino:30-85 | from power-up under constant thresholds, all 8-bit values included, the counter obeys the detector's rate bound in every run |
| Firmware.LoopTimer | src/Main.ino:82 | in every run the timer is that of the attempts made, each with the frequency then in force |
| Firmware.LoopTimerIsLastPush | src/Main.ino:82 | in every run the timer is the time of the last push, modulo 2^32 |
| Firmware.LoopLogGrowsIff | src/Main.ino:82 | in every run a pass pushes exactly when it connects and, modulo 2^32, more than the period in force has gone by since the last push |
| Firmware.DuePassPushes | src/Other.ino:101-132 | in every run a pass that connects more than one period and less than 2^32 ms after the last push moves the timer |
| Firmware.LoopPushSpacing | src/Other.ino:101-132 | in every run, requests included, each push comes more than the period in force after the one before |
| Firmware.LoopPushesTakeTime | src/Other.ino:101-132 | in every run whose periods are at least `gap`, k pushes take at least k*(gap+1) ms |
| MainLoop.Setup | src/Main.ino:6-61 | power-up reaches the state machine's initial state: stored settings, cleared detector, buffer and timer |
| MainLoop.HandleGeneralSettings | src/WebContent.ino:248-262 | the general page's update, save and load take the state machine's step and leave the flash up to date; a step that is no post changes nothing (Requests.ReadingChangesNothing) |
| MainLoop.HandleRequest | src/WebContent.ino:144-262 | every settings request takes the state machine's step |
| MainLoop.Loop | src/Main.ino:66-85 | every pass of the loop takes the state machine's step |
| MainLoop.Reboot | src/Main.ino:17-26 | restarting from flash at any point between passes gives the settings that were in force |
| Escape.FirstPass | src/Globals.ino:76 | the first pass is the scan that only turns '+' into a space |
| Escape.PassExtendsScan | src/Globals.ino:77-94 | each further pass extends the scan by its own triple: none creates or destroys a match for a later one |
| Escape.EscapeParameter | src/Globals.ino:75-97 | the nineteen passes equal one left-to-right scan, for every parameter |
| Escape.TableIsReserved | src/Globals.ino:77-94 | the table of escapes is exactly the reserved set of RFC 3986, section 2.2 |
| Escape.DecodeLaw | src/Globals.ino:75-97 | the scan turns '%' and the two hexadecimal digits of a reserved character into that character, '+' into a space, and keeps every other byte |
| Escape.InvertsEncoderIff | src/Globals.ino:76-94 | decoding undoes the table's encoder exactly on the strings that hold no listed triple literally |
| JsonArray.GenerateJSONArray | src/WebContent.ino:30-39 | the printing loop produces the array text |
| JsonArray.ParsePrintedArray | src/WebContent.ino:30-39 | for every byte sequence the text is an array whose numbers are that sequence in order |
| JsonArray.PrintIsInjective | src/WebContent.ino:30-39 | different readings never print alike |

## Left out

- WiFi association, mDNS, the soft access point, the HTTP client and server transport and serial logging: library calls; of a connection only its success is kept.
- HTML pages, style sheets and scripts: concatenation of constants.
- The text of the push request, the connect page and the graph pages: they only read the variables.
- Light control, delays and the free-heap display: hardware effects without state.
- `malloc` failures and the retries of `generateADCBuffer`: the buffer starts zeroed with any size from 1 to 255.
- `shiftString`, `charToIntStr` and `intToStr`: helpers without a caller.
- Flash wear, failed commits and power loss during a write: the source has no recovery; a committed write is taken as durable.
- Parsing of the HTTP request: argument names and values arrive as given, NUL-free.
- SettingsIo.ReadString: slots lie inside the 200 bytes, as they do at every call; a slot reaching past the end is not modelled, nor is one of length 0, whose checksum variable the source leaves unset.
- SettingsIo.WriteString: as for reading, the slot lies inside the store, so only the end of the text, not the end of the slot, can wrap.
- SaveAndLoad.LoadAfterSave: assumes, as every law about saving does, that the bytes behind the placeholders are too few to wrap an end position, which no caller controls.
- Credentials.CredentialsAreLastPosted: assumes that the bytes behind the placeholders are too few to wrap an end position, which no caller controls.
- Globals.LoadSettings: reads the ten settings into a record and then assigns the variables, where the source alternates the two.
- JsonArray.ParsePrintedArray: the parser knows arrays of non-negative integers only, which is all that is printed.
