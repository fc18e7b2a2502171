# ESP8266 IoT firmware: model and proofs

A Dafny model of the parts of the firmware whose correctness spans several
functions, several files or a whole run, with proofs about them. `dafny verify
dfyconfig.toml` checks everything. Code that changes state in place is a class
or a method with loops, proved against functions on values; the theorems are
lemmas about those functions.

| files | what they model |
|---|---|
| `Galois`, `Polynomials`, `QrCode`, `QrDistance` | the panel's QR code: GF(256) tables, generator, remainder, data block, distance |
| `RelayCodec` | the Worker's script, packed in Python and expanded on the device |
| `JsonTree`, `JsonReader`, `JsonGrammar`, `JsonPrefix`, `Json`, `JsonWriter`, `JsonUnicode` | the JSON reader and writer |
| `JsonPush`, `JsonWalk`, `JsonStream` | the one-byte-at-a-time JSON parser |
| `ConfigTable`, `ConfigNames`, `ConfigSafety`, `ConfigStore`, `Totp` | the configuration file and the authenticator |
| `NetArbiter`, `OtaService`, `OtaUpdater`, `OtaMeans`, `OtaTag`, `OtaTagParser`, `OtaHeader`, `OtaHeaderParser`, `OtaRecovery` | the arbiter and the updater |
| `Session`, `SessionMeans`, `SessionSafety`, `SessionRuns`, `AppLoop` | `App::tick`: one TLS session at a time, and what each connection does |
| `IoTService`, `IoTMeans`, `IoTSafety`, `IoTTiming`, `IoTLit`, `IoTDevice` | the actuator |
| `MqttPackets`, `MqttService`, `WsFrames`, `WsClient`, `ReverseDns`, `ReverseDnsMeans`, `HttpForm` | MQTT, WebSocket, DNS and form bodies |
| `I2cBus` | the I2C master over its pins, and a slave that reads the edges |
| `Bytes`, `Text`, `Numerals` | bits, bytes, C strings, decimal numbers, 32-bit clock arithmetic |

Conventions. A pointer into a text is the rest of the text. Bytes are numbers
below 256, or characters below 256 where the source has `char`. Clock readings
of the actuator are kept unwrapped, and every comparison first reduces them
modulo 2^32 as the firmware's `unsigned long` does. The network, the heap, the
flash and the clock are inputs of each step. HMAC, TLS and password hashing are
functions given from outside or a choice of the environment. `State.peak` in
`Session` is the model's own count of the most sessions open at once.

## What turned out different from the comments

- **One TLS session.** `App::tick` asks `ota.wantsNet` (App.h:106) before the
  relay's news reaches `offerLatest` (App.h:111), and runs `ota.tick` whenever
  the owner is not the updater (App.h:147). In the tick that brings a newer tag
  while no check is due, the updater opens its session beside the relay's or
  the stream's. `SessionRuns.OverlapExactly` says exactly when;
  `SessionRuns.OverlapReached` gets there from power on in five ticks, for any
  two releases; every other tick keeps one session (`SessionSafety.TickSafe`),
  the next tick heals it (`SessionRuns.OverlapHeals`), and with the two lines
  swapped no tick ever has two (`SessionSafety.NewsFirstSafe`).
- **Safety limit, on for longer.** When a pulse ends with the rule in charge and
  wanting the output on, `tick` turns it off and on again before it drives it
  once (IoTService.h:152-160): `_onSince` starts over and the output was never
  off. The limit then bounds only the time since the last such end.
  `IoTLit.LimitExactly` says exactly when, and `IoTLit.NoLimitAtAll` keeps an
  output with a limit of one minute on for any number of minutes with a pulse a
  minute. Until that happens the limit holds (`IoTLit.NeverOnLonger`).
- **Safety limit, off at once.** `tick` is given a reading taken at the start of
  the loop; `_takeRule` (IoTService.h:552) and the panel (WebService.h:2443)
  stamp the turning on with a later one. The difference wraps, and with a limit
  set the same tick turns the output off again and leaves automatic mode:
  `IoTTiming.OverdueExactly`, `IoTTiming.RuleTurnsOnExactly`,
  `IoTTiming.PanelIsCut`.
- **Recovery boots.** The bound holds because each recovery boot writes its
  count before it tries; a boot whose write fails adds one to it
  (`OtaRecovery.RecoveryBounded`, `OtaRecovery.CrashLoopExactly`).
- **A full flash.** `save` measures the file but does not look at how much of it
  was written (ConfigStore.h:118-131): with less room than measured the cut file
  still replaces the configuration, and no boot can read it
  (`ConfigStore.SavedExactly`). Against a power cut the promise holds
  (`ConfigStore.Store.Save`, `ConfigStore.CutInSave`).
- **A power cut while a password is hashed.** The hash has a new salt each boot
  (Password.h:45-53), so the next boot finds the same configuration but for a
  password that its file still has as it was typed (`ConfigStore.CutInLoad`).
- **Configuration fields.** A value of the wrong type is ignored, except that it
  clears the authenticator's key: `ConfigSafety.WrongIsIgnored`.
- **Integer ranges.** `Value::fits` does not compare a number that is not
  negative with a lower bound above 0: `JsonWriter.FitsRange`.
- **Names with an equals sign** are found in a form exactly when some entry
  spells them, name, sign and value: `HttpForm.EqualsExactly`.
- **Names that fit.** `_name` keeps a byte to spare for a name of one label:
  `ReverseDns.Fits`, `ReverseDnsMeans.RoomExactly`.
- **Frames of 65536 bytes and more** declare their length modulo 65536:
  `WsFrames.ClientFrameCut`.
- **QR text.** The comment says 104 characters (web/i18n.js:63); the data block
  has room for 106, and `QrCode.Codeword` is proved for all of them.

## Model

| member | source | states |
|---|---|---|
| Galois.Tables.constructor | web/i18n.js:72 | the antilog table holds the powers of 2 and the log table their exponents, for all 255 non-zero bytes |
| Galois.Tables.Product | web/i18n.js:70 | the table product is the field's product, zero included |
| Galois.Order | web/i18n.js:72 | 2 has order exactly 255 under `x << 1 ^ 285`, so the tables cover every non-zero byte |
| Galois.IsPower | web/i18n.js:72 | every non-zero byte is a power of 2 |
| Galois.MulAssociates | web/i18n.js:70 | the table product associates |
| Galois.MulPlus | web/i18n.js:70 | it distributes over exclusive or |
| Galois.NoZeroDivisors | web/i18n.js:70 | a product is zero only if a factor is |
| QrCode.PlusIs | web/i18n.js:81 | the field's sum is the exclusive or of the two numbers |
| QrCode.TwiceIs | web/i18n.js:72 | a byte times 2 is `x << 1`, and `^ 285` when that has a ninth bit |
| Polynomials.EvalProduct | web/i18n.js:81 | the sum of shifted multiples that the remainder loop adds evaluates to a product of polynomials |
| Polynomials.TooManyRoots | web/i18n.js:73 | a polynomial with as many zeros as coefficients is null |
| Polynomials.Cleared | web/i18n.js:80-82 | once the loop has cleared the data part, data followed by what is left is a multiple of the generator |
| QrCode.Generator | web/i18n.js:73 | the loop builds (x + 2^0)...(x + 2^25) |
| QrCode.Correct | web/i18n.js:80-82 | the 134 bytes are the data and a remainder that makes them a multiple of the generator |
| QrCode.MultipleIsSound | web/i18n.js:80-82 | a multiple of the generator has all 26 syndromes zero |
| QrCode.CorrectionUnique | web/i18n.js:80-82 | no other 26 bytes after the same data do |
| QrCode.Data | web/i18n.js:74-79 | the data block is header, length, text, terminator and the alternating padding |
| QrCode.PaddingIs | web/i18n.js:79 | what follows the text is 236, 17, 236 and so on to the end of the block |
| QrCode.TextOfBlock | web/i18n.js:74-79 | a reader of the data block gets the text back |
| QrCode.Codeword | web/i18n.js:66-82 | for every text of up to 106 bytes: the block carries it and its padding, all 26 syndromes are zero, and no other correction bytes would be accepted |
| QrDistance.FarApart | web/i18n.js:80-82 | two different blocks that a reader accepts differ in 27 bytes at least |
| QrDistance.ThirteenErrors | web/i18n.js:80-82 | of whatever is read, one such block at most is within 13 wrong bytes |
| RelayCodec.MostCommon | tools/embed_relay.py:61-64 | the pair that occurs most, the first to appear on a tie |
| RelayCodec.Replace | tools/embed_relay.py:69-78 | greedy left to right replacement, overlapping pairs included |
| RelayCodec.RoundKeeps | tools/embed_relay.py:69-78 | a round keeps what the data expands to |
| RelayCodec.Encode | tools/embed_relay.py:55-82 | every round takes the right pair and none is left to do; the result expands to the text; the depth reported is the deepest code's, and it is refused exactly when some code is too deep |
| RelayCodec.GreedyUnique | tools/embed_relay.py:55-82 | the text settles the rounds: no other pairs could come out |
| RelayCodec.DepthIsLongest | tools/embed_relay.py:66-68 | a code's depth is the length of the longest chain of codes from it |
| RelayCodec.ChainsAreShort | tools/embed_relay.py:66-68 | and no chain is longer |
| RelayCodec.Decode | tools/embed_relay.py:85-96 | the Python stack computes the recursive expansion and ends |
| RelayCodec.Unfold | CloudflareSetup.h:206-223 | one byte through the device's stack: its expansion goes out, and depth + 2 bytes of stack are enough |
| RelayCodec.Script | CloudflareSetup.h:201-225 | the windows written, 64 bytes each but the last, join to the expansion of the whole script |
| RelayCodec.Deploy | CloudflareSetup.h:201-225 | what the encoder packed, the device expands to the same text, of the declared length; it fails exactly for texts whose rounds go too deep |
| JsonGrammar.ObjectExactly | Json.h:172-177 | `object` succeeds exactly on texts that begin with an object of the grammar nested at most MAX_DEPTH, and then reports each top-level member once, in order, with its value |
| JsonGrammar.ValueReads | Json.h:144-168 | the text of any tree within the depth is read to its end |
| JsonGrammar.ValueSound | Json.h:144-168 | whatever is read as a value is the text of such a tree |
| JsonGrammar.NumberReads | Json.h:79-102 | a digit string is an INTEGER exactly when its value is below 2^32, with that magnitude |
| JsonReader.GatherExactly | Json.h:84-89 | the overflow test before each step is exact |
| JsonPrefix.CutIsRefused | Json.h:172-177 | of an object that ends its text, no shorter beginning is taken for an object |
| Json.String | Json.h:57-71 | the scanning loop stops after the closing quote, and only on well-formed escapes |
| Json.Number | Json.h:79-102 | the loops give the value and where it ends |
| Json.Members | Json.h:107-126 | the loop over members reports what the grammar says |
| Json.Object | Json.h:172-177 | all or nothing: no call unless the whole object is valid |
| JsonWriter.Writer.Str | Json.h:261-277 | a string member, escaped, measured and written alike |
| JsonWriter.Writer.End | Json.h:300-303 | the size returned is the size written, or that would be |
| JsonWriter.RoundTrip | Json.h:257-325 | whatever is written, `object` reports its members in order and they read back as they were |
| JsonWriter.DecodesPieces | Json.h:195-227 | decoding a valid string gives the bytes of its pieces, surrogate pairs joined |
| JsonUnicode.TextRead | Json.h:195-227 | the bytes of a string, read as UTF-8 by section 3 of RFC 3629, are the code points it spells: as themselves, by a letter's escape, or in hexadecimal units of UTF-16, in either case |
| JsonUnicode.EscapesExactly | Json.h:57-71 | the escapes a string may have are those of section 7 of RFC 8259, and no other |
| JsonUnicode.SpellingOk | Json.h:57-71 | so every such spelling is a string the reader takes |
| JsonUnicode.LoneSurrogate | Json.h:206-227 | half of a surrogate pair on its own goes out in three bytes |
| JsonWriter.Copy | Json.h:230-240 | the decoded bytes that fit, always terminated, and the whole length |
| JsonWriter.FitsExactly | Json.h:33-37 | an integer is let in exactly when in range, and its bits are its value modulo 2^32 |
| JsonWriter.FitsRange | Json.h:33-37 | for every range that starts at 0 or below, and for no other |
| JsonWalk.Parses | JsonStream.h:36-149 | the text of any object or array nested at most 255 deep makes exactly the calls of a walk cut at depth 5, and ends at depth 0 |
| JsonWalk.ParsesScalar | JsonStream.h:36-149 | a text that is only a scalar makes no call and leaves the depth at 0 |
| JsonWalk.ValueFed | JsonStream.h:36-149 | inside any text, a value's bytes make its walk's calls and leave the levels above as they were |
| JsonWalk.QuotedFed | JsonStream.h:105-136 | strings are kept to 71 characters, escapes keep their character and code points become question marks |
| JsonWalk.StrayBrackets | JsonStream.h:36-73 | outside everything there is nothing to close, and below level 255 nothing opens |
| JsonStream.Parser.Feed | JsonStream.h:36-73 | a byte changes the fixed buffers as the step says, and never leaves them |
| Session.TickRelay | RelayService.h:62-73 | the relay opens at most one session, and none while held or open |
| Session.TickNtfy | NtfyNotifier.h:57-65 | ntfy opens at most one session at a time |
| NetArbiter.Arbiter.Grant | NetArbiter.h:42-54 | the turn goes to the first who wants it, and the wants start over |
| NetArbiter.Arbiter.Ready | NetArbiter.h:59-72 | the wait for the heap, and the turns that ran late |
| NetArbiter.FirstIsFirst | NetArbiter.h:42-46 | nobody more important is passed over |
| NetArbiter.WaitBounded | NetArbiter.h:59-72 | a turn waits less than WAIT_MS for the heap, wherever the counter wraps |
| SessionMeans.Priority | NetArbiter.h:39-54 | the order of the turns |
| AppLoop.App.Tick | App.h:90-155 | the statements in order, over the services' fields and the updater's object, make the step of the transition system |
| AppLoop.App.RelayTick | RelayService.h:62-73 | the relay's statements, frame by frame, make its part of the step |
| AppLoop.App.NtfyTick | NtfyNotifier.h:57-65 | so do the notifier's; and when a post is due, what waited first stops waiting exactly when it was sent, the rest waits on and the attempt's time is kept |
| SessionMeans.PostMeans | NtfyNotifier.h:193-213 | a due post goes through the relay if it is open, or else over a session of its own; only the first of reply, event and address changes, and it stops waiting exactly when it was sent |
| SessionMeans.PostDueExactly | NtfyNotifier.h:178-191 | a post is due at once, and then a minute after the last attempt, or five seconds if it is a reply or urgent |
| SessionMeans.FramesMean | RelayService.h:250-270 | what the relay has heard is the last address and the last release said before a frame closes it |
| SessionMeans.FramesClose | RelayService.h:219-228 | it closes exactly when a frame says so, and tries again after RECONNECT_MS |
| SessionMeans.RelayOpensExactly | RelayService.h:62-73 | the relay opens exactly when it may, its time has come and the Worker accepts |
| SessionMeans.RelayClosesExactly | RelayService.h:219-248 | it stays open exactly while it may, nobody closes it and it is not lost |
| Text.DeadlineReached | RelayService.h:68 | a deadline is reached from its reading of the clock on and not before, wherever the counter wraps, as far as half a turn |
| SessionMeans.RelayFails | RelayService.h:181-209 | what a failed try leaves: the wait before the next, and whether the Worker speaks another protocol |
| SessionMeans.BacksOff | RelayService.h:367-370 | after n failures in a row the wait is 5 s doubled n times, up to five minutes |
| SessionMeans.StreamOpensExactly | NtfyNotifier.h:315-324 | the command stream opens exactly when it may, its time has come and the server accepts |
| SessionMeans.StreamLetsGo | NtfyNotifier.h:315-319 | it closes when it may not be open |
| SessionMeans.StreamRefused | NtfyNotifier.h:325-340 | a stream the server refuses closes and waits as after a failure |
| SessionMeans.StreamReads | NtfyNotifier.h:325-340 | otherwise it stays open until it is lost, and a refused command makes a reply |
| SessionMeans.WantsExactly | App.h:112-122 | who wants the network |
| SessionMeans.HoldsMean | App.h:124-126 | everyone but the owner lets go, and the stream also while the relay carries its commands |
| SessionMeans.NewsTaken | App.h:110-111 | the relay's news is taken once, and a release number settles when the next check is due |
| SessionMeans.QuickPostMeans | App.h:116-119 | with the relay open a due post goes out before the turn |
| SessionMeans.GoesExactly | App.h:127 | a turn goes on exactly when its connection runs already, there is memory for one, or it has waited half a minute for it |
| SessionMeans.TurnMeans | App.h:132-154 | until then its owner connects to nothing; the updater has its tick in everyone else's turn |
| SessionMeans.PanelMeans | App.h:94 | a recovery has no panel; otherwise its requests come first |
| SessionMeans.SetupMeans | App.h:137-140 | once the Worker is deployed anew the relay connects to it at once, as if it had never failed |
| SessionMeans.OthersAsk | App.h:135-136 | the public IP and the DNS update are one connection and change nothing else here |
| SessionMeans.ActsMean | WebService.h:1589-1593 | after any requests to the panel, the settings are the last saved and the stream is closed if it was to start again |
| SessionMeans.ActsAsk | OTAService.h:130-144 | an updater at work is asked nothing; otherwise the last request it can meet replaces the one before |
| SessionSafety.TickSafe | App.h:90-155 | from any state, a tick without late news adds no second session and ends with one at most |
| SessionSafety.NewsFirstSafe | App.h:106-111 | with the news taken before the updater is asked, no tick does |
| SessionSafety.TurnSafe | App.h:127-152 | a turn keeps one session if it is the updater's or the updater has nothing to begin |
| SessionRuns.OverlapExactly | App.h:106-147 | a tick can have two sessions exactly when the news is late and the relay or the stream can hold the turn |
| SessionRuns.OverlapReached | App.h:106-147 | from power on, a run of five ticks has two sessions, for any release and any newer one |
| SessionRuns.TickBounded | App.h:90-155 | never more than two, and never the relay with the stream |
| SessionRuns.OverlapHeals | App.h:90-155 | a tick that ends with two is followed by one that ends with one |
| SessionRuns.RunSafe | App.h:90-155 | a run with no late news never has two sessions |
| SessionRuns.RunBounded | App.h:90-155 | any run has two at the most |
| SessionRuns.RunNewsFirstSafe | App.h:106-111 | with the news first, a run never has two |
| OtaService.TickNeedsTurn | OTAService.h:105-190 | the updater begins a connection only when it asked for the network |
| OtaUpdater.Updater.Tick | OTAService.h:153-190 | the updater's statements make the step, whose meaning the rows below give |
| OtaMeans.ParseTagExactly | OTAService.h:217-225 | the number of a tag is what follows its v, in decimal, and any other text is -1 |
| OtaMeans.NewerExactly | OTAService.h:193-198 | a release is newer exactly when its number is larger |
| OtaMeans.NewerThanNoRelease | OTAService.h:193-198 | any release is newer than a build that is none, and no other text is newer |
| OtaMeans.NoReleaseIsNewer | OTAService.h:193-198 | a text that is no release is never newer |
| OtaMeans.CheckFinds | OTAService.h:557-606 | a check that reads a tag finds a new version exactly when it is newer, and installs it if it was asked to and did not reject it before |
| OtaMeans.CheckFindsNumber | OTAService.h:557-606 | in numbers: with release n, what is found of release m |
| OtaMeans.AnswerMeans | OTAService.h:730-801 | what each answer to a download's request leads to |
| OtaMeans.ImageMeans | OTAService.h:803-884 | what the end of an image leads to |
| OtaMeans.StartsExactly | OTAService.h:162-190 | a free updater takes up an install first, then a check, then the check that is due, and otherwise does nothing |
| OtaMeans.CheckHeadMeans | OTAService.h:539-555 | the head of the answer to a check leads to its body, or to another try |
| OtaMeans.CheckBodyFails | OTAService.h:557-568 | a body without a tag leads to another try |
| OtaMeans.DownloadFails | OTAService.h:730-740 | a download without an answer is tried again later, unless a restart is near or it was the fourth time |
| OtaMeans.StreamFails | OTAService.h:803-877 | so is an image whose connection is lost |
| OtaMeans.NoMemoryMeans | OTAService.h:675-691 | without the memory for a connection the request goes to flash and the device restarts |
| OtaMeans.PoweredOnWaits | OTAService.h:105-110 | at power on nothing is asked, and nothing begins in the first 20 s |
| OtaMeans.WantsNetExactly | OTAService.h:105-110 | when the updater wants the network |
| OtaMeans.FourthGivesUp | OTAService.h:886-908 | the waits of the retries, and after the last failure the recovery |
| OtaMeans.PersistMeans | OTAService.h:910-924 | what a recovery writes, and when it gives up |
| OtaMeans.RequestsMean | OTAService.h:130-144 | what a request to check or to install replaces |
| OtaUpdater.Updater.ScheduleRetry | OTAService.h:886-908 | the retries, their delays, and the recovery after the last |
| OtaUpdater.Updater.PersistAndReboot | OTAService.h:910-924 | the request written, or given up after MAX_BOOTS |
| OtaRecovery.RequestReadsBack | OTAService.h:926-1009 | a request written as "tag boots" reads back the same |
| Numerals.StrtoulStated | OTAService.h:981 | the counter is read so too: a minus wraps, and what is too large is the largest |
| OtaRecovery.RunKeeps | OTAService.h:886-1009 | over any events the counter in flash stays ahead of the recovery boots in a row that wrote it |
| OtaRecovery.RecoveryBounded | OTAService.h:886-1009 | never more recovery boots in a row than MAX_BOOTS and those of them whose write failed; so never more than MAX_BOOTS while the writes succeed |
| OtaRecovery.CrashLoopExactly | OTAService.h:960-1009 | of a device that crashes in every boot, with any writes failing, a boot recovers exactly when fewer than MAX_BOOTS before it wrote their counter |
| OtaRecovery.CrashLoopEnds | OTAService.h:960-1009 | with every write, it is back to normal after MAX_BOOTS recoveries |
| OtaRecovery.UnboundedWithoutWrites | OTAService.h:960-1009 | with none, the recovery boots have no bound |
| OtaTag.KeyFound | OTAService.h:424-434 | the matcher finds the key at its first place, whatever came before |
| OtaTag.TagRead | OTAService.h:405-468 | the tag of an answer is the string after the key and the colon, cut to the buffer and trimmed |
| OtaTag.Trimmed | OTAService.h:454-459 | trimming takes the blanks at both ends and no more |
| OtaTag.NameRead | OTAService.h:405-468 | so a tag between blanks is read as it is |
| OtaTagParser.TagParser.Feed | OTAService.h:424-467 | a byte changes the parser and its buffer as the step says |
| OtaHeader.HeadRead | OTAService.h:351-401 | any head is refused for its status line, or is complete with its last byte and not before, with the code and what its lines say |
| OtaHeader.StatusExactly | OTAService.h:374-378 | a status line is taken exactly when it begins with HTTP/ and a digit stands after its first space |
| OtaHeader.CodeStated | OTAService.h:374-382 | the code a server states is the one taken |
| Numerals.AtoiStated | OTAService.h:361-379 | numbers are read after spaces and a sign, up to the first character that is no digit, the nearest int when out of range |
| OtaHeader.EmptyExactly | OTAService.h:394 | a location is empty exactly when it is as a C string |
| OtaHeader.LastLength | OTAService.h:361-368 | the length is the last one stated |
| OtaHeader.FirstLocation | OTAService.h:394 | the location is the first that is not empty, cut to its buffer |
| OtaHeader.IsExactly | OTAService.h:608-618 | two names are the same exactly when each character is, or is the other case of the same letter |
| OtaHeader.LengthStated | OTAService.h:388-397 | a length a server states, its name in either case, is the length taken |
| OtaHeader.HeadLength | OTAService.h:351-401 | of a whole head, the last length a server stated is the one taken |
| OtaHeader.HeadWithoutLength | OTAService.h:351-401 | and without any it is -1 |
| OtaHeaderParser.HeaderParser.Feed | OTAService.h:351-401 | a byte changes the parser and its two buffers as the step says |
| OtaHeaderParser.HdrIs | OTAService.h:608-618 | the comparison of names without regard to case |
| IoTSafety.AlwaysKept | IoTService.h:96-263 | from power on, after any events: a pulse is on and in manual mode, automatic mode follows the rule, nothing exceeds what the output takes, and the pin is what was last driven |
| IoTMeans.PinAlwaysTells | IoTService.h:493-511 | and what the pin is: at the configured active level exactly while on, a duty of 0 to 255 along the level in force, the position exactly, each channel of the colour scaled by the level, dark when off |
| IoTMeans.LowIsOff | IoTService.h:496-498 | an active-low output with nothing to restore is off with its pin high |
| IoTMeans.OnGoesTo | IoTService.h:478-484 | where turning on goes: a servo to its position, the others to the level they had or, from nothing, to the one set or all |
| IoTMeans.ColorShows | IoTService.h:253-257 | a colour on a strip at no level goes on at all of it |
| IoTMeans.OthersStay | IoTService.h:233-258 | and what each command leaves alone |
| IoTMeans.Refused | IoTService.h:221-224 | a command that is refused changes nothing |
| IoTMeans.Restores | IoTService.h:452-460 | what the state file has is taken, but no more than the output takes |
| IoTMeans.StartsOff | IoTService.h:124-137 | without it the output starts off, in automatic mode, where the configuration says |
| IoTMeans.CommandComesBack | IoTService.h:452-471 | the last command's output and mode come back after a restart |
| IoTMeans.NeverSaved | IoTService.h:462-471 | nothing is remembered of an output that is not to be restored |
| IoTMeans.TogglesExactly | IoTService.h:591-605 | a button toggles the output each time it is pressed, but not by the first reading |
| IoTMeans.FollowsExactly | IoTService.h:594-601 | without one the output follows the sensor |
| IoTMeans.EmptyRange | IoTService.h:652 | a proportional range of nothing is two steps |
| IoTMeans.ProportionExactly | IoTService.h:708-724 | a proportional rule sets the level on the line, and is on unless it is the off one |
| IoTMeans.RuleDecides | IoTService.h:540-557 | in automatic mode a reading takes the output to what the rule decided |
| IoTMeans.NoClockIsOff | IoTService.h:197-203 | with a window set and no clock, automatic mode is off |
| IoTMeans.ManualLearns | IoTService.h:708-724 | in manual mode it is learned and changes nothing else |
| IoTSafety.ClosedIsOff | IoTService.h:540-557 | with the rule in charge and the window closed, the output is off |
| IoTSafety.TickKeeps | IoTService.h:140-167 | a tick keeps the invariants, ends a pulse whose time has come and an output over its limit |
| IoTSafety.CommandKeeps | IoTService.h:221-263 | so does a command, and what it writes to the file is the state with no pulse running |
| IoTSafety.CommandMeans | IoTService.h:221-263 | each command leaves the output as its name says, since when it says |
| IoTSafety.PulseNeverSaved | IoTService.h:462-471 | while a pulse runs the state file is the one from before it |
| IoTSafety.MapDutyLine | IoTService.h:648-658 | the proportional duty is on the line between the two points, rounded toward the off one, and flat past them |
| IoTSafety.MapDutyBetween | IoTService.h:648-658 | it stays between the two set |
| IoTSafety.MapDutyMonotone | IoTService.h:648-658 | and follows the reading |
| IoTTiming.OverdueExactly | IoTService.h:160 | the tick cuts the output exactly when the limit is over or its reading is older than the turning on |
| IoTTiming.RuleTurnsOnExactly | IoTService.h:540-554 | with a limit, a rule keeps the output on exactly when it read the same millisecond as the tick |
| IoTTiming.PanelIsCut | WebService.h:2438-2444 | whatever panel command turns the output on, stamped after the tick's reading, is undone by that tick |
| IoTLit.NeverOnLonger | IoTService.h:140-167 | with a limit, until the end of a pulse starts the count over, the output is never really on longer than the limit and one gap between ticks, wherever the counter wraps |
| IoTLit.PulseEndsOnExactly | IoTService.h:152-165 | the end of a pulse leaves the output on exactly when the rule knows that it wants it on and the clock still reads the tick's millisecond |
| IoTLit.LimitExactly | IoTService.h:140-167 | the output can then stay on past its limit exactly when a tick ended a pulse that way, of an output on since before |
| IoTLit.NoLimitAtAll | IoTService.h:140-167 | with a limit of a minute and a pulse a minute, an output stays on for any number of minutes |
| IoTTiming.RuleExactly | IoTService.h:635-645 | the rule is on exactly when some reading passed the limit and none since came back by the margin |
| IoTTiming.LocalMinuteExactly | IoTService.h:188-194 | the minute of the day in the zone, also for times before midnight UTC |
| IoTTiming.InHoursExactly | IoTService.h:197-203 | the window is the minutes from its start to its end, round the day |
| IoTTiming.ScaleExactly | IoTService.h:486-491 | each colour channel is scaled on its own |
| IoTDevice.Device.Tick | IoTService.h:140-167 | the fields after a tick |
| IoTDevice.Device.Run | IoTService.h:221-263 | the fields and the result after a command |
| IoTDevice.Device.TakeRule | IoTService.h:540-554 | the rule's decision taken, and whether the output changes |
| IoTDevice.Device.Drive | IoTService.h:493-511 | what the pin is given |
| IoTDevice.Device.constructor | IoTService.h:96-137 | the state after power on, restored or not |
| I2cBus.Bus.Put | I2cBus.h:87-95 | eight clocks make the slave hear the byte, and the ninth its answer |
| I2cBus.Bus.Get | I2cBus.h:97-107 | eight clocks read the byte the slave shows |
| I2cBus.Bus.Write | I2cBus.h:29-36 | the slave records exactly the address and the bytes it took, between one start and one stop |
| I2cBus.Bus.Read | I2cBus.h:38-44 | the device's bytes, 0xFF beyond them, between one start and one stop |
| I2cBus.Bus.ReadReg16 | I2cBus.h:47-52 | a register written, a repeated start, and its two bytes |
| I2cBus.BitHeard | test/i2c_sim.h:106-121 | a clock pulse shifts one bit in |
| I2cBus.BitShown | test/i2c_sim.h:136-150 | a clock pulse shows the next bit |
| MqttPackets.WireRead | MqttService.h:281-307 | any packets one after another are seen once each, in order, with header, length and first bytes, bodies beyond the buffer included |
| MqttPackets.LengthRead | MqttService.h:289-303 | the length coding is undone for every length below 2^28 |
| MqttPackets.LengthTooLong | MqttService.h:292-297 | a fifth length byte ends the connection, and a fourth does not |
| MqttPackets.CommandArrives | MqttService.h:484-500 | what a broker publishes to the command topic arrives as the command's text |
| MqttService.Client.Header | MqttService.h:256-266 | the type and the coded length |
| MqttService.Client.SendConnect | MqttService.h:178-213 | the CONNECT packet declares what follows, with and without user and password |
| MqttService.ConnectRead | MqttService.h:195-213 | a broker that reads CONNECT by section 3.1 of MQTT 3.1.1 gets the name, a clean session kept alive for 60 s, the will, retained, and the user and the password there are |
| MqttService.SubscribeRead | MqttService.h:222-230 | a broker that reads SUBSCRIBE by section 3.8 gets its id and the one topic, with quality of service 0 |
| MqttService.RetainedRead | MqttService.h:247-254 | one that reads PUBLISH by section 3.3 gets the topic and the text, to be retained |
| MqttService.Client.Announce | MqttService.h:364-388 | the pass that measures and the pass that writes agree |
| MqttService.Client.Online | MqttService.h:215-233 | what goes out on connecting is four whole packets |
| MqttService.Client.Feed | MqttService.h:281-307 | a byte changes the receive state as the step says |
| WsFrames.ClientFrameTaken | test/ws_frames.h:36-60 | a peer that unmasks by its own expression takes back the operation and the payload and stops at the frame's end |
| WsFrames.FrameOnWire | WsClient.h:155-164 | byte i of the payload on the wire is payload byte i exclusive-or mask byte i % 4, as section 5.3 of RFC 6455 has it |
| Bytes.XorAt | WsClient.h:159 | each bit of an exclusive or is set exactly when one of the two is |
| WsFrames.ClientFrameCut | WsClient.h:61-73 | from 65536 bytes on it takes a prefix |
| WsFrames.AcceptableExactly | WsClient.h:83-102 | a frame is accepted exactly when FIN is set, RSV1 to RSV3 and MASK are clear, it is no continuation and no longer than MAX_FRAME |
| WsFrames.ServerFrameAcceptable | test/ws_frames.h:11-27 | a peer's frame is acceptable exactly when it has an operation and fits |
| WsClient.Client.Send | WsClient.h:60-80 | head and body go out as one masked frame, each byte with its own mask byte |
| WsClient.Client.Frame | WsClient.h:83-102 | accepts exactly final, unreserved, unmasked, non-continuation frames of at most MAX_FRAME bytes |
| WsClient.Client.ReadLength | WsClient.h:89-96 | refuses early only what is too long, and never overflows |
| WsClient.Client.Read | WsClient.h:131-138 | stops exactly at the payload's end |
| WsClient.Client.Skip | WsClient.h:140-142 | and so does skipping |
| WsClient.Client.Receive | WsClient.h:83-138 | a peer's frame is read whole and what follows is next |
| ReverseDns.Name | ReverseDNS.h:118-146 | the labels joined, on any bytes, inside the message and the output |
| ReverseDns.Parse | ReverseDNS.h:71-88 | the first PTR of an answer to this query, or nothing touched |
| ReverseDns.Query | ReverseDNS.h:51-67 | the query for an address |
| ReverseDns.LabelsAlong | ReverseDNS.h:105-146 | labels written are labels read, and skipped |
| ReverseDns.CompressedName | ReverseDNS.h:118-146 | a pointer continues the name where it points |
| ReverseDns.QueryName | ReverseDNS.h:51-67 | the query asks for the reversed octets under in-addr.arpa |
| ReverseDns.AnswerRead | ReverseDNS.h:71-88 | the name in the answer to a query is the one the server wrote |
| ReverseDnsMeans.JoinedSplits | ReverseDNS.h:126-143 | the name splits at its dots into the labels |
| ReverseDnsMeans.RoomExactly | ReverseDNS.h:138-142 | a name fits exactly when each label, as it is read, leaves room for a dot and the end |
| ReverseDnsMeans.NameAsked | ReverseDNS.h:59-66 | the name a query asks for, as text |
| ReverseDnsMeans.QueryAsks | ReverseDNS.h:51-67 | the bytes of a query, at their places |
| ReverseDnsMeans.FirstPtrExactly | ReverseDNS.h:76-84 | of any records in an answer, the name is that of the first that is a PTR |
| ReverseDnsMeans.AnswersOnly | ReverseDNS.h:73 | nothing but an answer to this query, without an error, gives a name |
| HttpForm.FormRead | HttpServer.h:278-304 | any lookup in any form: by a name as it is sent, or by an entry's whole text |
| HttpForm.FormFound | HttpServer.h:278-304 | with unreserved names, looking one up gives its first value, and an absent name is never found |
| HttpForm.EqualsExactly | HttpServer.h:278-304 | a name with an equals sign is found exactly when an entry that is sent spells it |
| HttpForm.EqualsFound | HttpServer.h:284 | such a name, such an entry |
| HttpForm.EncodeRead | test/web_browser.h:36-50 | decoding undoes the browser's encoding |
| HttpForm.DecodeKeeps | HttpServer.h:287-298 | what is no escape and no plus sign stands for itself, a percent sign too |
| HttpForm.EscapeRead | HttpServer.h:291-296 | an escape's digits are read in either case |
| HttpForm.FindIn | HttpServer.h:278-304 | the pointer walk finds the value |
| HttpForm.Response.Put | HttpServer.h:318-330 | the response goes out whole and in order, a segment at a time |
| Totp.KeyBack | Totp.h:35-59 | a key comes back from its hexadecimal digits, the blank one excepted |
| Totp.Base32Back | Totp.h:63-107 | a key comes back from base 32 |
| Totp.Base32Bits | Totp.h:63-77 | letter i has the key's bits 5 i to 5 i + 4, in the alphabet of section 6 of RFC 4648 |
| Totp.ValuesExactly | Totp.h:81-107 | a typed key is read exactly when everything before an equals sign, but for spaces, is a letter of it, in either case |
| Totp.EncodeBase32 | Totp.h:63-77 | the shift buffer regroups the bits by five |
| Totp.DecodeBase32 | Totp.h:81-107 | the shift buffer regroups them by eight; anything but 32 digits clears the key |
| Totp.Verify | Totp.h:132-153 | a code is taken exactly when a step near now has it and is later than the last taken |
| Totp.HitExactly | Totp.h:132-153 | the step a try leaves is the latest of the three near now that is later than the last taken and has that code |
| Totp.AppCodeTaken | Totp.h:109-153 | the code an application shows is taken while its clock is no more than a step away and no code as late was taken |
| Totp.TruncatedExactly | Totp.h:109-120 | a code's number is four bytes of the hash, at the place its last byte says, but for the highest bit |
| Totp.TruncatedExample | Totp.h:109-120 | on the example of section 5.4 of RFC 4226 it is 872921 |
| Totp.Format | Totp.h:170-176 | it is written as six digits, zeros first |
| Totp.CodesAreNumbers | Totp.h:132-137 | what is taken for a code is what is written so |
| Totp.HitsIncrease | Totp.h:132-153 | over any tries no step is taken twice |
| ConfigTable.AreDistinct | ConfigStore.h:143-148 | the check over the keys is the pairwise one |
| ConfigSafety.OwnRow | ConfigStore.h:295-301 | a key that is written finds its own row |
| ConfigSafety.SetReads | ConfigStore.h:272-291 | the value written for a field sets it again |
| ConfigSafety.SavedLoads | ConfigStore.h:304-347 | a saved configuration loads back field by field |
| ConfigNames.TextByName | ConfigStore.h:304-322 | of any object's text, each field is what the members of its name make of its default, one after the other |
| ConfigNames.NamedLoads | ConfigStore.h:295-317 | a value written for a field under its three letters or under its old name, by whatever version, loads into it |
| ConfigNames.OldNameLoads | ConfigStore.h:295-321 | and one that only version 1 had, into what that version's mapping is given |
| ConfigNames.ListReads | ConfigStore.h:311-315 | of the list of records, the first text is what is read |
| ConfigNames.ListGives | ConfigStore.h:311-318 | and it is the record's while no text has come |
| ConfigNames.HashTextIsHashed | Password.h:45-78 | the text the hash writes is known for a hash |
| ConfigNames.TypedIsNotHashed | Password.h:55-57 | and no password the panel takes is |
| ConfigNames.OneName | ConfigStore.h:143-148 | no name is two fields' |
| ConfigSafety.LoadedFits | ConfigStore.h:272-321 | whatever the file, the fields are in their ranges |
| ConfigSafety.WrongIsIgnored | ConfigStore.h:272-291 | a value of the wrong type changes nothing, but for a key that is not blank |
| ConfigStore.Store.Save | ConfigStore.h:111-137 | at every step the configuration file is the old one, or the new one as far as there was room, and it is new exactly when the save reports success; with room, a boot after a power cut at any step finds what it would have found before, or the new configuration |
| ConfigStore.Store.Load | ConfigStore.h:55-107 | a broken file changes nothing; otherwise the configuration is what the file's members say, name by name, old names included, and the file is replaced at once, its copy and the actuator's state written first; with room, a boot after a power cut at any step finds the same configuration but for a password not yet hashed |
| ConfigStore.StateWritten | ConfigStore.h:352-373 | the actuator's state file is written exactly when a version 1 file had a fixed command and it can be, as far as there is room |
| ConfigStore.SavedExactly | ConfigStore.h:111-137 | a save that reports success loads back exactly when there was room for what was measured, and otherwise nothing loads |
| ConfigStore.CutInLoad | ConfigStore.h:55-107 | with another salt, the file before or after a load gives every field again, and the password too exactly when the file's own is empty or hashed already, or the hashes agree |
| ConfigStore.CutInSave | ConfigStore.h:111-137 | with room, the file a save leaves gives the whole configuration, whatever the salt |
| ConfigSafety.LoadedHashed | ConfigStore.h:89-94 | after a load the password is empty or a hash |

## Left out

- AppLoop.App.Tick: the relay and the notifier are records that the loop's methods assign to field by field, not objects of their own; the updater is.
- OtaUpdater.Updater.Tick: answers arrive as what the two parsers make of them; the parsers' bytes are in `OtaHeader` and `OtaTag`.
- OtaHeader.Feed: a number that does not fit an int reads as the nearest one, as the C library of the core does; the language leaves it open.
- RelayCodec.Script: the stack's index is a number, not a byte; depths are at most 20.
- IoTService.Read: the reading arrives in the unit set; the drivers of the sensors, the unit conversions, the texts and the notices are not modelled.
- IoTService.Begin: the output of the previous configuration, left off before a new one is read, is not modelled; a configuration starts from an undriven pin.
- ConfigStore.Store.Load: the mapping of the version 1 fields, the state file it writes and the table of rows are given from outside; the mapping leaves the password alone, as the source's does. A row's place in memory is a cell.
- ConfigStore.Store.Save: keys are told apart by a hash given from outside; that no two of the real table collide is checked by the source when it compiles.
- MqttService.Client.Announce: the discovery text is any list of pieces, the same in both passes.
- WsClient.Client.Frame: bytes that never arrive are the end of the input; the milliseconds waited for each are not modelled. The handshake is not part of this model.
- Totp.Verify: clock readings from 2^32 seconds on, in the year 2106.
- ReverseDns.Query: the address is four octets; its parsing from text is the core's.
- I2cBus.Bus.Read: no clock stretching, as in the source.
- Session.Tick: the requests of the public IP, the DNS update and the setup are wants the environment chooses and one connection each.
- TLS, certificate checks, RSA verification, PBKDF2 and HMAC: foreign code.
- Panel pages, translations, drawings of the QR code, LED strip and sensor timing, Wi-Fi, logging, the build scripts: no property that spans functions.
