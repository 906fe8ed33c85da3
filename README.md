# NocturneCompanion BLE test client, modelled in Dafny

`BLE_TEST_CLIENT.py` is the operator-side test client of NocturneCompanion.
It scans for the companion device and connects to it over Bluetooth Low
Energy. It reads the capability document and subscribes to the state and
debug notifications. Then it turns the operator's typed commands into JSON
command records written to the command characteristic. This project models
its protocol logic and proves properties of that logic:

- **Endpoints** (`endpoints.dfy`): the service identifier and the four
  characteristic identifiers, and the role each characteristic plays.
- **Device selection** (`discovery.dfy`): the first-match scan of
  `find_device`, as a loop (`FindDevice`) proved equal to a recursive
  reference (`FirstMatch`).
- **Command language** (`commands.dfy`): how an input line is stripped,
  lower-cased and dispatched through the `if`/`elif` chain of the interactive
  loop. It also covers the dict literal passed to `send_command`, and the
  bytes written, which are `json.dumps` of that record in UTF-8.
- **Notification classification** (`notifications.dfy`): the handler closure
  built by `notification_handler`, from the bytes of one notification to the
  event it reports, including the exception branches.
- **Session** (`session.dfy`): the client object with its fields, the
  methods `connect`, `read_device_info`, `subscribe_notifications`,
  `send_command`, `interactive_mode` and `run`, and the sequence of GATT
  operations a whole session issues.
- Supporting modules for the Python behaviour the client relies on:
  - `text.dfy`: `strip`, `lower`, `split`, `in`, `int()` and `str()`.
  - `utf8.dfy`: strict UTF-8 encoding and decoding.
  - `json.dfy`: `json.dumps` with its default settings, and a matching parser
    for flat objects, proved to read back every flat object `json.dumps`
    writes.

The radio, the terminal and the clock are parameters. A scan is the list of
devices it reported. A connection attempt, a subscription and a read are
represented by whether the peripheral accepted them and what it returned. The
operator's input is a sequence of lines and Ctrl-C events, ending at the end
of input. `json.loads` is a parameter `loads` (`None` stands for
`JSONDecodeError`). The lemmas that need to know how it reads flat objects
say so with `ReadsFlatObjects`, which asks it only of objects whose integers `json.loads` accepts.

Two behaviours a reader might expect that the code does not have:

- The code checks no ranges. `seek -5000` and `vol 150` are written as typed
  (`Commands.NegativeSeek`, `Commands.VolumeAboveHundred`). There is no
  validation error.
- The bytes `DE AD BE EF` are not valid UTF-8. In the code they fail in
  `data.decode('utf-8')`, which lands in the generic error branch, not the
  raw-hex fallback (`Notifications.DeadBeef`).

## Model

| member | source | states |
|---|---|---|
| Endpoints.CharUuidsDistinct | BLE_TEST_CLIENT.py:15-19 | the four characteristic identifiers are pairwise distinct, and none of them is the service identifier |
| Endpoints.RoleOfCharUuid | BLE_TEST_CLIENT.py:15-19 | each role's identifier maps back to that role, so roles and characteristics are in one-to-one correspondence |
| Endpoints.RoleOf | BLE_TEST_CLIENT.py:15-19 | a characteristic identifier is given a role only when it is that role's identifier |
| Discovery.FindDevice | BLE_TEST_CLIENT.py:31-41 | the scan loop returns exactly the reference choice: the first device that matches, flagged by whether it matched on its name |
| Discovery.FirstMatchIsFirst | BLE_TEST_CLIENT.py:31-41 | no device is chosen exactly when none matches; otherwise the chosen device matches, every earlier one does not, and it is reported as found by name exactly when its name matches |
| Discovery.NameWithDeviceName | BLE_TEST_CLIENT.py:32 | any name with `NocturneCompanion` anywhere inside it matches |
| Discovery.AdvertisedService | BLE_TEST_CLIENT.py:36-38 | a device advertising the service identifier, in any letter case, matches whatever its name, and a scan of it alone picks it |
| Discovery.AnonymousDeviceSkipped | BLE_TEST_CLIENT.py:31-38 | a nameless device that advertises nothing is passed over |
| Discovery.FirstMatchWins | BLE_TEST_CLIENT.py:31-38 | a matching device picks itself, whatever follows it in the scan |
| Text.StripLeft | BLE_TEST_CLIENT.py:161 | the result is a suffix of the input, everything dropped is whitespace, and the result does not start with whitespace |
| Text.StripRight | BLE_TEST_CLIENT.py:161 | the result is a prefix of the input, everything dropped is whitespace, and the result does not end with whitespace |
| Text.Strip | BLE_TEST_CLIENT.py:161 | the stripped line has no whitespace at either end |
| Text.StripPadded | BLE_TEST_CLIENT.py:161 | `strip()` removes exactly the whitespace padding around a word |
| Text.LowerConcat | BLE_TEST_CLIENT.py:161 | `lower()` works character by character |
| Text.LowerKeepsSpace | BLE_TEST_CLIENT.py:161 | `lower()` leaves whitespace where it was, so word boundaries do not move |
| Text.LowerTwice | BLE_TEST_CLIENT.py:161 | `lower()` is idempotent |
| Text.Token | BLE_TEST_CLIENT.py:174 | the first token is the longest whitespace-free prefix |
| Text.Split | BLE_TEST_CLIENT.py:174 | every word of `split()` is nonempty and holds no whitespace |
| Text.SplitWord | BLE_TEST_CLIENT.py:174 | a word followed by whitespace-led text splits into that word, then the words of the rest |
| Text.SplitTwoWords | BLE_TEST_CLIENT.py:174 | `verb arg tail` splits into `verb`, `arg`, then the words of `tail`, so `split()[1]` is `arg` |
| Text.SplitLeadingSpace | BLE_TEST_CLIENT.py:174 | leading whitespace does not change the words |
| Text.SplitNonEmpty | BLE_TEST_CLIENT.py:174 | text with a non-space character has at least one word |
| Text.ContainsAt | BLE_TEST_CLIENT.py:32 | `part in s` holds exactly when `part` occurs at some position of `s` |
| Text.NatText | BLE_TEST_CLIENT.py:139 | `str(n)` of a natural number is nonempty decimal digits with no leading zero |
| Text.IntText | BLE_TEST_CLIENT.py:139 | `str(n)` starts with a minus sign exactly when `n` is negative |
| Text.NatTextValue | BLE_TEST_CLIENT.py:139 | the digits `str(n)` writes have the value `n` |
| Text.IntTextParses | BLE_TEST_CLIENT.py:174-177 | `int(str(n)) == n` for every integer `str()` can write, negative ones included, up to Python's 4300-digit limit |
| Text.TooManyDigits | BLE_TEST_CLIENT.py:174-177 | `int()` rejects more than 4300 digits, with or without a sign |
| Text.ParsedWithinLimit | BLE_TEST_CLIENT.py:174-177 | every integer `int()` accepts is one `str()` can write back |
| Text.ParsePythonIntPlusAndZeros | BLE_TEST_CLIENT.py:174-177 | `int()` accepts an explicit plus sign and a leading zero, reading the digits' value |
| Text.HexDigitValue | BLE_TEST_CLIENT.py:116 | every hexadecimal digit `hex()` writes reads back as its value |
| Utf8.EncodeChar | BLE_TEST_CLIENT.py:141 | one character encodes to one to four bytes |
| Utf8.DecodeChar | BLE_TEST_CLIENT.py:84 | a decoded character takes one to four bytes, never more than are there |
| Utf8.EncodeConcat | BLE_TEST_CLIENT.py:141 | encoding works character by character |
| Utf8.EncodeAscii | BLE_TEST_CLIENT.py:141 | ASCII text encodes to one byte per character, each equal to the character's code |
| Utf8.DecodeEncodeChar | BLE_TEST_CLIENT.py:141 | decoding the bytes of one character gives back that character and its length, whatever follows |
| Utf8.DecodeEncode | BLE_TEST_CLIENT.py:141 | `decode('utf-8')` undoes `encode('utf-8')` for every string |
| Utf8.EncodeDecode | BLE_TEST_CLIENT.py:84 | whatever strict decoding accepts is the encoding of the text it gives, so overlong and other non-canonical forms fail to decode |
| Utf8.StrayContinuation | BLE_TEST_CLIENT.py:84 | bytes that start with a continuation byte fail to decode |
| Json.Lookup | BLE_TEST_CLIENT.py:88-98 | a key is absent exactly when no member has it; otherwise the value is that of its last occurrence, as for the dict `json.loads` builds |
| Json.Hex4 | BLE_TEST_CLIENT.py:139 | the `\u` escape digits are always four |
| Json.EscapeChar | BLE_TEST_CLIENT.py:139 | an escaped character never starts with a quote, and it starts with a backslash unless it is printable ASCII |
| Json.ParseHex4Hex4 | BLE_TEST_CLIENT.py:139 | four escape digits read back as their value |
| Json.EscapeCharPair | BLE_TEST_CLIENT.py:139 | above U+FFFF, `json.dumps` writes the surrogate pair that recombines to the character |
| Json.ParseEscapeChar | BLE_TEST_CLIENT.py:139 | every escaped character reads back as that character, whatever follows |
| Json.ParseQuoted | BLE_TEST_CLIENT.py:139 | every escaped string reads back exactly, up to its closing quote |
| Json.ParseIntText | BLE_TEST_CLIENT.py:139 | every integer `json.dumps` writes reads back, negative ones included |
| Json.ParseDumpedScalar | BLE_TEST_CLIENT.py:139 | every scalar `json.dumps` writes reads back as itself |
| Json.ParseDumpedMember | BLE_TEST_CLIENT.py:139 | every `"key": value` member reads back as itself |
| Json.ParseDumpedMembers | BLE_TEST_CLIENT.py:139 | a nonempty run of `", "`-separated members reads back in order |
| Json.DumpsParses | BLE_TEST_CLIENT.py:139 | the parser reads back every flat object `json.dumps` writes, members in order |
| Json.EscapeIsAscii | BLE_TEST_CLIENT.py:139 | an escaped string's contents are pure ASCII (`ensure_ascii`) |
| Json.DumpsIsAscii | BLE_TEST_CLIENT.py:139 | `json.dumps` output is pure ASCII for every value, nested ones included |
| Commands.Record | BLE_TEST_CLIENT.py:165-178 | a record is a flat object led by its `command` name, with a second key exactly for seek and volume |
| Commands.RecordRoundTrip | BLE_TEST_CLIENT.py:165-178 | every command reads back from its record |
| Commands.FromRecordOnlyRecords | BLE_TEST_CLIENT.py:165-178 | a record that reads back as a command is exactly that command's record, with no missing and no extra keys |
| Commands.PayloadIsAscii | BLE_TEST_CLIENT.py:139-141 | the bytes written are one per character of the JSON text, each that character's code |
| Commands.PayloadRoundTrip | BLE_TEST_CLIENT.py:136-144 | the bytes written decode as UTF-8 to `json.dumps` of the record, which parses back to the record and so to the command |
| Commands.DispatchKeyword | BLE_TEST_CLIENT.py:163-180 | `quit`, `play`, `pause`, `next`, `prev` (sent as `previous`) and `info` do what the keyword table says |
| Commands.KeywordAnyCaseAndPadding | BLE_TEST_CLIENT.py:161-180 | a keyword in any letter case, with any whitespace around it, does what the table says |
| Commands.KeywordCommandsOnlyFromKeywords | BLE_TEST_CLIENT.py:161-172 | a line sends play, pause, next or previous exactly when its normalized form is that keyword |
| Commands.NotKeyword | BLE_TEST_CLIENT.py:163-179 | no keyword starts with `s` or `v` |
| Commands.DispatchSeek | BLE_TEST_CLIENT.py:173-175 | a command starting with `seek ` seeks to its second word read as an integer, or reports a bad argument |
| Commands.DispatchVolume | BLE_TEST_CLIENT.py:176-178 | a command starting with `vol ` sets the volume to its second word read as an integer, or reports a bad argument |
| Commands.UnknownExactly | BLE_TEST_CLIENT.py:163-182 | a command is unknown exactly when it is no keyword and starts with neither `seek ` nor `vol ` |
| Commands.BadArgumentExactly | BLE_TEST_CLIENT.py:173-190 | a bad argument is reported exactly for a `seek ` or `vol ` command whose second word is not an integer |
| Commands.SeekSendsAnyValue | BLE_TEST_CLIENT.py:161-175 | `seek n` sends `n` unchanged, whatever its sign, for every `n` of at most 4300 digits, and further words are ignored |
| Commands.SeekTooManyDigits | BLE_TEST_CLIENT.py:173-175 | `seek` with more than 4300 digits reports a bad argument |
| Commands.VolumeSendsAnyValue | BLE_TEST_CLIENT.py:161-178 | `vol n` sends `n` unchanged, with no check against 0..100, for every `n` of at most 4300 digits, and further words are ignored |
| Commands.VolumeTooManyDigits | BLE_TEST_CLIENT.py:176-178 | `vol` with more than 4300 digits reports a bad argument |
| Commands.ArgumentWithinLimit | BLE_TEST_CLIENT.py:174-177 | the argument the loop reads is always one `json.dumps` can write |
| Commands.DispatchedEncodable | BLE_TEST_CLIENT.py:163-178 | every command the loop sends can be serialized, so `send_command`'s error branch is never reached from the loop |
| Commands.NormalizedWordLine | BLE_TEST_CLIENT.py:161-178 | normalizing `verb arg rest` keeps the `verb ` prefix, and the argument read is `int(arg)` |
| Commands.NormalizedArgumentLine | BLE_TEST_CLIENT.py:161-178 | normalizing `verb n rest` keeps the `verb ` prefix and the argument `n` |
| Commands.ArgumentWordExists | BLE_TEST_CLIENT.py:161-178 | a normalized `seek `/`vol ` line always has a second word, so `split()[1]` cannot fail; only `int()` can |
| Commands.NormalizedEnd | BLE_TEST_CLIENT.py:161 | a normalized line does not end in whitespace |
| Commands.VolumeAboveHundred | BLE_TEST_CLIENT.py:176-178 | `vol 150` sends a volume of 150 |
| Commands.NegativeSeek | BLE_TEST_CLIENT.py:173-175 | `seek -5000` sends a position of -5000 |
| Notifications.Hex | BLE_TEST_CLIENT.py:116 | `hex()` writes two digits per byte |
| Notifications.UnhexHex | BLE_TEST_CLIENT.py:116 | the raw fallback's hex text reads back to the exact bytes |
| Notifications.LevelSymbol | BLE_TEST_CLIENT.py:101-109 | the symbol lookup fails exactly for an unhashable level, and otherwise gives one of the table's symbols |
| Notifications.LevelSymbolTable | BLE_TEST_CLIENT.py:101-109 | a known level name gets its table symbol, and every other hashable level gets the fallback symbol, which is VERBOSE's |
| Notifications.InvalidUtf8Exactly | BLE_TEST_CLIENT.py:84-118 | the generic error for invalid UTF-8 happens exactly when the bytes do not decode, on every characteristic |
| Notifications.RawDataExactly | BLE_TEST_CLIENT.py:84-116 | the raw fallback happens exactly when the bytes decode but `json.loads` rejects the text, and then carries exactly those bytes |
| Notifications.NotAnObjectExactly | BLE_TEST_CLIENT.py:86-118 | a document that is not an object fails with the generic error exactly on the state and debug characteristics |
| Notifications.IgnoredExactly | BLE_TEST_CLIENT.py:86-95 | nothing is reported exactly for a parsed document on a characteristic other than state and debug |
| Notifications.EventSources | BLE_TEST_CLIENT.py:86-113 | state events come only from the state characteristic, and debug records and level failures only from the debug one |
| Notifications.StateUpdateExactly | BLE_TEST_CLIENT.py:88-93 | a state object is shown as a state update exactly when its `type` is `stateUpdate`; any other object is shown whole |
| Notifications.StateFields | BLE_TEST_CLIENT.py:89-91 | a state update carries each field present as it is, and `Unknown`, `Unknown`, `False`, `0` for absent ones |
| Notifications.DebugFields | BLE_TEST_CLIENT.py:95-109 | a debug record carries `level`, `type` and `message` as present, or `INFO`, `LOG` and the empty text when absent, and the symbol of its level |
| Notifications.MissingAndNullLevel | BLE_TEST_CLIENT.py:96-109 | a record without `level` gets INFO's symbol; one whose `level` is `null` gets the fallback symbol |
| Notifications.DebugDataShown | BLE_TEST_CLIENT.py:96-113 | a debug record shows `data` exactly when the key is present with a truthy value, and shows that value |
| Notifications.UnhashableLevelExactly | BLE_TEST_CLIENT.py:109-118 | a debug object fails with the generic error exactly when its `level` is a list or an object |
| Notifications.DeadBeef | BLE_TEST_CLIENT.py:84-118 | the bytes DE AD BE EF end in the generic error on every characteristic |
| Notifications.DumpedStateUpdate | BLE_TEST_CLIENT.py:84-91 | the UTF-8 bytes of `json.dumps` of a flat `stateUpdate` object whose integers are within the 4300-digit limit are reported field by field |
| Notifications.DumpedDebugRecord | BLE_TEST_CLIENT.py:95-113 | the UTF-8 bytes of `json.dumps` of any flat object whose integers are within the 4300-digit limit are reported on the debug characteristic as a debug record |
| Notifications.FlatLevelHashable | BLE_TEST_CLIENT.py:96-109 | in a flat object the level is always hashable |
| Session.TurnOf | BLE_TEST_CLIENT.py:161-188 | a turn that goes on never carries `quit` |
| Session.TurnAt | BLE_TEST_CLIENT.py:159-161 | each input event gives its own turn, independently of the others |
| Session.LoopOperationsOnly | BLE_TEST_CLIENT.py:159-190 | the interactive loop only writes to the command characteristic and reads the information one |
| Session.StopIgnoresRest | BLE_TEST_CLIENT.py:163-188 | after a stop, nothing that follows is acted on |
| Session.StopEndsLoop | BLE_TEST_CLIENT.py:163-188 | `quit` and Ctrl-C end the loop before anything more is issued |
| Session.LineGoesOn | BLE_TEST_CLIENT.py:159-190 | any other line issues its outcome's operations, then the loop goes on with the next event |
| Session.CommandLineWrites | BLE_TEST_CLIENT.py:165-178 | a line naming a command writes exactly that command's payload, then the loop goes on |
| Session.SilentLineSkipped | BLE_TEST_CLIENT.py:173-190 | an unknown command or a bad argument issues nothing, and the loop goes on |
| Session.SessionBracketed | BLE_TEST_CLIENT.py:192-213 | a session with the device found and the link accepted starts by connecting, reading the information and subscribing to state, ends by disconnecting, and neither connects nor disconnects in between |
| Session.SessionRoles | BLE_TEST_CLIENT.py:192-213 | on every path, writes go only to the command characteristic, reads only to the information one, and subscriptions only to the state and debug ones |
| Session.SessionWithoutLink | BLE_TEST_CLIENT.py:192-195 | with no device found the session issues nothing; with the link refused, only the connection attempt |
| Session.AsWrittenNeverLeaves | BLE_TEST_CLIENT.py:159-190 | as written, input that ends without `quit` or Ctrl-C leaves the loop stuck at the end of input forever |
| Session.LoopPassActions | BLE_TEST_CLIENT.py:159-190 | a pass that moves on issues that turn's operations ahead of the rest of the loop; the loop leaves exactly at a stop or the end of input, issuing nothing more |
| Session.LoopLeaves | BLE_TEST_CLIENT.py:159-190 | the loop as intended always leaves, at the latest one pass after the last event |
| Session.NocturneTestClient.constructor | BLE_TEST_CLIENT.py:22-24 | a new client has no device, no link, no subscriptions and has issued nothing |
| Session.NocturneTestClient.Connect | BLE_TEST_CLIENT.py:43-67 | keeps the selected device; with none, fails and changes nothing else; otherwise issues one connection attempt and succeeds exactly when the peripheral accepts it |
| Session.NocturneTestClient.ReadDeviceInfo | BLE_TEST_CLIENT.py:69-77 | issues one read of the information characteristic and gives the parsed document, or nothing on any failure, which never escapes |
| Session.NocturneTestClient.SubscribeNotifications | BLE_TEST_CLIENT.py:122-134 | subscribes to state first, and to debug only once state succeeded; the handlers installed are those accepted |
| Session.NocturneTestClient.SendCommand | BLE_TEST_CLIENT.py:136-144 | with a client, issues one write of the command's payload to the command characteristic, unless `json.dumps` fails, when nothing is written |
| Session.NocturneTestClient.InteractiveMode | BLE_TEST_CLIENT.py:159-190 | issues exactly the operations of the input's turns, up to the first stop or the end of input |
| Session.NocturneTestClient.Serve | BLE_TEST_CLIENT.py:160-190 | stops exactly on Ctrl-C or `quit`; otherwise issues the operations of the line's outcome |
| Session.NocturneTestClient.Perform | BLE_TEST_CLIENT.py:163-182 | a command is written, `info` reads the information characteristic, anything else issues nothing |
| Session.NocturneTestClient.Run | BLE_TEST_CLIENT.py:192-213 | issues exactly the operations of a session, and leaves the link disconnected whenever a device was selected |

## Left out

- The Bluetooth stack itself (scanning, connecting, reading, writing, subscribing, disconnecting). These are parameters and a trace of `Gatt` operations; a link that drops in the middle of a session is not modelled.
- `asyncio` scheduling, the sleeps, and concurrency between notifications and the input loop: handlers are modelled as functions applied to one notification.
- The timestamp from `datetime.now()`, all printing and emoji text, `json.dumps(indent=2)` pretty-printing, and the services listing after connecting.
- `json.loads` exceptions other than `JSONDecodeError` (`RecursionError` on deeply nested text, `ValueError` on an integer of more than 4300 digits): `loads` gives a document or `None`, so the generic error branch these reach is not modelled for them.
- `json.loads` in general: it is the parameter `loads`. `JsonValue` has no number other than an integer, so a notification whose document holds a float (`1.5`, `1e3`) is outside the handler model too. The concrete parser reads flat objects of strings, integers, booleans and `null` only; nested values are left out of it.
- Text.ParsePythonInt: models `int()` only for an optional sign followed by ASCII digits, without underscores, Unicode digits or surrounding whitespace (the token from `split()` never has whitespace). The digit limit is Python's default of 4300; changing it through `sys.set_int_max_str_digits` or `PYTHONINTMAXSTRDIGITS` is not modelled.
- Text.LowerChar: lower-cases only the characters whose lower case is ASCII (A-Z and the Kelvin sign); other non-ASCII letters are left as they are, since no other lower case can make a line match a command word or change an `int()` result.
- Session.NocturneTestClient.Run: the disconnect in `finally` is modelled as run after the loop ends normally; an exception escaping `interactive_mode` (such as the `CancelledError` below) is not modelled.
- Ctrl-C is modelled as `KeyboardInterrupt` raised inside `input()` and caught by the loop, which is how Python before 3.11 behaves. From Python 3.11, `asyncio.run` installs its own SIGINT handler: the first Ctrl-C cancels the main task while `input()` goes on waiting, the `CancelledError` then arrives at the next `await`, where neither `except` of the loop catches it (after `quit` it cancels the `disconnect()` in `run`'s `finally`), and only a second Ctrl-C raises `KeyboardInterrupt`. That cancellation path is not modelled.
- Session.NocturneTestClient.InteractiveMode: ends at the end of input, as intended, not as written (see Findings).
- The notification handler's `message['data']` is modelled as the same lookup as `get`, which holds because it runs only when the key is present.

## Findings

| source | as written | input that shows it | evidently intended | confidence | as-written member | corrected member |
|---|---|---|---|---|---|---|
| BLE_TEST_CLIENT.py:159-190 | at the end of input `input()` raises `EOFError`, which `except Exception` catches, so `while True` prompts again forever and `run` never reaches its disconnect | an input stream that ends without `quit` or Ctrl-C, for instance an empty one | end of input ends the loop, as Ctrl-C does, and `run` disconnects | not executed | Session.AsWrittenNeverLeaves | Session.LoopLeaves |
