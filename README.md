# rtcom companion server: live GPS slot, fix acquisition and command dispatch

This project models the decision logic of `rtcom.py`, the companion web server of the LXMF-CLI range-test plugin. It covers three parts:

- **Fix acquisition** (`get_current_gps`, module `Location`). Off Termux there is no fix. On Termux the gps provider of `termux-location` is asked first and the network provider second. Each provider's JSON object goes through the same screen: both coordinates present, both truthy, and at least one of magnitude above 0.001 degrees. An exception in either provider ends the attempt with no fix. Such an exception is a launch failure, a timeout, output that is not JSON, or a truthy coordinate that `abs()` cannot take when the test reaches it.
- **The live slot** (`current_gps` and `gps_updater`, module `LiveGps`). A successful tick replaces the whole record, with `0`, `None` or `'unknown'` for absent fields. A failed tick only clears `available`, so the last coordinates stay in the slot. The class `GpsSlot` holds the slot. `Tick` is one locked update. `Poll` runs the first ticks of the poller loop. `Replay` is the same run as a function, and the lemmas about it give last-write-wins and no-torn-read.
- **Command dispatch** (`send_lxmf_command`, modules `Protocol` and `Dispatch`). A request is validated with Python truthiness and built into `s <idx> rt <N> <D>` or `s <idx> rs`. `N` and `D` default to 10 and 5. The line plus `"\n"` replaces the content of the mailbox file `rtcom_command.txt`, held by the class `Mailbox`. A refused request leaves the file as it was. `Protocol.Decode` reads a line back into a command. It is the inverse that the line format is proved against; the bridge process that reads the file is not part of this model.

JSON values are the datatype `PyJson.Json`: None, booleans, ints, floats and strings. The module also defines Python's truth test, `abs()` and `str()` on them. A float carries its value and the text Python's `repr()` gives for it. Coordinates are Dafny `real`s, not IEEE doubles.

Files: `wrappers.dfy`, `py_json.dfy`, `location.dfy`, `live_gps.dfy`, `protocol.dfy`, `dispatch.dfy`.

## Behaviour of the code worth noting

The model follows what the code does, including in these places:

- The accepted command codes are the literals `'rt'` and `'rs'`, as the comments at rtcom.py:927 and rtcom.py:932 describe the lines. The words "start" and "stop" are refused as unknown commands (`Dispatch.OnlyProtocolCodes`).
- The comment "# Fallback to network" at rtcom.py:81 suggests that the network provider is tried whenever gps gives no fix. In the code, both provider calls sit in one `try`. So when the gps call raises, `None` is returned without running the network provider (`Location.Acquire`, the `Abort` verdict). That happens on a gps timeout, on unparsable gps output, or on a truthy gps coordinate that `abs()` cannot take when the test at rtcom.py:78 evaluates it. The test short-circuits: latitude `45.0` with longitude `"x"` is accepted without raising, and a bool coordinate never raises.
- The contact index is not required to be a non-negative integer. Any truthy value is accepted and written with `str()`. Integer `0` is refused as missing, and the string `"0"` that the front end sends is accepted (`Dispatch.ZeroIndex`). A `ping_count` of `null` is written as `None`.
- After a failed tick the read endpoint does not report null reading fields. The code keeps the previous coordinates and every other field, and sets only `available` to false (`LiveGps.StaleAfterFailure`).

## Model

| member | source | states |
|---|---|---|
| `PyJson.Abs` | rtcom.py:78 | `abs()` is defined exactly on bools, ints and floats and raises on None and strings; it is the number's magnitude (1 or 0 for a bool), so non-negative and zero exactly for a falsy number |
| `PyJson.IntTextRoundTrip` | rtcom.py:930 | the decimal text `str()` gives an int is non-empty, has no space and parses back to the same int |
| `PyJson.Str` | rtcom.py:930-933 | `str()` of an int is a space-free canonical decimal text (no leading zero, no `-0`) that parses back to that int; None, bools, floats and strings are written as `None`, `True`/`False`, their repr text and themselves |
| `PyJson.CanonicalUnique` | rtcom.py:930 | a canonical digit string is exactly the decimal text of the number it denotes |
| `PyJson.IntTextUnique` | rtcom.py:930-933 | any canonical text that parses to an int is exactly that int's `str()`, so the text written for an int is fully determined |
| `Location.Screen` | rtcom.py:75-79 | a provider object lacking either coordinate key is rejected; an accepted one has both keys with truthy values; an exception is raised only for a coordinate `abs` cannot take; for numeric coordinates it accepts exactly when both are non-zero and one exceeds 0.001 in magnitude, and never raises |
| `Location.ShortCircuit` | rtcom.py:78 | latitude 45.0 with a string longitude is accepted, latitude 0.0005 with a string longitude raises, and two `True` coordinates are accepted |
| `Location.Consult` | rtcom.py:65-79 | a provider that raised aborts the attempt, one with non-zero exit status or blank output is rejected, and a printed object gets exactly the verdict of the acceptance test; only a printed object can be accepted |
| `Location.Acquire` | rtcom.py:58-101 | no fix off Termux; the gps object when it passes the screen; no fix when the gps provider raised, whatever the network gives; the network object only when gps was rejected without an exception and the network object passes; every returned object passed the screen, is non-empty and is one of the two providers' objects |
| `LiveGps.Fresh` | rtcom.py:115-125 | a successful tick's record takes latitude and longitude from the reading, accuracy, speed and altitude from it or 0, bearing from it or None, provider from it or `'unknown'`, the tick's time as timestamp, and is available |
| `LiveGps.Apply` | rtcom.py:114-127 | after a tick the slot is available exactly when the reading was a non-empty dict; a successful tick yields the fresh record with nothing of the old one; a failed tick leaves every reading field as it was |
| `LiveGps.LatestFix` | rtcom.py:114 | finds the last tick whose reading succeeded, or reports that none did |
| `LiveGps.LastWriteWins` | rtcom.py:109-132 | after any run of ticks the reading fields are exactly those of the last successful tick, or the starting ones if none succeeded, and the slot is available exactly when the last tick succeeded |
| `LiveGps.NeverTorn` | rtcom.py:113-127 | from the initial slot, the reading fields a reader sees are either all None or all come from one single successful tick |
| `LiveGps.NoneUntilFirstFix` | rtcom.py:36-46 | until a tick succeeds, every reading field stays None and the slot stays unavailable |
| `LiveGps.StaleAfterFailure` | rtcom.py:126-127 | failed ticks after a fix report unavailable but keep that fix's latitude and longitude |
| `LiveGps.GpsSlot.constructor` | rtcom.py:36-46 | the slot starts with every reading field None and `available` false |
| `LiveGps.GpsSlot.Tick` | rtcom.py:113-127 | a successful reading replaces the whole record; otherwise only `available` becomes false |
| `LiveGps.SlotShowsOnlyScreenedFixes` | rtcom.py:58-127 | from process start, the slot's reading fields are all None or are the record of an object some tick acquired and that passed the acceptance test, with that object's latitude and longitude |
| `LiveGps.GpsSlot.Poll` | rtcom.py:109-132 | each iteration of the poller loop acquires a fix from that iteration's provider outcomes (rtcom.py:111) and applies it as one tick; the slot after the first iterations is the replay of those ticks from the slot's prior value |
| `Protocol.SplitJoin` | rtcom.py:930 | splitting a line at single spaces gives back the tokens it was joined from, when no token contains a space |
| `Protocol.Encode` | rtcom.py:930-933 | the start line is exactly `"s " + idx + " rt " + N + " " + D` and the stop line exactly `"s " + idx + " rs"` |
| `Protocol.DecodeEncode` | rtcom.py:930-933 | a command whose fields contain no space is read back from its line unchanged |
| `Dispatch.Validate` | rtcom.py:919-935 | refused as missing exactly when the index or the command is absent or falsy; refused as unknown exactly when both are truthy and the command is neither `'rt'` nor `'rs'`; otherwise the command kind follows the code, the index is its `str()`, and count and delay are the `str()` of `ping_count`/`ping_delay` or of 10/5 |
| `Dispatch.Message` | rtcom.py:922-935 | an accepted request gives exactly `s <idx> rt <N> <D>` or `s <idx> rs`; a refused one carries the rejection of the validation |
| `Dispatch.MessageDecodes` | rtcom.py:926-933 | the line of an accepted request whose fields contain no space reads back as the validated command |
| `Dispatch.FrontEndRoundTrip` | rtcom.py:714-773 | the string-valued start and stop requests of the front end are accepted and reach the line unchanged |
| `Dispatch.ExampleLines` | rtcom.py:926-933 | index 3 with 10 pings 5 seconds apart gives `s 3 rt 10 5`, also with both counts omitted; the stop request gives `s 3 rs` |
| `Dispatch.ZeroIndex` | rtcom.py:922-923 | integer index 0 and an empty command are refused as missing; the string index `"0"` is accepted |
| `Dispatch.OnlyProtocolCodes` | rtcom.py:926-935 | the commands `'start'` and `'stop'` are refused as unknown |
| `Dispatch.Mailbox.constructor` | rtcom.py:938 | the mailbox starts with the file's existing content |
| `Dispatch.Mailbox.Send` | rtcom.py:915-958 | an unreadable body, a validation failure or a failed open is refused and the file keeps its content; the error text is `Missing required fields`, `Unknown command` or the exception's text; otherwise the file holds exactly the line plus a newline, whatever it held before, and the reply carries that line |

## Left out

- Flask routing, `jsonify`, `render_template_string` and the `/map` file route: HTTP plumbing. The read endpoint returns the slot value `GpsSlot.current` as it stands.
- The `termux-location` subprocesses and `json.loads` of their output: each provider is an input of type `ProviderOutcome`. A provider output that is JSON but not an object is not modelled.
- The lock, the thread, and the infinite loop with its one-second sleep: each tick is one atomic `Tick`, and `Poll` covers a finite prefix of the loop. Interleavings are not modelled.
- The `except` around a tick in `gps_updater`: nothing in the tick body can raise once fix acquisition has caught its own exceptions, so that path is not modelled.
- `datetime.now()`: the tick time is an opaque string input.
- `time.sleep(0.1)` after the mailbox write.
- The `note` field of a successful dispatch reply: a fixed text, not carried in `Reply`.
- `Dispatch.Mailbox.Send`: a failed write is modelled as failing when the file is opened, so the file is unchanged. A failure after `open` has truncated the file is not modelled. The text of that exception, and of an unreadable request body, is an input.
- JSON arrays and objects as values, both in a request and in a provider's object: `Json` has only scalars. So a list coordinate, on which `abs()` would raise, is not modelled, and neither is a nested `provider` or `bearing` value that a tick would copy into the slot.
- Python's float `repr()` algorithm: a float carries its text.
- `get_logged_points`, `export_map`, `is_termux` (a boolean input), `print_banner` and `main`: file and OS operations outside the modelled logic.
- The HTML, CSS and JavaScript template, except the request shapes the front end sends.
- IEEE floating point: coordinates and the 0.001 threshold are reals.
