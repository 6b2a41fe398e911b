# IoT dashboard state core

This is a model of the state-keeping core of a small Flask and MQTT
dashboard, `t1.py`. The dashboard serves two locations, "office" and "home".
For each location it keeps two tables:

- `device_state` holds whether the location's device is connected and when
  it was last heard from. A flag in the same table records whether the
  broker connection is up.
- `sensor_data` holds ten named fields: temperature, humidity, the digital
  inputs d0..d3, the outputs d5..d7 and the LED brightness `led_d7`.

The following parts update these tables:

- the MQTT callbacks `on_connect`, `on_disconnect` and `on_message`;
- the watchdog thread `connection_monitor`, which demotes a location silent
  for more than 30 seconds;
- the `/control` endpoint, which publishes a command and writes it locally
  at once.

`/get_location_data/<location>` reads them.

The project has five modules:

- `Wrappers` holds `Option` and `Result`.
- `Strings` holds Python's substring test `sub in s` and
  `topic.split('/')[-1]`.
- `Numerals` holds Python's base-10 `int(text)` and `str(n)`. `int()`
  skips surrounding whitespace, takes an optional sign and allows single
  underscores between digits. Whitespace here means tab, line feed,
  vertical tab, form feed, carriage return and space below code point 128,
  and the Unicode spaces above it. The ASCII separators 0x1C..0x1F are not
  whitespace to `int()`. `int()` refuses more than 4300 digits, as CPython
  does by default; `str()` (`IntToDecimal`) is total here, see
  "## Left out".
- `Telemetry` holds the state as values. `AfterMessage`, `Sweep`,
  `HandleControl` and `LocationData` say what each operation does to the
  whole state. The lemmas about them cover routing, the layout, the
  brightness parse, the watchdog, read-your-write, and the command echo that
  comes back over the `control/#` subscription.
- `App` holds the class `Dashboard`. Its fields are the two tables, the
  broker flag and a ghost `outbox` of everything handed to the MQTT client.
  Its methods update those fields in place, step by step as the Python does,
  and each states the exact new state. `OnMessage`, `MonitorCycle` and
  `Control` are proved equal to `AfterMessage`, `Sweep` and `HandleControl`.

Some inputs come from outside the process and become parameters:

- The clock (`time.time()`) is an integer parameter `now`.
- The MQTT message is a `topic` and an already decoded `payload`.
- The JSON body of `/control` is `Option<ControlRequest>`. `None` stands for
  a body that is not a JSON object.
- A key absent from the body reads as `Null`, as `data.get` returns `None`.

## Model

| member | source | states |
|---|---|---|
| Strings.Split | t1.py:119 | `split('/')` returns at least one part, no part contains the separator, and joining the parts with it gives the topic back |
| Strings.SplitWithoutSep | t1.py:119 | a topic without the separator splits into itself alone |
| Strings.Contains | t1.py:118 | `sub in s`: the empty string is in every topic, and no topic contains a longer string |
| Strings.JoinLast | t1.py:119 | joined parts end with the separator followed by the last part |
| Strings.SplitLastIsTail | t1.py:119 | `split('/')[-1]` is a slash-free suffix of the topic that is either the whole topic or directly preceded by a slash |
| Strings.LastSegment | t1.py:133 | `topic.split('/')[-1]` holds no slash |
| Strings.LastSegmentAfterSlash | t1.py:119 | for `prefix + "/" + f` with `f` free of slashes, the last segment is `f` |
| Strings.LastSegmentWithoutSlash | t1.py:133 | a topic with no slash is its own last segment |
| Numerals.TrimStartIsSuffix | t1.py:127 | stripping leading whitespace keeps a suffix of the payload |
| Numerals.TrimEndIsPrefix | t1.py:127 | stripping trailing whitespace keeps a prefix of the payload |
| Numerals.TrimStartDropsSpaces | t1.py:127 | what `int()` strips before the number is all whitespace |
| Numerals.TrimEndDropsSpaces | t1.py:127 | what `int()` strips after the number is all whitespace |
| Numerals.NatToDecimal | t1.py:251 | `str(n)` for n >= 0 is a non-empty string of digits without a leading zero whose decimal value is n |
| Numerals.IntToDecimal | t1.py:251 | `str(n)` starts with a minus sign exactly when n is negative, and the rest is digits |
| Numerals.ParseInt | t1.py:127 | `int(payload)`: an empty or all-whitespace payload fails; ParseIntShape, ParseIntRejects, ParseIntDigitLimit and IntToDecimalRoundTrip state what else it accepts and refuses |
| Numerals.ParseIntShape | t1.py:127 | whatever `int()` accepts is, once stripped, non-empty and made of digits and underscores after an optional sign |
| Numerals.IntToDecimalRoundTrip | t1.py:127 | `int(str(n)) == n` for every integer n whose decimal text has at most 4300 digits |
| Numerals.ParseIntDigitLimit | t1.py:126-129 | a payload of more than 4300 digits makes `int()` fail, whatever its value |
| Numerals.ParseIntRejects | t1.py:126-129 | a payload with a character that is not a digit, whitespace, a sign or an underscore makes `int()` fail |
| Telemetry.Truthy | t1.py:244 | `not device` holds exactly for None, "", 0 and False |
| Telemetry.Display | t1.py:251 | `str(value)` of a string is the string itself, and of an integer within the digit limit a text `int()` parses back to it |
| Telemetry.InitialStore | t1.py:23-61 | at start both locations are present in both tables with exactly the ten fields, no device is connected, and the broker flag is false |
| Telemetry.Classify | t1.py:118-139 | the connection branch is taken for exactly the topic `device/connection`, which contains neither "control" nor "sensor"; a field taken from the topic holds no slash |
| Telemetry.TopicPriority | t1.py:118-133 | a topic containing "control" takes the control branch even if it also contains "sensor"; otherwise one containing "sensor" takes the sensor branch |
| Telemetry.StoredBrightness | t1.py:122-129 | the brightness becomes an integer exactly when `int()` accepts the payload, and that integer is the parsed one; otherwise it is the raw payload |
| Telemetry.ControlWrite | t1.py:121-129 | the control branch adds no field and changes no field other than the one the topic names |
| Telemetry.SensorWrite | t1.py:135-136 | the sensor branch removes no field and changes no field other than the one the topic names |
| Telemetry.AfterMessage | t1.py:105-143 | every message marks "office" as last seen at `now`; it stays connected unless the message is "OFFLINE" on `device/connection`; the broker flag and the set of locations are unchanged, no field of the office is removed, and every other location is unchanged |
| Telemetry.MessageKeepsLayout | t1.py:105-143 | no message adds or removes a location or a field |
| Telemetry.ControlMessage | t1.py:118-129 | a control topic naming an unknown field changes no field; one naming a known field stores the raw payload there, or for `led_d7` the parsed brightness |
| Telemetry.SensorMessage | t1.py:132-136 | a sensor topic writes the raw payload into d0..d3 and ignores every other field name |
| Telemetry.NonFieldMessage | t1.py:139-143 | a topic containing neither "control" nor "sensor" leaves every field unchanged |
| Telemetry.CommandTopicRoutes | t1.py:118-119 | the topic `control/{f}` takes the control branch with field `f` |
| Telemetry.BrightnessMessage | t1.py:122-129 | after `control/led_d7`, `led_d7` holds the parsed integer when `int()` accepts the payload and the raw payload otherwise |
| Telemetry.BrightnessFromInteger | t1.py:127 | the payload `str(n)` on `control/led_d7` leaves the integer n in `led_d7` |
| Telemetry.BrightnessFromText | t1.py:122-129 | a payload that `int()` rejects leaves that raw string in `led_d7`, and the earlier brightness is lost |
| Telemetry.Demote | t1.py:151-152 | a location's check keeps `last_seen`, and it stays connected iff it was connected and silent for at most 30 seconds |
| Telemetry.Sweep | t1.py:150-152 | a watchdog cycle keeps every `last_seen`; a location stays connected iff it was connected and silent for at most 30 seconds; entries that are not locations are untouched |
| Telemetry.SweepIdempotent | t1.py:150-152 | a second cycle at the same time changes nothing |
| Telemetry.MessageKeepsOfficeAlive | t1.py:114-152 | after any message at time t except "OFFLINE" on `device/connection`, a cycle at time now leaves the office connected iff now - t <= 30 |
| Telemetry.HandleControl | t1.py:236-260 | a malformed body, a falsy device or a null value fails with nothing published, and so does a device whose topic holds `+` or `#`, which the MQTT client refuses; otherwise `str(value)` is published once on `control/{device}` at QoS 1; the request succeeds iff the location is a key of `sensor_data`; it writes exactly the targeted existing field, leaves device state unchanged, and adds no key |
| Telemetry.LocationData | t1.py:221-233 | the answer is an error exactly for a location other than "office" and "home"; otherwise it is that location's fields, its connection flag and the broker flag |
| Telemetry.ReadYourWrite | t1.py:254-255 | right after a successful command on an existing field, `get_location_data` shows the commanded value |
| Telemetry.CommandApplied | t1.py:244-257 | a command on an existing field at the default location publishes `control/{f}` with `str(value)`, writes the value locally and succeeds |
| Telemetry.CommandMessageWrites | t1.py:118-129 | the message `control/{f}` for an existing field `f` writes exactly that field of "office" |
| Telemetry.TextCommandEchoAgrees | t1.py:251 | a text command to a field other than the brightness echoes back over `control/#` without changing any field |
| Telemetry.BrightnessEchoKeeps | t1.py:125-127 | `control/led_d7` carrying `str(n)` changes no field when the brightness already holds n |
| Telemetry.BrightnessCommandEchoAgrees | t1.py:251 | an integer brightness command is published as its decimal text, and its echo leaves the local fields as the command left them |
| Telemetry.TextBrightnessEchoDiffers | t1.py:251 | a brightness sent as the text `str(n)` is stored locally as that text but comes back as the integer n |
| App.Dashboard.constructor | t1.py:23-61 | the new object holds the initial tables, satisfies the layout invariant and has sent nothing |
| App.Dashboard.OnConnect | t1.py:81-99 | result code 0 sets the broker flag and subscribes once to the four filters at QoS 1; any other code clears the flag; the tables are untouched |
| App.Dashboard.OnDisconnect | t1.py:101-103 | the broker flag is cleared and nothing else changes |
| App.Dashboard.OnMessage | t1.py:105-143 | the new state is exactly AfterMessage of the old one, the layout invariant is kept, and nothing is sent |
| App.Dashboard.ApplyControlTopic | t1.py:118-129 | the raw payload is written and then replaced by the parsed brightness, which leaves the office's fields as ControlWrite describes |
| App.Dashboard.ApplySensorTopic | t1.py:132-136 | the office's fields become SensorWrite of the old ones, and nothing else changes |
| App.Dashboard.MonitorCycle | t1.py:150-153 | the loop over the two locations leaves the device table equal to Sweep of the old one and changes nothing else |
| App.Dashboard.Control | t1.py:236-260 | the new tables, the appended publishes and the returned status are exactly those of HandleControl, and the layout invariant is kept |
| App.Dashboard.GetLocationData | t1.py:221-233 | the answer is exactly LocationData of the current state |

## Quirks of the code the model keeps

The model follows `t1.py` in each of these cases.

- **Topic tests are substring tests.** Routing uses substring tests
  (`"control" in topic`), not tests on path segments. Any topic containing
  "control", such as `sensor/controller`, takes the control branch.
- **The connection topic is tested last.** It is tested after "control" and
  "sensor", not first. The contract of `Telemetry.Classify` shows that the
  order makes no difference for that exact topic.
- **A bad brightness payload replaces the old value.** The raw payload is
  written to `led_d7` before `int()` is tried. A payload `int()` rejects
  therefore leaves that string in the field; it does not keep the previous
  brightness.
- **Every message marks "office" connected.** This happens before the topic
  is classified. So does an unrecognised topic, or a connection payload
  other than "ONLINE"/"OFFLINE". Only "OFFLINE" on `device/connection`
  leaves it disconnected.
- **`/control` publishes before it checks the location.** A request naming
  an unknown location is still published, and then fails with
  `UnknownLocation`.
- **The connection callbacks do not match the client's calling
  convention.** The client is created with `CallbackAPIVersion.VERSION2`
  (t1.py:157). That version calls `on_connect` and `on_disconnect` with
  five arguments, but `on_connect` takes four and `on_disconnect` three
  (t1.py:81, t1.py:101). Each call therefore raises TypeError before the
  body runs, so the flag is never set and the subscription never happens.
  `OnConnect` and `OnDisconnect` model the bodies as if they were called
  with the result code `rc`.
- **A device name with `+` or `#` fails after validation.** The client
  refuses to publish to such a topic and raises ValueError. The handler
  catches it, so the request fails with nothing published and no local
  write.
- **The command value is written verbatim.** It is not checked against a
  field type, so a brightness can be set to any JSON value.

## Left out

- Logging (`logger.*`) has no effect on the state and is not modelled. This
  includes the watchdog's timeout warning and the "Invalid LED value" error.
- The `while True` loop, `time.sleep(5)` and the thread of
  `connection_monitor` are left out. One pass of the `for` loop is
  `MonitorCycle`, and the time it reads is the parameter `now`.
- `time.time()` returns floating-point seconds; the model uses an integer
  `now`. Sub-second differences around the 30-second limit are not
  captured.
- MQTT client set-up, the last-will registration (`will_set`), `connect`
  and `loop_start` are I/O at import time and are left out. Publishing and
  subscribing are recorded in the ghost `outbox` instead of being
  performed.
- `msg.payload.decode()` may fail on invalid UTF-8. Payloads are taken as
  already decoded strings.
- JSON floats, arrays and objects as `/control` values, device names or
  locations are not modelled. Values are strings, integers, booleans and
  null.
- `Numerals.ParseInt` accepts ASCII digits only. Python's `int()` also
  accepts other Unicode decimal digits.
- The text of the error messages (`str(e)`, "Missing device or value") is
  not modelled; `ApiError` names the failure instead. The same goes for
  HTTP status codes and `jsonify`.
- `client.publish` is modelled as refusing only topics with `+` or `#`.
  Its other refusals are not modelled: a topic longer than 65535 bytes in
  UTF-8, or a topic or payload it cannot encode. Exceptions raised
  by `request.get_json` itself are not modelled either. The body is either
  a JSON object or `None`.
- Numerals.IntToDecimal: is total. Python's `str()` raises ValueError for
  an integer of more than 4300 digits. Such an integer cannot reach
  `/control`, because Python's JSON parser refuses the same literals.
  `Telemetry.Display` and the echo lemmas therefore assume the limit
  wherever they parse the text back.
- `history_data`, `MAX_HISTORY_POINTS` and the history arrays returned by
  `get_location_data` are never written by this code and are left out.
- The other routes are left out: `get_data`, `/api/sensors`, `/api/status`
  and the page routes. They only read or render the same tables.
- Signal handling and shutdown are left out.
- `app.py` is not part of this model.
- Concurrency is left out. The callbacks, the watchdog thread and the Flask
  handlers run concurrently in the source, without locks. Each method here
  runs atomically, so interleavings inside one handler are not captured.
