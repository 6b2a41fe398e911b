/** The dashboard's state as values: the two per-location tables
    (`device_state`, `sensor_data`), the broker flag, and what each MQTT
    callback, one watchdog cycle and the two endpoints do to them. The
    class in module App performs these updates in place and is proved
    against the functions here. */
module Telemetry {
  import opened Wrappers
  import opened Strings
  import opened Numerals

  /** A field value: the strings MQTT payloads carry, the integers of the
      initial layout and of the parsed brightness, and whatever JSON value
      a `/control` request writes (Null is JSON null, Python's None). */
  datatype Value = Str(text: string) | Int(n: int) | Bool(b: bool) | Null

  /** Python's truthiness, as `if not device` tests it: the falsy values
      are exactly None, "", 0 and False. */
  predicate Truthy(v: Value)
    ensures !Truthy(v) <==> v in {Null, Str(""), Int(0), Bool(false)}
  {
    match v
    case Str(t) => t != []
    case Int(n) => n != 0
    case Bool(b) => b
    case Null => false
  }

  /** Python's `str(v)`: a string is its own text, and the text of an
      integer is one `int()` parses back to it. */
  function Display(v: Value): (r: string)
    ensures v.Str? ==> r == v.text
    ensures v.Int? && WithinDigitLimit(v.n) ==> ParseInt(r) == Some(v.n)
  {
    match v
    case Str(t) => t
    case Int(n) =>
      if WithinDigitLimit(n) then IntToDecimalRoundTrip(n); IntToDecimal(n) else IntToDecimal(n)
    case Bool(b) => if b then "True" else "False"
    case Null => "None"
  }

  /** One location's entry of `device_state`. */
  datatype DeviceStatus = DeviceStatus(connected: bool, lastSeen: int)

  /** One location's entry of `sensor_data`: field name to value. */
  type Fields = map<string, Value>

  datatype Store = Store(devices: map<string, DeviceStatus>, sensors: map<string, Fields>, mqttConnected: bool)

  const Office: string := "office"
  const Home: string := "home"
  const Locations: seq<string> := [Office, Home]

  /** Seconds of silence after which the watchdog demotes a location. */
  const Timeout: int := 30

  const ConnectionTopic: string := "device/connection"
  const LedBrightness: string := "led_d7"

  /** The only fields a `sensor/...` topic may write. */
  const DigitalInputs: seq<string> := ["d0", "d1", "d2", "d3"]

  const FieldNames: set<string> :=
    {"temp", "humidity", "d0", "d1", "d2", "d3", "output_d5", "output_d6", "output_d7", "led_d7"}

  /** The filters `on_connect` subscribes to, each at QoS 1. */
  const SubscriptionFilters: seq<(string, nat)> :=
    [(ConnectionTopic, 1), ("control/#", 1), ("sensor/#", 1), ("test/topic", 1)]

  /** Both locations have an entry in both tables: every lookup the
      handlers and endpoints make by location succeeds. */
  predicate HasLocations(s: Store)
  {
    Office in s.devices && Home in s.devices && Office in s.sensors && Home in s.sensors
  }

  /** The start-up contents of each location's `sensor_data` entry. */
  const InitialFields: Fields := map[
    "temp" := Int(0), "humidity" := Int(0),
    "d0" := Str("0"), "d1" := Str("OFF"), "d2" := Str("0"), "d3" := Str("OFF"),
    "output_d5" := Str("OFF"), "output_d6" := Str("OFF"), "output_d7" := Str("OFF"),
    "led_d7" := Int(0)]

  /** The layout every operation keeps: exactly the two locations in both
      tables and exactly the ten fields per location. */
  ghost predicate ValidStore(s: Store)
  {
    && s.devices.Keys == {Office, Home}
    && s.sensors.Keys == {Office, Home}
    && s.sensors[Office].Keys == FieldNames
    && s.sensors[Home].Keys == FieldNames
  }

  /** The state at process start: both locations disconnected, last seen at
      time 0, broker not connected. */
  function InitialStore(): (s: Store)
    ensures ValidStore(s)
    ensures forall l :: l in s.devices ==> !s.devices[l].connected
    ensures !s.mqttConnected
  {
    Store(map[Office := DeviceStatus(false, 0), Home := DeviceStatus(false, 0)],
          map[Office := InitialFields, Home := InitialFields],
          false)
  }

  // ---------------------------------------------------------------------
  // Topic routing inside on_message

  datatype Route = ControlField(field: string) | SensorField(field: string) | ConnectionStatus | Unrouted

  /** The branch `on_message` takes: a substring test for "control", then
      one for "sensor", then an exact match on the connection topic. The
      connection topic contains neither substring, so its branch is taken
      for that exact topic and no other; a field is always a single topic
      segment. */
  function Classify(topic: string): (r: Route)
    ensures r == ConnectionStatus <==> topic == ConnectionTopic
    ensures r.ControlField? || r.SensorField? ==> '/' !in r.field
  {
    assert topic == ConnectionTopic ==> !Contains(topic, "control") && !Contains(topic, "sensor") by {
      if topic == ConnectionTopic {
        MissingCharNotContained(topic, "control", 'r');
        MissingCharNotContained(topic, "sensor", 's');
      }
    }
    if Contains(topic, "control") then ControlField(LastSegment(topic))
    else if Contains(topic, "sensor") then SensorField(LastSegment(topic))
    else if topic == ConnectionTopic then ConnectionStatus
    else Unrouted
  }

  /** "control" wins over "sensor", even in a topic holding both. */
  lemma TopicPriority(topic: string)
    ensures Contains(topic, "control") ==> Classify(topic) == ControlField(LastSegment(topic))
    ensures !Contains(topic, "control") && Contains(topic, "sensor") ==> Classify(topic) == SensorField(LastSegment(topic))
  {
  }

  // ---------------------------------------------------------------------
  // on_message

  /** What the brightness field holds after `control/led_d7`: the payload
      is written first and replaced by `int(payload)` only when that parse
      succeeds, so a bad payload leaves the raw string, not the old value. */
  function StoredBrightness(payload: string): (r: Value)
    ensures r.Int? <==> ParseInt(payload).Some?
    ensures r.Int? ==> ParseInt(payload) == Some(r.n)
    ensures !r.Int? ==> r == Str(payload)
  {
    match ParseInt(payload)
    case Some(n) => Int(n)
    case None => Str(payload)
  }

  /** The control branch on the office's fields: a field `f` that exists
      takes the payload (StoredBrightness for `led_d7`); any other `f` is
      ignored, so no key is added. */
  function ControlWrite(fields: Fields, f: string, payload: string): (r: Fields)
    ensures r.Keys == fields.Keys
    ensures forall g :: g in fields && g != f ==> r[g] == fields[g]
  {
    if f in fields then
      fields[f := if f == LedBrightness then StoredBrightness(payload) else Str(payload)]
    else fields
  }

  /** The sensor branch on the office's fields: only d0..d3 are written,
      with the raw payload. */
  function SensorWrite(fields: Fields, f: string, payload: string): (r: Fields)
    ensures fields.Keys <= r.Keys
    ensures forall g :: g in fields && g != f ==> r[g] == fields[g]
  {
    if f in DigitalInputs then fields[f := Str(payload)] else fields
  }

  /** The state after `on_message(topic, payload)` at time `now`. Every
      message is attributed to "office". */
  function AfterMessage(s: Store, topic: string, payload: string, now: int): (r: Store)
    requires Office in s.devices && Office in s.sensors
    ensures r.devices == s.devices[Office := DeviceStatus(!(topic == ConnectionTopic && payload == "OFFLINE"), now)]
    ensures r.mqttConnected == s.mqttConnected
    ensures r.sensors.Keys == s.sensors.Keys
    ensures s.sensors[Office].Keys <= r.sensors[Office].Keys
    ensures forall l :: l in s.sensors && l != Office ==> r.sensors[l] == s.sensors[l]
  {
    var fields := s.sensors[Office];
    var bumped := s.(devices := s.devices[Office := DeviceStatus(true, now)]);
    match Classify(topic)
    case ControlField(f) => bumped.(sensors := s.sensors[Office := ControlWrite(fields, f, payload)])
    case SensorField(f) => bumped.(sensors := s.sensors[Office := SensorWrite(fields, f, payload)])
    case ConnectionStatus =>
      if payload == "ONLINE" then bumped.(devices := s.devices[Office := DeviceStatus(true, now)])
      else if payload == "OFFLINE" then bumped.(devices := s.devices[Office := DeviceStatus(false, now)])
      else bumped
    case Unrouted => bumped
  }

  /** The d0..d3 that a sensor topic may write are fields of every location. */
  lemma DigitalInputsAreFields()
    ensures forall f :: f in DigitalInputs ==> f in FieldNames
  {
  }

  /** No message adds or removes a location or a field. */
  lemma MessageKeepsLayout(s: Store, topic: string, payload: string, now: int)
    requires ValidStore(s)
    ensures ValidStore(AfterMessage(s, topic, payload, now))
  {
    var r := AfterMessage(s, topic, payload, now);
    var fields := s.sensors[Office];
    var route := Classify(topic);
    if route.SensorField? && route.field in DigitalInputs {
      DigitalInputsAreFields();
      assert route.field in fields;
    }
    assert r.sensors[Office].Keys == fields.Keys;
    assert r.sensors[Home] == s.sensors[Home];
    assert r.devices.Keys == s.devices.Keys;
  }

  /** A control topic writes at most the field its last segment names, and
      only when that field already exists: no key is ever added. */
  lemma ControlMessage(s: Store, topic: string, payload: string, now: int)
    requires Office in s.devices && Office in s.sensors && Contains(topic, "control")
    ensures var r := AfterMessage(s, topic, payload, now);
            var f := LastSegment(topic);
            var fields := s.sensors[Office];
            && (f !in fields ==> r.sensors == s.sensors)
            && (f in fields && f != LedBrightness ==> r.sensors == s.sensors[Office := fields[f := Str(payload)]])
            && (f in fields && f == LedBrightness ==> r.sensors == s.sensors[Office := fields[f := StoredBrightness(payload)]])
  {
  }

  /** A sensor topic (without "control") writes the raw payload into d0..d3
      and ignores any other field. */
  lemma SensorMessage(s: Store, topic: string, payload: string, now: int)
    requires Office in s.devices && Office in s.sensors
    requires !Contains(topic, "control") && Contains(topic, "sensor")
    ensures var r := AfterMessage(s, topic, payload, now);
            var f := LastSegment(topic);
            && (f in DigitalInputs ==> r.sensors == s.sensors[Office := s.sensors[Office][f := Str(payload)]])
            && (f !in DigitalInputs ==> r.sensors == s.sensors)
  {
  }

  /** Every other topic, the connection topic included, leaves the fields
      alone; only the connection bump of AfterMessage applies. */
  lemma NonFieldMessage(s: Store, topic: string, payload: string, now: int)
    requires Office in s.devices && Office in s.sensors
    requires !Contains(topic, "control") && !Contains(topic, "sensor")
    ensures AfterMessage(s, topic, payload, now).sensors == s.sensors
  {
  }

  /** `control/{f}` routes to the control branch with field `f`. */
  lemma CommandTopicRoutes(f: string)
    requires '/' !in f
    ensures Contains("control/" + f, "control") && LastSegment("control/" + f) == f
    ensures Classify("control/" + f) == ControlField(f)
  {
    var topic := "control/" + f;
    assert OccursAt(topic, "control", 0);
    assert topic == "control" + "/" + f;
    LastSegmentAfterSlash("control", f);
  }

  /** `control/led_d7` leaves StoredBrightness(payload) in the field. */
  lemma BrightnessMessage(s: Store, payload: string, now: int)
    requires Office in s.devices && Office in s.sensors && LedBrightness in s.sensors[Office]
    ensures AfterMessage(s, "control/" + LedBrightness, payload, now).sensors[Office][LedBrightness] == StoredBrightness(payload)
  {
    CommandTopicRoutes(LedBrightness);
  }

  /** A brightness payload that `int()` accepts, such as `str(n)`, leaves
      that integer in `led_d7`. */
  lemma BrightnessFromInteger(s: Store, n: int, now: int)
    requires Office in s.devices && Office in s.sensors && LedBrightness in s.sensors[Office]
    requires WithinDigitLimit(n)
    ensures AfterMessage(s, "control/" + LedBrightness, IntToDecimal(n), now).sensors[Office][LedBrightness] == Int(n)
  {
    BrightnessMessage(s, IntToDecimal(n), now);
    IntToDecimalRoundTrip(n);
  }

  /** A brightness payload `int()` rejects, such as "abc", is stored as the
      raw string: the previous value is lost and nothing fails. */
  lemma BrightnessFromText(s: Store, payload: string, now: int)
    requires Office in s.devices && Office in s.sensors && LedBrightness in s.sensors[Office]
    requires ParseInt(payload) == None
    ensures AfterMessage(s, "control/" + LedBrightness, payload, now).sensors[Office][LedBrightness] == Str(payload)
  {
    var r := AfterMessage(s, "control/" + LedBrightness, payload, now);
    BrightnessMessage(s, payload, now);
    assert r.sensors[Office][LedBrightness] == StoredBrightness(payload);
  }

  // ---------------------------------------------------------------------
  // connection_monitor, one pass of its `for` loop

  /** One location's check: connected and silent for more than Timeout. */
  function Demote(d: DeviceStatus, now: int): (r: DeviceStatus)
    ensures r.lastSeen == d.lastSeen
    ensures r.connected <==> d.connected && now - d.lastSeen <= Timeout
  {
    if d.connected && now - d.lastSeen > Timeout then d.(connected := false) else d
  }

  /** `device_state` after one watchdog cycle at time `now`. */
  function Sweep(devices: map<string, DeviceStatus>, now: int): (r: map<string, DeviceStatus>)
    ensures r.Keys == devices.Keys
    ensures forall l :: l in devices && l in Locations ==>
              && r[l].lastSeen == devices[l].lastSeen
              && (r[l].connected <==> devices[l].connected && now - devices[l].lastSeen <= Timeout)
    ensures forall l :: l in devices && l !in Locations ==> r[l] == devices[l]
  {
    map l | l in devices :: if l in Locations then Demote(devices[l], now) else devices[l]
  }

  /** A second cycle at the same time changes nothing. */
  lemma SweepIdempotent(devices: map<string, DeviceStatus>, now: int)
    ensures Sweep(Sweep(devices, now), now) == Sweep(devices, now)
  {
  }

  /** After any message but "OFFLINE" on the connection topic, the office
      stays connected through every cycle at most Timeout seconds later,
      and the first cycle later than that, with no message in between,
      disconnects it. */
  lemma MessageKeepsOfficeAlive(s: Store, topic: string, payload: string, t: int, now: int)
    requires Office in s.devices && Office in s.sensors
    requires !(topic == ConnectionTopic && payload == "OFFLINE")
    ensures var d := Sweep(AfterMessage(s, topic, payload, t).devices, now);
            d[Office].connected <==> now - t <= Timeout
  {
  }

  // ---------------------------------------------------------------------
  // The two endpoints

  /** The JSON body of a `/control` request. A key that is absent reads as
      Null for `device` and `value` (`data.get` returns None either way);
      an absent `location` is None here and defaults to "office". */
  datatype ControlRequest = ControlRequest(device: Value, value: Value, location: Option<Value>)

  datatype ApiError =
    | MalformedBody            // the body is not a JSON object
    | MissingDeviceOrValue
    | UnknownLocation(location: Value)  // the KeyError of `sensor_data[location]`
    | InvalidLocation          // get_location_data's 400 answer
    | WildcardTopic            // the ValueError `client.publish` raises

  datatype Status = Succeeded | Failed(error: ApiError)

  /** What the process hands to the MQTT client. */
  datatype Outgoing =
    | Publish(topic: string, payload: string, qos: nat, retain: bool)
    | Subscribe(filters: seq<(string, nat)>)

  datatype ControlEffect = ControlEffect(store: Store, sent: seq<Outgoing>, status: Status)

  function RequestedLocation(req: ControlRequest): Value
  {
    match req.location
    case None => Str(Office)
    case Some(v) => v
  }

  /** `sensor_data[location]` finds an entry. */
  predicate KnownLocation(s: Store, loc: Value)
  {
    loc.Str? && loc.text in s.sensors
  }

  /** The command topic `f"control/{device}"`. */
  function CommandTopic(device: Value): string
  {
    "control/" + Display(device)
  }

  /** The MQTT client refuses to publish to a topic holding a wildcard
      character: `+` or `#`. */
  predicate PublishableTopic(topic: string)
  {
    '+' !in topic && '#' !in topic
  }

  /** The request writes `value` into `sensor_data[l][f]`. */
  predicate Targets(req: ControlRequest, l: string, f: string)
  {
    RequestedLocation(req) == Str(l) && req.device == Str(f)
  }

  /** The `/control` endpoint: validate, publish, then the optimistic local
      write. The location is looked up only after the publish; a device
      whose topic the client refuses fails before anything is sent. */
  function HandleControl(s: Store, body: Option<ControlRequest>): (r: ControlEffect)
    ensures r.store.devices == s.devices && r.store.mqttConnected == s.mqttConnected
    ensures r.store.sensors.Keys == s.sensors.Keys
    ensures forall l :: l in s.sensors ==> r.store.sensors[l].Keys == s.sensors[l].Keys
    ensures r.sent == [] <==>
              || body.None? || !Truthy(body.value.device) || body.value.value == Null
              || !PublishableTopic(CommandTopic(body.value.device))
    ensures body.Some? && r.sent != [] ==>
              r.sent == [Publish(CommandTopic(body.value.device), Display(body.value.value), 1, false)]
    ensures r.status == Succeeded <==> r.sent != [] && KnownLocation(s, RequestedLocation(body.value))
    ensures r.status != Succeeded ==> r.store == s
    ensures forall l, f :: l in s.sensors && f in s.sensors[l] ==>
              r.store.sensors[l][f] ==
                if r.status == Succeeded && Targets(body.value, l, f) then body.value.value else s.sensors[l][f]
    ensures ValidStore(s) ==> ValidStore(r.store)
  {
    match body
    case None => ControlEffect(s, [], Failed(MalformedBody))
    case Some(req) =>
      if !Truthy(req.device) || req.value == Null then
        ControlEffect(s, [], Failed(MissingDeviceOrValue))
      else
        var topic := CommandTopic(req.device);
        if !PublishableTopic(topic) then
          ControlEffect(s, [], Failed(WildcardTopic))
        else
          var sent := [Publish(topic, Display(req.value), 1, false)];
          var loc := RequestedLocation(req);
          if !KnownLocation(s, loc) then
            ControlEffect(s, sent, Failed(UnknownLocation(loc)))
          else
            var fields := s.sensors[loc.text];
            if req.device.Str? && req.device.text in fields then
              ControlEffect(s.(sensors := s.sensors[loc.text := fields[req.device.text := req.value]]), sent, Succeeded)
            else
              ControlEffect(s, sent, Succeeded)
  }

  /** What `get_location_data(location)` reports, apart from the history
      arrays. */
  datatype LocationView = LocationView(fields: Fields, deviceConnected: bool, mqttConnected: bool)

  function LocationData(s: Store, location: string): (r: Result<LocationView, ApiError>)
    requires HasLocations(s)
    ensures r.Ok? <==> location == Office || location == Home
    ensures r.Err? ==> r.error == InvalidLocation
    ensures r.Ok? ==> r.value == LocationView(s.sensors[location], s.devices[location].connected, s.mqttConnected)
  {
    if location !in Locations then Err(InvalidLocation)
    else Ok(LocationView(s.sensors[location], s.devices[location].connected, s.mqttConnected))
  }

  lemma RewriteUnchanged<K, V>(m: map<K, V>, k: K)
    requires k in m
    ensures m[k := m[k]] == m
  {
  }

  /** Read-your-write: right after a successful command on an existing
      field, `get_location_data` shows the commanded value, before any
      device acknowledgment. */
  lemma ReadYourWrite(s: Store, req: ControlRequest, l: string, f: string)
    requires HasLocations(s)
    requires l in Locations && f in s.sensors[l] && f != [] && '+' !in f && '#' !in f
    requires Targets(req, l, f) && req.value != Null
    ensures var e := HandleControl(s, Some(req));
            && e.status == Succeeded
            && LocationData(e.store, l).Ok?
            && LocationData(e.store, l).value.fields[f] == req.value
  {
  }

  /** A command on an existing field at the default location publishes
      `control/{f}` and writes the value locally. */
  lemma CommandApplied(s: Store, f: string, v: Value)
    requires Office in s.sensors && f in s.sensors[Office] && f != [] && '+' !in f && '#' !in f && v != Null
    ensures HandleControl(s, Some(ControlRequest(Str(f), v, None))) ==
            ControlEffect(s.(sensors := s.sensors[Office := s.sensors[Office][f := v]]),
                          [Publish("control/" + f, Display(v), 1, false)], Succeeded)
  {
  }

  /** A message on `control/{f}` for an existing field `f`. */
  lemma CommandMessageWrites(s: Store, f: string, payload: string, now: int)
    requires Office in s.devices && Office in s.sensors
    requires f in s.sensors[Office] && '/' !in f
    ensures AfterMessage(s, "control/" + f, payload, now).sensors ==
            s.sensors[Office := s.sensors[Office][f := if f == LedBrightness then StoredBrightness(payload) else Str(payload)]]
  {
    CommandTopicRoutes(f);
  }

  /** The process subscribes to `control/#`, so the broker delivers each
      command back to it. A command writing text into a field other than
      the brightness comes back as that text, and the echo leaves the
      fields exactly as the optimistic local write made them. */
  lemma TextCommandEchoAgrees(s: Store, f: string, text: string, now: int)
    requires Office in s.devices && Office in s.sensors
    requires f in s.sensors[Office] && f != LedBrightness && f != [] && '/' !in f && '+' !in f && '#' !in f
    ensures var e := HandleControl(s, Some(ControlRequest(Str(f), Str(text), None)));
            && e.status == Succeeded
            && e.sent == [Publish("control/" + f, text, 1, false)]
            && AfterMessage(e.store, "control/" + f, text, now).sensors == e.store.sensors
  {
    CommandApplied(s, f, Str(text));
    var t := s.(sensors := s.sensors[Office := s.sensors[Office][f := Str(text)]]);
    CommandMessageWrites(t, f, text, now);
    RewriteUnchanged(t.sensors[Office], f);
  }

  /** The message `control/led_d7` carrying `str(n)` changes no field
      when the brightness already holds `n`. */
  lemma BrightnessEchoKeeps(t: Store, n: int, now: int)
    requires Office in t.devices && Office in t.sensors
    requires LedBrightness in t.sensors[Office] && t.sensors[Office][LedBrightness] == Int(n)
    requires WithinDigitLimit(n)
    ensures AfterMessage(t, "control/" + LedBrightness, IntToDecimal(n), now).sensors == t.sensors
  {
    CommandMessageWrites(t, LedBrightness, IntToDecimal(n), now);
    IntToDecimalRoundTrip(n);
    assert StoredBrightness(IntToDecimal(n)) == Int(n);
    RewriteUnchanged(t.sensors[Office], LedBrightness);
  }

  /** A command writing an integer into the brightness comes back as its
      decimal text, which the handler parses back to the same integer. */
  lemma BrightnessCommandEchoAgrees(s: Store, n: int, now: int)
    requires Office in s.devices && Office in s.sensors && LedBrightness in s.sensors[Office]
    requires WithinDigitLimit(n)
    ensures var e := HandleControl(s, Some(ControlRequest(Str(LedBrightness), Int(n), None)));
            && e.status == Succeeded
            && e.sent == [Publish("control/" + LedBrightness, IntToDecimal(n), 1, false)]
            && AfterMessage(e.store, "control/" + LedBrightness, IntToDecimal(n), now).sensors == e.store.sensors
  {
    CommandApplied(s, LedBrightness, Int(n));
    var t := s.(sensors := s.sensors[Office := s.sensors[Office][LedBrightness := Int(n)]]);
    BrightnessEchoKeeps(t, n, now);
  }

  /** The echo does not agree for a brightness sent as text: the command
      "50" is written locally as the string "50" and comes back as the
      integer 50. */
  lemma TextBrightnessEchoDiffers(s: Store, n: int, now: int)
    requires Office in s.devices && Office in s.sensors && LedBrightness in s.sensors[Office]
    requires WithinDigitLimit(n)
    ensures var e := HandleControl(s, Some(ControlRequest(Str(LedBrightness), Str(IntToDecimal(n)), None)));
            && e.sent == [Publish("control/" + LedBrightness, IntToDecimal(n), 1, false)]
            && e.store.sensors[Office][LedBrightness] == Str(IntToDecimal(n))
            && AfterMessage(e.store, "control/" + LedBrightness, IntToDecimal(n), now).sensors[Office][LedBrightness] == Int(n)
  {
    var text := IntToDecimal(n);
    CommandApplied(s, LedBrightness, Str(text));
    var t := s.(sensors := s.sensors[Office := s.sensors[Office][LedBrightness := Str(text)]]);
    BrightnessFromInteger(t, n, now);
  }
}
