/** The process's global state as one object: `device_state` (split into
    the per-location entries and the broker flag) and `sensor_data`, both
    updated in place by the MQTT callbacks, the watchdog and `/control`.
    Each method is proved against the function in module Telemetry that
    states its effect on the whole state. */
module App {
  import opened Wrappers
  import opened Strings
  import opened Numerals
  import opened Telemetry

  class Dashboard {
    var deviceState: map<string, DeviceStatus>
    var sensorData: map<string, Fields>
    var mqttConnected: bool
    /** Everything handed to the MQTT client, oldest first. */
    ghost var outbox: seq<Outgoing>

    function State(): Store
      reads this
    {
      Store(deviceState, sensorData, mqttConnected)
    }

    ghost predicate Valid()
      reads this
    {
      ValidStore(State())
    }

    /** The module-level initialisation of the two tables. */
    constructor ()
      ensures Valid() && State() == InitialStore() && outbox == []
    {
      deviceState := map[Office := DeviceStatus(false, 0), Home := DeviceStatus(false, 0)];
      sensorData := map[Office := InitialFields, Home := InitialFields];
      mqttConnected := false;
      outbox := [];
    }

    /** `on_connect`: result code 0 marks the broker connected and
        subscribes; any other code marks it disconnected. */
    method OnConnect(rc: int)
      modifies this
      ensures mqttConnected == (rc == 0)
      ensures deviceState == old(deviceState) && sensorData == old(sensorData)
      ensures outbox == old(outbox) + (if rc == 0 then [Subscribe(SubscriptionFilters)] else [])
    {
      if rc == 0 {
        mqttConnected := true;
        outbox := outbox + [Subscribe(SubscriptionFilters)];
      } else {
        mqttConnected := false;
      }
    }

    /** `on_disconnect`: the broker is gone; no location's device status
        changes. */
    method OnDisconnect(rc: int)
      modifies this
      ensures !mqttConnected
      ensures deviceState == old(deviceState) && sensorData == old(sensorData) && outbox == old(outbox)
    {
      mqttConnected := false;
    }

    /** `on_message`, with `now` standing for `time.time()`. */
    method OnMessage(topic: string, payload: string, now: int)
      requires Valid()
      modifies this
      ensures Valid()
      ensures State() == AfterMessage(old(State()), topic, payload, now)
      ensures outbox == old(outbox)
    {
      ghost var s := State();
      var location := Office;
      deviceState := deviceState[location := deviceState[location].(lastSeen := now)];
      deviceState := deviceState[location := deviceState[location].(connected := true)];
      WriteTwice(s.devices, Office, s.devices[Office].(lastSeen := now), DeviceStatus(true, now));

      if Contains(topic, "control") {
        var controlType := LastSegment(topic);
        ApplyControlTopic(controlType, payload);
      } else if Contains(topic, "sensor") {
        var sensorType := LastSegment(topic);
        ApplySensorTopic(sensorType, payload);
      } else if topic == ConnectionTopic {
        NonFieldMessage(s, topic, payload, now);
        if payload == "ONLINE" {
          deviceState := deviceState[location := deviceState[location].(connected := true)];
          WriteTwice(s.devices, Office, DeviceStatus(true, now), DeviceStatus(true, now));
        } else if payload == "OFFLINE" {
          deviceState := deviceState[location := deviceState[location].(connected := false)];
          WriteTwice(s.devices, Office, DeviceStatus(true, now), DeviceStatus(false, now));
        }
      } else {
        NonFieldMessage(s, topic, payload, now);
      }
      ghost var r := AfterMessage(s, topic, payload, now);
      assert deviceState == r.devices;
      assert sensorData == r.sensors;
      MessageKeepsLayout(s, topic, payload, now);
    }

    /** The control branch of `on_message`: the raw payload is written
        first, then replaced by `int(payload)` for `led_d7` when that
        parse succeeds. */
    method ApplyControlTopic(controlType: string, payload: string)
      requires Office in sensorData
      modifies this
      ensures sensorData == old(sensorData)[Office := ControlWrite(old(sensorData)[Office], controlType, payload)]
      ensures deviceState == old(deviceState) && mqttConnected == old(mqttConnected) && outbox == old(outbox)
    {
      ghost var fields := sensorData[Office];
      var location := Office;
      if controlType in sensorData[location] {
        sensorData := sensorData[location := sensorData[location][controlType := Str(payload)]];
        if controlType == LedBrightness {
          var parsed := ParseInt(payload);
          if parsed.Some? {
            sensorData := sensorData[location := sensorData[location][LedBrightness := Int(parsed.value)]];
            WriteTwice(fields, LedBrightness, Str(payload), Int(parsed.value));
          }
        }
      } else {
        RewriteUnchanged(sensorData, location);
      }
    }

    /** The sensor branch of `on_message`: only d0..d3 are written. */
    method ApplySensorTopic(sensorType: string, payload: string)
      requires Office in sensorData
      modifies this
      ensures sensorData == old(sensorData)[Office := SensorWrite(old(sensorData)[Office], sensorType, payload)]
      ensures deviceState == old(deviceState) && mqttConnected == old(mqttConnected) && outbox == old(outbox)
    {
      var location := Office;
      if sensorType in DigitalInputs {
        sensorData := sensorData[location := sensorData[location][sensorType := Str(payload)]];
      } else {
        RewriteUnchanged(sensorData, location);
      }
    }

    /** One pass of `connection_monitor`'s `for` loop at time `now`. */
    method MonitorCycle(now: int)
      requires Valid()
      modifies this
      ensures Valid()
      ensures State() == old(State()).(devices := Sweep(old(deviceState), now))
      ensures outbox == old(outbox)
    {
      ghost var before := deviceState;
      for i := 0 to |Locations|
        invariant deviceState == SweepFirst(before, now, i)
        invariant sensorData == old(sensorData) && mqttConnected == old(mqttConnected) && outbox == old(outbox)
      {
        SweepFirstStep(before, now, i);
        var location := Locations[i];
        if deviceState[location].connected && now - deviceState[location].lastSeen > Timeout {
          deviceState := deviceState[location := deviceState[location].(connected := false)];
        }
      }
      SweepFirstAll(before, now);
    }

    /** The `/control` endpoint; `body` is None when the request body is
        not a JSON object. */
    method Control(body: Option<ControlRequest>) returns (status: Status)
      requires Valid()
      modifies this
      ensures Valid()
      ensures var e := HandleControl(old(State()), body);
              State() == e.store && outbox == old(outbox) + e.sent && status == e.status
    {
      if body.None? {
        return Failed(MalformedBody);
      }
      var req := body.value;
      if !Truthy(req.device) || req.value == Null {
        return Failed(MissingDeviceOrValue);
      }
      var topic := "control/" + Display(req.device);
      if !PublishableTopic(topic) {
        return Failed(WildcardTopic);
      }
      outbox := outbox + [Publish(topic, Display(req.value), 1, false)];
      var location := RequestedLocation(req);
      if !(location.Str? && location.text in sensorData) {
        return Failed(UnknownLocation(location));
      }
      if req.device.Str? && req.device.text in sensorData[location.text] {
        sensorData := sensorData[location.text := sensorData[location.text][req.device.text := req.value]];
      }
      status := Succeeded;
    }

    /** The `/get_location_data/<location>` endpoint; it changes nothing. */
    method GetLocationData(location: string) returns (r: Result<LocationView, ApiError>)
      requires Valid()
      ensures r == LocationData(State(), location)
    {
      if location !in [Office, Home] {
        return Err(InvalidLocation);
      }
      r := Ok(LocationView(sensorData[location], deviceState[location].connected, mqttConnected));
    }
  }

  /** The devices table after the watchdog has visited the first `k`
      entries of Locations. */
  ghost function SweepFirst(devices: map<string, DeviceStatus>, now: int, k: nat): map<string, DeviceStatus>
    requires k <= |Locations|
  {
    map l | l in devices :: if l in Locations[..k] then Demote(devices[l], now) else devices[l]
  }

  /** Visiting entry `k` demotes that location and nothing else. */
  lemma SweepFirstStep(devices: map<string, DeviceStatus>, now: int, k: nat)
    requires k < |Locations| && Locations[k] in devices
    ensures var d := SweepFirst(devices, now, k);
            && Locations[k] in d
            && d[Locations[k]] == devices[Locations[k]]
            && SweepFirst(devices, now, k + 1) == d[Locations[k] := Demote(d[Locations[k]], now)]
  {
    assert Locations[..k + 1] == Locations[..k] + [Locations[k]];
  }

  /** Once every location has been visited, the table is Sweep's. */
  lemma SweepFirstAll(devices: map<string, DeviceStatus>, now: int)
    ensures SweepFirst(devices, now, |Locations|) == Sweep(devices, now)
  {
    assert Locations[..|Locations|] == Locations;
  }

  /** Writing a key twice leaves only the second write: `led_d7` is written
      once raw and once parsed, the office's status once per field. */
  lemma WriteTwice<K, V>(m: map<K, V>, k: K, a: V, b: V)
    ensures m[k := a][k := b] == m[k := b]
  {
  }
}
