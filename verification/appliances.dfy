/**
 * One appliance (midea_appliance): its configuration, the handle of the
 * device driver it owns once connected, the snapshot it publishes and the
 * set-message protocol that writes attributes back to the driver.
 *
 * The device driver is a foreign library; it is represented by the Driver
 * record: whether the device is online, its attribute state, its
 * needs_refresh flag, whether its refresh() raises, and how often apply()
 * has been called.
 */
module Appliances {
  import opened Values
  import opened Configuration

  /** The fixed attribute list set by connect(), in publication order. */
  const Attribs: seq<string> := [
    "running", "fan_speed", "target_humidity", "ion_mode", "mode",
    "current_humidity", "current_temperature", "tank_level", "tank_full",
    "model", "type", "name"]

  /** A JSON object as json.dumps writes it: names and values, in insertion order. */
  type Payload = seq<(string, Value)>

  /** The driver handle (appliance_state) as the bridge sees it. */
  datatype Driver = Driver(
    online: bool,
    attrs: map<string, Value>,
    needsRefresh: bool,
    refreshFails: bool,
    applyCount: nat)

  /** An inbound set payload as json.loads sees it. */
  datatype SetPayload =
    | JsonObject(fields: map<string, Value>)  // a JSON object
    | JsonNonObject                           // valid JSON that is not an object
    | Unparseable                             // not JSON at all

  /** data[a] = getattr(state, a) for each a in turn: the first attribute the
      state lacks raises; otherwise the payload pairs each name with its value. */
  function ProjectAttrs(attrs: map<string, Value>, names: seq<string>): (r: Result<Payload>)
    ensures r.Ok? <==> forall i :: 0 <= i < |names| ==> names[i] in attrs
    ensures r.Ok? ==> |r.value| == |names|
    ensures r.Ok? ==> forall i :: 0 <= i < |names| ==> r.value[i] == (names[i], attrs[names[i]])
    ensures r.Raised? ==> exists i :: (0 <= i < |names| && names[i] !in attrs
      && (forall j :: 0 <= j < i ==> names[j] in attrs) && r.error == MissingAttribute(names[i]))
  {
    if names == [] then Ok([])
    else if names[0] !in attrs then Raised(MissingAttribute(names[0]))
    else match ProjectAttrs(attrs, names[1..])
      case Ok(p) => Ok([(names[0], attrs[names[0]])] + p)
      case Raised(e) => Raised(e)
  }

  /** The attribute the projection stops at is the first one missing. */
  lemma FirstMissingAttribute(attrs: map<string, Value>, names: seq<string>, i: nat)
    requires i < |names| && names[i] !in attrs
    requires forall j :: 0 <= j < i ==> names[j] in attrs
    ensures ProjectAttrs(attrs, names) == Raised(MissingAttribute(names[i]))
  {
  }

  /** refresh(): the driver handle must exist, its refresh must not raise,
      and then the attributes named by attribs are projected from its state. */
  function Snapshot(d: Option<Driver>, attribs: seq<string>): Result<Payload>
  {
    if d.None? then Raised(NotConnected)
    else if d.value.refreshFails then Raised(RefreshFailed)
    else ProjectAttrs(d.value.attrs, attribs)
  }

  /** A connected appliance whose driver refreshes and holds every listed
      attribute publishes exactly the twelve fixed names, in their fixed
      order, each with the driver state's value. */
  lemma SnapshotShape(d: Driver)
    requires !d.refreshFails
    requires forall n :: n in Attribs ==> n in d.attrs
    ensures Snapshot(Some(d), Attribs).Ok?
    ensures |Snapshot(Some(d), Attribs).value| == 12
    ensures forall i :: 0 <= i < 12 ==> Snapshot(Some(d), Attribs).value[i] == (Attribs[i], d.attrs[Attribs[i]])
  {
    assert forall i :: 0 <= i < |Attribs| ==> Attribs[i] in Attribs;
  }

  /** json.loads(json.dumps(data)) for a payload: a later name wins. */
  function ToObject(p: Payload): map<string, Value>
  {
    if p == [] then map[] else ToObject(p[..|p| - 1])[p[|p| - 1].0 := p[|p| - 1].1]
  }

  /** What apply() does to the handle, as far as the bridge can tell. */
  function Applied(d: Driver): Driver
  {
    d.(applyCount := d.applyCount + 1)
  }

  /** The state attribute parseSetMsg tests after the writes. */
  const NeedsRefresh := "needs_refresh"

  /** setattr(state, name, v): the attribute takes the value; when the name
      is needs_refresh, the flag takes the value's truth. */
  function SetAttr(d: Driver, name: string, v: Value): Driver
  {
    d.(attrs := d.attrs[name := v],
       needsRefresh := if name == NeedsRefresh then Truthy(v) else d.needsRefresh)
  }

  /** Every pair of fields written onto the driver state. */
  function WriteFields(d: Driver, fields: map<string, Value>): Driver
  {
    d.(attrs := d.attrs + fields,
       needsRefresh := if NeedsRefresh in fields then Truthy(fields[NeedsRefresh]) else d.needsRefresh)
  }

  /** The pairs of fields whose names are in done. */
  function Restrict(fields: map<string, Value>, done: set<string>): map<string, Value>
  {
    map k | k in done && k in fields :: fields[k]
  }

  /** Writing the pairs one name at a time, in any order, builds up WriteFields. */
  lemma WriteFieldsStep(d: Driver, fields: map<string, Value>, done: set<string>, k: string)
    requires k in fields && k !in done
    ensures WriteFields(d, Restrict(fields, done + {k})) == SetAttr(WriteFields(d, Restrict(fields, done)), k, fields[k])
  {
    assert Restrict(fields, done + {k}) == Restrict(fields, done)[k := fields[k]];
    assert d.attrs + Restrict(fields, done)[k := fields[k]] == (d.attrs + Restrict(fields, done))[k := fields[k]];
  }

  /** The driver after a payload's pairs are written onto an online driver:
      every payload key holds the payload's value, every other attribute keeps
      its value, needs_refresh is the payload's when the payload names it, and
      apply() has run exactly when needs_refresh is set after the writes. */
  ghost predicate Written(d: Driver, fields: map<string, Value>, d': Driver)
  {
    var flag := if NeedsRefresh in fields then Truthy(fields[NeedsRefresh]) else d.needsRefresh;
    && d'.attrs.Keys == d.attrs.Keys + fields.Keys
    && (forall k :: k in fields ==> d'.attrs[k] == fields[k])
    && (forall k :: k in d.attrs && k !in fields ==> d'.attrs[k] == d.attrs[k])
    && d'.online == d.online && d'.needsRefresh == flag && d'.refreshFails == d.refreshFails
    && d'.applyCount == d.applyCount + (if flag then 1 else 0)
  }

  /** What parseSetMsg does to the driver handle and what it answers. */
  datatype SetOutcome = SetOutcome(driver: Option<Driver>, result: Result<bool>)

  /** parseSetMsg(payload). It never answers False. Without a driver handle
      the online test raises; an offline driver is left alone; an online one
      raises on a payload json.loads rejects or that has no items() (the
      handler catches yaml.YAMLError only), and otherwise gets every pair
      written and apply() called when needs_refresh is set. */
  function SetMsg(d: Option<Driver>, payload: SetPayload): (o: SetOutcome)
    ensures o.result.Ok? ==> o.result.value
    ensures d.None? ==> o.result == Raised(NotConnected)
    ensures d.Some? && !d.value.online ==> o.result == Ok(true)
    ensures d.Some? && d.value.online ==> (o.result.Ok? <==> payload.JsonObject?)
    ensures d.Some? && d.value.online && payload == Unparseable ==> o.result == Raised(JsonDecodeError)
    ensures o.result.Raised? || !d.value.online ==> o.driver == d
    ensures d.Some? && d.value.online && payload.JsonObject? ==>
      o.driver.Some? && Written(d.value, payload.fields, o.driver.value)
  {
    if d.None? then SetOutcome(d, Raised(NotConnected))
    else if !d.value.online then SetOutcome(d, Ok(true))
    else match payload
      case Unparseable => SetOutcome(d, Raised(JsonDecodeError))
      case JsonNonObject => SetOutcome(d, Raised(NotAnObject))
      case JsonObject(fields) =>
        var w := WriteFields(d.value, fields);
        SetOutcome(Some(if w.needsRefresh then Applied(w) else w), Ok(true))
  }

  /** A payload that sets needs_refresh to a true value makes parseSetMsg
      call apply(), whatever the flag was before; one that clears it keeps
      apply() from running. */
  lemma SetNeedsRefreshDecidesApply(d: Driver, fields: map<string, Value>)
    requires d.online && NeedsRefresh in fields
    ensures SetMsg(Some(d), JsonObject(fields)).driver.value.applyCount ==
      d.applyCount + (if Truthy(fields[NeedsRefresh]) then 1 else 0)
  {
  }

  /** Every pair of a payload agrees with a state that holds all of them. */
  lemma {:induction false} ToObjectAgrees(p: Payload, attrs: map<string, Value>)
    requires forall i :: 0 <= i < |p| ==> p[i].0 in attrs && attrs[p[i].0] == p[i].1
    ensures forall k :: k in ToObject(p) ==> k in attrs && ToObject(p)[k] == attrs[k]
  {
    if p != [] {
      ToObjectAgrees(p[..|p| - 1], attrs);
    }
  }

  /** Writing a published snapshot back leaves every attribute as it was:
      the only effect left is the apply() that needs_refresh asks for. */
  lemma SnapshotWriteBack(d: Driver, p: Payload)
    requires d.online
    requires Snapshot(Some(d), Attribs) == Ok(p)
    ensures SetMsg(Some(d), JsonObject(ToObject(p))).result == Ok(true)
    ensures SetMsg(Some(d), JsonObject(ToObject(p))).driver.value.attrs == d.attrs
  {
    ToObjectAgrees(p, d.attrs);
    var o := SetMsg(Some(d), JsonObject(ToObject(p)));
    assert o.driver.value.attrs == d.attrs + ToObject(p);
    assert d.attrs + ToObject(p) == d.attrs;
  }

  /** A midea_appliance object. */
  class Appliance {
    /** set by the constructor (to False, then to True) and never reassigned */
    const valid: bool
    /** set once by the constructor and never reassigned */
    const topic: string
    const address: Value
    const token: Value
    const key: Value
    /** self._appliance: None until connect() */
    var driver: Option<Driver>
    /** self._attribs: set by connect() */
    var attribs: seq<string>

    /** The constructor always ends with valid = True. */
    predicate Valid()
    {
      valid
    }

    function Config(): DeviceConfig
    {
      DeviceConfig(topic, address, token, key)
    }

    constructor (topic: string, address: Value, token: Value, key: Value)
      ensures Valid()
      ensures Config() == DeviceConfig(topic, address, token, key)
      ensures driver.None?
    {
      valid := false;
      this.topic := topic;
      this.address := address;
      this.token := token;
      this.key := key;
      valid := true;
      driver := None;
      attribs := [];
    }

    /** connect(handle): handle stands for appliance_state(address, token,
        key). The method returns nothing (None to its caller). */
    method Connect(handle: Driver)
      requires Valid()
      modifies this`driver, this`attribs
      ensures Valid()
      ensures driver == Some(handle) && attribs == Attribs
    {
      if valid {
        driver := Some(handle);
        attribs := Attribs;
      }
    }

    /** refresh(): asks the driver to refresh, then builds the payload
        attribute by attribute. */
    method Refresh() returns (r: Result<Payload>)
      ensures r == Snapshot(driver, attribs)
    {
      if driver.None? {
        return Raised(NotConnected);
      }
      var d := driver.value;
      if d.refreshFails {
        return Raised(RefreshFailed);
      }
      var data: Payload := [];
      var i := 0;
      while i < |attribs|
        invariant 0 <= i <= |attribs| && |data| == i
        invariant forall j :: 0 <= j < i ==> attribs[j] in d.attrs && data[j] == (attribs[j], d.attrs[attribs[j]])
      {
        var name := attribs[i];
        if name !in d.attrs {
          FirstMissingAttribute(d.attrs, attribs, i);
          return Raised(MissingAttribute(name));
        }
        data := data + [(name, d.attrs[name])];
        i := i + 1;
      }
      assert data == ProjectAttrs(d.attrs, attribs).value;
      r := Ok(data);
    }

    /** parseSetMsg(payload): writes the payload's pairs onto the driver state
        one by one, then calls apply() when needs_refresh is set. */
    method ParseSetMsg(payload: SetPayload) returns (r: Result<bool>)
      requires Valid()
      modifies this`driver
      ensures Valid()
      ensures SetOutcome(driver, r) == SetMsg(old(driver), payload)
    {
      if valid {
        if driver.None? {
          return Raised(NotConnected);
        }
        if driver.value.online {
          match payload
          case Unparseable =>
            return Raised(JsonDecodeError);
          case JsonNonObject =>
            return Raised(NotAnObject);
          case JsonObject(fields) =>
            var d0 := driver.value;
            var remaining := fields.Keys;
            ghost var done: set<string> := {};
            assert Restrict(fields, done) == map[];
            assert d0.attrs + map[] == d0.attrs;
            while remaining != {}
              invariant remaining + done == fields.Keys && remaining !! done
              invariant driver == Some(WriteFields(d0, Restrict(fields, done)))
              modifies this`driver
              decreases remaining
            {
              var k :| k in remaining;
              WriteFieldsStep(d0, fields, done, k);
              driver := Some(SetAttr(driver.value, k, fields[k]));
              remaining := remaining - {k};
              done := done + {k};
            }
            assert Restrict(fields, done) == fields;
            if driver.value.needsRefresh {
              driver := Some(Applied(driver.value));
            }
        }
      }
      r := Ok(true);
    }
  }
}
