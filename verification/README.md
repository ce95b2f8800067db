# midea2mqtt in Dafny

This project models the core of `midea2mqtt.py`. That program is a bridge
between Midea dehumidifiers and an MQTT broker. It reads a configuration and
builds a registry of appliances keyed by `basetopic/topic`. On every
(re)connect it subscribes to a "set" topic per appliance. It routes each
inbound set message to its appliance, writes the message's attributes onto
the device driver's state and publishes a fresh snapshot. It also polls every
appliance in turn and publishes each snapshot.

The model has five modules:

- `Values` holds the scalar YAML/JSON values, Python's `str()` of them, the
  exceptions the bridge can raise, and a `Result` that is either a value or a
  raised exception.
- `Topics` holds the topic arithmetic: the `[:-4]` strip that routes an
  inbound message, the `"/".join` that builds a subscription topic, and the
  list of topics one (re)connect subscribes to.
- `Configuration` holds the decision over the MQTT section with its defaults,
  and the registry as a value. The registry keeps the dict's keys in
  insertion order plus the configuration under each key. A later entry with
  the same key replaces the value but keeps the key's first position.
- `Appliances` holds the device driver as a record and the snapshot and
  set-message protocol as functions. It also holds the class `Appliance`
  (`midea_appliance`), whose methods update the driver handle in place.
- `MqttBridge` holds the class `Bridge` (`midea2mqtt`). Its fields are the
  settings, the appliance dict (a `map` plus its key order), and two logs: one
  entry per publish call and one per subscribe call. Its methods are the
  configuration steps, the MQTT callbacks and one pass of the poll loop. The
  one-pass behaviour is specified by the function `Poll`.

Stand-ins for what the program does not compute itself:

- **The MQTT client.** Every publish call appends to `published` and every
  subscribe call appends to `subscriptions`.
- **Broker answers.** These are parameters:
  - the result code of the client's `connect` (`rc`);
  - the topics whose subscribe result code is not 0 (`refused`);
  - whether a connect event's reason code is a failure (`isFailure`).
- **The driver handle** (`appliance_state`). It is a `Driver` record with:
  - the `online` flag;
  - the attribute map of its state;
  - `needs_refresh`;
  - whether its `refresh()` raises;
  - a counter of `apply()` calls.

  `appliance_state(address, token, key)` is the parameter `connectTo`.
- **Inbound payloads.** A payload is what `json.loads` makes of it: an object,
  a JSON value that is not an object, or text that is not JSON.
- **Outbound payloads.** A payload is the ordered list of name/value pairs
  that `json.dumps` would write.

### Where the code departs from its evident intent

The model follows the code as written in each of these places.

- `midea_appliance.connect` returns nothing (`midea2mqtt.py:166-174`). Yet
  `_connectAppliances` tests its result (line 94), counts the appliances for
  which it holds, publishes a first snapshot for each (lines 95-96) and answers
  whether any was counted (line 98). So connect evidently meant to answer
  whether the device came online. As written, the test never holds: no first
  snapshot is published and the method answers False
  (`MqttBridge.Bridge.ConnectAppliances`). The startup chain therefore never
  ends with True (`MqttBridge.Bridge.Startup`).
- `parseSetMsg` wraps the decoding in a handler that logs "unable to parse"
  (lines 197-199), so a payload that cannot be parsed was evidently meant to
  be caught and logged. The handler catches `yaml.YAMLError` only, and
  `json.loads` never raises that. So a payload that is not JSON, or JSON that
  is not an object, raises out of `_on_message` (`Appliances.SetMsg`).
- `_on_message` strips the last four characters with the comment that they
  are `/set` (line 122), but it does not check them. The base topic's own
  `basetopic/set` subscription strips to `basetopic`, which is never a
  registry key, so messages on it are dropped
  (`MqttBridge.BaseSetTopicIsDropped`).

Other behaviours of the code that the model makes explicit:

- `parseSetMsg` answers True in every branch, including for an offline
  appliance. So every routed message is followed by a refresh and a publish
  unless something raised.
- The flag that `parseSetMsg` tests at line 194 is read after the payload's
  pairs are written. A payload that names `needs_refresh` therefore decides
  itself whether `apply()` runs (`Appliances.SetNeedsRefreshDecidesApply`).
- The poll loop has a single `try` around the whole pass
  (`midea2mqtt.py:41-46`). The first refresh that raises ends the pass, and
  every appliance after it is skipped until the next pass
  (`MqttBridge.FailureSkipsLaterAppliances`). A `try` inside the `for` loop
  would skip only the failing appliance.
- `_parseConfigAppliances` counts entries, not distinct keys. It answers True
  exactly when the device list is non-empty. The registry holds fewer
  appliances than there were entries exactly when two entries share a topic
  (`Configuration.RegistrySize`).

## Model

| member | source | states |
|---|---|---|
| Configuration.ParseMqtt | midea2mqtt.py:59-71 | The section is accepted exactly when "broker" is present and is a non-empty string. Then each present key is taken as it is and each absent key gets its default: port 1883, username and password "", clientid "midea2mqtt", basetopic "midea". |
| MqttBridge.Bridge.ParseConfigMqtt | midea2mqtt.py:59-71 | The answer is whether the section is accepted. The broker is recorded in every case. When accepted, the six settings are those of `ParseMqtt`. When refused, no other setting changes. |
| Configuration.EntryOf | midea2mqtt.py:77-82 | A device entry is read exactly when it has "topic", "address", "token" and "key". Otherwise KeyError is raised for the first of them, in that order, that the entry lacks. The key is str(basetopic) + "/" + str(topic) for every base topic, and the address, token and key are the entry's own values. |
| Configuration.RegistryOfKeys | midea2mqtt.py:76-85 | The registry built by inserting the entries in turn lists each key once. Its keys are exactly the entries' topics, and each entry is stored under its own topic. |
| Configuration.RegistryLastWriteWins | midea2mqtt.py:85 | For an entry that no later entry shares a topic with, the registry holds that entry under the topic: the later of two entries with the same topic survives. |
| Configuration.RegistrySize | midea2mqtt.py:83-87 | The registry never holds more appliances than there were entries. It holds exactly as many when no two entries share a topic, so the count can exceed the registry size. |
| Configuration.KeysUnderBase | midea2mqtt.py:78 | Every registry key extends str(basetopic) + "/". |
| MqttBridge.Bridge.ParseConfigAppliances | midea2mqtt.py:73-87 | The dict starts empty. On success it holds the registry of all entries, keyed and ordered as a Python dict would be, and every appliance is new and unconnected. The answer is True exactly when the list is non-empty. A malformed entry raises its KeyError and leaves exactly the entries before it registered. |
| MqttBridge.Bridge.Register | midea2mqtt.py:79-85 | One loop step builds a new, unconnected appliance and stores it under its topic. The step is always counted. The dict stays keyed and holds the registry with this entry inserted. |
| MqttBridge.Bridge.Store | midea2mqtt.py:85 | `self.appliances[topic] = a`: the map gets the new value. The key order is unchanged for an existing key and gains the key at the end for a new one. |
| Appliances.Appliance.constructor | midea2mqtt.py:154-164 | A new appliance is valid, carries its four configuration values, and has no driver handle. |
| Appliances.Appliance.Connect | midea2mqtt.py:166-173 | A valid appliance gets the handle built from its address, token and key, and the twelve-name attribute list. |
| MqttBridge.Bridge.ConnectAppliances | midea2mqtt.py:89-98 | Every appliance in the registry is connected with the handle for its own credentials. Because connect() returns None, nothing is published and the answer is False. |
| MqttBridge.Bridge.ConnectMqtt | midea2mqtt.py:117-118 | `online` records whether the connect result code was 0, and that is the answer. |
| Appliances.ProjectAttrs | midea2mqtt.py:180-182 | Reading the attributes in turn succeeds exactly when the state has every listed name. The payload then pairs each name, in list order, with the state's value. Otherwise the first missing name raises. |
| Appliances.SnapshotShape | midea2mqtt.py:171-182 | A connected appliance whose driver refreshes and has every attribute publishes exactly the twelve fixed names, in their fixed order, each with the state's value. |
| Appliances.Appliance.Refresh | midea2mqtt.py:176-186 | The result is the snapshot of the handle. It raises when there is no handle or when the driver's refresh raises; otherwise it is the projection of the attribute list, including its first-missing-attribute error. |
| Appliances.SetMsg | midea2mqtt.py:188-201 | The answer is never False. Without a handle the call raises. An offline driver is left unchanged and the answer is True. An online driver accepts exactly JSON objects; text that is not JSON raises the decode error. On success every payload key holds the payload's value and every other attribute keeps its value. needs_refresh takes the payload's truth value when the payload names it. apply() runs exactly when needs_refresh is set after the writes. |
| Appliances.SetNeedsRefreshDecidesApply | midea2mqtt.py:192-195 | A payload that names needs_refresh decides whether apply() runs: it runs once when the value is true and not at all when it is false, whatever the flag was before. |
| Appliances.Appliance.ParseSetMsg | midea2mqtt.py:188-201 | Writing the pairs one at a time and then calling apply() leaves the handle and answer that `SetMsg` gives. |
| Appliances.SnapshotWriteBack | midea2mqtt.py:176-201 | Writing a published snapshot back to an online appliance is answered True and leaves every attribute as it was. |
| Topics.StripLastFour | midea2mqtt.py:122 | `t[:-4]` is a prefix of t, four characters shorter, or empty when t has fewer than four characters. |
| Topics.JoinPair | midea2mqtt.py:141 | Joining with "/" succeeds exactly when the first part is a string; otherwise it raises TypeError. |
| Topics.SetTopicRoutesBack | midea2mqtt.py:122-141 | Joining a key with "set" and then stripping four characters gives the key back. |
| MqttBridge.Bridge.SubscribeToTopic | midea2mqtt.py:140-148 | A joinable pair is subscribed once, and the answer is whether the subscribe result code was 0. A pair that cannot be joined raises and subscribes nothing. |
| MqttBridge.Bridge.OnConnect | midea2mqtt.py:130-138 | A failure reason subscribes nothing. Otherwise the client subscribes to basetopic/set and then to key/set for each registry key in registry order. A base topic that is not a string raises before any subscription. |
| Topics.SubscriptionsRouteToKeys | midea2mqtt.py:122-138 | One (re)connect makes 1 + registry-size subscriptions. Each key's subscription routes back to that key, and the base topic's routes to no key. |
| Topics.SubscriptionSet | midea2mqtt.py:136-138 | The subscribed topics are exactly {basetopic/set} together with {k/set} for the registry keys, with no topic subscribed twice. |
| MqttBridge.ReconnectSubscriptions | midea2mqtt.py:76-138 | For any accepted device list, every successful (re)connect subscribes to exactly {basetopic/set} together with the "set" topic of each registered appliance, each once. The count is 1 + registry size. |
| MqttBridge.BaseSetTopicIsDropped | midea2mqtt.py:122-136 | A message on basetopic/set strips to basetopic, which is not a registry key, so it is dropped. |
| MqttBridge.Bridge.OnMessage | midea2mqtt.py:120-128 | An unknown stripped topic changes nothing. Otherwise only that appliance's handle changes, as `SetMsg` says. If that raises, nothing is published. Otherwise exactly one snapshot is published, to the stripped topic, unless the refresh raises. |
| MqttBridge.PollPublishesPrefix | midea2mqtt.py:41-44 | One pass publishes the snapshots of the appliances before the first failing refresh, each to its own topic, in registry order. When the pass stops early, the refresh at the stopping point is the one that raised. |
| MqttBridge.FailureSkipsLaterAppliances | midea2mqtt.py:41-46 | An appliance after a failing one publishes nothing in that pass, however healthy it is. |
| MqttBridge.Bridge.PollOnce | midea2mqtt.py:39-46 | One pass appends exactly `Poll` of the registry's refresh results, in registry order. The error is logged exactly when the pass stopped early, and it is the error of the refresh that stopped it. |
| MqttBridge.Bridge.constructor | midea2mqtt.py:16-18 | The bridge starts offline, with a 60-second refresh delay, an empty dict and empty logs. |
| MqttBridge.Bridge.Startup | midea2mqtt.py:32-35 | Each step runs only after the one before it succeeded, and the chain never ends True. A refused MQTT section records only the broker and leaves the dict as it was. An accepted one sets the settings of `ParseMqtt`. The device list then raises exactly when an entry is malformed, and otherwise the dict holds its registry. The broker connect decides `online` exactly when the MQTT section and a non-empty device list were accepted; otherwise `online` keeps its value. Every registered appliance is connected with its own handle exactly when that connect succeeded; otherwise it has none. After an accepted MQTT section every registered appliance is newly built. Only the settings, the dict and `online` change, so `refreshDelay` stays as it was, and nothing is published or subscribed. |

## Left out

- Reading the YAML file (`midea2mqtt.py:21-29`) is not modelled. This covers its `yaml.YAMLError` handler, which names an undefined `configFile`, and the KeyError of `data["mqtt"]` or `data["devices"]`. `Startup` takes the two sections as arguments.
- A device list that is not a list of maps, and YAML values other than strings, integers, booleans and null, are not modelled: `Value` has no floats, lists or maps.
- Building the paho client, registering its callbacks, and the commented-out TLS and credentials calls (`midea2mqtt.py:101-115`) are library calls and are left out. Exceptions raised by the client's `connect` are also left out; only its result code is a parameter.
- `loop_start`, `loop_stop`, `time.sleep`, the endless `while True` and all logging (`midea2mqtt.py:36-48`) are left out. Each is I/O or timing; one pass of the loop is modelled by `PollOnce`.
- When the MQTT section is refused or the device list is empty, `_connectMqtt` never runs. No client exists then, and line 38 raises AttributeError; that is left out. A KeyError from the device list escapes `__init__` before line 38. In every other case the client exists and the poll loop runs whatever the startup flag is, because the flag is never read after line 35. One pass of that loop is `MqttBridge.Bridge.PollOnce`.
- The return values of publish calls are not modelled. Publish is assumed never to fail.
- What paho does with an exception that escapes a callback is left out. The model reports the exception as the callback's result.
- Concurrency between paho's callback thread and the poll loop is left out. The source has no locking, and each callback is modelled as one atomic step.
- `_parseConfigGeneral` is left out: it is dead code whose call is commented out (`midea2mqtt.py:31,51-57`).
- `MqttBridge.Bridge.SubscribeToTopic`: the branch taken when the argument is already a plain string is not modelled. Both callers always pass a pair.
- `MqttBridge.Bridge.ParseConfigAppliances`: line 78 writes the rewritten topic back into the caller's configuration entry. That mutation is not modelled, because nothing reads the entry again. The exception is a device list that repeats one mapping through a YAML alias: the second read of that mapping then sees the rewritten topic. A `seq<map<string, Value>>` cannot express such sharing.
- `Appliances.Appliance.Connect`: the construction of the driver handle is a parameter and is assumed not to raise. The device driver is not part of this model.
- `Appliances.Appliance.Refresh`: the driver's `refresh()` is modelled only as raising or not. It does not change the attribute map, which stands for the state after the refresh.
- `Appliances.SetMsg`: a write onto the driver state is a plain map update. Setters that reject a value or convert it, and setters of other attributes that change `needs_refresh` as a side effect, are not modelled. A direct write of `needs_refresh` is modelled. `apply()` is modelled as a counter of calls and is assumed not to raise.
- `Appliances.SetMsg`: only the map of pairs is modelled for the names and values of a JSON object. Duplicate names inside the JSON text are not.
- The exact text `json.dumps` produces is not modelled; only the ordered name/value pairs are. A state value that JSON cannot encode is also not modelled.
- Line 78 uses nested double quotes inside an f-string. The model assumes a Python version (3.12 or later) that accepts them.
