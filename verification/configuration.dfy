/**
 * The two configuration decisions of the bridge: the MQTT section with its
 * defaults, and the appliance registry built from the device list, keyed by
 * basetopic + "/" + topic with Python-dict semantics (a later entry with the
 * same key replaces the value but keeps the key's first position).
 */
module Configuration {
  import opened Values

  /** The MQTT settings the bridge keeps once the section is accepted. */
  datatype MqttSettings = MqttSettings(
    broker: Value, port: Value, username: Value, password: Value,
    clientid: Value, basetopic: Value)

  const DefaultPort := Int(1883)
  const DefaultUsername := Str("")
  const DefaultPassword := Str("")
  const DefaultClientid := Str("midea2mqtt")
  const DefaultBasetopic := Str("midea")

  /** config[key] if key in config else default */
  function Lookup(config: map<string, Value>, key: string, default: Value): Value
  {
    if key in config then config[key] else default
  }

  /** The broker value the bridge records whether or not the section is accepted. */
  function BrokerOf(config: map<string, Value>): Value
  {
    Lookup(config, "broker", Str(""))
  }

  /** The MQTT section is accepted exactly when "broker" is present and is a
      non-empty string; then every other absent key takes its default and
      every present key is taken as it is. */
  function ParseMqtt(config: map<string, Value>): (r: Option<MqttSettings>)
    ensures r.Some? <==> "broker" in config && config["broker"].Str? && config["broker"].s != ""
    ensures r.Some? ==> r.value.broker == config["broker"]
    ensures r.Some? ==> r.value.port == (if "port" in config then config["port"] else Int(1883))
    ensures r.Some? ==> r.value.username == (if "username" in config then config["username"] else Str(""))
    ensures r.Some? ==> r.value.password == (if "password" in config then config["password"] else Str(""))
    ensures r.Some? ==> r.value.clientid == (if "clientid" in config then config["clientid"] else Str("midea2mqtt"))
    ensures r.Some? ==> r.value.basetopic == (if "basetopic" in config then config["basetopic"] else Str("midea"))
  {
    var broker := BrokerOf(config);
    if broker.Str? && broker.s != "" then
      Some(MqttSettings(
        broker,
        Lookup(config, "port", DefaultPort),
        Lookup(config, "username", DefaultUsername),
        Lookup(config, "password", DefaultPassword),
        Lookup(config, "clientid", DefaultClientid),
        Lookup(config, "basetopic", DefaultBasetopic)))
    else
      None
  }

  /** What one appliance is built from: its registry key and its credentials. */
  datatype DeviceConfig = DeviceConfig(topic: string, address: Value, token: Value, key: Value)

  /** The keys of a device entry, in the order the source reads them. */
  const EntryKeys: seq<string> := ["topic", "address", "token", "key"]

  /** One device entry, read in the order the source reads it: "topic" (to
      rewrite it), then "address", "token" and "key"; the first missing one
      raises KeyError. */
  function EntryOf(base: Value, entry: map<string, Value>): (r: Result<DeviceConfig>)
    ensures r.Ok? <==> "topic" in entry && "address" in entry && "token" in entry && "key" in entry
    ensures r.Ok? ==> r.value.topic == Show(base) + "/" + Show(entry["topic"])
    ensures r.Ok? ==> Show(base) + "/" <= r.value.topic
    ensures r.Ok? ==> r.value.address == entry["address"] && r.value.token == entry["token"] && r.value.key == entry["key"]
    ensures r.Raised? ==> exists i :: (0 <= i < |EntryKeys| && EntryKeys[i] !in entry
      && (forall j :: 0 <= j < i ==> EntryKeys[j] in entry) && r.error == MissingKey(EntryKeys[i]))
  {
    assert EntryKeys[0] == "topic" && EntryKeys[1] == "address" && EntryKeys[2] == "token" && EntryKeys[3] == "key";
    if "topic" !in entry then Raised(MissingKey("topic"))
    else if "address" !in entry then Raised(MissingKey("address"))
    else if "token" !in entry then Raised(MissingKey("token"))
    else if "key" !in entry then Raised(MissingKey("key"))
    else Ok(DeviceConfig(Show(base) + "/" + Show(entry["topic"]), entry["address"], entry["token"], entry["key"]))
  }

  /** Every entry of the list is well formed. */
  predicate AllWellFormed(base: Value, devices: seq<map<string, Value>>)
  {
    forall j :: 0 <= j < |devices| ==> EntryOf(base, devices[j]).Ok?
  }

  /** The configurations of a list of well-formed entries. */
  function Configs(base: Value, devices: seq<map<string, Value>>): (cs: seq<DeviceConfig>)
    requires AllWellFormed(base, devices)
    ensures |cs| == |devices|
  {
    seq(|devices|, j requires 0 <= j < |devices| => EntryOf(base, devices[j]).value)
  }

  /** A registry: the dict's keys in iteration order and what each key holds. */
  datatype Registry = Registry(order: seq<string>, entries: map<string, DeviceConfig>)

  /** self.appliances[c.topic] = c: a new key goes last, an existing key keeps
      its place and gets the new value. */
  function Insert(reg: Registry, c: DeviceConfig): Registry
  {
    if c.topic in reg.entries then Registry(reg.order, reg.entries[c.topic := c])
    else Registry(reg.order + [c.topic], reg.entries[c.topic := c])
  }

  /** The registry built from an empty dict by inserting each configuration in turn. */
  function RegistryOf(cs: seq<DeviceConfig>): Registry
  {
    if cs == [] then Registry([], map[])
    else Insert(RegistryOf(cs[..|cs| - 1]), cs[|cs| - 1])
  }

  /** The order lists each key once, the keys of the order are the keys of
      the map, and each entry is stored under its own topic. */
  ghost predicate Coherent(reg: Registry)
  {
    && (forall i, j :: 0 <= i < j < |reg.order| ==> reg.order[i] != reg.order[j])
    && (forall k :: k in reg.entries <==> k in reg.order)
    && (forall k :: k in reg.entries ==> reg.entries[k].topic == k)
  }

  /** The topics named by a list of configurations. */
  function TopicsOf(cs: seq<DeviceConfig>): set<string>
  {
    set i | 0 <= i < |cs| :: cs[i].topic
  }

  /** No two configurations of the list share a topic. */
  predicate DistinctTopics(cs: seq<DeviceConfig>)
  {
    forall i, j :: 0 <= i < j < |cs| ==> cs[i].topic != cs[j].topic
  }

  lemma TopicsOfSnoc(cs: seq<DeviceConfig>)
    requires cs != []
    ensures TopicsOf(cs) == TopicsOf(cs[..|cs| - 1]) + {cs[|cs| - 1].topic}
    ensures DistinctTopics(cs) <==> DistinctTopics(cs[..|cs| - 1]) && cs[|cs| - 1].topic !in TopicsOf(cs[..|cs| - 1])
  {
    var init := cs[..|cs| - 1];
    forall t | t in TopicsOf(cs) ensures t in TopicsOf(init) + {cs[|cs| - 1].topic} {
      var i :| 0 <= i < |cs| && cs[i].topic == t;
      if i < |cs| - 1 { assert init[i] == cs[i]; }
    }
    forall t | t in TopicsOf(init) ensures t in TopicsOf(cs) {
      var i :| 0 <= i < |init| && init[i].topic == t;
      assert cs[i] == init[i];
    }
    assert cs[|cs| - 1].topic in TopicsOf(cs);
    if DistinctTopics(cs) {
      forall i, j | 0 <= i < j < |init| ensures init[i].topic != init[j].topic {
        assert init[i] == cs[i] && init[j] == cs[j];
      }
    }
    if DistinctTopics(init) && cs[|cs| - 1].topic !in TopicsOf(init) {
      forall i, j | 0 <= i < j < |cs| ensures cs[i].topic != cs[j].topic {
        assert cs[i] == init[i];
        if j < |cs| - 1 { assert cs[j] == init[j]; }
        else { assert cs[i].topic in TopicsOf(init); }
      }
    }
  }

  /** The registry is coherent and its keys are exactly the topics of the
      configurations. */
  lemma {:induction false} RegistryOfKeys(cs: seq<DeviceConfig>)
    ensures Coherent(RegistryOf(cs))
    ensures RegistryOf(cs).entries.Keys == TopicsOf(cs)
  {
    if cs != [] {
      RegistryOfKeys(cs[..|cs| - 1]);
      TopicsOfSnoc(cs);
    }
  }

  /** Last write wins: an entry that no later entry shares a topic with is
      the one the registry holds under that topic. */
  lemma {:induction false} RegistryLastWriteWins(cs: seq<DeviceConfig>, i: nat)
    requires i < |cs|
    requires forall j :: i < j < |cs| ==> cs[j].topic != cs[i].topic
    ensures cs[i].topic in RegistryOf(cs).entries
    ensures RegistryOf(cs).entries[cs[i].topic] == cs[i]
  {
    if i < |cs| - 1 {
      var init := cs[..|cs| - 1];
      assert init[i] == cs[i];
      RegistryLastWriteWins(init, i);
    }
  }

  /** Inserting a new key adds one key and one place in the order; inserting
      an existing key adds neither. */
  lemma InsertSize(reg: Registry, c: DeviceConfig)
    ensures |Insert(reg, c).order| == |reg.order| + (if c.topic in reg.entries then 0 else 1)
    ensures |Insert(reg, c).entries| == |reg.entries| + (if c.topic in reg.entries then 0 else 1)
  {
    if c.topic in reg.entries {
      assert reg.entries[c.topic := c].Keys == reg.entries.Keys;
    } else {
      assert reg.entries[c.topic := c].Keys == reg.entries.Keys + {c.topic};
    }
  }

  /** The registry never has more keys than there were entries, and has as
      many exactly when no two entries share a topic. */
  lemma {:induction false} RegistrySize(cs: seq<DeviceConfig>)
    ensures |RegistryOf(cs).entries| == |RegistryOf(cs).order| <= |cs|
    ensures |RegistryOf(cs).entries| == |cs| <==> DistinctTopics(cs)
  {
    if cs != [] {
      var init := cs[..|cs| - 1];
      RegistrySize(init);
      RegistryOfKeys(init);
      TopicsOfSnoc(cs);
      InsertSize(RegistryOf(init), cs[|cs| - 1]);
    }
  }

  /** Every key of a registry built under a base topic extends that base
      topic's text followed by "/". */
  lemma KeysUnderBase(base: Value, devices: seq<map<string, Value>>)
    requires AllWellFormed(base, devices)
    ensures forall k :: k in RegistryOf(Configs(base, devices)).entries ==> Show(base) + "/" <= k
  {
    var cs := Configs(base, devices);
    RegistryOfKeys(cs);
    forall k | k in RegistryOf(cs).entries
      ensures Show(base) + "/" <= k
    {
      assert k in TopicsOf(cs);
      var i :| 0 <= i < |cs| && cs[i].topic == k;
      assert cs[i] == EntryOf(base, devices[i]).value;
    }
  }
}
