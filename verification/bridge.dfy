/**
 * The bridge object (class midea2mqtt): configuration parsing, the appliance
 * registry, the MQTT callbacks and one pass of the poll loop.
 *
 * The paho client is replaced by two logs: every publish call appends a
 * Publication, every subscribe call appends its topic. Broker answers (the
 * connect result code, the subscribe result codes, the reason code of a
 * connect event) are parameters.
 */
module MqttBridge {
  import opened Values
  import opened Topics
  import opened Configuration
  import opened Appliances

  /** One call to mqtt_client.publish(topic, payload). */
  datatype Publication = Publication(topic: string, payload: Payload)

  /** One poll pass over the registry, given each appliance's topic and what
      its refresh() gives, in registry order. The whole loop sits in one try,
      so the first refresh that raises ends the pass: the appliances before
      it have published, it and every appliance after it have not. */
  function Poll(es: seq<(string, Result<Payload>)>): seq<Publication>
  {
    if es == [] then []
    else if es[0].1.Raised? then []
    else [Publication(es[0].0, es[0].1.value)] + Poll(es[1..])
  }

  /** What one pass publishes: the payloads of the appliances before the
      first failing one, each to its own topic, in registry order. */
  lemma {:induction false} PollPublishesPrefix(es: seq<(string, Result<Payload>)>)
    ensures |Poll(es)| <= |es|
    ensures forall j :: 0 <= j < |Poll(es)| ==> es[j].1.Ok? && Poll(es)[j] == Publication(es[j].0, es[j].1.value)
    ensures |Poll(es)| < |es| ==> es[|Poll(es)|].1.Raised?
  {
    if es != [] && es[0].1.Ok? {
      PollPublishesPrefix(es[1..]);
    }
  }

  /** An appliance placed after a failing one publishes nothing in that
      pass, however healthy it is. */
  lemma FailureSkipsLaterAppliances(es: seq<(string, Result<Payload>)>, bad: nat, healthy: nat)
    requires bad < healthy < |es|
    requires es[bad].1.Raised?
    ensures |Poll(es)| <= bad < healthy
    ensures forall j :: 0 <= j < |Poll(es)| ==> j < bad && Poll(es)[j].topic == es[j].0
  {
    PollPublishesPrefix(es);
  }

  /** A pass that reaches an appliance whose refresh succeeds publishes its
      payload and goes on with the next one: with done published so far,
      publishing it keeps done + the rest of the pass equal to the whole pass. */
  lemma PollExtend(before: seq<Publication>, done: seq<Publication>, es: seq<(string, Result<Payload>)>, i: nat)
    requires i < |es| && es[i].1.Ok?
    requires done + Poll(es[i..]) == before + Poll(es)
    ensures done + [Publication(es[i].0, es[i].1.value)] + Poll(es[i + 1..]) == before + Poll(es)
  {
    assert es[i..][1..] == es[i + 1..];
    var pub := Publication(es[i].0, es[i].1.value);
    assert done + [pub] + Poll(es[i + 1..]) == done + ([pub] + Poll(es[i + 1..]));
  }

  /** A pass that stops at index i, because the refresh there raised or the
      registry is exhausted, has published exactly the whole pass, which has
      i publications; it fell short of the registry exactly when it stopped
      at a failing refresh. */
  lemma PollEnd(before: seq<Publication>, done: seq<Publication>, es: seq<(string, Result<Payload>)>, i: nat)
    requires i <= |es| && (i < |es| ==> es[i].1.Raised?)
    requires |done| == |before| + i
    requires done + Poll(es[i..]) == before + Poll(es)
    ensures done == before + Poll(es)
    ensures |Poll(es)| == i
    ensures |Poll(es)| < |es| ==> es[|Poll(es)|].1.Raised?
  {
    assert Poll(es[i..]) == [];
    assert done + [] == done;
  }

  /** A message on the base topic's own "set" topic strips to the base topic,
      which is never a registry key: it is dropped. */
  lemma BaseSetTopicIsDropped(base: string, devices: seq<map<string, Value>>)
    requires AllWellFormed(Str(base), devices)
    ensures StripLastFour(base + "/set") == base
    ensures base !in RegistryOf(Configs(Str(base), devices)).entries
  {
    KeysUnderBase(Str(base), devices);
    var t := base + "/set";
    assert t[..|t| - 4] == base;
  }

  /** After a successful (re)connect the subscribed topics are exactly the
      base topic's "set" topic and each registry key's "set" topic, each
      once, whatever the configuration was. */
  lemma ReconnectSubscriptions(base: string, devices: seq<map<string, Value>>)
    requires AllWellFormed(Str(base), devices)
    ensures var reg := RegistryOf(Configs(Str(base), devices));
      && |SubscriptionTopics(base, reg.order)| == 1 + |reg.entries|
      && (forall t :: t in SubscriptionTopics(base, reg.order) <==>
            t == base + "/set" || exists k :: k in reg.entries && t == k + "/set")
      && (forall i, j :: 0 <= i < j < |SubscriptionTopics(base, reg.order)| ==>
            SubscriptionTopics(base, reg.order)[i] != SubscriptionTopics(base, reg.order)[j])
  {
    var reg := RegistryOf(Configs(Str(base), devices));
    RegistryOfKeys(Configs(Str(base), devices));
    RegistrySize(Configs(Str(base), devices));
    KeysUnderBase(Str(base), devices);
    SubscriptionSet(base, reg.order);
    SubscriptionsRouteToKeys(base, reg.order);
  }

  /** A well-formed prefix followed by a well-formed entry is well formed. */
  lemma WellFormedSnoc(base: Value, devices: seq<map<string, Value>>, i: nat)
    requires i < |devices|
    requires AllWellFormed(base, devices[..i])
    requires EntryOf(base, devices[i]).Ok?
    ensures AllWellFormed(base, devices[..i + 1])
  {
    var longer := devices[..i + 1];
    forall j | 0 <= j < |longer|
      ensures EntryOf(base, longer[j]).Ok?
    {
      if j < i {
        assert longer[j] == devices[..i][j];
      }
    }
  }

  /** Taking one more well-formed entry inserts its configuration. */
  lemma ConfigsSnoc(base: Value, devices: seq<map<string, Value>>, i: nat)
    requires i < |devices|
    requires AllWellFormed(base, devices[..i]) && AllWellFormed(base, devices[..i + 1])
    ensures RegistryOf(Configs(base, devices[..i + 1])) ==
      Insert(RegistryOf(Configs(base, devices[..i])), EntryOf(base, devices[i]).value)
  {
    var longer := devices[..i + 1];
    assert longer[..i] == devices[..i];
    var cs := Configs(base, longer);
    assert cs[..i] == Configs(base, devices[..i]);
  }

  /** The dict's keys in iteration order list each key once and exactly
      the keys of the dict, and every appliance is valid and stored under its
      own topic (so no appliance object is stored under two keys). */
  ghost predicate Keyed(order: seq<string>, m: map<string, Appliance>)
  {
    && (forall i, j :: 0 <= i < j < |order| ==> order[i] != order[j])
    && (forall k :: k in m <==> k in order)
    && (forall k :: k in m ==> m[k].Valid() && m[k].topic == k)
  }

  /** A dict with these keys in this order holds reg: the same keys in the
      same order, and under each key an appliance built from reg's
      configuration for it. */
  ghost predicate HoldsFor(order: seq<string>, m: map<string, Appliance>, reg: Registry)
  {
    && order == reg.order
    && (forall k :: k in m <==> k in reg.entries)
    && (forall k :: k in m ==> m[k].Config() == reg.entries[k])
  }

  /** Storing an appliance under its own topic keeps the dict keyed: a new
      key goes last, an existing key keeps its place. */
  lemma StoreKeepsKeyed(order: seq<string>, m: map<string, Appliance>, a: Appliance)
    requires Keyed(order, m) && a.Valid()
    ensures Keyed(if a.topic in m then order else order + [a.topic], m[a.topic := a])
  {
  }

  /** After storing an appliance the dict holds the registry with the
      appliance's configuration inserted. */
  lemma StoreInserts(order: seq<string>, m: map<string, Appliance>, reg: Registry, a: Appliance)
    requires HoldsFor(order, m, reg)
    ensures HoldsFor(if a.topic in m then order else order + [a.topic], m[a.topic := a], Insert(reg, a.Config()))
  {
  }

  /** The midea2mqtt object. */
  class Bridge {
    var online: bool
    var refreshDelay: int
    var mqttBroker: Value
    var mqttPort: Value
    var mqttUsername: Value
    var mqttPassword: Value
    var mqttClientid: Value
    var mqttBasetopic: Value
    /** self.appliances: its values ... */
    var appliances: map<string, Appliance>
    /** ... and its keys in the dict's iteration order */
    var order: seq<string>
    /** every publish call, in order */
    var published: seq<Publication>
    /** every subscribe call, in order */
    var subscriptions: seq<string>

    /** The registry is keyed and every appliance in it is valid. */
    ghost predicate Valid()
      reads this`appliances, this`order
    {
      Keyed(order, appliances)
    }

    /** The dict holds reg. */
    ghost predicate Holds(reg: Registry)
      reads this`appliances, this`order
    {
      HoldsFor(order, appliances, reg)
    }

    /** Every registered appliance is connected: it holds the handle built
        from its own credentials and the twelve-name attribute list. */
    ghost predicate AllConnected(connectTo: (Value, Value, Value) -> Driver)
      reads this`appliances, appliances.Values
    {
      forall k :: k in appliances ==> (appliances[k].attribs == Attribs
        && appliances[k].driver == Some(connectTo(appliances[k].address, appliances[k].token, appliances[k].key)))
    }

    /** No registered appliance has a driver handle yet. */
    ghost predicate NoneConnected()
      reads this`appliances, appliances.Values
    {
      forall k :: k in appliances ==> appliances[k].driver.None?
    }

    /** Each key with what refresh() on its appliance gives, in the given order. */
    ghost function Entries(keys: seq<string>): (es: seq<(string, Result<Payload>)>)
      reads this`appliances, appliances.Values
      requires forall k :: k in keys ==> k in appliances
      ensures |es| == |keys|
      ensures forall i :: 0 <= i < |keys| ==>
        es[i] == (keys[i], Snapshot(appliances[keys[i]].driver, appliances[keys[i]].attribs))
    {
      if keys == [] then []
      else
        var k := keys[|keys| - 1];
        Entries(keys[..|keys| - 1]) + [(k, Snapshot(appliances[k].driver, appliances[k].attribs))]
    }

    function Settings(): MqttSettings
      reads this
    {
      MqttSettings(mqttBroker, mqttPort, mqttUsername, mqttPassword, mqttClientid, mqttBasetopic)
    }

    /** The state __init__ sets before it reads the configuration. Settings
        not yet read hold None. */
    constructor ()
      ensures Valid()
      ensures !online && refreshDelay == 60
      ensures appliances == map[] && order == [] && published == [] && subscriptions == []
    {
      online := false;
      refreshDelay := 60;
      mqttBroker, mqttPort, mqttUsername, mqttPassword, mqttClientid, mqttBasetopic :=
        Null, Null, Null, Null, Null, Null;
      appliances := map[];
      order := [];
      published := [];
      subscriptions := [];
    }

    /** _parseConfigMqtt(config): records the broker in every case, and the
        other settings only when the section is accepted. */
    method ParseConfigMqtt(config: map<string, Value>) returns (valid: bool)
      modifies this`mqttBroker, this`mqttPort, this`mqttUsername, this`mqttPassword,
        this`mqttClientid, this`mqttBasetopic
      ensures valid == ParseMqtt(config).Some?
      ensures mqttBroker == BrokerOf(config)
      ensures valid ==> Settings() == ParseMqtt(config).value
      ensures !valid ==> old(Settings()).(broker := mqttBroker) == Settings()
    {
      valid := false;
      mqttBroker := if "broker" in config then config["broker"] else Str("");
      if mqttBroker.Str? && mqttBroker.s != "" {
        mqttPort := if "port" in config then config["port"] else DefaultPort;
        mqttUsername := if "username" in config then config["username"] else DefaultUsername;
        mqttPassword := if "password" in config then config["password"] else DefaultPassword;
        mqttClientid := if "clientid" in config then config["clientid"] else DefaultClientid;
        mqttBasetopic := if "basetopic" in config then config["basetopic"] else DefaultBasetopic;
        valid := true;
      }
    }

    /** _parseConfigAppliances(devices): a fresh dict, one new appliance per
        entry under basetopic + "/" + topic (a repeated key is overwritten),
        and True exactly when at least one entry was counted. A malformed
        entry raises KeyError and leaves the entries before it registered. */
    method ParseConfigAppliances(devices: seq<map<string, Value>>) returns (r: Result<bool>)
      modifies this`appliances, this`order
      ensures Valid()
      ensures forall k :: k in appliances ==> fresh(appliances[k]) && appliances[k].driver.None?
      ensures NoneConnected()
      ensures r.Ok? <==> AllWellFormed(mqttBasetopic, devices)
      ensures r.Ok? ==> r.value == (|devices| > 0)
      ensures r.Ok? ==> Holds(RegistryOf(Configs(mqttBasetopic, devices)))
      ensures r.Raised? ==> exists i :: (0 <= i < |devices| && EntryOf(mqttBasetopic, devices[i]) == Raised(r.error)
        && AllWellFormed(mqttBasetopic, devices[..i])
        && Holds(RegistryOf(Configs(mqttBasetopic, devices[..i]))))
    {
      var applianceCount := 0;
      appliances := map[];
      order := [];
      var i := 0;
      assert devices[..0] == [];
      while i < |devices|
        invariant 0 <= i <= |devices| && applianceCount == i
        invariant AllWellFormed(mqttBasetopic, devices[..i])
        invariant Valid()
        invariant forall k :: k in appliances ==> fresh(appliances[k]) && appliances[k].driver.None?
        invariant Holds(RegistryOf(Configs(mqttBasetopic, devices[..i])))
      {
        var entry := EntryOf(mqttBasetopic, devices[i]);
        if entry.Raised? {
          return Raised(entry.error);
        }
        var counted, _ := Register(entry.value, RegistryOf(Configs(mqttBasetopic, devices[..i])));
        applianceCount := applianceCount + if counted then 1 else 0;
        WellFormedSnoc(mqttBasetopic, devices, i);
        ConfigsSnoc(mqttBasetopic, devices, i);
        i := i + 1;
      }
      assert devices[..i] == devices;
      r := Ok(applianceCount > 0);
    }

    /** The body of the loop over the device list, for one well-formed entry:
        a new appliance is built and, being valid, stored under its topic (a
        new key goes last, an existing key keeps its place). */
    method Register(c: DeviceConfig, ghost reg: Registry) returns (counted: bool, newAppliance: Appliance)
      requires Valid() && Holds(reg)
      modifies this`appliances, this`order
      ensures Valid() && counted
      ensures Holds(Insert(reg, c))
      ensures fresh(newAppliance) && newAppliance.driver.None?
      ensures appliances == old(appliances)[c.topic := newAppliance]
    {
      newAppliance := new Appliance(c.topic, c.address, c.token, c.key);
      counted := newAppliance.valid;
      if counted {
        StoreKeepsKeyed(order, appliances, newAppliance);
        StoreInserts(order, appliances, reg, newAppliance);
        Store(newAppliance);
      }
    }

    /** self.appliances[a.topic] = a: a new key goes last, an existing key
        keeps its place. */
    method Store(a: Appliance)
      modifies this`appliances, this`order
      ensures appliances == old(appliances)[a.topic := a]
      ensures order == if a.topic in old(appliances) then old(order) else old(order) + [a.topic]
    {
      if a.topic !in appliances {
        order := order + [a.topic];
      }
      appliances := appliances[a.topic := a];
    }

    /** _connectMqtt(): only the outcome of the client's connect call is
        modelled; rc is its result code. */
    method ConnectMqtt(rc: int) returns (ok: bool)
      modifies this`online
      ensures online == (rc == 0) && ok == online
    {
      online := rc == 0;
      ok := online;
    }

    /** mqtt_client.publish(topic, payload) */
    method Publish(topic: string, payload: Payload)
      modifies this`published
      ensures published == old(published) + [Publication(topic, payload)]
    {
      published := published + [Publication(topic, payload)];
    }

    /** _connectAppliances(): connects every appliance in registry order, the
        handle of each being connectTo(address, token, key). connect()
        returns None, so the test of its result never holds: nothing is
        counted, nothing is published, and the answer is False. */
    method ConnectAppliances(connectTo: (Value, Value, Value) -> Driver) returns (ok: bool)
      requires Valid()
      modifies appliances.Values
      ensures Valid()
      ensures !ok
      ensures published == old(published)
      ensures AllConnected(connectTo)
    {
      var i := 0;
      while i < |order|
        invariant 0 <= i <= |order|
        invariant Valid()
        invariant forall j :: 0 <= j < i ==> (appliances[order[j]].attribs == Attribs
          && appliances[order[j]].driver == Some(connectTo(appliances[order[j]].address,
               appliances[order[j]].token, appliances[order[j]].key)))
      {
        var appliance := appliances[order[i]];
        appliance.Connect(connectTo(appliance.address, appliance.token, appliance.key));
        i := i + 1;
      }
      // connect() returns None, so the test of its result (line 94) never
      // holds: applianceOnlineCount stays 0 and the answer is 0 > 0.
      ok := false;
    }

    /** _subscribeToTopic((head, tail)): joins the parts with "/", subscribes,
        and answers whether the broker's result code was 0 (it is not 0 for
        the topics in refused). */
    method SubscribeToTopic(head: Value, tail: string, refused: set<string>) returns (r: Result<bool>)
      modifies this`subscriptions
      ensures JoinPair(head, tail).Raised? ==> r == Raised(JoinTypeError) && subscriptions == old(subscriptions)
      ensures JoinPair(head, tail).Ok? ==>
        subscriptions == old(subscriptions) + [JoinPair(head, tail).value]
        && r == Ok(JoinPair(head, tail).value !in refused)
    {
      var topic := JoinPair(head, tail);
      if topic.Raised? {
        return Raised(topic.error);
      }
      subscriptions := subscriptions + [topic.value];
      var valid := topic.value !in refused;
      r := Ok(valid);
    }

    /** _on_connect: nothing on a failure reason code; otherwise the base
        topic's "set" topic, then each registry key's "set" topic in registry
        order. Subscribe failures are only logged. A base topic that is not a
        string makes the first join raise before anything is subscribed. */
    method OnConnect(isFailure: bool, refused: set<string>) returns (r: Result<()>)
      modifies this`subscriptions
      ensures subscriptions == old(subscriptions) +
        (if isFailure || !mqttBasetopic.Str? then [] else SubscriptionTopics(mqttBasetopic.s, order))
      ensures r == if !isFailure && !mqttBasetopic.Str? then Raised(JoinTypeError) else Ok(())
    {
      if isFailure {
        return Ok(());
      }
      var first := SubscribeToTopic(mqttBasetopic, "set", refused);
      if first.Raised? {
        return Raised(first.error);
      }
      JoinSet(mqttBasetopic.s);
      ghost var prefix := subscriptions;
      var i := 0;
      assert prefix + SetTopics(order[..0]) == prefix;
      while i < |order|
        invariant 0 <= i <= |order|
        invariant subscriptions == prefix + SetTopics(order[..i])
      {
        JoinSet(order[i]);
        var _ := SubscribeToTopic(Str(order[i]), "set", refused);
        SetTopicsSnoc(order, i);
        assert prefix + SetTopics(order[..i]) + [order[i] + "/set"] == prefix + (SetTopics(order[..i]) + [order[i] + "/set"]);
        i := i + 1;
      }
      assert order[..i] == order;
      assert prefix + SetTopics(order) == old(subscriptions) + SubscriptionTopics(mqttBasetopic.s, order);
      r := Ok(());
    }

    /** _on_message: the topic without its last four characters names the
        appliance; an unknown one is dropped, otherwise the payload goes to
        parseSetMsg and, as that answers True, a fresh snapshot is published
        to the appliance's topic. What parseSetMsg or refresh raises escapes
        the callback, and nothing is published then. */
    method OnMessage(topic: string, payload: SetPayload) returns (r: Result<()>)
      requires Valid()
      modifies this`published, appliances.Values
      ensures Valid()
      ensures forall k :: k in appliances ==>
        appliances[k].attribs == old(appliances[k].attribs)
      ensures forall k :: k in appliances && k != StripLastFour(topic) ==> appliances[k].driver == old(appliances[k].driver)
      ensures StripLastFour(topic) !in appliances ==> r == Ok(()) && published == old(published)
      ensures StripLastFour(topic) in appliances ==>
        var t := StripLastFour(topic);
        var o := SetMsg(old(appliances[t].driver), payload);
        && appliances[t].driver == o.driver
        && (o.result.Raised? ==> r == Raised(o.result.error) && published == old(published))
        && (o.result.Ok? ==>
              match Snapshot(o.driver, appliances[t].attribs)
              case Ok(p) => r == Ok(()) && published == old(published) + [Publication(t, p)]
              case Raised(e) => r == Raised(e) && published == old(published))
    {
      var t := StripLastFour(topic);
      if t !in appliances {
        return Ok(());
      }
      var appliance := appliances[t];
      var handled := appliance.ParseSetMsg(payload);
      if handled.Raised? {
        return Raised(handled.error);
      }
      if handled.value {
        var snapshot := appliance.Refresh();
        if snapshot.Raised? {
          return Raised(snapshot.error);
        }
        Publish(t, snapshot.value);
      }
      r := Ok(());
    }

    /** One pass of the poll loop: refresh and publish each appliance in
        registry order; the first refresh that raises is caught (and logged),
        which ends the pass. */
    method PollOnce() returns (logged: Option<Error>)
      requires forall k :: k in order ==> k in appliances
      modifies this`published
      ensures published == old(published) + Poll(old(Entries(order)))
      ensures var es := old(Entries(order));
        && (logged.Some? <==> |Poll(es)| < |es|)
        && (logged.Some? ==> es[|Poll(es)|].1 == Raised(logged.value))
    {
      ghost var es := Entries(order);
      var i := 0;
      assert es[0..] == es;
      while i < |order|
        invariant 0 <= i <= |order|
        invariant |published| == |old(published)| + i
        invariant published + Poll(es[i..]) == old(published) + Poll(es)
      {
        var appliance := appliances[order[i]];
        var snapshot := appliance.Refresh();
        assert es[i] == (order[i], snapshot);
        if snapshot.Raised? {
          PollEnd(old(published), published, es, i);
          return Some(snapshot.error);
        }
        PollExtend(old(published), published, es, i);
        Publish(order[i], snapshot.value);
        i := i + 1;
      }
      PollEnd(old(published), published, es, i);
      logged := None;
    }

    /** Lines 32-35 of __init__: each step runs only when the one before
        succeeded. As _connectAppliances always answers False, the startup
        flag never ends True; a KeyError from the device list escapes. */
    method Startup(mqtt: map<string, Value>, devices: seq<map<string, Value>>, brokerRc: int,
                   connectTo: (Value, Value, Value) -> Driver) returns (r: Result<bool>)
      modifies this`mqttBroker, this`mqttPort, this`mqttUsername, this`mqttPassword,
        this`mqttClientid, this`mqttBasetopic, this`appliances, this`order, this`online
      ensures r != Ok(true)
      ensures refreshDelay == old(refreshDelay)
      ensures r.Raised? ==> ParseMqtt(mqtt).Some? && !AllWellFormed(mqttBasetopic, devices) && r.error.MissingKey?
      ensures online == if ParseMqtt(mqtt).Some? && AllWellFormed(mqttBasetopic, devices) && |devices| > 0
                        then brokerRc == 0 else old(online)
      ensures published == old(published) && subscriptions == old(subscriptions)
      ensures ParseMqtt(mqtt).None? ==>
        && Settings() == old(Settings()).(broker := BrokerOf(mqtt))
        && appliances == old(appliances) && order == old(order)
      ensures ParseMqtt(mqtt).Some? ==> Settings() == ParseMqtt(mqtt).value
      ensures ParseMqtt(mqtt).Some? ==> Valid()
      ensures ParseMqtt(mqtt).Some? ==> forall k :: k in appliances ==> fresh(appliances[k])
      ensures ParseMqtt(mqtt).Some? ==> (r.Ok? <==> AllWellFormed(mqttBasetopic, devices))
      ensures ParseMqtt(mqtt).Some? && AllWellFormed(mqttBasetopic, devices) ==>
        Holds(RegistryOf(Configs(mqttBasetopic, devices)))
      ensures ParseMqtt(mqtt).Some? ==>
        if AllWellFormed(mqttBasetopic, devices) && |devices| > 0 && brokerRc == 0
        then AllConnected(connectTo) else NoneConnected()
    {
      var valid := ParseConfigMqtt(mqtt);
      if !valid {
        return Ok(false);
      }
      var parsed := ParseConfigAppliances(devices);
      if parsed.Raised? {
        return Raised(parsed.error);
      }
      if !parsed.value {
        return Ok(false);
      }
      valid := ConnectMqtt(brokerRc);
      if !valid {
        return Ok(false);
      }
      valid := ConnectAppliances(connectTo);
      r := Ok(valid);
    }
  }
}
