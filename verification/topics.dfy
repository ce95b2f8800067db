/**
 * Topic arithmetic of the bridge: the suffix strip that routes an inbound
 * message, the "/".join that builds a subscription topic, and the list of
 * topics one (re)connect subscribes to.
 */
module Topics {
  import opened Values

  /** msg.topic[:-4]: the topic without its last four characters; Python's
      slice gives "" for a topic shorter than four characters. */
  function StripLastFour(t: string): (r: string)
    ensures |r| == if |t| >= 4 then |t| - 4 else 0
    ensures r <= t
  {
    if |t| >= 4 then t[..|t| - 4] else ""
  }

  /** "/".join((head, tail)): raises TypeError when head is not a string. */
  function JoinPair(head: Value, tail: string): (r: Result<string>)
    ensures r.Ok? <==> head.Str?
    ensures r.Raised? ==> r.error == JoinTypeError
  {
    if head.Str? then Ok(head.s + "/" + tail) else Raised(JoinTypeError)
  }

  /** Joining a string with "set" gives its "set" topic. */
  lemma JoinSet(k: string)
    ensures JoinPair(Str(k), "set") == Ok(k + "/set")
  {
    assert k + "/" + "set" == k + "/set";
  }

  /** Joining a registry key with "set" and stripping the last four
      characters gives the key back: a subscription topic routes to its key. */
  lemma SetTopicRoutesBack(k: string)
    ensures JoinPair(Str(k), "set").Ok?
    ensures StripLastFour(JoinPair(Str(k), "set").value) == k
  {
    var t := JoinPair(Str(k), "set").value;
    assert t == k + "/set";
    assert t[..|t| - 4] == k;
  }

  /** The topics "k/set", one per key, in the order of the keys. */
  function SetTopics(keys: seq<string>): (ts: seq<string>)
    ensures |ts| == |keys|
    ensures forall i :: 0 <= i < |keys| ==> ts[i] == keys[i] + "/set"
  {
    if keys == [] then []
    else SetTopics(keys[..|keys| - 1]) + [keys[|keys| - 1] + "/set"]
  }

  lemma SetTopicsSnoc(keys: seq<string>, i: nat)
    requires i < |keys|
    ensures SetTopics(keys[..i + 1]) == SetTopics(keys[..i]) + [keys[i] + "/set"]
  {
    assert keys[..i + 1][..i] == keys[..i];
  }

  /** The topics one successful (re)connect subscribes to, in call order:
      the base topic's "set" topic, then one per registry key. */
  function SubscriptionTopics(base: string, keys: seq<string>): seq<string>
  {
    [base + "/set"] + SetTopics(keys)
  }

  /** One subscription per registry key plus one for the base topic; every
      subscription but the first routes back to its own key, and the first
      (the base topic's) routes to no key when every key extends base + "/". */
  lemma {:induction false} SubscriptionsRouteToKeys(base: string, keys: seq<string>)
    requires forall k :: k in keys ==> base + "/" <= k
    ensures |SubscriptionTopics(base, keys)| == 1 + |keys|
    ensures SubscriptionTopics(base, keys)[0] == base + "/set"
    ensures StripLastFour(SubscriptionTopics(base, keys)[0]) !in keys
    ensures forall i :: 0 <= i < |keys| ==> StripLastFour(SubscriptionTopics(base, keys)[i + 1]) == keys[i]
  {
    var ts := SubscriptionTopics(base, keys);
    assert StripLastFour(ts[0]) == base by {
      assert ts[0] == base + "/set";
      assert ts[0][..|ts[0]| - 4] == base;
    }
    forall i | 0 <= i < |keys|
      ensures StripLastFour(ts[i + 1]) == keys[i]
    {
      SetTopicRoutesBack(keys[i]);
      assert ts[i + 1] == keys[i] + "/set";
    }
  }

  /** The set of subscribed topics is exactly {base/set} together with
      {k/set | k a registry key}, and no topic is subscribed twice when the
      keys are distinct and all extend base + "/". */
  lemma {:induction false} SubscriptionSet(base: string, keys: seq<string>)
    requires forall k :: k in keys ==> base + "/" <= k
    requires forall i, j :: 0 <= i < j < |keys| ==> keys[i] != keys[j]
    ensures forall t :: t in SubscriptionTopics(base, keys) <==> t == base + "/set" || exists k :: k in keys && t == k + "/set"
    ensures forall i, j :: 0 <= i < j < |SubscriptionTopics(base, keys)| ==>
      SubscriptionTopics(base, keys)[i] != SubscriptionTopics(base, keys)[j]
  {
    var ts := SubscriptionTopics(base, keys);
    forall t | t in ts
      ensures t == base + "/set" || exists k :: k in keys && t == k + "/set"
    {
      var i :| 0 <= i < |ts| && ts[i] == t;
      if i > 0 {
        assert t == keys[i - 1] + "/set";
      }
    }
    forall t | t == base + "/set" || exists k :: k in keys && t == k + "/set"
      ensures t in ts
    {
      if t != base + "/set" {
        var k :| k in keys && t == k + "/set";
        var i :| 0 <= i < |keys| && keys[i] == k;
        assert ts[i + 1] == t;
      }
    }
    forall i, j | 0 <= i < j < |ts|
      ensures ts[i] != ts[j]
    {
      assert keys[j - 1] in keys;
      if i == 0 {
        assert |ts[j]| > |ts[0]|;
      } else {
        assert ts[i] == keys[i - 1] + "/set" && ts[j] == keys[j - 1] + "/set";
        SetTopicRoutesBack(keys[i - 1]);
        SetTopicRoutesBack(keys[j - 1]);
        assert keys[i - 1] != keys[j - 1];
        assert StripLastFour(ts[i]) != StripLastFour(ts[j]);
      }
    }
  }
}
