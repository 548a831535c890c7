/** The toy process engine of pkg/engine/process/definition.go: a map of
    process definitions and a map of started instances, the latter keyed by
    identifiers numbered from the instance count. */
module ProcessEngine {
  import Decimal

  /** A process definition as the engine keeps it: identifier and name only. */
  datatype ProcessDefinition = ProcessDefinition(id: string, name: string)

  /** A started instance and its status text. */
  datatype ProcessInstance = ProcessInstance(id: string, status: string)

  /** The status every instance is started with. */
  const Running: string := "running"

  const InstancePrefix: string := "instance-"

  /** The identifier of the `n`-th instance: "instance-" followed by `n` in decimal. */
  function InstanceId(n: nat): string {
    InstancePrefix + Decimal.Format(n)
  }

  /** Instance identifiers are never empty. */
  lemma InstanceIdNonEmpty(n: nat)
    ensures InstanceId(n) != ""
    ensures |InstanceId(n)| > |InstancePrefix|
  {
    Decimal.FormatWellFormed(n);
  }

  /** Different instance numbers give different identifiers. */
  lemma InstanceIdInjective(m: nat, n: nat)
    ensures InstanceId(m) == InstanceId(n) ==> m == n
  {
    if InstanceId(m) == InstanceId(n) {
      assert Decimal.Format(m) == InstanceId(m)[|InstancePrefix|..];
      assert Decimal.Format(n) == InstanceId(n)[|InstancePrefix|..];
      Decimal.FormatInjective(m, n);
    }
  }

  /** The identifiers of the first `n` instances: instance-1 to instance-n. */
  ghost function IssuedIds(n: nat): set<string>
    decreases n
  {
    if n == 0 then {} else IssuedIds(n - 1) + {InstanceId(n)}
  }

  /** IssuedIds(n) holds exactly the identifiers numbered 1 to n. */
  lemma {:induction false} IssuedIdsExactly(n: nat, id: string)
    ensures id in IssuedIds(n) <==> exists i :: 1 <= i <= n && id == InstanceId(i)
    decreases n
  {
    if n > 0 {
      IssuedIdsExactly(n - 1, id);
      if id == InstanceId(n) {
        assert 1 <= n <= n && id == InstanceId(n);
      }
    }
  }

  /** The next identifier is not among those issued so far. */
  lemma NextIdFresh(n: nat)
    ensures InstanceId(n + 1) !in IssuedIds(n)
  {
    IssuedIdsExactly(n, InstanceId(n + 1));
    forall i | 1 <= i <= n ensures InstanceId(n + 1) != InstanceId(i) {
      InstanceIdInjective(n + 1, i);
    }
  }

  class Engine {
    var definitions: map<string, ProcessDefinition>
    var instances: map<string, ProcessInstance>

    /** Instances are never removed, so with n of them their keys are
        instance-1 to instance-n; each is stored under its own identifier and
        running. */
    ghost predicate Valid()
      reads this
    {
      && instances.Keys == IssuedIds(|instances|)
      && forall id :: id in instances ==> instances[id] == ProcessInstance(id, Running)
    }

    /** NewEngine: no definitions and no instances. */
    constructor ()
      ensures Valid()
      ensures definitions == map[] && instances == map[]
    {
      definitions := map[];
      instances := map[];
    }

    /** Stores `{id, name}` under `id`, replacing any earlier definition. */
    method AddDefinition(id: string, name: string)
      requires Valid()
      modifies this
      ensures Valid()
      ensures definitions == old(definitions)[id := ProcessDefinition(id, name)]
      ensures instances == old(instances)
    {
      definitions := definitions[id := ProcessDefinition(id, name)];
    }

    /** Starts an instance; the definition identifier is not looked up. */
    method StartInstance(definitionId: string) returns (instanceId: string)
      requires Valid()
      modifies this
      ensures Valid()
      ensures instanceId == InstanceId(|old(instances)| + 1)
      ensures instanceId != "" && instanceId !in old(instances)
      ensures instances == old(instances)[instanceId := ProcessInstance(instanceId, Running)]
      ensures |instances| == |old(instances)| + 1
      ensures definitions == old(definitions)
    {
      var n := |instances|;
      instanceId := InstancePrefix + Decimal.Format(n + 1);
      NextIdFresh(n);
      InstanceIdNonEmpty(n + 1);
      instances := instances[instanceId := ProcessInstance(instanceId, Running)];
    }
  }
}
