/** The in-memory repository catalog of repository_service.go: deployments,
    process definitions and model drafts, each kept in a map keyed by its
    identifier, and the lookups, bulk updates and cascades over them. */
module Repository {
  import opened ProcessDefinitions
  import Utf8
  import Ids

  /** A wall-clock reading, as time.Now() returns it; the caller supplies it. */
  type Time = int

  /** A named package of resources; `resources` are resource names. */
  datatype Deployment = Deployment(id: string, name: string, resources: seq<string>, createdAt: Time)

  /** A design-time draft; `editor` is the opaque payload of the process editor. */
  datatype Model = Model(
    id: string,
    name: string,
    key: string,
    category: string,
    version: int,
    metaInfo: string,
    editor: seq<Utf8.byte>)

  /** The error values the service returns, one per distinct message. */
  datatype Error = DeploymentNotFound | ProcessDefinitionNotFound | ResourceNotFound | ModelNotFound
  {
    function Message(): string {
      match this
      case DeploymentNotFound => "deployment not found"
      case ProcessDefinitionNotFound => "process definition not found"
      case ResourceNotFound => "resource not found"
      case ModelNotFound => "model not found"
    }
  }

  /** A value or an error, for the operations that return `(T, error)`. */
  datatype Result<T> = Ok(value: T) | Err(error: Error)

  /** Success or an error, for the operations that return only `error`. */
  datatype Outcome = Pass | Fail(error: Error)

  // ---------------------------------------------------------------------
  // Invariants of the three maps in every state the service can reach

  /** Every deployment is stored under its own identifier, and its resource
      list is empty: it starts empty and no operation adds to it. */
  ghost predicate DeploymentsValid(deps: map<string, Deployment>) {
    forall id :: id in deps ==> deps[id].id == id && deps[id].resources == []
  }

  /** Every definition is stored under its own identifier and has version 1,
      the only version the save operation assigns. */
  ghost predicate DefinitionsValid(defs: map<string, ProcessDefinition>) {
    forall id :: id in defs ==> defs[id].id == id && defs[id].version == 1
  }

  /** Every model is stored under its own identifier. */
  ghost predicate ModelsValid(models: map<string, Model>) {
    forall id :: id in models ==> models[id].id == id
  }

  /** Every identifier a state refers to has been issued: the keys of the three
      maps and the deployment identifiers that definitions point at. */
  ghost predicate IdsIssued(issued: set<string>, deps: map<string, Deployment>,
                            defs: map<string, ProcessDefinition>, models: map<string, Model>) {
    && deps.Keys <= issued && defs.Keys <= issued && models.Keys <= issued
    && forall id :: id in defs ==> defs[id].deploymentId in issued
  }

  /** No identifier occurs twice. */
  ghost predicate Distinct(ids: seq<string>) {
    forall i, j :: 0 <= i < j < |ids| ==> ids[i] != ids[j]
  }

  /** A sequence without repetitions has as many elements as the set of them. */
  lemma {:induction false} DistinctCardinality(ids: seq<string>)
    requires Distinct(ids)
    ensures |set id | id in ids| == |ids|
    decreases |ids|
  {
    if ids != [] {
      var rest := ids[1..];
      assert Distinct(rest) by {
        forall i, j | 0 <= i < j < |rest| ensures rest[i] != rest[j] {
          assert rest[i] == ids[i + 1] && rest[j] == ids[j + 1];
        }
      }
      DistinctCardinality(rest);
      assert (set id | id in ids) == (set id | id in rest) + {ids[0]};
      assert ids[0] !in rest by {
        forall j | 0 <= j < |rest| ensures rest[j] != ids[0] {
          assert rest[j] == ids[j + 1];
        }
      }
    }
  }

  // ---------------------------------------------------------------------
  // Specification functions for the process-definition map

  /** The identifiers of the definitions with key `key`. */
  function IdsWithKey(defs: map<string, ProcessDefinition>, key: string): set<string> {
    set id | id in defs && defs[id].key == key
  }

  /** The definitions with key `key`. */
  function DefinitionsWithKey(defs: map<string, ProcessDefinition>, key: string): set<ProcessDefinition> {
    set id | id in defs && defs[id].key == key :: defs[id]
  }

  /** The identifiers of the definitions that point at deployment `depId`. */
  function IdsOfDeployment(defs: map<string, ProcessDefinition>, depId: string): set<string> {
    set id | id in defs && defs[id].deploymentId == depId
  }

  /** The definitions left after a cascade delete of deployment `depId`. */
  function WithoutDeployment(defs: map<string, ProcessDefinition>, depId: string): map<string, ProcessDefinition> {
    map id | id in defs && defs[id].deploymentId != depId :: defs[id]
  }

  /** `defs` with the suspended flag of entry `id` set to `flag`, if it exists. */
  function WithSuspended(defs: map<string, ProcessDefinition>, id: string, flag: bool): map<string, ProcessDefinition> {
    if id in defs then defs[id := defs[id].(suspended := flag)] else defs
  }

  /** `defs` with the suspended flag of every entry with key `key` set to `flag`. */
  function WithSuspendedByKey(defs: map<string, ProcessDefinition>, key: string, flag: bool): map<string, ProcessDefinition> {
    map id | id in defs :: if defs[id].key == key then defs[id].(suspended := flag) else defs[id]
  }

  /** `defs` with the category of entry `id` set to `category`, if it exists. */
  function WithCategory(defs: map<string, ProcessDefinition>, id: string, category: string): map<string, ProcessDefinition> {
    if id in defs then defs[id := defs[id].(category := category)] else defs
  }

  // ---------------------------------------------------------------------
  // Specification functions for deployments and models

  /** The text the placeholder resource content starts with. */
  const MockResourcePrefix: string := "mock resource: "

  /** The placeholder bytes returned for resource `name`. */
  function MockResource(name: string): seq<Utf8.byte> {
    Utf8.Encode(MockResourcePrefix + name)
  }

  /** What looking up resource `name` of deployment `depId` yields. */
  function ResourceLookup(deps: map<string, Deployment>, depId: string, name: string): Result<seq<Utf8.byte>> {
    if depId !in deps then Err(DeploymentNotFound)
    else if name in deps[depId].resources then Ok(MockResource(name))
    else Err(ResourceNotFound)
  }

  /** `models` with the editor payload of entry `id` set to `bytes`, if it exists. */
  function WithEditor(models: map<string, Model>, id: string, bytes: seq<Utf8.byte>): map<string, Model> {
    if id in models then models[id := models[id].(editor := bytes)] else models
  }

  // ---------------------------------------------------------------------
  // Properties of the specification functions

  /** A cascade keeps exactly the definitions of other deployments, unchanged,
      so none of the remaining ones points at the deleted deployment. */
  lemma CascadeRemovesExactly(defs: map<string, ProcessDefinition>, depId: string)
    ensures forall id :: id in WithoutDeployment(defs, depId) <==> id in defs && id !in IdsOfDeployment(defs, depId)
    ensures forall id :: id in WithoutDeployment(defs, depId) ==> WithoutDeployment(defs, depId)[id] == defs[id]
    ensures IdsOfDeployment(WithoutDeployment(defs, depId), depId) == {}
  {
  }

  /** A cascade removes as many definitions as point at the deployment. */
  lemma CascadeSize(defs: map<string, ProcessDefinition>, depId: string)
    ensures |WithoutDeployment(defs, depId)| + |IdsOfDeployment(defs, depId)| == |defs|
  {
    var kept := WithoutDeployment(defs, depId).Keys;
    var gone := IdsOfDeployment(defs, depId);
    assert kept + gone == defs.Keys;
    assert kept * gone == {};
    assert |kept + gone| == |kept| + |gone|;
  }

  /** The by-key bulk update sets the flag of every definition with that key and
      changes nothing else: no other entry, no other field, no key. */
  lemma SuspendByKeyEffect(defs: map<string, ProcessDefinition>, key: string, flag: bool)
    ensures WithSuspendedByKey(defs, key, flag).Keys == defs.Keys
    ensures forall id :: id in defs && defs[id].key == key ==> WithSuspendedByKey(defs, key, flag)[id].suspended == flag
    ensures forall id :: id in defs && defs[id].key != key ==> WithSuspendedByKey(defs, key, flag)[id] == defs[id]
    ensures forall id :: id in defs ==>
      WithSuspendedByKey(defs, key, flag)[id].(suspended := defs[id].suspended) == defs[id]
  {
  }

  /** With no definition of that key, the bulk update changes nothing. */
  lemma SuspendByKeyNoMatch(defs: map<string, ProcessDefinition>, key: string, flag: bool)
    requires IdsWithKey(defs, key) == {}
    ensures WithSuspendedByKey(defs, key, flag) == defs
  {
    var r := WithSuspendedByKey(defs, key, flag);
    forall id | id in defs ensures r[id] == defs[id] {
      assert id !in IdsWithKey(defs, key);
    }
  }

  /** The bulk update keeps the key grouping, so a second call finds the same
      definitions and succeeds again; the second flag overrides the first, so
      repeating one call leaves the same state. */
  lemma SuspendByKeyTwice(defs: map<string, ProcessDefinition>, key: string, first: bool, second: bool)
    ensures IdsWithKey(WithSuspendedByKey(defs, key, first), key) == IdsWithKey(defs, key)
    ensures WithSuspendedByKey(WithSuspendedByKey(defs, key, first), key, second) == WithSuspendedByKey(defs, key, second)
  {
    var once := WithSuspendedByKey(defs, key, first);
    assert forall id :: id in defs ==> once[id].key == defs[id].key;
  }

  /** The by-identifier flag update touches only the suspended field of only the
      named entry, and repeating it changes nothing more. */
  lemma SuspendByIdEffect(defs: map<string, ProcessDefinition>, id: string, flag: bool)
    ensures WithSuspended(defs, id, flag).Keys == defs.Keys
    ensures id in defs ==> WithSuspended(defs, id, flag)[id] == defs[id].(suspended := flag)
    ensures forall other :: other in defs && other != id ==> WithSuspended(defs, id, flag)[other] == defs[other]
    ensures WithSuspended(WithSuspended(defs, id, flag), id, flag) == WithSuspended(defs, id, flag)
  {
  }

  /** Setting the category touches only the category of only the named entry,
      and repeating it changes nothing more. */
  lemma CategoryEffect(defs: map<string, ProcessDefinition>, id: string, category: string)
    ensures WithCategory(defs, id, category).Keys == defs.Keys
    ensures id in defs ==> WithCategory(defs, id, category)[id] == defs[id].(category := category)
    ensures forall other :: other in defs && other != id ==> WithCategory(defs, id, category)[other] == defs[other]
    ensures WithCategory(WithCategory(defs, id, category), id, category) == WithCategory(defs, id, category)
  {
  }

  /** Saving a fresh definition adds it to its own key group and leaves every
      other key group as it was. */
  lemma SaveJoinsKeyGroup(defs: map<string, ProcessDefinition>, d: ProcessDefinition, key: string)
    requires d.id !in defs
    ensures IdsWithKey(defs[d.id := d], key) == if d.key == key then IdsWithKey(defs, key) + {d.id} else IdsWithKey(defs, key)
    ensures DefinitionsWithKey(defs[d.id := d], key) ==
      if d.key == key then DefinitionsWithKey(defs, key) + {d} else DefinitionsWithKey(defs, key)
  {
    var defs' := defs[d.id := d];
    assert forall id :: id in defs ==> defs'[id] == defs[id];
    if d.key == key {
      assert d == defs'[d.id];
    }
  }

  /** The placeholder content is the bytes of "mock resource: " (one byte per
      character, each its ASCII code) followed by the bytes of the name. */
  lemma MockResourceLayout(name: string)
    ensures |MockResource(name)| == |MockResourcePrefix| + |Utf8.Encode(name)|
    ensures forall i :: 0 <= i < |MockResourcePrefix| ==> MockResource(name)[i] as int == MockResourcePrefix[i] as int
    ensures MockResource(name)[|MockResourcePrefix|..] == Utf8.Encode(name)
  {
    var prefix := MockResourcePrefix;
    assert Utf8.IsAscii(prefix) by {
      forall i | 0 <= i < |prefix| ensures prefix[i] as int < 0x80 {
        assert prefix[i] in "mock resource: ";
      }
    }
    Utf8.EncodeAsciiPrefix(prefix, name);
  }

  /** Resource names start empty and nothing adds one, so in every reachable
      state a lookup in an existing deployment finds no resource. */
  lemma NoResourceEverFound(deps: map<string, Deployment>, depId: string, name: string)
    requires DeploymentsValid(deps)
    ensures ResourceLookup(deps, depId, name) == if depId in deps then Err(ResourceNotFound) else Err(DeploymentNotFound)
  {
  }

  /** Setting the editor payload changes only that payload of only that model,
      and reading it back gives what was set. */
  lemma EditorEffect(models: map<string, Model>, id: string, bytes: seq<Utf8.byte>)
    ensures WithEditor(models, id, bytes).Keys == models.Keys
    ensures id in models ==> WithEditor(models, id, bytes)[id].editor == bytes
    ensures id in models ==> WithEditor(models, id, bytes)[id].(editor := models[id].editor) == models[id]
    ensures forall other :: other in models && other != id ==> WithEditor(models, id, bytes)[other] == models[other]
  {
  }

  // ---------------------------------------------------------------------
  // Map enumeration

  /** Every value of `m` once per key, in some order, as a `range` loop over a
      Go map collects them: `keys[i]` is the key whose value is `r[i]`. */
  method ListValues<V(==)>(m: map<string, V>) returns (r: seq<V>, ghost keys: seq<string>)
    ensures |r| == |m| && |keys| == |r|
    ensures Distinct(keys)
    ensures forall k :: k in keys <==> k in m
    ensures forall i :: 0 <= i < |r| ==> keys[i] in m && r[i] == m[keys[i]]
    ensures forall v :: v in r <==> v in m.Values
  {
    r, keys := [], [];
    var pending := m.Keys;
    while pending != {}
      invariant pending <= m.Keys
      invariant |keys| == |r|
      invariant Distinct(keys)
      invariant forall k :: k in keys <==> k in m && k !in pending
      invariant forall i :: 0 <= i < |r| ==> keys[i] in m && r[i] == m[keys[i]]
      decreases pending
    {
      var k :| k in pending;
      assert k !in keys;
      r, keys := r + [m[k]], keys + [k];
      pending := pending - {k};
    }
    assert (set k | k in keys) == m.Keys;
    DistinctCardinality(keys);
    forall v | v in m.Values ensures v in r {
      var k :| k in m && m[k] == v;
      var i :| 0 <= i < |keys| && keys[i] == k;
      assert r[i] == v;
    }
  }

  // ---------------------------------------------------------------------
  // The service

  class RepositoryService {
    var deployments: map<string, Deployment>
    var processDefs: map<string, ProcessDefinition>
    var models: map<string, Model>
    /** What the UUID generator has to avoid: every identifier it has handed out
        and every identifier a caller has supplied (a saved model's own
        identifier, the deployment identifier of a saved definition). uuid.New()
        returns none of them, so no identifier is ever handed out twice. */
    var issued: set<string>

    ghost predicate Valid()
      reads this
    {
      && DeploymentsValid(deployments) && DefinitionsValid(processDefs) && ModelsValid(models)
      && IdsIssued(issued, deployments, processDefs, models)
    }

    /** NewRepositoryService: three empty maps. */
    constructor ()
      ensures Valid()
      ensures deployments == map[] && processDefs == map[] && models == map[]
      ensures issued == {}
    {
      deployments := map[];
      processDefs := map[];
      models := map[];
      issued := {};
    }

    // ----- deployments

    method CreateDeployment(name: string, now: Time) returns (d: Deployment)
      requires Valid()
      modifies this
      ensures Valid()
      ensures d.id !in old(issued) && d.id !in old(deployments)
      ensures d.name == name && d.resources == [] && d.createdAt == now
      ensures deployments == old(deployments)[d.id := d]
      ensures processDefs == old(processDefs) && models == old(models)
      ensures issued == old(issued) + {d.id}
    {
      var id := Ids.FreshId(issued);
      d := Deployment(id, name, [], now);
      deployments := deployments[id := d];
      issued := issued + {id};
    }

    method GetDeployment(deploymentId: string) returns (r: Result<Deployment>)
      ensures r.Ok? <==> deploymentId in deployments
      ensures r.Ok? ==> r.value == deployments[deploymentId]
      ensures r.Err? ==> r.error == DeploymentNotFound
    {
      if deploymentId in deployments {
        return Ok(deployments[deploymentId]);
      }
      return Err(DeploymentNotFound);
    }

    method DeleteDeployment(deploymentId: string, cascade: bool) returns (r: Outcome)
      requires Valid()
      modifies this
      ensures Valid()
      ensures r == if deploymentId in old(deployments) then Pass else Fail(DeploymentNotFound)
      ensures deployments == old(deployments) - {deploymentId}
      ensures processDefs == if r.Pass? && cascade then WithoutDeployment(old(processDefs), deploymentId)
                             else old(processDefs)
      ensures models == old(models)
      ensures issued == old(issued)
    {
      if deploymentId !in deployments {
        return Fail(DeploymentNotFound);
      }
      deployments := deployments - {deploymentId};
      if cascade {
        ghost var defs0 := processDefs;
        var pending := processDefs.Keys;
        while pending != {}
          invariant pending <= defs0.Keys
          invariant processDefs.Keys <= defs0.Keys
          invariant forall id :: id in defs0 ==>
            (id in processDefs <==> id in pending || defs0[id].deploymentId != deploymentId)
          invariant forall id :: id in processDefs ==> processDefs[id] == defs0[id]
          invariant deployments == old(deployments) - {deploymentId} && models == old(models)
          invariant issued == old(issued)
          decreases pending
        {
          var id :| id in pending;
          if processDefs[id].deploymentId == deploymentId {
            processDefs := processDefs - {id};
          }
          pending := pending - {id};
        }
        assert processDefs == WithoutDeployment(defs0, deploymentId);
      }
      r := Pass;
    }

    /** Every deployment once, in no particular order: `ids[i]` is the key of `r[i]`. */
    method ListDeployments() returns (r: seq<Deployment>, ghost ids: seq<string>)
      ensures |r| == |deployments| && |ids| == |r|
      ensures Distinct(ids)
      ensures forall id :: id in ids <==> id in deployments
      ensures forall i :: 0 <= i < |r| ==> ids[i] in deployments && r[i] == deployments[ids[i]]
      ensures forall d :: d in r <==> d in deployments.Values
    {
      r, ids := ListValues(deployments);
    }

    method GetDeploymentResourceNames(deploymentId: string) returns (r: Result<seq<string>>)
      ensures r.Ok? <==> deploymentId in deployments
      ensures r.Ok? ==> r.value == deployments[deploymentId].resources
      ensures r.Err? ==> r.error == DeploymentNotFound
    {
      if deploymentId in deployments {
        return Ok(deployments[deploymentId].resources);
      }
      return Err(DeploymentNotFound);
    }

    method GetResourceAsBytes(deploymentId: string, resourceName: string) returns (r: Result<seq<Utf8.byte>>)
      ensures r == ResourceLookup(deployments, deploymentId, resourceName)
    {
      if deploymentId in deployments {
        var resources := deployments[deploymentId].resources;
        for i := 0 to |resources|
          invariant resourceName !in resources[..i]
        {
          if resources[i] == resourceName {
            return Ok(Utf8.Encode(MockResourcePrefix + resources[i]));
          }
        }
        assert resources[..|resources|] == resources;
        return Err(ResourceNotFound);
      }
      return Err(DeploymentNotFound);
    }

    // ----- process definitions

    method SaveProcessDefinition(key: string, name: string, depId: string) returns (d: ProcessDefinition)
      requires Valid()
      modifies this
      ensures Valid()
      ensures d.id !in old(issued) && d.id !in old(processDefs)
      ensures d.key == key && d.name == name && d.deploymentId == depId
      ensures d.version == 1 && d.category == "" && !d.suspended
      ensures processDefs == old(processDefs)[d.id := d]
      ensures deployments == old(deployments) && models == old(models)
      ensures issued == old(issued) + {d.id, depId}
    {
      var id := Ids.FreshId(issued);
      d := ProcessDefinition(id, key, name, 1, "", depId, false);
      processDefs := processDefs[id := d];
      issued := issued + {id, depId};
    }

    method GetProcessDefinition(id: string) returns (r: Result<ProcessDefinition>)
      ensures r.Ok? <==> id in processDefs
      ensures r.Ok? ==> r.value == processDefs[id]
      ensures r.Err? ==> r.error == ProcessDefinitionNotFound
    {
      if id in processDefs {
        return Ok(processDefs[id]);
      }
      return Err(ProcessDefinitionNotFound);
    }

    /** Every stored definition with key `key`, once each, in no particular
        order; empty when none has it. `ids[i]` is the key of `r[i]`. */
    method GetProcessDefinitionsByKey(key: string) returns (r: seq<ProcessDefinition>, ghost ids: seq<string>)
      ensures |r| == |IdsWithKey(processDefs, key)| && |ids| == |r|
      ensures Distinct(ids)
      ensures forall id :: id in ids <==> id in IdsWithKey(processDefs, key)
      ensures forall i :: 0 <= i < |r| ==> ids[i] in processDefs && r[i] == processDefs[ids[i]]
      ensures forall d :: d in r <==> d in DefinitionsWithKey(processDefs, key)
    {
      r, ids := [], [];
      var pending := processDefs.Keys;
      while pending != {}
        invariant pending <= processDefs.Keys
        invariant |ids| == |r|
        invariant Distinct(ids)
        invariant forall id :: id in ids <==> id in IdsWithKey(processDefs, key) && id !in pending
        invariant forall i :: 0 <= i < |r| ==> ids[i] in processDefs && r[i] == processDefs[ids[i]]
        invariant forall i :: 0 <= i < |r| ==> processDefs[ids[i]].key == key
        decreases pending
      {
        var id :| id in pending;
        if processDefs[id].key == key {
          assert id !in ids;
          r, ids := r + [processDefs[id]], ids + [id];
        }
        pending := pending - {id};
      }
      assert (set id | id in ids) == IdsWithKey(processDefs, key);
      DistinctCardinality(ids);
      forall d | d in DefinitionsWithKey(processDefs, key) ensures d in r {
        var id :| id in processDefs && processDefs[id].key == key && processDefs[id] == d;
        assert id in IdsWithKey(processDefs, key);
        var i :| 0 <= i < |ids| && ids[i] == id;
        assert r[i] == d;
      }
    }

    method SuspendProcessDefinitionById(id: string) returns (r: Outcome)
      requires Valid()
      modifies this
      ensures Valid()
      ensures r == if id in old(processDefs) then Pass else Fail(ProcessDefinitionNotFound)
      ensures processDefs == WithSuspended(old(processDefs), id, true)
      ensures deployments == old(deployments) && models == old(models)
      ensures issued == old(issued)
    {
      if id in processDefs {
        processDefs := processDefs[id := processDefs[id].(suspended := true)];
        return Pass;
      }
      return Fail(ProcessDefinitionNotFound);
    }

    method ActivateProcessDefinitionById(id: string) returns (r: Outcome)
      requires Valid()
      modifies this
      ensures Valid()
      ensures r == if id in old(processDefs) then Pass else Fail(ProcessDefinitionNotFound)
      ensures processDefs == WithSuspended(old(processDefs), id, false)
      ensures deployments == old(deployments) && models == old(models)
      ensures issued == old(issued)
    {
      if id in processDefs {
        processDefs := processDefs[id := processDefs[id].(suspended := false)];
        return Pass;
      }
      return Fail(ProcessDefinitionNotFound);
    }

    /** The loop shared by the two by-key operations: set the suspended flag of
        every definition with key `key` and report whether there was one. */
    method SetSuspendedByKey(key: string, flag: bool) returns (found: bool)
      requires Valid()
      modifies this
      ensures Valid()
      ensures found <==> IdsWithKey(old(processDefs), key) != {}
      ensures processDefs == WithSuspendedByKey(old(processDefs), key, flag)
      ensures deployments == old(deployments) && models == old(models)
      ensures issued == old(issued)
    {
      found := false;
      ghost var defs0 := processDefs;
      var pending := processDefs.Keys;
      while pending != {}
        invariant pending <= defs0.Keys
        invariant processDefs.Keys == defs0.Keys
        invariant forall id :: id in defs0 ==>
          processDefs[id] == if id !in pending && defs0[id].key == key then defs0[id].(suspended := flag) else defs0[id]
        invariant found <==> IdsWithKey(defs0, key) - pending != {}
        invariant deployments == old(deployments) && models == old(models) && issued == old(issued)
        invariant Valid()
        decreases pending
      {
        var id :| id in pending;
        if processDefs[id].key == key {
          processDefs := processDefs[id := processDefs[id].(suspended := flag)];
          found := true;
          assert id in IdsWithKey(defs0, key) - (pending - {id});
        } else {
          assert IdsWithKey(defs0, key) - (pending - {id}) == IdsWithKey(defs0, key) - pending;
        }
        pending := pending - {id};
      }
      assert IdsWithKey(defs0, key) - pending == IdsWithKey(defs0, key);
      assert processDefs == WithSuspendedByKey(defs0, key, flag);
    }

    method SuspendProcessDefinitionByKey(key: string) returns (r: Outcome)
      requires Valid()
      modifies this
      ensures Valid()
      ensures r == if IdsWithKey(old(processDefs), key) != {} then Pass else Fail(ProcessDefinitionNotFound)
      ensures processDefs == WithSuspendedByKey(old(processDefs), key, true)
      ensures deployments == old(deployments) && models == old(models)
      ensures issued == old(issued)
    {
      var found := SetSuspendedByKey(key, true);
      if !found {
        return Fail(ProcessDefinitionNotFound);
      }
      return Pass;
    }

    method ActivateProcessDefinitionByKey(key: string) returns (r: Outcome)
      requires Valid()
      modifies this
      ensures Valid()
      ensures r == if IdsWithKey(old(processDefs), key) != {} then Pass else Fail(ProcessDefinitionNotFound)
      ensures processDefs == WithSuspendedByKey(old(processDefs), key, false)
      ensures deployments == old(deployments) && models == old(models)
      ensures issued == old(issued)
    {
      var found := SetSuspendedByKey(key, false);
      if !found {
        return Fail(ProcessDefinitionNotFound);
      }
      return Pass;
    }

    method SetProcessDefinitionCategory(id: string, category: string) returns (r: Outcome)
      requires Valid()
      modifies this
      ensures Valid()
      ensures r == if id in old(processDefs) then Pass else Fail(ProcessDefinitionNotFound)
      ensures processDefs == WithCategory(old(processDefs), id, category)
      ensures deployments == old(deployments) && models == old(models)
      ensures issued == old(issued)
    {
      if id in processDefs {
        processDefs := processDefs[id := processDefs[id].(category := category)];
        return Pass;
      }
      return Fail(ProcessDefinitionNotFound);
    }

    // ----- models

    method NewModel(name: string, key: string) returns (m: Model)
      requires Valid()
      modifies this
      ensures Valid()
      ensures m.id !in old(issued) && m.id !in old(models)
      ensures m.name == name && m.key == key
      ensures m.category == "" && m.version == 0 && m.metaInfo == "" && m.editor == []
      ensures models == old(models)[m.id := m]
      ensures deployments == old(deployments) && processDefs == old(processDefs)
      ensures issued == old(issued) + {m.id}
    {
      var id := Ids.FreshId(issued);
      m := Model(id, name, key, "", 0, "", []);
      models := models[id := m];
      issued := issued + {id};
    }

    /** Full upsert under the model's own identifier; never fails. */
    method SaveModel(m: Model)
      requires Valid()
      modifies this
      ensures Valid()
      ensures models == old(models)[m.id := m]
      ensures deployments == old(deployments) && processDefs == old(processDefs)
      ensures issued == old(issued) + {m.id}
    {
      models := models[m.id := m];
      issued := issued + {m.id};
    }

    method GetModel(modelId: string) returns (r: Result<Model>)
      ensures r.Ok? <==> modelId in models
      ensures r.Ok? ==> r.value == models[modelId]
      ensures r.Err? ==> r.error == ModelNotFound
    {
      if modelId in models {
        return Ok(models[modelId]);
      }
      return Err(ModelNotFound);
    }

    method DeleteModel(modelId: string) returns (r: Outcome)
      requires Valid()
      modifies this
      ensures Valid()
      ensures r == if modelId in old(models) then Pass else Fail(ModelNotFound)
      ensures models == old(models) - {modelId}
      ensures deployments == old(deployments) && processDefs == old(processDefs)
      ensures issued == old(issued)
    {
      if modelId !in models {
        return Fail(ModelNotFound);
      }
      models := models - {modelId};
      return Pass;
    }

    /** Every model once, in no particular order: `ids[i]` is the key of `r[i]`. */
    method ListModels() returns (r: seq<Model>, ghost ids: seq<string>)
      ensures |r| == |models| && |ids| == |r|
      ensures Distinct(ids)
      ensures forall id :: id in ids <==> id in models
      ensures forall i :: 0 <= i < |r| ==> ids[i] in models && r[i] == models[ids[i]]
      ensures forall m :: m in r <==> m in models.Values
    {
      r, ids := ListValues(models);
    }

    method AddModelEditorSource(modelId: string, bytes: seq<Utf8.byte>) returns (r: Outcome)
      requires Valid()
      modifies this
      ensures Valid()
      ensures r == if modelId in old(models) then Pass else Fail(ModelNotFound)
      ensures models == WithEditor(old(models), modelId, bytes)
      ensures deployments == old(deployments) && processDefs == old(processDefs)
      ensures issued == old(issued)
    {
      if modelId in models {
        models := models[modelId := models[modelId].(editor := bytes)];
        return Pass;
      }
      return Fail(ModelNotFound);
    }

    method GetModelEditorSource(modelId: string) returns (r: Result<seq<Utf8.byte>>)
      ensures r.Ok? <==> modelId in models
      ensures r.Ok? ==> r.value == models[modelId].editor
      ensures r.Err? ==> r.error == ModelNotFound
    {
      if modelId in models {
        return Ok(models[modelId].editor);
      }
      return Err(ModelNotFound);
    }
  }
}
