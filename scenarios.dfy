/** Client programs that drive the repository and the engine through the
    scenarios their behaviour is meant to support, and state what a caller can
    conclude from the operations' contracts alone. */
module Scenarios {
  import opened ProcessDefinitions
  import opened Repository
  import ProcessEngine

  /** Two successive deployments get different identifiers. */
  method DistinctDeploymentIds(name1: string, name2: string, now: Time) returns (d1: Deployment, d2: Deployment)
    ensures d1.id != d2.id
    ensures d1.name == name1 && d2.name == name2
  {
    var repo := new RepositoryService();
    d1 := repo.CreateDeployment(name1, now);
    d2 := repo.CreateDeployment(name2, now);
  }

  /** Create a deployment, save two definitions with one key under it, find
      both by key, suspend them by key (twice, succeeding both times), then
      delete the deployment with cascade: afterwards neither is found. */
  method CascadeRoundTrip() returns (a: ProcessDefinition, b: ProcessDefinition, byKey: seq<ProcessDefinition>,
                                     first: Outcome, second: Outcome,
                                     afterA: Result<ProcessDefinition>, afterB: Result<ProcessDefinition>)
    ensures a != b && a.key == "proc-A" && b.key == "proc-A"
    ensures |byKey| == 2 && forall d :: d in byKey <==> d == a || d == b
    ensures first == Pass && second == Pass
    ensures afterA == Err(ProcessDefinitionNotFound) && afterB == Err(ProcessDefinitionNotFound)
  {
    var repo := new RepositoryService();
    var dep := repo.CreateDeployment("dep1", 0);
    a := repo.SaveProcessDefinition("proc-A", "Process A", dep.id);
    b := repo.SaveProcessDefinition("proc-A", "Process A", dep.id);
    ghost var saved := repo.processDefs;
    assert saved == map[a.id := a, b.id := b];
    assert IdsWithKey(saved, "proc-A") == {a.id, b.id};
    assert DefinitionsWithKey(saved, "proc-A") == {a, b} by {
      assert saved[a.id] == a && saved[b.id] == b;
    }
    ghost var ids;
    byKey, ids := repo.GetProcessDefinitionsByKey("proc-A");

    first := repo.SuspendProcessDefinitionByKey("proc-A");
    ghost var suspended := repo.processDefs;
    SuspendByKeyEffect(saved, "proc-A", true);
    SuspendByKeyTwice(saved, "proc-A", true, true);
    second := repo.SuspendProcessDefinitionByKey("proc-A");
    assert suspended[a.id].deploymentId == dep.id && suspended[b.id].deploymentId == dep.id;

    var deleted := repo.DeleteDeployment(dep.id, true);
    CascadeRemovesExactly(suspended, dep.id);
    afterA := repo.GetProcessDefinition(a.id);
    afterB := repo.GetProcessDefinition(b.id);
  }

  /** Deleting a deployment without cascade leaves its definition retrievable,
      pointing at a deployment that no longer exists. */
  method OrphanedDefinition() returns (depId: string, d: ProcessDefinition, dep: Result<Deployment>,
                                       found: Result<ProcessDefinition>)
    ensures d.deploymentId == depId && dep == Err(DeploymentNotFound)
    ensures found == Ok(d)
  {
    var repo := new RepositoryService();
    var created := repo.CreateDeployment("dep1", 0);
    depId := created.id;
    d := repo.SaveProcessDefinition("proc-A", "Process A", depId);
    var deleted := repo.DeleteDeployment(depId, false);
    dep := repo.GetDeployment(depId);
    found := repo.GetProcessDefinition(d.id);
  }

  /** A deployment created after another was deleted gets a new identifier, so
      it does not adopt the orphaned definitions of the deleted one: a cascade
      delete of the new deployment leaves them in place. */
  method OrphanNotAdopted() returns (d1: Deployment, d2: Deployment, orphan: ProcessDefinition,
                                     found: Result<ProcessDefinition>)
    ensures d1.id != d2.id && orphan.deploymentId == d1.id
    ensures found == Ok(orphan)
  {
    var repo := new RepositoryService();
    d1 := repo.CreateDeployment("dep1", 0);
    orphan := repo.SaveProcessDefinition("proc-A", "Process A", d1.id);
    var deleted := repo.DeleteDeployment(d1.id, false);
    d2 := repo.CreateDeployment("dep2", 0);
    deleted := repo.DeleteDeployment(d2.id, true);
    found := repo.GetProcessDefinition(orphan.id);
  }

  /** A model created after another was deleted gets a different identifier. */
  method ModelIdNotReused(name: string, key: string) returns (m1: Model, m2: Model, gone: Result<Model>)
    ensures m1.id != m2.id
    ensures gone == Err(ModelNotFound)
  {
    var repo := new RepositoryService();
    m1 := repo.NewModel(name, key);
    var deleted := repo.DeleteModel(m1.id);
    m2 := repo.NewModel(name, key);
    gone := repo.GetModel(m1.id);
  }

  /** A new model has an empty editor payload; after setting it, reading it
      back gives the bytes that were set. */
  method EditorRoundTrip(name: string, key: string, bytes: seq<Utf8.byte>)
    returns (initial: Result<seq<Utf8.byte>>, stored: Outcome, after: Result<seq<Utf8.byte>>)
    ensures initial == Ok([])
    ensures stored == Pass && after == Ok(bytes)
  {
    var repo := new RepositoryService();
    var m := repo.NewModel(name, key);
    initial := repo.GetModelEditorSource(m.id);
    stored := repo.AddModelEditorSource(m.id, bytes);
    after := repo.GetModelEditorSource(m.id);
  }

  /** Adding a definition and starting an instance of it on a new engine
      returns the identifier "instance-1". */
  method FirstInstance() returns (instanceId: string)
    ensures instanceId == "instance-1"
  {
    var engine := new ProcessEngine.Engine();
    engine.AddDefinition("process_1", "Sample Process 1");
    instanceId := engine.StartInstance("process_1");
  }
}
