/** The process-definition record of the repository (process_definition.go). */
module ProcessDefinitions {

  /** One versioned process template. `key` groups the versions of one process;
      `deploymentId` names the deployment that introduced it, by value only. */
  datatype ProcessDefinition = ProcessDefinition(
    id: string,
    key: string,
    name: string,
    version: int,
    category: string,
    deploymentId: string,
    suspended: bool)

  /** The zero value of the record: every text field empty, version 0, active. */
  function NewProcessDefinition(): (d: ProcessDefinition)
    ensures d.id == "" && d.key == "" && d.name == ""
    ensures d.version == 0
    ensures d.category == "" && d.deploymentId == ""
    ensures !d.suspended
  {
    ProcessDefinition("", "", "", 0, "", "", false)
  }
}
