# flowgo repository catalog and toy engine, in Dafny

This project models the bookkeeping core of flowgo, a small workflow/BPM engine written in Go.

- **The repository catalog** (`RepositoryService`). It keeps three maps keyed by identifier: deployments, process definitions and model drafts. Its operations are:
  - create, get, delete and list deployments. Delete can optionally cascade to the definitions that point at the deployment;
  - save a process definition;
  - look definitions up by identifier or by key;
  - suspend or activate definitions, one at a time or every definition sharing a key;
  - set a definition's category;
  - list a deployment's resource names and look up a resource's bytes;
  - create, save, get, delete and list model drafts, and set and read a model's editor payload.
- **The toy process engine** (`Engine`). It keeps a map of definitions and a map of started instances. Instance identifiers are numbered from the instance count.

Files and modules:

| file | module | models |
|---|---|---|
| `process_definition.dfy` | `ProcessDefinitions` | the `ProcessDefinition` record and its zero value |
| `repository_service.dfy` | `Repository` | `Deployment`, `Model`, the error values, the reachable-state invariants, specification functions for each bulk update, their lemmas, and the class `RepositoryService` with one method per Go method |
| `process_engine.dfy` | `ProcessEngine` | the engine's records and the class `Engine` |
| `ids.dfy` | `Ids` | the identifier generator (`uuid.New()`): an identifier outside a given set of used ones |
| `decimal.dfy` | `Decimal` | the `%d` rendering of a number, with the parser that inverts it |
| `utf8.dfy` | `Utf8` | the conversion `[]byte(s)` as UTF-8 encoding (RFC 3629, section 3) |
| `scenarios.dfy` | `Scenarios` | client programs that run the catalog and the engine through typical sequences of calls |

How the Go code maps to Dafny:

- Each Go method that changes a map is a method of the class. It has `modifies this`. Its `ensures` gives each new map as a function of the old maps, and says which maps did not change.
- Each Go `range` loop over a map is a `while` loop. It takes keys from a shrinking set of pending keys, so no visiting order is assumed.
- The bulk updates (cascade delete, suspend or activate by key) are specified by functions on maps: `WithoutDeployment` and `WithSuspendedByKey`. What the source promises is proved about these functions as lemmas.
- Errors are values. `Result<T>` stands for Go's `(T, error)` and `Outcome` for a bare `error`. `Error` has one constructor per message: "deployment not found", "process definition not found", "resource not found" and "model not found".
- The catalog has one field the Go struct does not have: `issued`, the set of every identifier the generator has handed out, together with the caller-supplied identifiers recorded by `SaveModel` (a model's ID) and `SaveProcessDefinition` (a deployment ID). It stands for the generator's history: a UUID is never handed out twice and does not collide with an identifier already in use. So a new identifier is fresh against every identifier ever seen, not only against the current map. An identifier freed by a delete is never handed out again.
- `Valid()` is the invariant every reachable state keeps:
  - every record is stored under its own identifier;
  - every deployment's resource list is empty;
  - every stored definition has version 1;
  - every identifier the catalog refers to is in `issued`. That covers the keys of the three maps and every definition's deployment ID;
  - for the engine, the instance keys are exactly `instance-1` to `instance-n`, and every instance is running.

The model follows the code in these points:

- `SaveProcessDefinition` always stores version 1. It does not number versions per key.
- `SaveProcessDefinition` does not check that the deployment exists.
- The category is a plain string (empty by default), not a nullable value.
- A model made by `NewModel` has an empty editor payload.
- `GetResourceAsBytes` finds a resource only if its name is in the deployment's list. No catalog operation adds to that list, so in the model every reachable state answers "resource not found" for an existing deployment (`Repository.NoResourceEverFound`). In Go a caller can add resources by appending to the `Resources` slice of the `*Deployment` that `CreateDeployment` or `GetDeployment` returned, because the map holds that same pointer. The model has no aliasing (see "Left out"), so the success branch is unreachable here only.

## Model

| member | source | states |
|---|---|---|
| `ProcessDefinitions.NewProcessDefinition` | process_definition.go:3-15 | the zero record: empty ID, key, name, category and deployment ID, version 0, not suspended |
| `Repository.RepositoryService.constructor` | repository_service.go:33-39 | a new service has three empty maps and satisfies the invariant |
| `Repository.RepositoryService.CreateDeployment` | repository_service.go:41-50 | adds exactly one deployment, under an identifier not issued or supplied before (so not a key of any map and not the deployment ID of any definition), with the given name and time and no resources; every other deployment and both other maps are unchanged |
| `Repository.RepositoryService.GetDeployment` | repository_service.go:52-57 | returns the stored deployment when the identifier is known, and "deployment not found" exactly when it is not |
| `Repository.RepositoryService.DeleteDeployment` | repository_service.go:59-74 | unknown identifier: "deployment not found" and no map changes. Known identifier: the deployment is removed; with cascade the definitions become `WithoutDeployment` of the old ones; without cascade they are untouched; models are untouched |
| `Repository.CascadeRemovesExactly` | repository_service.go:66-72 | a cascade keeps exactly the definitions of other deployments, with their values unchanged, and none left points at the deleted deployment |
| `Repository.CascadeSize` | repository_service.go:66-72 | the cascade removes exactly as many definitions as point at the deployment |
| `Repository.ListValues` | repository_service.go:76-82 | enumerating a map yields one entry per key: the ghost key sequence lists every key of the map exactly once, and entry i is the value stored under key i; the result holds every stored value and nothing else |
| `Repository.RepositoryService.ListDeployments` | repository_service.go:76-82 | returns one entry per stored deployment: the ghost identifier sequence lists each identifier exactly once, and entry i is the deployment stored under identifier i; in no particular order |
| `Repository.RepositoryService.SaveProcessDefinition` | repository_service.go:84-94 | inserts one definition under an identifier not issued or supplied before, with the given key, name and deployment ID, version 1, empty category and not suspended, whether or not that deployment exists; all other entries and maps are unchanged |
| `Repository.RepositoryService.GetProcessDefinition` | repository_service.go:96-101 | returns the stored definition when the identifier is known, and "process definition not found" exactly when it is not |
| `Repository.RepositoryService.GetProcessDefinitionsByKey` | repository_service.go:103-111 | returns one entry per stored definition with that key: the ghost identifier sequence lists each identifier whose definition has the key exactly once, and entry i is the definition stored under identifier i; in no particular order; the result is empty, not an error, when none has it |
| `Repository.SaveJoinsKeyGroup` | repository_service.go:84-111 | saving a fresh definition adds it to the group of its own key and leaves every other key group as it was |
| `Repository.RepositoryService.SuspendProcessDefinitionById` | repository_service.go:113-119 | known identifier: success, and only that entry's suspended flag becomes true. Unknown identifier: "process definition not found" and no definition changes |
| `Repository.RepositoryService.ActivateProcessDefinitionById` | repository_service.go:121-127 | known identifier: success, and only that entry's suspended flag becomes false. Unknown identifier: "process definition not found" and no definition changes |
| `Repository.SuspendByIdEffect` | repository_service.go:113-127 | the by-identifier flag update changes only the suspended field of only the named entry, and applying it twice equals applying it once |
| `Repository.RepositoryService.SetSuspendedByKey` | repository_service.go:130-136 | the loop sets the flag on every definition with the key, and on no other; its found flag is true exactly when some definition has the key |
| `Repository.RepositoryService.SuspendProcessDefinitionByKey` | repository_service.go:129-141 | every definition with the key becomes suspended; the call fails with "process definition not found" exactly when no definition has the key |
| `Repository.RepositoryService.ActivateProcessDefinitionByKey` | repository_service.go:143-155 | every definition with the key becomes active; the call fails with "process definition not found" exactly when no definition has the key |
| `Repository.SuspendByKeyEffect` | repository_service.go:129-155 | the bulk update sets the flag on every definition with the key; definitions with other keys, all other fields and the key set are unchanged |
| `Repository.SuspendByKeyNoMatch` | repository_service.go:137-139 | when no definition has the key, the bulk update leaves the map exactly as it was |
| `Repository.SuspendByKeyTwice` | repository_service.go:129-155 | the bulk update keeps the key groups, so a repeated call finds the same definitions and succeeds again; the later flag wins, so repeating a call gives the same state |
| `Repository.RepositoryService.SetProcessDefinitionCategory` | repository_service.go:157-163 | known identifier: success, and only that entry's category changes. Unknown identifier: "process definition not found" and no definition changes |
| `Repository.CategoryEffect` | repository_service.go:157-163 | only the category of only the named entry changes, and setting it twice equals setting it once |
| `Repository.RepositoryService.GetDeploymentResourceNames` | repository_service.go:165-170 | returns the deployment's resource list when the deployment exists, and "deployment not found" when it does not |
| `Repository.RepositoryService.GetResourceAsBytes` | repository_service.go:172-183 | unknown deployment: "deployment not found". Name not in the deployment's list: "resource not found". Otherwise: the bytes of "mock resource: " followed by the name |
| `Repository.MockResourceLayout` | repository_service.go:177 | the payload is the ASCII bytes of "mock resource: ", one per character, followed by the bytes of the name |
| `Repository.NoResourceEverFound` | repository_service.go:45 | in every reachable state, looking up a resource of an existing deployment gives "resource not found" |
| `Repository.RepositoryService.NewModel` | repository_service.go:185-193 | inserts one model under an identifier not issued or supplied before, with the given name and key, empty category, metadata and editor payload, and version 0; other models and maps are unchanged |
| `Repository.RepositoryService.SaveModel` | repository_service.go:195-197 | the entry for the model's own identifier becomes that model, replacing the old entry whole or inserting it; it never fails; the identifier is recorded as in use |
| `Repository.RepositoryService.GetModel` | repository_service.go:199-204 | returns the stored model when the identifier is known, and "model not found" exactly when it is not |
| `Repository.RepositoryService.DeleteModel` | repository_service.go:206-212 | known identifier: success, and that model is removed. Unknown identifier: "model not found" and no model changes |
| `Repository.RepositoryService.ListModels` | repository_service.go:214-220 | returns one entry per stored model: the ghost identifier sequence lists each identifier exactly once, and entry i is the model stored under identifier i; in no particular order |
| `Repository.RepositoryService.AddModelEditorSource` | repository_service.go:222-228 | known identifier: success, and only that model's editor payload changes to the bytes given. Unknown identifier: "model not found" and no model changes |
| `Repository.EditorEffect` | repository_service.go:222-228 | only the editor payload of only the named model changes, and reading it back gives the bytes that were set |
| `Repository.RepositoryService.GetModelEditorSource` | repository_service.go:230-235 | returns the stored editor payload when the model exists, and "model not found" when it does not |
| `Ids.FreshId` | repository_service.go:43 | the new identifier is non-empty and not in the set of identifiers already issued or in use |
| `Repository.DistinctCardinality` | repository_service.go:76-82 | a sequence of distinct identifiers has as many elements as the set of them, so a list with one entry per key has the map's size |
| `Utf8.EncodeChar` | repository_service.go:177 | each character takes the number of bytes UTF-8 assigns to its code point: a lead byte followed by continuation bytes |
| `Utf8.DecodeEncodeChar` | repository_service.go:177 | decoding the bytes of one character gives its code point back |
| `Utf8.EncodeConcat` | repository_service.go:177 | the bytes of a concatenation are the concatenation of the bytes |
| `Utf8.EncodeLength` | repository_service.go:177 | a string of n characters takes between n and 4n bytes |
| `Utf8.EncodeAscii` | repository_service.go:177 | an ASCII string takes one byte per character, and each byte is the character's code |
| `Utf8.EncodeAsciiPrefix` | repository_service.go:177 | an ASCII prefix is kept byte for byte, followed by the bytes of the rest |
| `Decimal.DigitChar` | pkg/engine/process/definition.go:46 | a digit value below 10 gives the decimal digit of that value |
| `Decimal.DigitValue` | pkg/engine/process/definition.go:46 | a decimal digit gives its value, below 10, and inverts `DigitChar` |
| `Decimal.FormatWellFormed` | pkg/engine/process/definition.go:46 | the `%d` rendering is a non-empty string of digits with no leading zero |
| `Decimal.ParseFormat` | pkg/engine/process/definition.go:46 | parsing the rendering gives the number back |
| `Decimal.FormatInjective` | pkg/engine/process/definition.go:46 | distinct numbers render differently |
| `ProcessEngine.InstanceIdNonEmpty` | pkg/engine/process/definition.go:46 | an instance identifier is longer than "instance-", so never empty |
| `ProcessEngine.InstanceIdInjective` | pkg/engine/process/definition.go:46 | different instance numbers give different identifiers |
| `ProcessEngine.IssuedIdsExactly` | pkg/engine/process/definition.go:46-47 | the identifiers issued for n instances are exactly instance-1 to instance-n |
| `ProcessEngine.NextIdFresh` | pkg/engine/process/definition.go:46-47 | the identifier for instance n+1 is not among those issued for the first n |
| `ProcessEngine.Engine.constructor` | pkg/engine/process/definition.go:30-36 | a new engine has no definitions and no instances |
| `ProcessEngine.Engine.AddDefinition` | pkg/engine/process/definition.go:39-42 | stores `{id, name}` under the identifier, replacing any earlier entry; other definitions and all instances are unchanged |
| `ProcessEngine.Engine.StartInstance` | pkg/engine/process/definition.go:45-54 | returns "instance-" followed by n+1, where n is the earlier instance count. The identifier is non-empty and not used before. The new instance is stored "running", the count grows by one, and the definitions are neither consulted nor changed |
| `Scenarios.DistinctDeploymentIds` | repository_service.go:41-50 | two successive deployments get different identifiers |
| `Scenarios.CascadeRoundTrip` | repository_service.go:59-155 | two definitions with one key under one deployment are both found by key. Suspend-by-key succeeds twice. After a cascade delete neither is found |
| `Scenarios.OrphanedDefinition` | repository_service.go:59-74 | after a delete without cascade, the deployment is gone but its definition is still retrievable |
| `Scenarios.OrphanNotAdopted` | repository_service.go:41-74 | a deployment created after another was deleted gets a different identifier, so a later cascade delete of it leaves the orphaned definitions of the first in place |
| `Scenarios.ModelIdNotReused` | repository_service.go:185-212 | a model created after another was deleted gets a different identifier, and the deleted one stays not found |
| `Scenarios.EditorRoundTrip` | repository_service.go:185-235 | a new model's editor payload is empty; after setting it, reading it back gives the bytes that were set |
| `Scenarios.FirstInstance` | tests/engine_test.go:8-18 | the first instance started on a new engine is "instance-1", which is not empty |

## Left out

- `uuid.New()` is a foreign library. `Ids.FreshId` stands in for it and promises only what callers rely on: the identifier is not in the model-only set `issued`, which holds every identifier handed out or supplied so far. Randomness, the UUID text format and the (negligible) chance of a UUID collision are not modelled.
- `time.Now()` reads the wall clock. `CreateDeployment` takes the time as a parameter (`Time`, an integer) and stores it unchanged.
- Concurrency: the source has no locking, and the model adds none. Each operation is one sequential step.
- Pointer aliasing is not modelled. The Go maps store pointers, and the same pointers are returned to callers and taken from them (`SaveModel`). A caller's later change to a returned record would therefore show in the map, for instance resources appended to a returned deployment (see `GetResourceAsBytes` above). The model stores and returns values. For the same reason `SaveModel(nil)`, which panics in Go on `m.ID`, cannot be expressed: a `Model` value is never nil.
- Nil versus empty slices are not distinguished. `GetProcessDefinitionsByKey` and `ListModels` return nil when nothing matches, and the model gives the empty sequence in both cases. Likewise `NewModel` leaves `Editor` nil (repository_service.go:186-190), so `GetModelEditorSource` on a new model returns a nil slice; the model gives the empty byte sequence.
- Map iteration order is unspecified in Go. The list operations are specified by their elements and their length, not by an order.
- Go strings are modelled as sequences of Unicode scalar values. This is exact for the UTF-8 text that Go literals hold. Strings that hold invalid UTF-8 are not modelled.
- `Version` is a Go `int` (64 bits). It is only stored, never computed, so it is modelled as an unbounded integer.
- `fmt.Printf` in `AddDefinition` and `StartInstance` (pkg/engine/process/definition.go:41, 48) is console output and is left out.
- The task manager (pkg/engine/process/definition.go:26, 34, 51-52) is left out: its package `flowgo/pkg/engine/task` is not part of this model. The task identifier `"task-" + count` is not kept either.
- engine.go is not part of this model. It only wires services whose packages are not part of this model.
