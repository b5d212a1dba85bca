# Vault secret resolution for pipeline step configuration

A Dafny model of `pkg/config/vault.go` of the jenkins-library pipeline tooling.
That file does two things for a pipeline step's configuration (`StepConfig.Config`, a map
from parameter name to an untyped value):

* `getVaultClientFromConfig` decides whether Vault is used at all. Vault is used only when
  `vaultAddress`, `vaultRootPath` and `vaultToken` are all strings and none of them is empty.
  Otherwise the answer is "no client, no error". When Vault is used, a client is built from
  the address, the token and `vaultNamespace`.
* `getVaultConfig` fills in the step parameters that are still missing. A parameter whose
  name already holds a string in the configuration is skipped. For any other parameter, its
  `vaultSecret` references are looked up in order, each at `path.Join(config[ref.Name], ref.Path)`:
  - a lookup that finds no secret moves on to the next reference;
  - a secret whose field named after the parameter is empty or missing also moves on;
  - the first non-empty field wins and ends that parameter;
  - a lookup error ends the whole pass with no map.

  The result is a new map from parameter name to resolved value.

How the model is built (files `wrappers.dfy`, `vault.dfy`, `vault_properties.dfy`):

* Configuration values are `Value = Str(s) | Other`. The Go comma-ok type assertion
  `config[key].(string)` is `HasString(config, key)`. A missing key and a non-string value
  both fail it.
* The secret store (`GetKvSecret`) is a pure oracle `Store`. It maps a path to an error, to no
  secret (Go's nil map) or to a secret (a field map). A missing field reads as `""`, as a Go
  map read does.
* `path.Join` is a parameter `PathJoin`, and `vault.NewClient` is a parameter `newClient`.
  `GetReferences("vaultSecret")` is the `vaultSecrets` sequence of a `StepParameter`.
* The resolution pass is specified by two recursive functions. `TryReferences` covers one
  parameter's references, and `ResolveFrom`/`Resolve` cover the parameters in order. Both
  also return the paths they queried, in order. This is how "no lookup happens" can be stated.
* The Go loop is the method `GetVaultConfig`. Its inner loop over references is the method
  `TryVaultSecrets`. Each is proved equal to its recursive specification. In Go, a lookup
  error returns `nil, err` from inside the inner loop. In the model, the inner loop returns a
  `Failed` attempt, and the outer loop returns the error at once.
* The configuration is an immutable value. The result map is built from `map[]`. So the
  caller's configuration is never changed, as in the source, which only reads it.

`getVaultConfig` starts from an empty map (`pkg/config/vault.go:37`) and returns it
(`:62`). It only reads `config.Config` and never writes it, so merging the result into the
configuration is the caller's job. `vaultNamespace` is read with an unchecked type
assertion, with no fallback (`:26`). So the model requires it to be a string once Vault is
configured: this is the precondition of `GetVaultClientFromConfig`.

The base path of a reference is read with an unchecked type assertion as well (`:46`). The
model requires a string there only at the references the loop actually reaches. These are
the first reference of each parameter that is not already set, and each next reference after
a miss. A match ends the parameter (`:58`), and an error ends the whole pass (`:49`). This is
the job of the predicates `ReferencesReached` and `ParametersReached`.

## Model

| member | source | states |
|---|---|---|
| VaultConfig.GetVaultClientFromConfig | pkg/config/vault.go:15-34 | no client and no error exactly when address, root path or token is missing, not a string, or empty; otherwise the error or the client that `NewClient(address, token, namespace)` gives |
| VaultConfig.TryVaultSecrets | pkg/config/vault.go:44-60 | the reference loop of one parameter ends with the same attempt and the same queried paths as the specification `TryReferences` |
| VaultConfig.GetVaultConfig | pkg/config/vault.go:36-63 | the whole loop returns the same result (a map or an error) and queries the same paths in the same order as the specification `Resolve` |
| VaultProperties.TryReferencesInOrder | pkg/config/vault.go:44-60 | the i-th queried path is `join(base of reference i, path of reference i)`; every answer before the last is a miss; `Found(v)` means the last secret holds `v` non-empty under the parameter's name (no later reference is queried); `Failed(e)` means the last lookup returned `e`; `NotFound` means every reference was queried and missed |
| VaultProperties.FirstReferenceQueried | pkg/config/vault.go:44-47 | a parameter with references always queries its first reference's lookup path first |
| VaultProperties.TrialFailFast | pkg/config/vault.go:47-50 | one parameter's references stop at the first lookup error: earlier lookups all succeeded, and the attempt fails exactly when the last lookup failed, with that error |
| VaultProperties.TrialFound | pkg/config/vault.go:55-59 | a found value is non-empty and is the field named after the parameter in the secret at the last queried path |
| VaultProperties.FailFast | pkg/config/vault.go:47-50 | across the whole pass, every lookup but the last succeeded; the pass fails exactly when the last lookup failed, with that error and no map |
| VaultProperties.ResolvedEntries | pkg/config/vault.go:37-62 | a successful pass keeps every key already resolved; every entry not carried over unchanged is the non-empty value of a parameter that was not skipped, read from a secret under a queried path (a later parameter with the same name replaces the value, as the map assignment at :57 does) |
| VaultProperties.NeverOverwrites | pkg/config/vault.go:40-57 | every key of the result names a parameter that is not already set to a string, and its value is non-empty and comes from a returned secret |
| VaultProperties.Sequential | pkg/config/vault.go:38-61 | parameters are handled strictly in order: a pass over `a + b` is a pass over `a`, stopped by its error or else continued over `b` from its map |
| VaultProperties.SkipsSetParameter | pkg/config/vault.go:40-43 | removing a parameter already set to a string leaves the result and the queried paths unchanged, so it costs no lookup |
| VaultProperties.UnsetParameterIsTried | pkg/config/vault.go:41-60 | a parameter not set to a string is not skipped: once the earlier parameters have resolved without error, its references' trial is queried next; its error ends the pass, and otherwise the pass goes on with its value recorded (if found) |

## Left out

- `cmd/whitesourceExecuteScan_generated.go`: generated command wiring. It registers flags, hooks telemetry and logging, and holds a static metadata table. It reads the environment and the clock and makes no decisions of its own.
- `vault.NewClient` and the HTTP call behind `GetKvSecret` call into `pkg/vault` and the HashiCorp client. They are oracles here: `newClient` and `Store`.
- The internals of `path.Join` (a standard library function) are not modelled: lookup paths are `join(base, path)` for an arbitrary `join`. The body of `StepParameters.GetReferences` is not part of this model: a parameter carries its `vaultSecret` references directly.
- Go panics on the unchecked type assertions (`pkg/config/vault.go:26` and `:46`) are not modelled as outcomes. The model requires the asserted values to be strings exactly where the code reads them.
- The merge of the resolved map into the step configuration is done by the caller, outside `pkg/config/vault.go`.
- Values are modelled as strings: the `map[string]interface{}` result only ever receives strings from `GetKvSecret`.
