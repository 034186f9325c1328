# License client policy, modelled in Dafny

Two Odoo add-ons, `se_license_client` and `asg_license_client`, enforce a
license that a remote license server grants. The server grants a maximum
number of internal users and a list of installable modules. This project
models the decision policy of those add-ons:

- **the license checker** (`license_checker.dfy`) covers the configuration
  read from `config.json`. That includes the process-wide cache, the
  fallback when loading fails, and `reload_config`. It also covers the
  `"enabled" == "True"` test and `check_license`: the unlimited defaults
  when validation is disabled, the unknown answer (`None`) when no server is
  configured, the request URL, the one-level `result` unwrapping, and the
  mapping of `success` to `data` or `None`;
- **the module guard** (`module_guard.dfy`) covers `_check_module_license`
  and the install buttons that run it before the host installs anything. It
  also covers `button_uninstall`, which refuses to remove the license client
  while validation is enabled;
- **the user quota guard** (`user_quota.dfy`) covers `create` and `write` on
  users. It counts the active internal users other than ids 1 and 4,
  compares the count strictly with the quota, and undoes a refused creation.

`values.dfy` holds the JSON values and outcomes the modules share.
`text.dfy` holds the string helpers Python supplies: code-point ordering,
`sorted`, `str.join` and substring tests. `scenarios.dfy` works through
concrete cases.

Modelling choices:

- Python's `None` is the JSON value `JNull`. `check_license` returns a JSON
  value, and callers test it against `JNull`.
- The HTTP round trip is a parameter `remote: Request -> HttpOutcome`. An
  outcome is a transport failure (connection, timeout, other client error)
  or a response with a status code and a body that may or may not be valid
  JSON. Each result records whether a request was sent, so "no request" is
  a checked statement.
- Reading `config.json` is a `ConfigFile` value: missing, invalid JSON,
  unreadable, or a parsed document. A parsed document that is not a JSON
  object also falls back to the disabled configuration, because the log
  line inside the same `try` calls `.get` on it.
- Exceptions that the source does not catch are `Throws(error)`. Two can
  occur:
  - `rstrip` on a truthy server setting that is not a string;
  - comparing the user count with a quota that is not a number, or using
    `in`/`sorted`/`join` on a module answer of the wrong shape.
- The guards receive the configuration that `get_config` returns. Once the
  cache is filled, every later `get_config` returns the same value
  (`CachedConfigIsStable`), so all reads within one guard agree.
- Users are records `(id, active, share)`. The host's table before and
  after a mutation is a sequence of them. The modules selected for
  installation are a sequence of names, in selection order.

Points of the code worth knowing before reading the model:

- `enabled` is compared with the string `"True"`. JSON `true` does not
  enable validation, and neither does `"true"`.
- When validation is disabled, the users quota is the constant `999999`.
- The allowed modules are whatever the server sent in `data`, searched with
  Python's `in`: element equality for a list, keys for an object,
  substrings for a string.
- When `create` is refused, the reported count is the post-creation count
  minus the number of records created, whether or not they are counted
  (see Findings).

## Model

| member | source | states |
|---|---|---|
| LicenseChecker.LoadConfig | se_license_client/models/license_checker.py:18-33 | A parsed JSON object is the configuration. Every failure, including a document that is not an object, gives the fallback: validation disabled, server `""`, and no other keys. |
| LicenseChecker.GetConfig | se_license_client/models/license_checker.py:14-34 | An empty cache loads from the file; a filled cache returns its value. Either way, the value returned is the one left in the cache. |
| LicenseChecker.ReloadConfig | se_license_client/models/license_checker.py:37-41 | Whatever was cached, the result is what the current file loads to, and that value is cached. |
| LicenseChecker.CachedConfigIsStable | se_license_client/models/license_checker.py:16-34 | Once filled, the cache gives the same answer whatever the file now holds, and the cache does not change. |
| LicenseChecker.ReloadThenGet | se_license_client/models/license_checker.py:37-41 | A `get_config` after a reload returns what the reload read, whatever the file holds by then. |
| LicenseChecker.LoadFailureDisables | se_license_client/models/license_checker.py:25-33 | A missing, invalid or unreadable file, or a non-object document, yields exactly the fallback, so validation is disabled. |
| LicenseChecker.ServerSetting | se_license_client/models/license_checker.py:50-53 | The configured "license_server" value, whatever its JSON type, or `""` when the key is absent. |
| LicenseChecker.IsEnabled | se_license_client/models/license_checker.py:44-47 | Enabled iff the key "enabled" is present and holds exactly the string "True". |
| LicenseChecker.OnlyExactTrueEnables | se_license_client/models/license_checker.py:44-47 | Any other value for "enabled" (including "true", "False" and JSON `true`) disables, and so does a missing key. |
| LicenseChecker.TrimTrailingSlashes | se_license_client/models/license_checker.py:85 | The result is the longest prefix that does not end in '/' and leaves only slashes behind. |
| LicenseChecker.RequestUrl | se_license_client/models/license_checker.py:85 | The URL ends with "/se_license/check". Before that is a prefix of the server that does not end in '/', so there is never "//se_license", and the server has only slashes past that prefix. |
| LicenseChecker.TrailingSlashesIrrelevant | se_license_client/models/license_checker.py:85 | Servers that differ only in trailing slashes give the same URL. |
| LicenseChecker.BodyValue | se_license_client/models/license_checker.py:99-110 | A non-null answer comes only from a success body that has a "data" key, and it is that key's value. A success body returns its data (`None` if missing). Any body that is not an object gives `None`. |
| LicenseChecker.Interpret | se_license_client/models/license_checker.py:87-129 | Transport failures, 4xx/5xx statuses and non-JSON bodies all give `None`. A parsed body under a non-error status gives exactly `BodyValue` of that body, and a non-null answer needs a body that reports success after unwrapping. |
| LicenseChecker.WrapperTransparent | se_license_client/models/license_checker.py:101-103 | A body wrapped under "result" gives the same answer as the bare body, provided the body has no "result" key of its own. |
| LicenseChecker.OnlyOneLevelUnwrapped | se_license_client/models/license_checker.py:101-103 | A success wrapped twice is not seen: the answer is `None`. |
| LicenseChecker.CheckLicense | se_license_client/models/license_checker.py:56-129 | When disabled, no request is sent and the answer is `["all"]` for "modules", 999999 for "users" and `None` otherwise. When enabled with a falsy server, the answer is `None` with no request. A request is sent iff enabled with a non-empty server string; it goes to the trimmed URL, and the answer is the interpreted outcome. Only a truthy non-string server raises (AttributeError), and never after a request. |
| LicenseChecker.RemoteFailuresAreUnknown | se_license_client/models/license_checker.py:112-129 | Once a request is sent, `check_license` returns rather than raises, and a transport failure returns `None`. |
| LicenseChecker.NoRequestNoDependence | se_license_client/models/license_checker.py:69-82 | When no request is sent, the result does not depend on the server at all. |
| ModuleGuard.Blocked | asg_license_client/models/ir_module.py:33-37 | A name is blocked iff it is selected, not in the allowed data, and not `asg_license_client`. |
| ModuleGuard.BlockedAppend | asg_license_client/models/ir_module.py:34-37 | Blocking is decided per module and keeps selection order: blocked(a + b) = blocked(a) + blocked(b). |
| ModuleGuard.EmptyListBlocksOthers | asg_license_client/models/ir_module.py:24-36 | An empty allowed list blocks exactly the selection minus `asg_license_client`, in order. |
| ModuleGuard.Listing | asg_license_client/models/ir_module.py:45 | The allowed modules in the message are sorted. For a list, they are a permutation of its strings, and a non-string element raises TypeError. For an object, they are its keys, each exactly once. For a string, they are its characters, as a permutation. |
| ModuleGuard.Judge | asg_license_client/models/ir_module.py:22-47 | `None` allows (fail-open). A number or bool raises TypeError. "all" allows. Otherwise the install is allowed iff every selected module is allowed or is the license client. A refusal carries the nonempty blocked list, the sorted allowed list, and the message built from those two. Every failure is a TypeError. |
| ModuleGuard.CheckModuleLicense | asg_license_client/models/ir_module.py:13-47 | Disabled or `skip_license_check` allows with no query. Otherwise the "modules" query is made and its answer judged. A blocked name is always a selected module other than the license client. |
| ModuleGuard.ButtonInstall | asg_license_client/models/ir_module.py:49-57 | The verdict is the license check's. The steps are exactly the check's query, if it sent one, followed by the host's install iff the check allows. |
| ModuleGuard.NotLicensedMessage | asg_license_client/models/ir_module.py:40-45 | The refusal text contains every blocked module, and it contains "Allowed modules: " followed by the allowed modules joined with ", ". |
| ModuleGuard.ButtonUninstall | asg_license_client/models/ir_module.py:59-68 | Refused iff validation is enabled and `asg_license_client` is selected, with no host step. Otherwise the host uninstalls. No license query is made. |
| UserQuota.InternalCount | se_license_client/models/res_users.py:30-34 | The count is at most the table size. It is zero iff no user is active, internal and other than ids 1 and 4. |
| UserQuota.InternalCountAppend | se_license_client/models/res_users.py:30-34 | Counting splits over concatenated tables. |
| UserQuota.UncountedIrrelevant | se_license_client/models/res_users.py:30-34 | A user who is inactive, shared, or has id 1 or 4 never changes the count, wherever it sits. |
| UserQuota.AllCountedIffFull | se_license_client/models/res_users.py:30-34 | The count equals the table size iff every user is counted. |
| UserQuota.ReportedCountAsWritten | se_license_client/models/res_users.py:38-47 | The count the refusal reports, as written, is at most the pre-creation count. It equals that count iff every created user is counted. |
| UserQuota.ReportedCountAsWrittenUnderreports | se_license_client/models/res_users.py:38-47 | One internal user before and a batch of one internal plus one portal user: the post-creation count is 2 and the report says 0 where there was 1. |
| UserQuota.PreCreationCount | se_license_client/models/res_users.py:38-47 | The corrected report is the post-creation count minus the counted created users, which equals the internal count before the creation. |
| UserQuota.QuotaNumber | se_license_client/models/res_users.py:38 | The quota as Python compares it with `>`: an integer is itself, a bool is 1 for `True` and 0 for `False`, and anything else raises TypeError. |
| UserQuota.CreateUsers | se_license_client/models/res_users.py:13-49 | Disabled accepts with no query. Otherwise a `None` quota accepts (fail-open). A number or bool quota (a bool compares as 0 or 1) refuses iff the post-creation count strictly exceeds it, and accepts otherwise. Any other quota raises TypeError. A refusal carries the quota exactly as the server answered it, deletes every created record and reports the post-creation count minus the number of created records, as written. That report is at most the pre-creation count and equals it when every created user is counted (see Findings). Any other outcome keeps the created records. |
| UserQuota.CreateUsersCorrected | se_license_client/models/res_users.py:38-47 | The same query, table, decision and quota as `CreateUsers`, but a refusal reports the internal count before the creation. |
| UserQuota.UncountedBatchRefusedOnlyWhenOver | se_license_client/models/res_users.py:30-38 | A batch with no counted user is refused iff the table was already over the quota. |
| UserQuota.WriteUsers | se_license_client/models/res_users.py:51-74 | Only `active` exactly `True` with validation enabled is checked; any other write is accepted with no query. A `None` quota accepts. A number or bool quota (a bool compares as 0 or 1) refuses iff the post-write count exceeds it, and accepts otherwise. Any other quota raises TypeError. The refusal reports that count and the quota exactly as the server answered it. The table is never changed by the guard. |
| Text.SortStrings | asg_license_client/models/ir_module.py:45 | Python's `sorted` on strings: the result is in code-point order and a permutation of the input. |
| Text.SortedKeys | asg_license_client/models/ir_module.py:45 | `sorted` over a dict: the keys, each once, in code-point order. |
| Text.Join | asg_license_client/models/ir_module.py:40-45 | `sep.join`: empty for no parts. Otherwise the length is the parts' total length plus one separator between each pair, and the result starts with the first part. |
| Text.JoinAppend | asg_license_client/models/ir_module.py:45 | Joining a concatenation of two nonempty lists is joining each list, with one separator between the two. |
| Text.JoinContainsParts | asg_license_client/models/ir_module.py:45 | Every part occurs in the joined string. |
| Scenarios.EnabledRequests | se_license_client/models/license_checker.py:78-107 | With server "http://x/", the request goes to "http://x/se_license/check" and the granted data, `None` included, comes back unchanged. |
| Scenarios.EnabledUrl | se_license_client/models/license_checker.py:85 | The server "http://x/" gives the URL "http://x/se_license/check". |
| Scenarios.SixthUserRefused | se_license_client/models/res_users.py:20-47 | With five users granted and five present, creating a sixth internal user is refused. The sixth is removed and the report says 5 current, 5 allowed. |
| Scenarios.UnreachableServerAllowsCreation | se_license_client/models/res_users.py:20-26 | When the server cannot be reached, every creation is accepted and kept. |
| Scenarios.CrmBlockedSaleAllowed | asg_license_client/models/ir_module.py:29-45 | With "stock" and "sale" licensed, installing "crm" is refused, listing "crm" as blocked and "sale", "stock" as allowed. Installing "sale" is allowed. |
| Scenarios.CrmMessage | asg_license_client/models/ir_module.py:40-45 | The refusal for "crm" names "crm" and contains "Allowed modules: sale, stock". |

## Left out

- The HTTP request itself (`requests.post`, the 15-second timeout, headers) is the `remote` parameter. Its transport failure kinds are collapsed into outcomes that all read as `None`. `raise_for_status` is modelled by `ErrorStatus` inside `Interpret`, on the status that `remote` returns.
- Reading and parsing `config.json`, and the module-root lookup, are the `ConfigFile` input.
- JSON floating-point numbers are not modelled, so a float quota or a float in a module list cannot be expressed.
- Odoo ORM machinery is out of scope: `super()` calls, `search_count`, `sudo`, `unlink` and the transaction rollback that follows a raised error. The guards receive the table after the host's mutation, and `CreateUsers` returns the table with the created records removed.
- Logging and the `_()` translation wrapper have no effect on decisions. Only the module refusal's text (`NotLicensedMessage`) is rendered; the user-quota refusals carry their numbers.
- `skip_license_check` is taken as the truthiness of the context value, a boolean.
- The cache's behaviour under concurrent first access is not modelled; the cache is explicit sequential state.
- `asg_license_client/models/res_config_settings.py` (settings display and notifications) and `se_license_client/__manifest__.py` (metadata) are not part of this model.
- `asg_license_client/models/license_checker.py` is not part of this model. The module guard uses the `se_license_client` checker, assumed to behave the same.

## Findings

| source | as written | input that shows it | evidently intended | confidence | as-written member | corrected member |
|---|---|---|---|---|---|---|
| se_license_client/models/res_users.py:40-47 | The refusal reports "Current internal users" as the post-creation count minus the number of records created, whether or not those records are counted. | One internal user (id 2), then a batch of an internal user (id 3) and a portal user (id 5) against a quota of 1. The post-creation count 2 exceeds 1, and the report says 0 current users where there was 1. | Report the internal users present before the creation: the post-creation count minus the counted users created. | medium, not executed | UserQuota.ReportedCountAsWritten | UserQuota.CreateUsersCorrected |
