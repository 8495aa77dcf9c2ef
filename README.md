# Catapult bootstrap, modelled in Dafny

Catapult is a release-management tool. Its Vagrant-side script,
`catapult/catapult.rb`, runs first on every `vagrant` command. Before any
machine is touched, it does the following:

- It reads the fork's branches from `git ls-remote` and creates the missing
  ones (`develop-catapult`, `develop`, `release`). It refuses to go on when
  `master` is missing.
- It stops on `master` and `release`. It installs a pre-commit hook that
  decides from the branch and the staged paths whether a commit may go in.
- It validates the team settings: `gpg_key` and `gpg_edit` in
  `secrets/configuration-user.yml`.
- It manages the three encrypted secrets: `secrets/configuration.yml.gpg`,
  `secrets/id_rsa.gpg` and `secrets/id_rsa.pub.gpg`.
  - On `develop` it seeds empty ciphertexts, decrypts, compares with a fresh
    decryption and re-encrypts only what changed. A change of a website's
    `software_workflow` direction is refused when today's database backup is
    missing.
  - On `develop-catapult` it takes the ciphertexts from `develop`.
  - On every branch it ends with a checked decryption.
- It validates the `company` section. For each environment, it looks up
  every server with its provider (VirtualBox in `dev`, AWS for `windows*`
  roles, DigitalOcean for `redhat*` roles). It merges the facts the provider
  reports (`type`, `slug`, `ip`, `ip_private`) into the server's entry, then
  fills in the credentials that are nil. Each change is written to
  `secrets/configuration.yml` and encrypted again at once.
- On `vagrant provision` and `vagrant status` only, it validates every
  website instance and the repository URI. Each service must list its
  domains in alphabetical order.
- It computes the host names for the developer's hosts file.

The modules follow those parts:

| module | file | what it holds |
|---|---|---|
| `Basics` | basics.dfy | `Option`, `Result`, `Outcome` |
| `RubyStrings` | ruby_strings.dfy | Ruby's `include?`, `index`, `split`, `downcase`, `gsub`, `^…$` line anchors |
| `Ordering` | ordering.dfy | Ruby's string order and `sort` |
| `Cipher` | cipher.dfy | symmetric `gpg` encryption, as a datatype |
| `Branches` | branches.dfy | the branch gate, the pre-commit hook, the branches to create |
| `Settings` | settings.dfy | `gpg_key`, `gpg_edit`, the `company` section |
| `Websites` | websites.dfy | per-instance rules, repository URIs, domain order, hosts |
| `Secrets` | secrets.dfy | the working tree of secrets (`class SecretStore`) and the bootstrap up to the checked decryption |
| `Inventory` | inventory.dfy | the server entries and the `software` entry of an environment |
| `Credentials` | credentials.dfy | the fill-in of nil credentials, as a table of steps |
| `Discovery` | discovery.dfy | provider choice, machine searches, what each provider step writes |
| `Reconciliation` | engine.dfy | the in-place pass over environments (`class Reconciler`) |

The script changes its state in place: the working tree of secrets, and
`@configuration`, which it writes out after each change. Both are modelled
as classes, `Secrets.SecretStore` and `Reconciliation.Reconciler`. Each of
their methods is proved against a function of the old state: `Sealed`,
`Unsealed`, `Compared`, `Refreshed`, `ConfigurationCycled`,
`KeyPairCycled`, `Loaded`, `VboxPick`, `AwsPick`, `AwsReconciled`,
`DropletReconciled`, `EnvironmentReconciled`, `Credentials.Fill` and
`Passed`. The properties of those functions are proved as lemmas.

The script reads none of the exit statuses of its `gpg` runs on `develop`.
Only the final decryption (540-552) checks them. The model does the same:
a decryption the passphrase cannot open writes nothing and the run goes
on, and only `Secrets.Loaded` turns it into an error.

Where a test of the script means something other than what its code does,
the model takes the reading as a parameter, and the script's own run is
the first of each pair:

- `Basics.Reading`: `AsWritten` or `Intended`, for the `gpg_edit` test
  (414) and the key-pair test (503)
- `Websites.Anchoring`: `LineAnchored` or `WholeString`, for the `^…$`
  patterns (2058 and after)
- `Branches.RefMatch`: the substring or the exact ref test (257-276)
- the credential table: `Credentials.AsWrittenSteps` or
  `Credentials.CorrectedSteps` (1942-1971)

The outside world is passed in as parameters:

- the provider listings (`Discovery.Listings`); the DigitalOcean sizes stay nil after a rescued timeout or refused connection (1481-1489), and `any?` on them then crashes (1778)
- the sequence of random values (`random: nat -> string`)
- today's date (`today`)
- the YAML reader and writer (`parse`, `render`)
- the IP-address test (`isIp`)
- the software catalog of the provisioners file (`catalog`)
- the `develop` branch's files (`develop`)

## Model

| member | source | states |
|---|---|---|
| Branches.Gate | catapult/catapult.rb:282-290 | `master` and `release` stop the run; `develop` gets the full secret cycle, `develop-catapult` the pass-through, any other branch only the checked decryption (each an iff) |
| Branches.FirstStagedSecret | catapult/catapult.rb:365-376 | reports a staged secret exactly when one is staged, and the first in the hook's order |
| Branches.PreCommit | catapult/catapult.rb:356-396 | a commit is accepted iff: on `develop-catapult`, VERSION.yml is staged and no secret is; on `develop`/`release`, a secret is staged; or the branch is none of the four. `master` always rejects |
| Branches.PreCommitReadsLines | catapult/catapult.rb:357-358 | cutting git's output, every path followed by a newline (nothing when none is staged), gives back the staged paths |
| Branches.NonEmpty | catapult/catapult.rb:244 | keeps exactly the non-empty lines of the listing |
| Branches.BranchesToCreate | catapult/catapult.rb:244-280 | error iff `master` is not listed; otherwise each of `develop-catapult`, `develop`, `release` is created iff it is not listed, and nothing else is created |
| Branches.ExactRefIsStricter | catapult/catapult.rb:257-276 | a branch found by the exact ref test is found by the substring test too |
| Branches.DevelopMistakenForDevelopCatapult | catapult/catapult.rb:269 | a fork with `develop-catapult` and no `develop` gets no `develop` under the substring test, and gets it under the exact test |
| Cipher.Encrypt | catapult/catapult.rb:443 | the ciphertext is sealed with the given passphrase |
| Cipher.Decrypt | catapult/catapult.rb:540-552 | decryption succeeds iff the content is a message sealed with this passphrase |
| Cipher.DecryptEncrypt | catapult/catapult.rb:443-446 | decrypting with the sealing passphrase gives the plaintext back |
| Cipher.WrongPassphraseFails | catapult/catapult.rb:541-544 | any other passphrase fails |
| Cipher.EncryptionsDiffer | catapult/catapult.rb:452-456 | two encryptions never give the same ciphertext, which is why unchanged files are not re-encrypted |
| Settings.ValidateGpgKey | catapult/catapult.rb:411-413 | accepted iff a string without white space of at least 20 characters; nil, a spaced or a short key gives the gpg_key error |
| Settings.GpgEditAsWritten | catapult/catapult.rb:414-416 | as evaluated: a boolean passes with its value, nil passes as false, a string passes iff it holds white space |
| Settings.GpgEdit | catapult/catapult.rb:414-416 | as intended: accepted iff a boolean, with its value |
| Settings.GpgEditPrecedenceGap | catapult/catapult.rb:414 | nil and `"no way"` pass the written test and fail the intended one |
| Settings.GpgEditRefines | catapult/catapult.rb:414 | whatever the intended test accepts, the written one accepts with the same value |
| Settings.ValidateSettings | catapult/catapult.rb:411-416 | accepted iff the gpg_key is valid and gpg_edit passes the test of the reading: as written, a boolean, nil or a string with white space; as intended, a boolean only. The team's passphrase is the key; edit mode is on for `true` and for any string, which Ruby treats as true (436, 445); the gpg_key complaint comes first |
| Settings.ValidateSettingsRefines | catapult/catapult.rb:411-416 | whatever the intended reading accepts, the written one accepts with the same team |
| Settings.ValidateCompany | catapult/catapult.rb:579-601 | passes iff every required company field is present and the name has at most 39 characters; each complaint iff the fields before it are fine and it is not |
| RubyStrings.IndexFrom | catapult/catapult.rb:2189-2223 | the first occurrence at or after the start, or none at all |
| RubyStrings.DropTrailingEmpty | catapult/catapult.rb:358 | `split` drops exactly the trailing empty fields |
| RubyStrings.SplitOnce | catapult/catapult.rb:2211 | `split(sep, 2)` cuts at the first separator only, and the parts join back to the input |
| RubyStrings.JoinFields | catapult/catapult.rb:2189-2223 | joining the fields of a split gives the text back |
| RubyStrings.FieldsAvoidSep | catapult/catapult.rb:2189-2223 | no field holds the separator |
| RubyStrings.FieldsJoin | catapult/catapult.rb:358 | splitting separator-free parts joined by the separator gives the parts back |
| RubyStrings.SplitOfJoin | catapult/catapult.rb:2189-2223 | the split of `a + sep + b` starts with `a` |
| RubyStrings.Downcase | catapult/catapult.rb:1598 | same length; no upper-case ASCII letter is left, and every other character is where it was |
| RubyStrings.DowncaseIdempotent | catapult/catapult.rb:1598 | lowering twice is lowering once |
| RubyStrings.Replace | catapult/catapult.rb:1598 | same length; `from` no longer occurs (unless it is `to`), and every other character is where it was |
| RubyStrings.ReplaceIdempotent | catapult/catapult.rb:1598 | replacing twice is replacing once |
| RubyStrings.Head | catapult/catapult.rb:1629 | `slice!(0, n)` gives a prefix of `n` characters, or the whole string when it is shorter |
| RubyStrings.WholeMatchIsLineMatch | catapult/catapult.rb:2058 | a whole-string match is a line match |
| Ordering.LexLeTotal | catapult/catapult.rb:2656 | Ruby's string order is total |
| Ordering.LexLeAntisym | catapult/catapult.rb:2656 | and antisymmetric |
| Ordering.LexLeTrans | catapult/catapult.rb:2656 | and transitive |
| Ordering.Sort | catapult/catapult.rb:2656 | the result is sorted and a permutation of the input |
| Ordering.SortedUnique | catapult/catapult.rb:2656-2657 | two sorted permutations of each other are equal, so any sort gives `sort`'s result |
| Ordering.SortIsIdentityIffSorted | catapult/catapult.rb:2657 | `domains != domains.sort` iff the domains are out of order |
| Ordering.SortIdempotent | catapult/catapult.rb:2656 | sorting twice is sorting once |
| Ordering.SortedIffAdjacent | catapult/catapult.rb:2656-2657 | sorted iff every neighbouring pair is in order |
| Websites.Render | catapult/catapult.rb:2116 | a list renders with brackets, so never as `true` |
| Websites.RendersTrue | catapult/catapult.rb:2116 | a value renders as `true` iff it is the boolean true or the string `"true"` |
| Websites.AndThen | catapult/catapult.rb:2054-2184 | the first complaint wins; the checks pass iff both pass |
| Websites.CheckDomain | catapult/catapult.rb:2054-2065 | passes iff no scheme, only domain characters and at most three labels; `://` gives the scheme complaint (iff) |
| Websites.CheckOverride | catapult/catapult.rb:2066-2080 | passes iff absent, or exactly two labels without scheme or other characters |
| Websites.CheckForceAuth | catapult/catapult.rb:2088-2095 | passes iff absent, or 10 to 20 alphanumerics; the length complaint iff outside 10..20 |
| Websites.CheckExclude | catapult/catapult.rb:2097-2112 | an exclude list passes iff its base option is set and it names only environments; without the base option it fails with that complaint (iff) |
| Websites.CheckForceIp | catapult/catapult.rb:2120-2127 | passes iff every listed address is an IP |
| Websites.CheckSoftware | catapult/catapult.rb:2146-2178 | passes iff no software, or offered software with a true auto-update, a clean dbprefix, a list of retained tables and a valid workflow |
| Websites.ValidateInstance | catapult/catapult.rb:2054-2184 | passes iff every per-instance rule holds; a missing domain crashes; a scheme in the domain is the first complaint |
| Websites.WholeStringIsStricter | catapult/catapult.rb:2058-2164 | an instance accepted under whole-string anchors is accepted under Ruby's line anchors |
| Websites.LineAnchorsAdmitSpaces | catapult/catapult.rb:2058 | the domain `"a b\nc"` passes as written and is refused under whole-string anchors |
| Websites.DevHosts | catapult/catapult.rb:2666-2689 | two names per instance, `dev.N` then `www.dev.N`, in order |
| Websites.AcceptedDevHostsAreHostnames | catapult/catapult.rb:2666-2689 | under whole-string anchors, every host name of an accepted instance uses host name characters only |
| Websites.LineAnchoredDevHostBroken | catapult/catapult.rb:2058 | under the script's line anchors the domain `"a b\nc"` is accepted and its host name `dev.a b\nc` holds a space |
| Websites.SplitRepo | catapult/catapult.rb:2189-2223 | either a crash (nil index) or parts whose path holds no `.git` |
| Websites.CheckRepo | catapult/catapult.rb:2225-2234 | a missing repo crashes; passes iff the URI splits and, outside `catapult`, it is SSH on an allowed host |
| Websites.SplitSshRepo | catapult/catapult.rb:2189-2223 | `git@H:O/R.git` splits into `git`, `H`, `O/R` and `[O, R]` |
| Websites.HttpsRepoRefused | catapult/catapult.rb:2225-2234 | an `https://` URI fails outside `catapult` |
| Websites.CatapultRepoExempt | catapult/catapult.rb:2225-2234 | the `catapult` service accepts any URI that splits |
| Websites.CheckInstances | catapult/catapult.rb:2040-2234 | passes iff every instance passes its own rules and its repository check |
| Websites.ValidateService | catapult/catapult.rb:2655-2659 | passes iff the instances pass and their domains are sorted; otherwise the alphabetical complaint |
| Websites.ReorderedServicePasses | catapult/catapult.rb:2655-2659 | putting a passing service's instances in domain order makes it pass |
| Websites.ValidateWebsites | catapult/catapult.rb:2037-2661 | checks nothing unless the command (`ARGV[0]`) is `provision` or `status`; then passes iff every service listing instances passes. The script runs it with `LineAnchored` |
| Websites.ValidateServices | catapult/catapult.rb:2040-2660 | passes iff every service listing instances passes |
| Websites.Lookup | catapult/catapult.rb:2667 | found services come from the list; an unlisted service is nil |
| Websites.DevHostLists | catapult/catapult.rb:2666-2689 | apache and iis host lists, empty when the service is nil |
| Secrets.CheckPair | catapult/catapult.rb:467-483 | fails iff same domain, a committed workflow that changes to `upstream`/`downstream`, and no backup today; the message names the direction |
| Secrets.CheckEdited | catapult/catapult.rb:465-486 | passes iff no committed instance blocks the edited one; a failure comes from one of them |
| Secrets.CheckService | catapult/catapult.rb:462-487 | passes iff no edited instance of the service is blocked; a service the committed file lacks is skipped |
| Secrets.CheckServices | catapult/catapult.rb:460-488 | passes iff every service is clear |
| Secrets.WorkflowGuard | catapult/catapult.rb:458-492 | without `websites` in the edited file it crashes; otherwise it passes iff every service is clear |
| Secrets.NewSitesNeverBlock | catapult/catapult.rb:470 | instances without a committed workflow never block |
| Secrets.BackupUnblocks | catapult/catapult.rb:476 | today's backup lets any change of direction through |
| Secrets.KeysPrecedenceGap | catapult/catapult.rb:503 | a private key beside an empty public key passes the written test and fails the intended one |
| Secrets.KeysMissingAsWrittenRefines | catapult/catapult.rb:503 | whatever the written test stops, the intended one stops |
| Secrets.Sealed | catapult/catapult.rb:443 | when the source exists, the target now opens to it under the key, with a fresh nonce; otherwise nothing changes; no other file changes |
| Secrets.Unsealed | catapult/catapult.rb:448 | when the key opens the source, the target holds its plaintext; otherwise nothing is written, since the exit status is unread; no other file changes |
| Secrets.UnsealedIfMissing | catapult/catapult.rb:446-449 | an existing plaintext is kept; otherwise it exists afterwards iff the key opens the ciphertext, and then holds its plaintext; no other file changes |
| Secrets.Compared | catapult/catapult.rb:450-495 | a failure leaves the nonce; a success removes `.compare`; a missing plaintext or `.compare`, on which `compare_file` raises, stops the run after the decryption alone |
| Secrets.ComparedSynced | catapult/catapult.rb:450-495 | with the plaintext present and a ciphertext the key opens: passes iff the plaintext is unchanged or the check passes; a failure is the check's, with the ciphertext as it was; a success leaves the secret `Synced`; only the ciphertext and `.compare` change |
| Secrets.ComparedFrame | catapult/catapult.rb:450-495 | only the ciphertext and `.compare` change; without a check, only a missing file stops it |
| Secrets.RefreshedSynced | catapult/catapult.rb:446-495 | with a ciphertext the key opens: the plaintext kept or decrypted is compared; passes iff it is unchanged or the check passes; a failure leaves the ciphertext; a success leaves the secret `Synced` |
| Secrets.RefreshedWithoutKey | catapult/catapult.rb:446-495 | with a key that cannot open the ciphertext: a missing plaintext or `.compare` stops the run; a `.compare` left from an earlier run is compared instead, and a plaintext differing from it is encrypted under that key over the ciphertext |
| Secrets.ConfigurationSeeded | catapult/catapult.rb:442-444 | an empty ciphertext beside the template now opens to the template under the key; otherwise nothing changes; no other file changes |
| Secrets.ConfigurationCycleSynced | catapult/catapult.rb:442-499 | after seeding, only the configuration's three files change; edit mode off always goes on, writing the plaintext iff the key opens the ciphertext; in edit mode with a ciphertext the key opens, it fails iff the plaintext changed and the workflow guard refuses it, leaving the seeded ciphertext, and otherwise the configuration is `Synced` |
| Secrets.KeysSeeded | catapult/catapult.rb:502-509 | when a key ciphertext is empty and the keys pass the test, each existing key now opens to its key file; with neither ciphertext empty nothing changes; only the two key ciphertexts change |
| Secrets.PairUnsealed | catapult/catapult.rb:535-538 | when both key ciphertexts open, both keys are written; only the two key files change |
| Secrets.KeyPairEditedSynced | catapult/catapult.rb:510-534 | when both key ciphertexts open, edit mode passes, leaves both keys `Synced` and changes only the six key files |
| Secrets.KeyPairEditedFrame | catapult/catapult.rb:510-534 | edit mode changes only the six key files and stops only on a missing file |
| Secrets.KeyPairCycleSynced | catapult/catapult.rb:500-538 | fails for missing keys iff a key ciphertext is empty and the keys fail the test of the reading, and then changes nothing; any other failure is a missing file in edit mode; with both ciphertexts open, edit mode off writes both keys and edit mode leaves both `Synced` |
| Secrets.Loaded | catapult/catapult.rb:540-552 | succeeds iff the key opens all three ciphertexts, giving the configuration's plaintext and writing both keys; a configuration that does not open stops it first with the tree untouched; only the key files change |
| Secrets.LoadedAfterSync | catapult/catapult.rb:510-552 | after edit mode has synced both keys, the checked decryption rewrites them with what they already hold |
| Secrets.FromDevelop | catapult/catapult.rb:419-430 | each ciphertext `develop` has is taken from it, the others stay; nothing else changes |
| Secrets.BootedChecks | catapult/catapult.rb:282-552 | a protected branch and refused settings stop the run with the tree untouched; a run that succeeds passed both, and its configuration is what the ciphertext left behind opens to |
| Secrets.BootedLoadOnly | catapult/catapult.rb:419-552 | off `develop` and `develop-catapult` the three ciphertexts are not touched |
| Secrets.BootedPassthrough | catapult/catapult.rb:419-430 | on `develop-catapult` the ciphertexts `develop` has are the ones left behind |
| Secrets.BootedFullCycle | catapult/catapult.rb:431-552 | on `develop` the run is the configuration cycle, then the key-pair cycle, then the checked decryption, the first failure ending it |
| Secrets.BootedAfterConfiguration | catapult/catapult.rb:431-552 | on `develop` a failed configuration cycle is the run's result; a run that succeeds keeps the configuration files that cycle left, and its ciphertext opens to the result |
| Secrets.BootedEditCycle | catapult/catapult.rb:431-552 | on `develop` in edit mode, with a configuration the key opens: a change the workflow guard refuses stops the run with the seeded ciphertext in place; a success yields the edited configuration, which the ciphertext opens to and the plaintext holds, the ciphertext rewritten iff it changed |
| Secrets.BootedEditKeys | catapult/catapult.rb:500-552 | on `develop` in edit mode, a run that succeeds leaves both keys `Synced` when their ciphertexts open |
| Secrets.BootedWithWrongKey | catapult/catapult.rb:442-552 | on `develop` with edit mode off and a key that cannot open the configuration: the run still seals empty key ciphertexts under that key and decrypts the keys unchecked, and only the checked decryption stops it |
| Secrets.SecretStore.constructor | catapult/catapult.rb:408 | the tree and passphrase given |
| Secrets.SecretStore.Seal | catapult/catapult.rb:493 | the tree becomes `Sealed`'s: `dst` holds `src` encrypted under the passphrase with the current nonce, which advances; nothing changes when `src` is missing |
| Secrets.SecretStore.Unseal | catapult/catapult.rb:448 | `ok` iff the passphrase opens `src`; the tree becomes `Unsealed`'s, so a failed decryption writes nothing |
| Secrets.SecretStore.Write | catapult/catapult.rb:1697 | `File.open(…, 'w')` (also at 1713, 1729, 1871): the file now holds the content |
| Secrets.SecretStore.Remove | catapult/catapult.rb:495 | the file is gone, nothing else changes |
| Secrets.SecretStore.UnsealIfMissing | catapult/catapult.rb:446-449 | the tree becomes `UnsealedIfMissing`'s |
| Secrets.SecretStore.Compare | catapult/catapult.rb:450-495 | the outcome and the tree are `Compared`'s |
| Secrets.SecretStore.Refresh | catapult/catapult.rb:446-495 | the outcome and the tree are `Refreshed`'s, whose properties `RefreshedSynced` and `RefreshedWithoutKey` state |
| Secrets.SecretStore.SeedConfiguration | catapult/catapult.rb:442-444 | the tree becomes `ConfigurationSeeded`'s |
| Secrets.SecretStore.ConfigurationCycle | catapult/catapult.rb:442-499 | the outcome and the tree are `ConfigurationCycled`'s, whose properties `ConfigurationCycleSynced` states |
| Secrets.SecretStore.KeyPairCycle | catapult/catapult.rb:500-538 | the outcome and the tree are `KeyPairCycled`'s, whose properties `KeyPairCycleSynced` states |
| Secrets.SecretStore.EditKeyPair | catapult/catapult.rb:510-534 | the outcome and the tree are `KeyPairEdited`'s, in the script's order of steps |
| Secrets.SecretStore.DecryptKeyPair | catapult/catapult.rb:535-538 | the tree becomes `PairUnsealed`'s; exit statuses are unread |
| Secrets.SecretStore.Checkout | catapult/catapult.rb:425-427 | takes `develop`'s copy of the file when it has one |
| Secrets.SecretStore.TakeFromDevelop | catapult/catapult.rb:419-430 | the tree becomes `FromDevelop`'s |
| Secrets.SecretStore.Load | catapult/catapult.rb:540-552 | the result and the tree are `Loaded`'s |
| Secrets.Bootstrap | catapult/catapult.rb:282-552 | the result and the tree left behind are `Booted`'s, whose properties the `Booted*` lemmas state |
| Inventory.SetFieldSame | catapult/catapult.rb:1690 | writing a field's own value changes nothing |
| Credentials.Put | catapult/catapult.rb:1859-1870 | crashes iff `merge!` meets nil (a nil `software`, a nil entry extended in place, or a nil entry or `mssql` hash under the SQL Server password steps, 1909 and 1925); otherwise the credential is set to the value |
| Credentials.Value | catapult/catapult.rb:1865-1869 | the environment's name for the SQL Server user; the fixed password in `dev`; a random value elsewhere |
| Credentials.FillStep | catapult/catapult.rb:1859-1872 | a set credential is left alone and draws nothing; a nil one crashes iff `Crashes`, or gets its default, drawing once outside `dev` |
| Credentials.Fill | catapult/catapult.rb:1849-2024 | random draws only grow, and none in `dev` |
| Credentials.PutKeeps | catapult/catapult.rb:1859-2024 | a write that does not replace an entry changes no credential already set |
| Credentials.PutKeepsSlot | catapult/catapult.rb:1859-1870 | writing a nil credential leaves a set credential it spares as it was |
| Credentials.FillKeeps | catapult/catapult.rb:1849-2024 | for a table that never replaces an entry, as `CorrectedSteps` (`CorrectedStepsNoReplace`): a fill run changes no credential already set |
| Credentials.FillKeepsSlot | catapult/catapult.rb:1849-2024 | a set credential that every step spares keeps its value through a run |
| Credentials.SafeTail | catapult/catapult.rb:1849-2024 | dropping the first step keeps a table replacing safely |
| Credentials.FillSetsEverySlot | catapult/catapult.rb:1849-2024 | for a table that replaces safely, as the script's does: after a run that does not crash, every credential of the table is set |
| Credentials.FillWhenSet | catapult/catapult.rb:1849-2024 | with every credential set, a run changes and draws nothing |
| Credentials.FillIdempotent | catapult/catapult.rb:1849-2024 | for a table that replaces safely: a second run changes nothing |
| Credentials.FillFixedValues | catapult/catapult.rb:1894-1901 | for a table that replaces safely: a nil credential ends with its fixed default whatever the random values |
| Credentials.MssqlBlock | catapult/catapult.rb:1893-1936 | on an existing `windows_mssql` entry the three SQL Server steps never crash and leave `software` alone: the `user` step creates the `mssql` hash the password steps extend |
| Credentials.MssqlPasswordNeedsHash | catapult/catapult.rb:1907-1928 | a password step alone crashes on a `windows_mssql` entry without `mssql` |
| Credentials.CrashesIffNoSoftware | catapult/catapult.rb:1978-2024 | the script's table crashes iff the environment has no `software` entry |
| Credentials.RedhatMysqlClobbered | catapult/catapult.rb:1945 | a `redhat_mysql` entry without `mysql` loses its `ip` as written and keeps it corrected |
| Credentials.CorrectedStepsNoReplace | catapult/catapult.rb:1942-1971 | the corrected table never replaces an entry |
| Credentials.AsWrittenStepsReplaceSafely | catapult/catapult.rb:1849-2024 | the script's table replaces safely: every step on an entry that may be replaced writes into the same nested hash |
| Discovery.MachineName | catapult/catapult.rb:1598 | the name is the lowered company, a hyphen, the environment, a hyphen and the role; as long as its parts plus two hyphens; the role part holds no `_` |
| Discovery.RedhatNameFits | catapult/catapult.rb:589-590 | with a company name of at most 39 characters, every redhat machine name fits in 63 characters |
| Discovery.ProviderFor | catapult/catapult.rb:1600-1643 | VirtualBox iff `dev`; AWS iff not `dev` and a `windows*` role; DigitalOcean iff not `dev` and a `redhat*` role |
| Discovery.VboxPick | catapult/catapult.rb:1605-1618 | a machine picked is listed, has the name and is running |
| Discovery.VboxPickIsLastMatch | catapult/catapult.rb:1605-1618 | the last machine with the name decides |
| Discovery.VboxPickNone | catapult/catapult.rb:1605-1618 | no machine with the name, no pick |
| Discovery.StaleEntryHidesRunningMachine | catapult/catapult.rb:1605-1618 | a later non-running entry hides a running machine with the same name |
| Discovery.AwsPick | catapult/catapult.rb:1646-1669 | an instance picked is listed, tagged with the name and running |
| Discovery.AwsPickIsFirstMatch | catapult/catapult.rb:1646-1669 | the first tagged item with the name decides |
| Discovery.AwsPickNone | catapult/catapult.rb:1646-1669 | no item tagged with the name, no pick |
| Discovery.FindVirtualBoxMachine | catapult/catapult.rb:1605-1618 | the loop's result is `VboxPick`; no index, no machine |
| Discovery.FindAwsInstance | catapult/catapult.rb:1646-1669 | the loop with its `break` gives `AwsPick`; no listing, no instance |
| Discovery.FirstNamed | catapult/catapult.rb:1739-1747 | the droplet found has the name; none iff no droplet has it |
| Discovery.DropletPick | catapult/catapult.rb:1739-1747 | trusted iff the first droplet with the name is `active` |
| Discovery.AddressOf | catapult/catapult.rb:1784-1816 | an address iff a network of that kind exists, and it is that network's |
| Discovery.DevChecked | catapult/catapult.rb:1637-1641 | a `dev` server passes iff its entry has `ip`, unchanged |
| Discovery.AwsReconciled | catapult/catapult.rb:1683-1731 | no trusted instance leaves the entry; nil entry crashes iff an instance is trusted; otherwise `type`, `ip`, `ip_private` are the instance's and nothing else changes |
| Discovery.AddressesMerged | catapult/catapult.rb:1784-1816 | crashes iff a public or private network is missing; otherwise both addresses are written and nothing else changes |
| Discovery.DropletReconciled | catapult/catapult.rb:1739-1816 | crash iff nil entry; empty-slug complaint iff no droplet and no slug; a crash iff the sizes list was never fetched and there is a slug to check (1778); invalid-slug complaint iff the fetched sizes are not empty and exclude the slug; otherwise `slug`, `ip`, `ip_private` are the droplet's |
| Discovery.UntrustedLeavesEntry | catapult/catapult.rb:1600-1842 | without a trusted machine the entry stays as it was |
| Discovery.ReconcileIdempotent | catapult/catapult.rb:1600-1842 | a second visit changes nothing |
| Discovery.EnvironmentReconciled | catapult/catapult.rb:1592-1843 | same roles and `software`; each entry is its server's reconciled entry |
| Discovery.EnvironmentIdempotent | catapult/catapult.rb:1592-1843 | visiting the reconciled environment again changes nothing |
| Discovery.ShownId | catapult/catapult.rb:1600-1758 | none for unmanaged roles; otherwise an id iff the provider's search trusts a machine, and then that machine's id, cut to its first 11 characters for VirtualBox (1629) |
| Reconciliation.ReplacedFrame | catapult/catapult.rb:1694 | a replacement keeps every other environment, the `software` entry and every other role's entry as they were; the role now holds the new entry |
| Reconciliation.ReplacedSame | catapult/catapult.rb:1690 | replacing an entry with itself changes nothing |
| Reconciliation.ReplacedTwice | catapult/catapult.rb:1683-1731 | the second replacement wins |
| Reconciliation.EnvironmentPassed | catapult/catapult.rb:1592-2024 | for a credential table (the script's is `Credentials.AsWrittenSteps`), an environment's turn succeeds iff every server reconciles and the fill of the reconciled environment does not crash; draws only grow, and `dev` draws nothing |
| Reconciliation.Passed | catapult/catapult.rb:1587-2025 | for a credential table: the pass keeps the environments' names, only grows the draws, and leaves unnamed environments alone |
| Reconciliation.PassedStep | catapult/catapult.rb:1587-2025 | the pass over one more name is the earlier pass followed by that environment's turn |
| Reconciliation.PassedStops | catapult/catapult.rb:1587-2025 | once a turn fails, the whole pass fails |
| Reconciliation.Reconciler.constructor | catapult/catapult.rb:540-541 | the loaded environments over the store, no random value drawn |
| Reconciliation.Reconciler.Persist | catapult/catapult.rb:1695-1697 | the plaintext holds the rendered configuration and the ciphertext opens to it |
| Reconciliation.Reconciler.WriteField | catapult/catapult.rb:1689-1697 | writes and persists iff the entry does not already hold the value; otherwise nothing changes |
| Reconciliation.Reconciler.MergeAws | catapult/catapult.rb:1683-1731 | the new environments are `AwsReconciled`, or it fails iff that does; the files stay persisted |
| Reconciliation.Reconciler.MergeDroplet | catapult/catapult.rb:1739-1816 | the new environments are `DropletReconciled`, or it fails iff that does |
| Reconciliation.Reconciler.MergeAddresses | catapult/catapult.rb:1784-1816 | the new environments are `AddressesMerged`, or it fails iff that does |
| Reconciliation.Reconciler.ReconcileServer | catapult/catapult.rb:1594-1842 | the entry becomes `ServerReconciled`, or it fails iff that does; the id shown is `ShownId` |
| Reconciliation.Reconciler.ReconcileEnvironment | catapult/catapult.rb:1592-1843 | passes iff every server reconciles, and then the environment is `EnvironmentReconciled`; a failure names a failing role |
| Reconciliation.Reconciler.FillOne | catapult/catapult.rb:1858-1872 | the environment becomes `FillStep`'s and the draws advance with it |
| Reconciliation.Reconciler.FillCredentials | catapult/catapult.rb:1849-2024 | the environment and draws become `Fill`'s, or it fails iff that crashes |
| Reconciliation.Reconciler.PassEnvironment | catapult/catapult.rb:1592-2024 | with the table given, the environment becomes `EnvironmentPassed`'s, or it fails iff that is nothing |
| Reconciliation.Reconciler.Run | catapult/catapult.rb:1587-2025 | with the table given, the environments and draws become `Passed`'s, or it fails iff that is nothing; the files stay persisted |

## Left out

- The REST clients (AWS with its Signature Version 4, DigitalOcean, Bamboo, Bitbucket, GitHub, CloudFlare) are not modelled. Their answers enter as `Discovery.Listings`.
- The repository checks against Bitbucket, GitHub and Bamboo (2236-2648) are not modelled, because they are network calls. `Websites.ValidateWebsites` holds only the checks that read the configuration.
- A `gpg --decrypt` with a passphrase that cannot open its input is taken to leave its output file as it was, since `gpg` fails before it writes any plaintext.
- `gpg` runs as a process. It is modelled by `Cipher`, whose ciphertext records the passphrase and a nonce; no AES is modelled.
- The git commands are not modelled: `git` fetches, checkouts and resets. Their results enter as parameters such as the `ls-remote` output, the staged paths and the `develop` tree.
- The lock file loop (165-176) is not modelled. The interactive prompts at 560-578, which offer to switch `gpg_edit` after the secrets are handled, are not modelled either.
- Plugin installation, operating system detection, `format_repo_size`, the repository status checks and DNS lookups are not modelled. `Resolv` enters only as the `isIp` test.
- `DateTime.now`, `SecureRandom`, `YAML.load` and `to_yaml` enter as parameters: `today`, `random`, `parse` and `render`.
- The write of the AWS instance id into `.vagrant/machines/.../id` (1676-1681) is not modelled, because it only feeds Vagrant.
- The DigitalOcean kernel POST (1818-1841) is not modelled, because it is a foreign call.
- The status rows printed for each server are not modelled. Only the id shown is kept, as `Discovery.ShownId`, cut to 11 characters for VirtualBox as the row cuts it. The machine name's cut to 44 characters (1598) only pads the printed row, and is left out.
- `Downcase` lowers ASCII letters only.
- YAML values are typed only as far as the checks need: `Settings.YamlScalar` and `Websites.Value`.
- A missing key and a key holding nil are one case.
- Reconciliation.Reconciler.ReconcileEnvironment: visits the servers in an arbitrary order, where Ruby follows the hash's insertion order. This is harmless because each server touches only its own entry.
- Reconciliation.Reconciler.Persist: omits the `gpg --decrypt` that precedes each write. Its output is overwritten straight away by the write.
- AWS items lacking `instanceType` or an address element are not modelled. In Ruby, `.text` on such an item crashes.
- Reconciliation.Reconciler.Run: after a fatal error, states only that the files stay persisted and consistent. It does not state which environments were already changed.
- Secrets.Bootstrap: its `tree` is the working tree after the git commands at 293-340, which are not modelled. On `develop-catapult` those commands have already taken the three ciphertexts from `develop` (331-333), before the second checkout at 425-427.
- Secrets.Bootstrap: does not include the `company` check or the reconciliation pass. The `Reconciler` is constructed from the loaded configuration, and `Settings.ValidateCompany` is a separate function.
- The `ip` and `ip_private` writes of an AWS entry (1716-1731) test `ip_private` with a copy of the `ip` test. This typo has no effect in the model, because Ruby's `defined?` is true for any key of a hash.

## Findings

| source | as written | input that shows it | evidently intended | confidence | as-written member | corrected member |
|---|---|---|---|---|---|---|
| catapult/catapult.rb:2058 | `^` and `$` in the character patterns (also at 2072, 2092, 2164) are line anchors in Ruby, so one clean line is enough | domain `"a b\nc"` | the whole value is made of the allowed characters | not executed | Websites.LineAnchorsAdmitSpaces | Websites.WholeStringIsStricter |
| catapult/catapult.rb:2058 | the same line anchors let a domain with white space through to the hosts file names (2666-2689) | domain `"a b\nc"` gives the host `dev.a b\nc` | every host name written uses host name characters | not executed | Websites.LineAnchoredDevHostBroken | Websites.AcceptedDevHostsAreHostnames |
| catapult/catapult.rb:414 | `not` binds looser than `\|\|`, so nil and any value with white space pass the `gpg_edit` check | `gpg_edit` missing, or `"no way"` | only `true` or `false` are accepted | not executed | Settings.GpgEditPrecedenceGap | Settings.GpgEditRefines |
| catapult/catapult.rb:503 | `not File.exist?(id_rsa) \|\| File.zero?(id_rsa.pub)` negates the whole disjunction, so an empty public key beside a private key passes | `secrets/id_rsa` present, `secrets/id_rsa.pub` empty | stop when the private key is missing or the public key is empty | not executed | Secrets.KeysPrecedenceGap | Secrets.KeyPairCycleSynced |
| catapult/catapult.rb:269 | `include?("refs/heads/develop")` also matches `refs/heads/develop-catapult` | a fork with `master`, `develop-catapult` and `release` but no `develop` | `develop` is created | not executed | Branches.DevelopMistakenForDevelopCatapult | Branches.ExactRefIsStricter |
| catapult/catapult.rb:1945 | `servers.merge!("redhat_mysql" => {...})` (also at 1961) replaces the whole entry when `mysql` is missing | a `redhat_mysql` entry holding `ip` but no `mysql` hash | add the `mysql` hash to the entry and keep its other settings | not executed | Credentials.RedhatMysqlClobbered | Credentials.FillKeeps |
