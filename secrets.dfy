/**
 * The encrypted secrets in the working tree: the configuration and the
 * team's SSH key pair, each kept next to its armoured ciphertext. On
 * `develop` the script seeds an empty ciphertext, decrypts, compares with a
 * fresh decryption and re-encrypts only what changed, refusing a change of
 * `software_workflow` direction when today's database backup is missing. On
 * `develop-catapult` it takes the ciphertexts from `develop`. On every
 * branch it ends with a checked decryption.
 */
module Secrets {
  import opened Basics
  import opened Cipher
  import opened Websites
  import opened Branches
  import opened Settings

  const Configuration := "secrets/configuration.yml"
  const ConfigurationCompare := "secrets/configuration.yml.compare"
  const Template := "catapult/installers/templates/configuration.yml.template"
  const PrivateKey := "secrets/id_rsa"
  const PrivateKeyCompare := "secrets/id_rsa.compare"
  const PublicKey := "secrets/id_rsa.pub"
  const PublicKeyCompare := "secrets/id_rsa.pub.compare"

  /** The working tree: the contents of each file that exists. */
  type Files = map<string, Content>

  /** `File.zero?`: the file exists and is empty. */
  predicate IsEmptyFile(fs: Files, p: string)
  {
    p in fs && fs[p] == Plain("")
  }

  /** `p` exists and `key` decrypts it. */
  predicate Opens(key: string, fs: Files, p: string)
  {
    p in fs && Decrypt(key, fs[p]).Some?
  }

  /** The two trees agree on every path outside `ps`. */
  ghost predicate SameOutside(a: Files, b: Files, ps: set<string>)
  {
    forall p :: p !in ps ==> (p in a <==> p in b) && (p in a ==> a[p] == b[p])
  }

  /** The two trees agree on path `p`. */
  predicate SameAt(a: Files, b: Files, p: string)
  {
    (p in a <==> p in b) && (p in a ==> a[p] == b[p])
  }

  datatype CycleError =
    | Undecryptable(path: string)                 // gpg could not decrypt `path`
    | KeysMissing                                 // nothing to seed the encrypted key pair from
    | ToUpstream(domain: string, backup: string)    // downstream to upstream without today's backup
    | ToDownstream(domain: string, backup: string)  // upstream to downstream without today's backup
    | Unreadable                                  // a configuration without `websites` (a method called on nil)
    | Missing(path: string)                       // `FileUtils.compare_file` on a file that does not exist

  // The software_workflow guard.

  /** `repositories/SERVICE/DOMAIN/_sql/YYYYMMDD.sql`, today's database backup of a website. */
  function BackupPath(service: string, domain: Option<string>, today: string): string
  {
    "repositories/" + service + "/" + Text(domain) + "/_sql/" + today + ".sql"
  }

  /**
   * An edited instance turns a committed instance of the same domain, whose
   * workflow is set, to the other direction, and today's backup is missing.
   */
  predicate Blocks(service: string, committed: Instance, edited: Instance, fs: Files, today: string)
  {
    committed.domain == edited.domain && committed.softwareWorkflow.Some? &&
    committed.softwareWorkflow != edited.softwareWorkflow &&
    edited.softwareWorkflow in {Some("upstream"), Some("downstream")} &&
    BackupPath(service, edited.domain, today) !in fs
  }

  /** One committed instance against one edited instance. */
  function CheckPair(service: string, committed: Instance, edited: Instance, fs: Files, today: string)
    : (r: Outcome<CycleError>)
    ensures r.Fail? <==> Blocks(service, committed, edited, fs, today)
    ensures r.Fail? && edited.softwareWorkflow == Some("upstream") ==>
      r.error == ToUpstream(Text(edited.domain), BackupPath(service, edited.domain, today))
    ensures r.Fail? && edited.softwareWorkflow == Some("downstream") ==>
      r.error == ToDownstream(Text(edited.domain), BackupPath(service, edited.domain, today))
  {
    if committed.domain == edited.domain && committed.softwareWorkflow.Some? &&
       committed.softwareWorkflow != edited.softwareWorkflow &&
       BackupPath(service, edited.domain, today) !in fs
    then
      if edited.softwareWorkflow == Some("upstream") then
        Fail(ToUpstream(Text(edited.domain), BackupPath(service, edited.domain, today)))
      else if edited.softwareWorkflow == Some("downstream") then
        Fail(ToDownstream(Text(edited.domain), BackupPath(service, edited.domain, today)))
      else Pass
    else Pass
  }

  /** One edited instance against every committed instance of its service, in order. */
  function CheckEdited(service: string, committed: seq<Instance>, edited: Instance, fs: Files, today: string)
    : (r: Outcome<CycleError>)
    ensures r == Pass <==> forall j :: 0 <= j < |committed| ==> !Blocks(service, committed[j], edited, fs, today)
    ensures r.Fail? ==> exists j :: 0 <= j < |committed| && r == CheckPair(service, committed[j], edited, fs, today)
  {
    if |committed| == 0 then Pass
    else
      var first := CheckPair(service, committed[0], edited, fs, today);
      var rest := CheckEdited(service, committed[1..], edited, fs, today);
      assert forall j :: 1 <= j < |committed| ==> committed[j] == committed[1..][j - 1];
      if first.Fail? then first else rest
  }

  /** No edited instance of the service is blocked by a committed one. */
  predicate ServiceClear(service: string, committed: Option<seq<Instance>>, edited: seq<Instance>, fs: Files, today: string)
  {
    committed.Some? ==>
      forall i, j :: 0 <= i < |edited| && 0 <= j < |committed.value| ==>
        !Blocks(service, committed.value[j], edited[i], fs, today)
  }

  /** Every edited instance of one service; a service the committed file lacks is skipped. */
  function CheckService(service: string, committed: Option<seq<Instance>>, edited: seq<Instance>, fs: Files, today: string)
    : (r: Outcome<CycleError>)
    ensures r == Pass <==> ServiceClear(service, committed, edited, fs, today)
  {
    if |edited| == 0 || committed.None? then Pass
    else
      var first := CheckEdited(service, committed.value, edited[0], fs, today);
      var rest := CheckService(service, committed, edited[1..], fs, today);
      assert forall i :: 1 <= i < |edited| ==> edited[i] == edited[1..][i - 1];
      if first.Fail? then first else rest
  }

  /** Every service of the edited configuration, in the order it lists them. */
  function CheckServices(edited: seq<ServiceEntry>, committed: seq<ServiceEntry>, fs: Files, today: string)
    : (r: Outcome<CycleError>)
    ensures r == Pass <==> forall k :: 0 <= k < |edited| && edited[k].instances.Some? ==>
      ServiceClear(edited[k].service, Lookup(committed, edited[k].service), edited[k].instances.value, fs, today)
  {
    if |edited| == 0 then Pass
    else
      var e := edited[0];
      var rest := CheckServices(edited[1..], committed, fs, today);
      assert forall k :: 1 <= k < |edited| ==> edited[k] == edited[1..][k - 1];
      if e.instances.None? then rest
      else
        var first := CheckService(e.service, Lookup(committed, e.service), e.instances.value, fs, today);
        if first.Fail? then first else rest
  }

  /** A service of the edited configuration with at least one instance. */
  predicate HasInstances(edited: seq<ServiceEntry>)
  {
    exists k :: 0 <= k < |edited| && edited[k].instances.Some? && |edited[k].instances.value| > 0
  }

  /**
   * The guard run before a changed configuration is re-encrypted: `edited`
   * and `committed` are the `websites` of the plaintext and of the fresh
   * decryption (nothing when the file has none), `fs` the working tree.
   */
  function WorkflowGuard(edited: Option<seq<ServiceEntry>>, committed: Option<seq<ServiceEntry>>, fs: Files, today: string)
    : (r: Outcome<CycleError>)
    ensures edited.None? ==> r == Fail(Unreadable)
    ensures edited.Some? && committed.None? ==> (r == Pass <==> !HasInstances(edited.value))
    ensures edited.Some? && committed.Some? ==>
      (r == Pass <==> forall k :: 0 <= k < |edited.value| && edited.value[k].instances.Some? ==>
        ServiceClear(edited.value[k].service, Lookup(committed.value, edited.value[k].service),
                     edited.value[k].instances.value, fs, today))
  {
    if edited.None? then Fail(Unreadable)
    else if committed.None? then (if HasInstances(edited.value) then Fail(Unreadable) else Pass)
    else CheckServices(edited.value, committed.value, fs, today)
  }

  /** No committed instance has a workflow: only new websites. */
  predicate NoCommittedWorkflow(committed: seq<ServiceEntry>)
  {
    forall k, j :: 0 <= k < |committed| && committed[k].instances.Some? && 0 <= j < |committed[k].instances.value| ==>
      committed[k].instances.value[j].softwareWorkflow.None?
  }

  /** Websites whose committed workflow is nil never trip the guard. */
  lemma NewSitesNeverBlock(edited: seq<ServiceEntry>, committed: seq<ServiceEntry>, fs: Files, today: string)
    requires NoCommittedWorkflow(committed)
    ensures WorkflowGuard(Some(edited), Some(committed), fs, today) == Pass
  {
    forall k | 0 <= k < |edited| && edited[k].instances.Some?
      ensures ServiceClear(edited[k].service, Lookup(committed, edited[k].service), edited[k].instances.value, fs, today)
    {
      var found := Lookup(committed, edited[k].service);
      if found.Some? {
        var m :| 0 <= m < |committed| && committed[m] == ServiceEntry(edited[k].service, found);
        forall i, j | 0 <= i < |edited[k].instances.value| && 0 <= j < |found.value|
          ensures !Blocks(edited[k].service, found.value[j], edited[k].instances.value[i], fs, today)
        {
          assert committed[m].instances.value[j].softwareWorkflow.None?;
        }
      }
    }
  }

  /** Today's backup in place lets any change of direction through. */
  lemma BackupUnblocks(service: string, committed: Instance, edited: Instance, fs: Files, today: string)
    requires BackupPath(service, edited.domain, today) in fs
    ensures CheckPair(service, committed, edited, fs, today) == Pass
  {
  }

  /** The key-pair seeding step's fatal test as written: `not (exists id_rsa || zero id_rsa.pub)`. */
  predicate KeysMissingAsWritten(fs: Files)
  {
    !(PrivateKey in fs || IsEmptyFile(fs, PublicKey))
  }

  /** The test its message asks for: the private key is missing or the public key is empty. */
  predicate KeysMissingIntended(fs: Files)
  {
    PrivateKey !in fs || IsEmptyFile(fs, PublicKey)
  }

  /**
   * A private key next to an empty public key: the written test lets it
   * through and the empty public key is encrypted; the intended test stops.
   */
  lemma KeysPrecedenceGap(fs: Files)
    requires PrivateKey in fs && PublicKey in fs && fs[PublicKey] == Plain("")
    ensures !KeysMissingAsWritten(fs) && KeysMissingIntended(fs)
  {
  }

  /** Whatever the written test stops, the intended one stops too. */
  lemma KeysMissingAsWrittenRefines(fs: Files)
    ensures KeysMissingAsWritten(fs) ==> KeysMissingIntended(fs)
  {
  }

  /** The key-pair test the run follows. */
  predicate KeysAbsent(reading: Reading, fs: Files)
  {
    if reading.AsWritten? then KeysMissingAsWritten(fs) else KeysMissingIntended(fs)
  }

  /** The configuration tree once an empty ciphertext has been seeded from the template. */
  predicate Seeds(fs: Files)
  {
    IsEmptyFile(fs, ConfigurationSecret) && Template in fs
  }

  /** The plaintext the edit cycle keeps: the one on disk, else a decryption of the ciphertext. */
  function Edited(key: string, fs: Files, plain: string, cipher: string): Content
    requires Opens(key, fs, cipher)
  {
    if plain in fs then fs[plain] else Decrypt(key, fs[cipher]).value
  }

  /**
   * Edit mode has done its work on one secret between `before` and
   * `after`: the plaintext is the one kept or decrypted, the ciphertext
   * opens to it, the `.compare` copy is gone, and the ciphertext changed
   * exactly when the plaintext differs from what it held.
   */
  ghost predicate Synced(key: string, before: Files, after: Files, plain: string, cipher: string, compare: string)
  {
    Opens(key, before, cipher) &&
    var edited := Edited(key, before, plain, cipher);
    compare !in after && plain in after && after[plain] == edited &&
    cipher in after && Decrypt(key, after[cipher]) == Some(edited) &&
    (after[cipher] != before[cipher] <==> edited != Decrypt(key, before[cipher]).value)
  }

  /** Either key ciphertext is empty: the key-pair seeding step runs. */
  predicate KeysUnsealed(fs: Files)
  {
    IsEmptyFile(fs, PrivateKeySecret) || IsEmptyFile(fs, PublicKeySecret)
  }

  /** A decryption that succeeds on both key ciphertexts of `fs`, written to the key files. */
  function PairDecrypted(key: string, fs: Files): Files
    requires Opens(key, fs, PrivateKeySecret) && Opens(key, fs, PublicKeySecret)
  {
    fs[PrivateKey := Decrypt(key, fs[PrivateKeySecret]).value][PublicKey := Decrypt(key, fs[PublicKeySecret]).value]
  }

  /** The six files of the key pair: keys, ciphertexts and `.compare` copies. */
  const KeyFiles: set<string> :=
    {PrivateKey, PrivateKeySecret, PrivateKeyCompare, PublicKey, PublicKeySecret, PublicKeyCompare}

  // The secrets handling, as functions of the disk.

  /** The working tree and the number of encryptions so far, which numbers the next one. */
  datatype Disk = Disk(files: Files, nonce: nat)

  /** What one part of the secrets handling leaves: its verdict and the disk. */
  datatype Stage = Stage(r: Outcome<CycleError>, d: Disk)

  /** The test a changed plaintext must pass before it is encrypted again: edited, committed, tree. */
  type Check = (Content, Content, Files) -> Outcome<CycleError>

  /** The configuration's test: the `software_workflow` guard on the `websites` of both plaintexts. */
  function Guard(parse: Content -> Option<seq<ServiceEntry>>, today: string): Check
  {
    (e, c, fs) => WorkflowGuard(parse(e), parse(c), fs, today)
  }

  /** The key pair's test: none. */
  function NoCheck(): Check
  {
    (e, c, fs) => Pass
  }

  /** `gpg --symmetric --output dst src`: nothing is written when `src` is missing. */
  function Sealed(key: string, d: Disk, src: string, dst: string): (r: Disk)
    ensures src in d.files ==>
      dst in r.files && Decrypt(key, r.files[dst]) == Some(d.files[src]) && r.nonce == d.nonce + 1
    ensures src !in d.files ==> r == d
    ensures SameOutside(d.files, r.files, {dst})
  {
    if src in d.files then Disk(d.files[dst := Encrypt(key, d.files[src], d.nonce)], d.nonce + 1) else d
  }

  /**
   * `gpg --decrypt --output dst src` with its exit status unread: nothing
   * is written when `key` does not open `src`.
   */
  function Unsealed(key: string, fs: Files, src: string, dst: string): (r: Files)
    ensures Opens(key, fs, src) ==> dst in r && Some(r[dst]) == Decrypt(key, fs[src])
    ensures !Opens(key, fs, src) ==> r == fs
    ensures SameOutside(fs, r, {dst})
  {
    if Opens(key, fs, src) then fs[dst := Decrypt(key, fs[src]).value] else fs
  }

  /** Decrypts `cipher` into `plain` unless `plain` exists. */
  function UnsealedIfMissing(key: string, fs: Files, plain: string, cipher: string): (r: Files)
    ensures plain in fs ==> r == fs
    ensures plain in r <==> plain in fs || Opens(key, fs, cipher)
    ensures Opens(key, fs, cipher) ==> r[plain] == Edited(key, fs, plain, cipher)
    ensures SameOutside(fs, r, {plain})
  {
    if plain in fs then fs else Unsealed(key, fs, cipher, plain)
  }

  /**
   * Decrypts `cipher` into `compare`, its exit status unread, then runs
   * `FileUtils.compare_file`, which raises when either file is missing;
   * when the two differ, runs `check` and encrypts `plain` again. `compare`
   * is removed unless the run stopped.
   */
  function Compared(key: string, d: Disk, plain: string, cipher: string, compare: string, check: Check): (r: Stage)
    ensures r.r.Fail? ==> r.d.nonce == d.nonce
    ensures r.r == Pass ==> compare !in r.d.files
    ensures r.r.Fail? && r.r.error.Missing? ==> r.d.files == Unsealed(key, d.files, cipher, compare)
  {
    var fs := Unsealed(key, d.files, cipher, compare);
    if plain !in fs then Stage(Fail(Missing(plain)), Disk(fs, d.nonce))
    else if compare !in fs then Stage(Fail(Missing(compare)), Disk(fs, d.nonce))
    else if fs[plain] == fs[compare] then Stage(Pass, Disk(fs - {compare}, d.nonce))
    else
      var c := check(fs[plain], fs[compare], fs);
      if c.Fail? then Stage(c, Disk(fs, d.nonce))
      else Stage(Pass, Disk(fs[cipher := Encrypt(key, fs[plain], d.nonce)] - {compare}, d.nonce + 1))
  }

  /** Edit mode for one secret: the plaintext decrypted when missing, then compared. */
  function Refreshed(key: string, d: Disk, plain: string, cipher: string, compare: string, check: Check): Stage
  {
    Compared(key, Disk(UnsealedIfMissing(key, d.files, plain, cipher), d.nonce), plain, cipher, compare, check)
  }

  /**
   * When `key` opens the ciphertext and the plaintext exists, the fresh
   * decryption is what the plaintext is compared with: on success the
   * secret is `Synced`, and a failure is the check's, with the ciphertext
   * as it was.
   */
  lemma ComparedSynced(key: string, d: Disk, plain: string, cipher: string, compare: string, check: Check)
    requires plain != cipher && plain != compare && cipher != compare
    requires plain in d.files && Opens(key, d.files, cipher)
    ensures var s := Compared(key, d, plain, cipher, compare, check);
      var committed := Decrypt(key, d.files[cipher]).value;
      var mid := d.files[compare := committed];
      SameOutside(d.files, s.d.files, {cipher, compare}) &&
      (s.r == Pass <==> d.files[plain] == committed || check(d.files[plain], committed, mid) == Pass) &&
      (s.r.Fail? ==> s.r == check(d.files[plain], committed, mid) && SameAt(d.files, s.d.files, cipher)) &&
      (s.r == Pass ==> Synced(key, d.files, s.d.files, plain, cipher, compare))
  {
    var committed := Decrypt(key, d.files[cipher]).value;
    var mid := d.files[compare := committed];
    assert Unsealed(key, d.files, cipher, compare) == mid;
    var s := Compared(key, d, plain, cipher, compare, check);
    if s.r == Pass && d.files[plain] != committed {
      assert s.d.files[cipher] == Encrypt(key, d.files[plain], d.nonce);
    }
  }

  /**
   * Edit mode for one secret the passphrase opens: on success it is
   * `Synced`; it fails only when the plaintext changed and the check
   * refuses it, and then the ciphertext is as it was.
   */
  lemma RefreshedSynced(key: string, d: Disk, plain: string, cipher: string, compare: string, check: Check)
    requires plain != cipher && plain != compare && cipher != compare
    requires Opens(key, d.files, cipher)
    ensures var s := Refreshed(key, d, plain, cipher, compare, check);
      var edited := Edited(key, d.files, plain, cipher);
      var committed := Decrypt(key, d.files[cipher]).value;
      var mid := d.files[plain := edited][compare := committed];
      SameOutside(d.files, s.d.files, {plain, cipher, compare}) &&
      (s.r == Pass <==> edited == committed || check(edited, committed, mid) == Pass) &&
      (s.r.Fail? ==> s.r == check(edited, committed, mid) && SameAt(d.files, s.d.files, cipher)) &&
      (s.r == Pass ==> Synced(key, d.files, s.d.files, plain, cipher, compare))
  {
    var fs := UnsealedIfMissing(key, d.files, plain, cipher);
    var edited := Edited(key, d.files, plain, cipher);
    assert fs == d.files[plain := edited];
    ComparedSynced(key, Disk(fs, d.nonce), plain, cipher, compare, check);
  }

  /**
   * When `key` cannot open the ciphertext, the fresh decryption writes
   * nothing: a missing plaintext or `.compare` file stops the run, and a
   * `.compare` file left from an earlier run is compared instead, so that a
   * plaintext differing from it is encrypted under `key` over the
   * ciphertext.
   */
  lemma RefreshedWithoutKey(key: string, d: Disk, plain: string, cipher: string, compare: string, check: Check)
    requires plain != cipher && plain != compare && cipher != compare
    requires !Opens(key, d.files, cipher)
    ensures plain !in d.files ==> Refreshed(key, d, plain, cipher, compare, check) == Stage(Fail(Missing(plain)), d)
    ensures plain in d.files && compare !in d.files ==>
      Refreshed(key, d, plain, cipher, compare, check) == Stage(Fail(Missing(compare)), d)
    ensures plain in d.files && compare in d.files ==>
      var s := Refreshed(key, d, plain, cipher, compare, check);
      var stale := d.files[compare];
      (s.r == Pass <==> d.files[plain] == stale || check(d.files[plain], stale, d.files) == Pass) &&
      (s.r == Pass && d.files[plain] != stale ==>
        cipher in s.d.files && s.d.files[cipher] == Encrypt(key, d.files[plain], d.nonce))
  {
  }

  /** `File.zero?` on the configuration ciphertext: the template is encrypted into it. */
  function ConfigurationSeeded(key: string, d: Disk): (r: Disk)
    ensures Seeds(d.files) ==>
      Opens(key, r.files, ConfigurationSecret) && Decrypt(key, r.files[ConfigurationSecret]) == Some(d.files[Template])
    ensures !Seeds(d.files) ==> r == d
    ensures SameOutside(d.files, r.files, {ConfigurationSecret})
  {
    if IsEmptyFile(d.files, ConfigurationSecret) then Sealed(key, d, Template, ConfigurationSecret) else d
  }

  /**
   * The configuration on `develop`: seeding, then in edit mode a refresh
   * guarded by the workflow check, with edit mode off a decryption whose
   * exit status is unread.
   */
  function ConfigurationCycled(key: string, d: Disk, edit: bool, parse: Content -> Option<seq<ServiceEntry>>,
                               today: string): Stage
  {
    var s := ConfigurationSeeded(key, d);
    if edit then Refreshed(key, s, Configuration, ConfigurationSecret, ConfigurationCompare, Guard(parse, today))
    else Stage(Pass, Disk(Unsealed(key, s.files, ConfigurationSecret, Configuration), s.nonce))
  }

  /**
   * Over the seeded tree: only the configuration's three files change;
   * with edit mode off the run goes on whether or not the ciphertext opens;
   * in edit mode with a ciphertext that opens, it fails exactly when the
   * plaintext changed and the workflow guard refuses it, leaving the
   * ciphertext as seeded, and otherwise the configuration is `Synced`.
   */
  lemma ConfigurationCycleSynced(key: string, d: Disk, edit: bool, parse: Content -> Option<seq<ServiceEntry>>,
                                 today: string)
    ensures var seeded := ConfigurationSeeded(key, d).files;
      var c := ConfigurationCycled(key, d, edit, parse, today);
      SameOutside(seeded, c.d.files, {Configuration, ConfigurationSecret, ConfigurationCompare}) &&
      (c.r.Fail? || !edit ==> SameAt(seeded, c.d.files, ConfigurationSecret))
    ensures !edit ==>
      var seeded := ConfigurationSeeded(key, d).files;
      var c := ConfigurationCycled(key, d, edit, parse, today);
      c.r == Pass &&
      (Opens(key, seeded, ConfigurationSecret) ==>
        c.d.files == seeded[Configuration := Decrypt(key, seeded[ConfigurationSecret]).value]) &&
      (!Opens(key, seeded, ConfigurationSecret) ==> c.d.files == seeded)
    ensures edit && Opens(key, ConfigurationSeeded(key, d).files, ConfigurationSecret) ==>
      var seeded := ConfigurationSeeded(key, d).files;
      var c := ConfigurationCycled(key, d, edit, parse, today);
      var edited := Edited(key, seeded, Configuration, ConfigurationSecret);
      var committed := Decrypt(key, seeded[ConfigurationSecret]).value;
      var guard := WorkflowGuard(parse(edited), parse(committed),
                                 seeded[Configuration := edited][ConfigurationCompare := committed], today);
      (c.r == Pass <==> edited == committed || guard == Pass) &&
      (c.r.Fail? ==> c.r == guard) &&
      (c.r == Pass ==> Synced(key, seeded, c.d.files, Configuration, ConfigurationSecret, ConfigurationCompare))
  {
    var s := ConfigurationSeeded(key, d);
    if edit {
      if Opens(key, s.files, ConfigurationSecret) {
        RefreshedSynced(key, s, Configuration, ConfigurationSecret, ConfigurationCompare, Guard(parse, today));
      } else {
        RefreshedWithoutKey(key, s, Configuration, ConfigurationSecret, ConfigurationCompare, Guard(parse, today));
      }
    }
  }

  /** The key-pair seeding step: when either ciphertext is empty and the keys pass the test, both are encrypted. */
  function KeysSeeded(reading: Reading, key: string, d: Disk): (r: Disk)
    ensures SameOutside(d.files, r.files, {PrivateKeySecret, PublicKeySecret})
    ensures KeysUnsealed(d.files) && !KeysAbsent(reading, d.files) && PrivateKey in d.files ==>
      Opens(key, r.files, PrivateKeySecret) && Decrypt(key, r.files[PrivateKeySecret]) == Some(d.files[PrivateKey])
    ensures KeysUnsealed(d.files) && !KeysAbsent(reading, d.files) && PublicKey in d.files ==>
      Opens(key, r.files, PublicKeySecret) && Decrypt(key, r.files[PublicKeySecret]) == Some(d.files[PublicKey])
    ensures !KeysUnsealed(d.files) ==> r == d
  {
    if KeysUnsealed(d.files) && !KeysAbsent(reading, d.files) then
      Sealed(key, Sealed(key, d, PrivateKey, PrivateKeySecret), PublicKey, PublicKeySecret)
    else d
  }

  /** Edit mode off: both keys decrypted, exit statuses unread. */
  function PairUnsealed(key: string, fs: Files): (r: Files)
    ensures Opens(key, fs, PrivateKeySecret) && Opens(key, fs, PublicKeySecret) ==> r == PairDecrypted(key, fs)
    ensures SameOutside(fs, r, {PrivateKey, PublicKey})
  {
    Unsealed(key, Unsealed(key, fs, PrivateKeySecret, PrivateKey), PublicKeySecret, PublicKey)
  }

  /** Edit mode for the key pair: each missing key decrypted, then each compared and encrypted again in turn. */
  function KeyPairEdited(key: string, d: Disk): Stage
  {
    var fs := UnsealedIfMissing(key, UnsealedIfMissing(key, d.files, PrivateKey, PrivateKeySecret), PublicKey, PublicKeySecret);
    var first := Compared(key, Disk(fs, d.nonce), PrivateKey, PrivateKeySecret, PrivateKeyCompare, NoCheck());
    if first.r.Fail? then first
    else Compared(key, first.d, PublicKey, PublicKeySecret, PublicKeyCompare, NoCheck())
  }

  /**
   * The key pair on `develop`: when either ciphertext is empty, stop if the
   * keys fail the test, else encrypt both; then in edit mode `KeyPairEdited`,
   * with edit mode off `PairUnsealed`.
   */
  function KeyPairCycled(reading: Reading, key: string, d: Disk, edit: bool): Stage
  {
    if KeysUnsealed(d.files) && KeysAbsent(reading, d.files) then Stage(Fail(KeysMissing), d)
    else
      var s := KeysSeeded(reading, key, d);
      if edit then KeyPairEdited(key, s) else Stage(Pass, Disk(PairUnsealed(key, s.files), s.nonce))
  }

  /** When the passphrase opens both key ciphertexts, edit mode leaves both keys `Synced`. */
  lemma KeyPairEditedSynced(key: string, d: Disk)
    requires Opens(key, d.files, PrivateKeySecret) && Opens(key, d.files, PublicKeySecret)
    ensures var s := KeyPairEdited(key, d);
      s.r == Pass && SameOutside(d.files, s.d.files, KeyFiles) &&
      Synced(key, d.files, s.d.files, PrivateKey, PrivateKeySecret, PrivateKeyCompare) &&
      Synced(key, d.files, s.d.files, PublicKey, PublicKeySecret, PublicKeyCompare)
  {
    var fs0 := UnsealedIfMissing(key, d.files, PrivateKey, PrivateKeySecret);
    var fs := UnsealedIfMissing(key, fs0, PublicKey, PublicKeySecret);
    assert fs == d.files[PrivateKey := Edited(key, d.files, PrivateKey, PrivateKeySecret)]
                        [PublicKey := Edited(key, d.files, PublicKey, PublicKeySecret)];
    ComparedSynced(key, Disk(fs, d.nonce), PrivateKey, PrivateKeySecret, PrivateKeyCompare, NoCheck());
    var first := Compared(key, Disk(fs, d.nonce), PrivateKey, PrivateKeySecret, PrivateKeyCompare, NoCheck());
    assert SameAt(fs, first.d.files, PublicKey) && SameAt(fs, first.d.files, PublicKeySecret);
    ComparedSynced(key, first.d, PublicKey, PublicKeySecret, PublicKeyCompare, NoCheck());
    var last := Compared(key, first.d, PublicKey, PublicKeySecret, PublicKeyCompare, NoCheck());
    assert SameAt(first.d.files, last.d.files, PrivateKey) && SameAt(first.d.files, last.d.files, PrivateKeySecret);
    assert SameAt(first.d.files, last.d.files, PrivateKeyCompare);
  }

  /**
   * The key pair: the missing-keys stop, under either reading, happens
   * exactly when a ciphertext is empty and the keys fail the test, and
   * changes nothing; only the six key files change; with edit mode off the
   * run goes on whether or not the ciphertexts open; in edit mode, when
   * both open, both keys end `Synced`.
   */
  lemma KeyPairCycleSynced(reading: Reading, key: string, d: Disk, edit: bool)
    ensures var c := KeyPairCycled(reading, key, d, edit);
      (c.r == Fail(KeysMissing) <==> KeysUnsealed(d.files) && KeysAbsent(reading, d.files)) &&
      (c.r == Fail(KeysMissing) ==> c.d == d) &&
      (c.r.Fail? && c.r != Fail(KeysMissing) ==> edit && c.r.error.Missing?) &&
      SameOutside(KeysSeeded(reading, key, d).files, c.d.files, KeyFiles)
    ensures var seeded := KeysSeeded(reading, key, d).files;
      var c := KeyPairCycled(reading, key, d, edit);
      !edit && Opens(key, seeded, PrivateKeySecret) && Opens(key, seeded, PublicKeySecret) ==>
        c.r == Pass && c.d.files == PairDecrypted(key, seeded)
    ensures var seeded := KeysSeeded(reading, key, d).files;
      var c := KeyPairCycled(reading, key, d, edit);
      edit && Opens(key, seeded, PrivateKeySecret) && Opens(key, seeded, PublicKeySecret) ==>
        c.r == Pass &&
        Synced(key, seeded, c.d.files, PrivateKey, PrivateKeySecret, PrivateKeyCompare) &&
        Synced(key, seeded, c.d.files, PublicKey, PublicKeySecret, PublicKeyCompare)
  {
    var s := KeysSeeded(reading, key, d);
    if !(KeysUnsealed(d.files) && KeysAbsent(reading, d.files)) && edit {
      if Opens(key, s.files, PrivateKeySecret) && Opens(key, s.files, PublicKeySecret) {
        KeyPairEditedSynced(key, s);
      }
      KeyPairEditedFrame(key, s);
    }
  }

  /** Edit mode for the key pair touches only the six key files, and stops only on a missing file. */
  lemma KeyPairEditedFrame(key: string, d: Disk)
    ensures var s := KeyPairEdited(key, d);
      SameOutside(d.files, s.d.files, KeyFiles) && (s.r.Fail? ==> s.r.error.Missing?)
  {
    var fs0 := UnsealedIfMissing(key, d.files, PrivateKey, PrivateKeySecret);
    var fs := UnsealedIfMissing(key, fs0, PublicKey, PublicKeySecret);
    var first := Compared(key, Disk(fs, d.nonce), PrivateKey, PrivateKeySecret, PrivateKeyCompare, NoCheck());
    ComparedFrame(key, Disk(fs, d.nonce), PrivateKey, PrivateKeySecret, PrivateKeyCompare, NoCheck());
    ComparedFrame(key, first.d, PublicKey, PublicKeySecret, PublicKeyCompare, NoCheck());
  }

  /** A comparison changes only the ciphertext and the `.compare` copy, and with `NoCheck` stops only on a missing file. */
  lemma ComparedFrame(key: string, d: Disk, plain: string, cipher: string, compare: string, check: Check)
    ensures var s := Compared(key, d, plain, cipher, compare, check);
      SameOutside(d.files, s.d.files, {cipher, compare}) &&
      (check == NoCheck() && s.r.Fail? ==> s.r.error.Missing?)
  {
  }

  /**
   * The checked decryption every branch ends with: the configuration into
   * memory, then each key into its file; the first failure stops the run.
   */
  function Loaded(key: string, fs: Files): (r: (Result<Content, CycleError>, Files))
    ensures r.0.Ok? <==>
      Opens(key, fs, ConfigurationSecret) && Opens(key, fs, PrivateKeySecret) && Opens(key, fs, PublicKeySecret)
    ensures r.0.Ok? ==> r.0.value == Decrypt(key, fs[ConfigurationSecret]).value && r.1 == PairDecrypted(key, fs)
    ensures !Opens(key, fs, ConfigurationSecret) ==> r == (Err(Undecryptable(ConfigurationSecret)), fs)
    ensures r.0.Err? ==> r.0.error.Undecryptable?
    ensures SameOutside(fs, r.1, {PrivateKey, PublicKey})
  {
    if !Opens(key, fs, ConfigurationSecret) then (Err(Undecryptable(ConfigurationSecret)), fs)
    else if !Opens(key, fs, PrivateKeySecret) then (Err(Undecryptable(PrivateKeySecret)), fs)
    else
      var fs1 := Unsealed(key, fs, PrivateKeySecret, PrivateKey);
      if !Opens(key, fs1, PublicKeySecret) then (Err(Undecryptable(PublicKeySecret)), fs1)
      else (Ok(Decrypt(key, fs[ConfigurationSecret]).value), Unsealed(key, fs1, PublicKeySecret, PublicKey))
  }

  /** After edit mode has synced both keys, the checked decryption writes what is already there. */
  lemma LoadedAfterSync(key: string, before: Files, fs: Files)
    requires Synced(key, before, fs, PrivateKey, PrivateKeySecret, PrivateKeyCompare)
    requires Synced(key, before, fs, PublicKey, PublicKeySecret, PublicKeyCompare)
    requires Opens(key, fs, ConfigurationSecret)
    ensures Loaded(key, fs).1 == fs
  {
    assert PairDecrypted(key, fs) == fs;
  }

  /** `git checkout develop -- p`: nothing changes when `develop` has no such file. */
  function CheckedOut(fs: Files, develop: Files, p: string): Files
  {
    if p in develop then fs[p := develop[p]] else fs
  }

  /** `develop-catapult`: the three ciphertexts are taken from `develop`. */
  function FromDevelop(fs: Files, develop: Files): (r: Files)
    ensures forall k :: 0 <= k < |Secrets| && Secrets[k] in develop ==>
      Secrets[k] in r && r[Secrets[k]] == develop[Secrets[k]]
    ensures forall k :: 0 <= k < |Secrets| && Secrets[k] !in develop ==> SameAt(fs, r, Secrets[k])
    ensures SameOutside(fs, r, {ConfigurationSecret, PrivateKeySecret, PublicKeySecret})
  {
    CheckedOut(CheckedOut(CheckedOut(fs, develop, ConfigurationSecret), develop, PrivateKeySecret), develop, PublicKeySecret)
  }

  /** What the branch's path does to the secrets before the checked decryption. */
  function SecretsHandled(reading: Reading, team: Team, path: Path, d: Disk, develop: Files,
                          parse: Content -> Option<seq<ServiceEntry>>, today: string): Stage
  {
    match path
    case LoadOnly => Stage(Pass, d)
    case Passthrough => Stage(Pass, Disk(FromDevelop(d.files, develop), d.nonce))
    case FullCycle =>
      var c := ConfigurationCycled(team.passphrase, d, team.editMode, parse, today);
      if c.r.Fail? then c else KeyPairCycled(reading, team.passphrase, c.d, team.editMode)
  }

  datatype BootError =
    | Protected(gate: GateError)
    | BadSettings(settings: SettingsError)
    | SecretFailure(cycle: CycleError)

  /**
   * From the checked-out branch, the team settings and the working tree to
   * the decrypted configuration and the tree left behind: the branch gate,
   * the settings checks, the branch's secret handling, and the checked
   * decryption.
   */
  function Booted(reading: Reading, branch: string, user: UserSettings, tree: Files, nonce: nat, develop: Files,
                  parse: Content -> Option<seq<ServiceEntry>>, today: string): (Result<Content, BootError>, Files)
  {
    match Gate(branch)
    case Err(e) => (Err(Protected(e)), tree)
    case Ok(path) =>
      match ValidateSettings(reading, user)
      case Err(e) => (Err(BadSettings(e)), tree)
      case Ok(team) =>
        var handled := SecretsHandled(reading, team, path, Disk(tree, nonce), develop, parse, today);
        if handled.r.Fail? then (Err(SecretFailure(handled.r.error)), handled.d.files)
        else
          var loaded := Loaded(team.passphrase, handled.d.files);
          (if loaded.0.Ok? then Ok(loaded.0.value) else Err(SecretFailure(loaded.0.error)), loaded.1)
  }

  /**
   * A protected branch and refused settings stop the run with the tree
   * untouched; a run that succeeds passed both, and its configuration is
   * what the ciphertext it leaves opens to.
   */
  lemma BootedChecks(reading: Reading, branch: string, user: UserSettings, tree: Files, nonce: nat, develop: Files,
                     parse: Content -> Option<seq<ServiceEntry>>, today: string)
    ensures var (r, after) := Booted(reading, branch, user, tree, nonce, develop, parse, today);
      (Gate(branch).Err? ==> r == Err(Protected(Gate(branch).error)) && after == tree) &&
      (Gate(branch).Ok? && ValidateSettings(reading, user).Err? ==>
        r == Err(BadSettings(ValidateSettings(reading, user).error)) && after == tree) &&
      (r.Ok? ==>
        Gate(branch).Ok? && ValidateSettings(reading, user).Ok? && ConfigurationSecret in after &&
        Decrypt(ValidateSettings(reading, user).value.passphrase, after[ConfigurationSecret]) == Some(r.value))
  {
    var (r, after) := Booted(reading, branch, user, tree, nonce, develop, parse, today);
    if r.Ok? {
      var team := ValidateSettings(reading, user).value;
      var handled := SecretsHandled(reading, team, Gate(branch).value, Disk(tree, nonce), develop, parse, today);
      assert SameAt(handled.d.files, after, ConfigurationSecret);
    }
  }

  /** Off `develop` and `develop-catapult`, the three ciphertexts are never touched. */
  lemma BootedLoadOnly(reading: Reading, branch: string, user: UserSettings, tree: Files, nonce: nat, develop: Files,
                       parse: Content -> Option<seq<ServiceEntry>>, today: string)
    requires Gate(branch) == Ok(LoadOnly)
    ensures var after := Booted(reading, branch, user, tree, nonce, develop, parse, today).1;
      forall k :: 0 <= k < |Secrets| ==> SameAt(tree, after, Secrets[k])
  {
  }

  /** On `develop-catapult` with settings accepted, the ciphertexts are `develop`'s. */
  lemma BootedPassthrough(reading: Reading, branch: string, user: UserSettings, tree: Files, nonce: nat, develop: Files,
                          parse: Content -> Option<seq<ServiceEntry>>, today: string)
    requires Gate(branch) == Ok(Passthrough) && ValidateSettings(reading, user).Ok?
    ensures var after := Booted(reading, branch, user, tree, nonce, develop, parse, today).1;
      forall k :: 0 <= k < |Secrets| && Secrets[k] in develop ==> Secrets[k] in after && after[Secrets[k]] == develop[Secrets[k]]
  {
  }

  /** On `develop` with settings accepted: the secret handling, then the checked decryption unless it failed. */
  lemma BootedFullCycle(reading: Reading, branch: string, user: UserSettings, tree: Files, nonce: nat, develop: Files,
                        parse: Content -> Option<seq<ServiceEntry>>, today: string)
    requires Gate(branch) == Ok(FullCycle) && ValidateSettings(reading, user).Ok?
    ensures var team := ValidateSettings(reading, user).value;
      var c := ConfigurationCycled(team.passphrase, Disk(tree, nonce), team.editMode, parse, today);
      var handled := if c.r.Fail? then c else KeyPairCycled(reading, team.passphrase, c.d, team.editMode);
      var loaded := Loaded(team.passphrase, handled.d.files);
      Booted(reading, branch, user, tree, nonce, develop, parse, today) ==
        if handled.r.Fail? then (Err(SecretFailure(handled.r.error)), handled.d.files)
        else (if loaded.0.Ok? then Ok(loaded.0.value) else Err(SecretFailure(loaded.0.error)), loaded.1)
  {
  }

  /**
   * On `develop`, a failed configuration cycle is the run's result; a run
   * that succeeds went through it, and the configuration files it left are
   * still there at the end.
   */
  lemma BootedAfterConfiguration(reading: Reading, branch: string, user: UserSettings, tree: Files, nonce: nat,
                                 develop: Files, parse: Content -> Option<seq<ServiceEntry>>, today: string)
    requires Gate(branch) == Ok(FullCycle) && ValidateSettings(reading, user).Ok?
    ensures var team := ValidateSettings(reading, user).value;
      var c := ConfigurationCycled(team.passphrase, Disk(tree, nonce), team.editMode, parse, today);
      var booted := Booted(reading, branch, user, tree, nonce, develop, parse, today);
      (c.r.Fail? ==> booted == (Err(SecretFailure(c.r.error)), c.d.files)) &&
      (booted.0.Ok? ==>
        c.r == Pass && SameAt(c.d.files, booted.1, ConfigurationSecret) && SameAt(c.d.files, booted.1, Configuration) &&
        ConfigurationSecret in c.d.files && Decrypt(team.passphrase, c.d.files[ConfigurationSecret]) == Some(booted.0.value))
  {
    var team := ValidateSettings(reading, user).value;
    var key := team.passphrase;
    BootedFullCycle(reading, branch, user, tree, nonce, develop, parse, today);
    var c := ConfigurationCycled(key, Disk(tree, nonce), team.editMode, parse, today);
    if c.r == Pass {
      KeyPairCycleSynced(reading, key, c.d, team.editMode);
      var k := KeyPairCycled(reading, key, c.d, team.editMode);
      var keys := KeysSeeded(reading, key, c.d).files;
      assert SameAt(c.d.files, keys, ConfigurationSecret) && SameAt(c.d.files, keys, Configuration);
      assert SameAt(keys, k.d.files, ConfigurationSecret) && SameAt(keys, k.d.files, Configuration);
      if k.r == Pass {
        var loaded := Loaded(key, k.d.files);
        assert SameAt(k.d.files, loaded.1, ConfigurationSecret) && SameAt(k.d.files, loaded.1, Configuration);
      }
    }
  }

  /**
   * `develop` in edit mode, with a configuration ciphertext the passphrase
   * opens once seeded: a change the workflow guard refuses stops the run
   * with the seeded ciphertext in place; a run that succeeds yields the
   * edited configuration, whose ciphertext was rewritten exactly when it
   * changed.
   */
  lemma BootedEditCycle(reading: Reading, branch: string, user: UserSettings, tree: Files, nonce: nat, develop: Files,
                        parse: Content -> Option<seq<ServiceEntry>>, today: string)
    requires Gate(branch) == Ok(FullCycle) && ValidateSettings(reading, user).Ok?
    requires ValidateSettings(reading, user).value.editMode
    requires var key := ValidateSettings(reading, user).value.passphrase;
      Opens(key, ConfigurationSeeded(key, Disk(tree, nonce)).files, ConfigurationSecret)
    ensures var key := ValidateSettings(reading, user).value.passphrase;
      var seeded := ConfigurationSeeded(key, Disk(tree, nonce)).files;
      var edited := Edited(key, seeded, Configuration, ConfigurationSecret);
      var committed := Decrypt(key, seeded[ConfigurationSecret]).value;
      var guard := WorkflowGuard(parse(edited), parse(committed),
                                 seeded[Configuration := edited][ConfigurationCompare := committed], today);
      var booted := Booted(reading, branch, user, tree, nonce, develop, parse, today);
      (edited != committed && guard.Fail? ==>
        booted.0 == Err(SecretFailure(guard.error)) && SameAt(seeded, booted.1, ConfigurationSecret)) &&
      (booted.0.Ok? ==>
        booted.0.value == edited && Configuration in booted.1 && booted.1[Configuration] == edited &&
        ConfigurationSecret in booted.1 && Decrypt(key, booted.1[ConfigurationSecret]) == Some(edited) &&
        (booted.1[ConfigurationSecret] != seeded[ConfigurationSecret] <==> edited != committed))
  {
    var key := ValidateSettings(reading, user).value.passphrase;
    BootedAfterConfiguration(reading, branch, user, tree, nonce, develop, parse, today);
    ConfigurationCycleSynced(key, Disk(tree, nonce), true, parse, today);
  }

  /**
   * `develop` in edit mode: a run that succeeds leaves both keys `Synced`
   * against the tree the key-pair seeding step produced.
   */
  lemma BootedEditKeys(reading: Reading, branch: string, user: UserSettings, tree: Files, nonce: nat, develop: Files,
                       parse: Content -> Option<seq<ServiceEntry>>, today: string)
    requires Gate(branch) == Ok(FullCycle) && ValidateSettings(reading, user).Ok?
    requires ValidateSettings(reading, user).value.editMode
    ensures var key := ValidateSettings(reading, user).value.passphrase;
      var keys := KeysSeeded(reading, key, ConfigurationCycled(key, Disk(tree, nonce), true, parse, today).d).files;
      var booted := Booted(reading, branch, user, tree, nonce, develop, parse, today);
      booted.0.Ok? && Opens(key, keys, PrivateKeySecret) && Opens(key, keys, PublicKeySecret) ==>
        Synced(key, keys, booted.1, PrivateKey, PrivateKeySecret, PrivateKeyCompare) &&
        Synced(key, keys, booted.1, PublicKey, PublicKeySecret, PublicKeyCompare)
  {
    var key := ValidateSettings(reading, user).value.passphrase;
    BootedFullCycle(reading, branch, user, tree, nonce, develop, parse, today);
    var c := ConfigurationCycled(key, Disk(tree, nonce), true, parse, today);
    if c.r == Pass {
      KeyPairCycleSynced(reading, key, c.d, true);
      var k := KeyPairCycled(reading, key, c.d, true);
      var keys := KeysSeeded(reading, key, c.d).files;
      if k.r == Pass && Opens(key, k.d.files, ConfigurationSecret) &&
         Opens(key, keys, PrivateKeySecret) && Opens(key, keys, PublicKeySecret) {
        LoadedAfterSync(key, keys, k.d.files);
      }
    }
  }

  /**
   * `develop` with edit mode off and a passphrase that cannot open the
   * seeded configuration: the run still reaches the key pair, whose
   * ciphertexts are seeded under that passphrase when empty and decrypted
   * without a check, and only the checked decryption stops it.
   */
  lemma BootedWithWrongKey(reading: Reading, branch: string, user: UserSettings, tree: Files, nonce: nat, develop: Files,
                           parse: Content -> Option<seq<ServiceEntry>>, today: string)
    requires Gate(branch) == Ok(FullCycle) && ValidateSettings(reading, user).Ok?
    requires !ValidateSettings(reading, user).value.editMode
    requires var key := ValidateSettings(reading, user).value.passphrase;
      !Opens(key, ConfigurationSeeded(key, Disk(tree, nonce)).files, ConfigurationSecret)
    requires !(KeysUnsealed(tree) && KeysAbsent(reading, tree))
    ensures var key := ValidateSettings(reading, user).value.passphrase;
      var seeded := ConfigurationSeeded(key, Disk(tree, nonce));
      Booted(reading, branch, user, tree, nonce, develop, parse, today) ==
        (Err(SecretFailure(Undecryptable(ConfigurationSecret))), PairUnsealed(key, KeysSeeded(reading, key, seeded).files))
  {
    var key := ValidateSettings(reading, user).value.passphrase;
    var seeded := ConfigurationSeeded(key, Disk(tree, nonce));
    assert SameAt(tree, seeded.files, PrivateKeySecret) && SameAt(tree, seeded.files, PublicKeySecret);
    assert SameAt(tree, seeded.files, PrivateKey) && SameAt(tree, seeded.files, PublicKey);
    assert KeysUnsealed(seeded.files) == KeysUnsealed(tree);
    assert KeysAbsent(reading, seeded.files) == KeysAbsent(reading, tree);
    var fs := PairUnsealed(key, KeysSeeded(reading, key, seeded).files);
    assert SameAt(seeded.files, fs, ConfigurationSecret);
  }

  /** The ciphertexts and plaintexts of the working tree, with the `gpg` runs that read and write them. */
  class SecretStore {
    var files: Files
    var nonce: nat
    const passphrase: string

    constructor(passphrase: string, files: Files, nonce: nat)
      ensures this.passphrase == passphrase && this.files == files && this.nonce == nonce
    {
      this.passphrase := passphrase;
      this.files := files;
      this.nonce := nonce;
    }

    /** The store's disk as a value. */
    function State(): Disk
      reads this
    {
      Disk(files, nonce)
    }

    /** `gpg --symmetric --output dst src`: nothing is written when `src` is missing. */
    method Seal(src: string, dst: string)
      modifies this
      ensures src in old(files) ==>
        files == old(files)[dst := Encrypt(passphrase, old(files)[src], old(nonce))] && nonce == old(nonce) + 1
      ensures src !in old(files) ==> files == old(files) && nonce == old(nonce)
      ensures State() == Sealed(passphrase, old(State()), src, dst)
    {
      if src in files {
        files := files[dst := Encrypt(passphrase, files[src], nonce)];
        nonce := nonce + 1;
      }
    }

    /** `gpg --decrypt --output dst src`: `ok` is its exit status, which only the final decryption reads. */
    method Unseal(src: string, dst: string) returns (ok: bool)
      modifies this
      ensures ok <==> Opens(passphrase, old(files), src)
      ensures files == Unsealed(passphrase, old(files), src, dst) && nonce == old(nonce)
    {
      ok := src in files && Decrypt(passphrase, files[src]).Some?;
      if ok {
        files := files[dst := Decrypt(passphrase, files[src]).value];
      }
    }

    /** `File.open(p, 'w')`: the file now holds `c`. */
    method Write(p: string, c: Content)
      modifies this
      ensures files == old(files)[p := c] && nonce == old(nonce)
    {
      files := files[p := c];
    }

    /** `FileUtils.rm`. */
    method Remove(p: string)
      modifies this
      ensures files == old(files) - {p} && nonce == old(nonce)
    {
      files := files - {p};
    }

    /** Decrypts `cipher` into `plain` unless `plain` already exists. */
    method UnsealIfMissing(plain: string, cipher: string)
      modifies this
      ensures files == UnsealedIfMissing(passphrase, old(files), plain, cipher) && nonce == old(nonce)
    {
      if plain !in files {
        var _ := Unseal(cipher, plain);
      }
    }

    /** See `Compared`. */
    method Compare(plain: string, cipher: string, compare: string, check: Check) returns (r: Outcome<CycleError>)
      modifies this
      ensures Stage(r, State()) == Compared(passphrase, old(State()), plain, cipher, compare, check)
    {
      var _ := Unseal(cipher, compare);
      if plain !in files {
        return Fail(Missing(plain));
      }
      if compare !in files {
        return Fail(Missing(compare));
      }
      if files[plain] != files[compare] {
        r := check(files[plain], files[compare], files);
        if r.Fail? {
          return;
        }
        Seal(plain, cipher);
      }
      Remove(compare);
      r := Pass;
    }

    /** Edit mode for one secret: `UnsealIfMissing` then `Compare`. */
    method Refresh(plain: string, cipher: string, compare: string, check: Check) returns (r: Outcome<CycleError>)
      modifies this
      ensures Stage(r, State()) == Refreshed(passphrase, old(State()), plain, cipher, compare, check)
    {
      UnsealIfMissing(plain, cipher);
      r := Compare(plain, cipher, compare, check);
    }

    /** `File.zero?` on the configuration ciphertext: encrypt the template into it. */
    method SeedConfiguration()
      modifies this
      ensures State() == ConfigurationSeeded(passphrase, old(State()))
    {
      if IsEmptyFile(files, ConfigurationSecret) {
        Seal(Template, ConfigurationSecret);
      }
    }

    /** The configuration on `develop`; see `ConfigurationCycled`. */
    method ConfigurationCycle(edit: bool, parse: Content -> Option<seq<ServiceEntry>>, today: string)
      returns (r: Outcome<CycleError>)
      modifies this
      ensures Stage(r, State()) == ConfigurationCycled(passphrase, old(State()), edit, parse, today)
    {
      SeedConfiguration();
      if edit {
        r := Refresh(Configuration, ConfigurationSecret, ConfigurationCompare, Guard(parse, today));
      } else {
        var _ := Unseal(ConfigurationSecret, Configuration);
        r := Pass;
      }
    }

    /** The key pair on `develop`; see `KeyPairCycled`. */
    method KeyPairCycle(reading: Reading, edit: bool) returns (r: Outcome<CycleError>)
      modifies this
      ensures Stage(r, State()) == KeyPairCycled(reading, passphrase, old(State()), edit)
    {
      if IsEmptyFile(files, PrivateKeySecret) || IsEmptyFile(files, PublicKeySecret) {
        if KeysAbsent(reading, files) {
          return Fail(KeysMissing);
        }
        Seal(PrivateKey, PrivateKeySecret);
        Seal(PublicKey, PublicKeySecret);
      }
      if edit {
        r := EditKeyPair();
      } else {
        DecryptKeyPair();
        r := Pass;
      }
    }

    /** Edit mode for the key pair, in the order the script runs its steps. */
    method EditKeyPair() returns (r: Outcome<CycleError>)
      modifies this
      ensures Stage(r, State()) == KeyPairEdited(passphrase, old(State()))
    {
      UnsealIfMissing(PrivateKey, PrivateKeySecret);
      UnsealIfMissing(PublicKey, PublicKeySecret);
      r := Compare(PrivateKey, PrivateKeySecret, PrivateKeyCompare, NoCheck());
      if r.Fail? {
        return;
      }
      r := Compare(PublicKey, PublicKeySecret, PublicKeyCompare, NoCheck());
    }

    /** Edit mode off: both keys decrypted, exit statuses unread. */
    method DecryptKeyPair()
      modifies this
      ensures files == PairUnsealed(passphrase, old(files)) && nonce == old(nonce)
    {
      var _ := Unseal(PrivateKeySecret, PrivateKey);
      var _ := Unseal(PublicKeySecret, PublicKey);
    }

    /** `git checkout develop -- p`. */
    method Checkout(p: string, develop: Files)
      modifies this
      ensures files == CheckedOut(old(files), develop, p) && nonce == old(nonce)
    {
      if p in develop {
        files := files[p := develop[p]];
      }
    }

    /** `develop-catapult`: the three ciphertexts are taken from `develop`. */
    method TakeFromDevelop(develop: Files)
      modifies this
      ensures files == FromDevelop(old(files), develop) && nonce == old(nonce)
    {
      Checkout(ConfigurationSecret, develop);
      Checkout(PrivateKeySecret, develop);
      Checkout(PublicKeySecret, develop);
    }

    /** The checked decryption; see `Loaded`. */
    method Load() returns (r: Result<Content, CycleError>)
      modifies this
      ensures (r, files) == Loaded(passphrase, old(files)) && nonce == old(nonce)
    {
      if !(ConfigurationSecret in files && Decrypt(passphrase, files[ConfigurationSecret]).Some?) {
        return Err(Undecryptable(ConfigurationSecret));
      }
      var configuration := Decrypt(passphrase, files[ConfigurationSecret]).value;
      var ok := Unseal(PrivateKeySecret, PrivateKey);
      if !ok {
        return Err(Undecryptable(PrivateKeySecret));
      }
      ok := Unseal(PublicKeySecret, PublicKey);
      if !ok {
        return Err(Undecryptable(PublicKeySecret));
      }
      r := Ok(configuration);
    }
  }

  /** The bootstrap run on the working tree; see `Booted`. */
  method Bootstrap(reading: Reading, branch: string, user: UserSettings, tree: Files, nonce: nat, develop: Files,
                   parse: Content -> Option<seq<ServiceEntry>>, today: string)
    returns (r: Result<Content, BootError>, after: Files)
    ensures (r, after) == Booted(reading, branch, user, tree, nonce, develop, parse, today)
  {
    var path;
    match Gate(branch) {
      case Err(e) =>
        return Err(Protected(e)), tree;
      case Ok(p) =>
        path := p;
    }
    var team;
    match ValidateSettings(reading, user) {
      case Err(e) =>
        return Err(BadSettings(e)), tree;
      case Ok(t) =>
        team := t;
    }
    var store := new SecretStore(team.passphrase, tree, nonce);
    if path == Passthrough {
      store.TakeFromDevelop(develop);
    } else if path == FullCycle {
      var cycle := store.ConfigurationCycle(team.editMode, parse, today);
      if cycle.Fail? {
        return Err(SecretFailure(cycle.error)), store.files;
      }
      cycle := store.KeyPairCycle(reading, team.editMode);
      if cycle.Fail? {
        return Err(SecretFailure(cycle.error)), store.files;
      }
    }
    var loaded := store.Load();
    r := if loaded.Ok? then Ok(loaded.value) else Err(SecretFailure(loaded.error));
    after := store.files;
  }
}
