/**
 * The credentials the bootstrap fills in for each environment when they are
 * nil: administrator and database passwords, and the SQL Server user. Each
 * is written once; a value already set is never changed. In `dev` the
 * passwords are fixed well-known values, elsewhere they are random.
 */
module Credentials {
  import opened Basics
  import opened Inventory

  /** How a nested hash that is missing gets created before the key is set. */
  datatype Merge =
    | ReplaceEntry    // `servers.merge!(role => {sub => {key => ""}})`: the whole entry is replaced
    | ExtendEntry     // `servers[role].merge!(sub => {key => ""})`: added to the entry, a nil entry crashes
    | ExtendOrCreate  // added to the entry, or a new entry when there is none
    | ExtendSub       // `servers[role][sub].merge!(key => "")`: a nil entry or nested hash crashes

  /** Where a credential lives. */
  datatype Slot =
    | ServerKey(role: string, key: string)
    | ServerSubKey(role: string, sub: string, key: string, merge: Merge)
    | SoftwareKey(key: string)
    | SoftwareSubKey(sub: string, key: string)

  /** The value written: a fixed password in `dev` (random elsewhere), or the environment's name. */
  datatype Default = Fixed(dev: string) | EnvironmentName

  datatype Step = Step(slot: Slot, default: Default)

  /** `merge!` called on nil: a nil `software`, or a nil entry or nested hash extended in place. */
  datatype FillError = Crash

  /** The credential at `s`, nil when it or anything above it is missing. */
  function Get(e: Environment, s: Slot): Option<string>
  {
    match s
    case ServerKey(role, key) =>
      var en := Entry(e, role);
      if en.Some? && key in en.value.fields then Some(en.value.fields[key]) else None
    case ServerSubKey(role, sub, key, _) =>
      var en := Entry(e, role);
      if en.Some? && sub in en.value.subs && key in en.value.subs[sub] then Some(en.value.subs[sub][key]) else None
    case SoftwareKey(key) =>
      if e.software.Some? && key in e.software.value.fields then Some(e.software.value.fields[key]) else None
    case SoftwareSubKey(sub, key) =>
      if e.software.Some? && sub in e.software.value.subs && key in e.software.value.subs[sub]
      then Some(e.software.value.subs[sub][key]) else None
  }

  /** The nested hash `sub` of an entry, empty when missing. */
  function SubOf(rec: Record, sub: string): map<string, string>
  {
    if sub in rec.subs then rec.subs[sub] else map[]
  }

  const Blank := Record(map[], map[])

  /** Whether writing a nil credential at `s` calls `merge!` on nil. */
  predicate Crashes(e: Environment, s: Slot)
  {
    match s
    case ServerKey(_, _) => false
    case ServerSubKey(role, sub, _, merge) =>
      var en := Entry(e, role);
      (merge == ExtendEntry && en.None?) ||
      (merge == ExtendSub && (en.None? || sub !in en.value.subs))
    case SoftwareKey(_) => e.software.None?
    case SoftwareSubKey(_, _) => e.software.None?
  }

  /**
   * The merge and the assignment the script runs for a nil credential: the
   * missing hashes are created, then `v` is stored at `s`.
   */
  function Put(e: Environment, s: Slot, v: string): (r: Result<Environment, FillError>)
    ensures r.Err? <==> Crashes(e, s)
    ensures r.Ok? ==> Get(r.value, s) == Some(v)
  {
    match s
    case ServerKey(role, key) =>
      var en := Entry(e, role);
      Ok(SetEntry(e, role, SetField(if en.Some? then en.value else Blank, key, v)))
    case ServerSubKey(role, sub, key, merge) =>
      var en := Entry(e, role);
      if en.Some? && sub in en.value.subs then
        Ok(SetEntry(e, role, SetSub(en.value, sub, en.value.subs[sub][key := v])))
      else if merge == ReplaceEntry then
        Ok(SetEntry(e, role, SetSub(Blank, sub, map[key := v])))
      else if merge == ExtendSub || (en.None? && merge == ExtendEntry) then
        Err(Crash)
      else
        Ok(SetEntry(e, role, SetSub(if en.Some? then en.value else Blank, sub, map[key := v])))
    case SoftwareKey(key) =>
      if e.software.None? then Err(Crash)
      else Ok(e.(software := Some(SetField(e.software.value, key, v))))
    case SoftwareSubKey(sub, key) =>
      if e.software.None? then Err(Crash)
      else Ok(e.(software := Some(SetSub(e.software.value, sub, SubOf(e.software.value, sub)[key := v]))))
  }

  /** Whether filling `d` takes a random value. */
  predicate Draws(name: string, d: Default)
  {
    name != "dev" && d.Fixed?
  }

  /** The value written into a nil credential of environment `name`. */
  function Value(name: string, d: Default, random: string): (r: string)
    ensures d.EnvironmentName? ==> r == name
    ensures d.Fixed? && name == "dev" ==> r == d.dev
    ensures Draws(name, d) ==> r == random
  {
    match d
    case EnvironmentName => name
    case Fixed(dev) => if name == "dev" then dev else random
  }

  /**
   * One step: a credential already set is left alone, a nil one is written
   * with its default (the `draws`-th random value outside `dev`).
   */
  function FillStep(name: string, e: Environment, step: Step, random: nat -> string, draws: nat)
    : (r: (Result<Environment, FillError>, nat))
    ensures Get(e, step.slot).Some? ==> r == (Ok(e), draws)
    ensures Get(e, step.slot).None? ==> (r.0.Err? <==> Crashes(e, step.slot))
    ensures r.0.Ok? && Get(e, step.slot).None? ==>
      Get(r.0.value, step.slot) == Some(Value(name, step.default, random(draws))) &&
      r.1 == (if Draws(name, step.default) then draws + 1 else draws)
    ensures r.0.Err? ==> r.1 == draws
  {
    if Get(e, step.slot).Some? then (Ok(e), draws)
    else
      var put := Put(e, step.slot, Value(name, step.default, random(draws)));
      if put.Err? then (put, draws)
      else (put, if Draws(name, step.default) then draws + 1 else draws)
  }

  /** The steps in order; the first crash ends the run. */
  function Fill(name: string, e: Environment, steps: seq<Step>, random: nat -> string, draws: nat)
    : (r: (Result<Environment, FillError>, nat))
    ensures r.1 >= draws
    ensures name == "dev" ==> r.1 == draws
    decreases |steps|
  {
    if |steps| == 0 then (Ok(e), draws)
    else
      var (first, next) := FillStep(name, e, steps[0], random, draws);
      if first.Err? then (first, next)
      else Fill(name, first.value, steps[1..], random, next)
  }

  /** The ten credentials, in the order the script fills them; `redhat` is how it creates `redhat_mysql.mysql`. */
  function CatapultSteps(redhat: Merge): seq<Step>
  {
    WindowsAccounts() + MssqlAccounts() + MysqlAccounts(redhat) + SoftwareAccounts()
  }

  function WindowsAccounts(): seq<Step>
  {
    [ Step(ServerKey("windows", "admin_password"), Fixed("vagrant")),
      Step(ServerKey("windows_mssql", "admin_password"), Fixed("vagrant")) ]
  }

  function MssqlAccounts(): seq<Step>
  {
    [ Step(ServerSubKey("windows_mssql", "mssql", "user", ExtendEntry), EnvironmentName),
      Step(ServerSubKey("windows_mssql", "mssql", "user_password", ExtendSub), Fixed("password")),
      Step(ServerSubKey("windows_mssql", "mssql", "sa_password", ExtendSub), Fixed("drowssap")) ]
  }

  function MysqlAccounts(redhat: Merge): seq<Step>
  {
    [ Step(ServerSubKey("redhat_mysql", "mysql", "user_password", redhat), Fixed("password")),
      Step(ServerSubKey("redhat_mysql", "mysql", "root_password", redhat), Fixed("password")) ]
  }

  function SoftwareAccounts(): seq<Step>
  {
    [ Step(SoftwareKey("admin_password"), Fixed("password")),
      Step(SoftwareSubKey("drupal", "admin_password"), Fixed("password")),
      Step(SoftwareSubKey("wordpress", "admin_password"), Fixed("password")) ]
  }

  /** The steps as the script runs them: a missing `mysql` hash replaces the whole `redhat_mysql` entry. */
  const AsWrittenSteps := CatapultSteps(ReplaceEntry)

  /** The steps as evidently intended: the `mysql` hash is added next to the entry's other settings. */
  const CorrectedSteps := CatapultSteps(ExtendOrCreate)

  // Fill once, and never change a value that is set.

  /** Every credential set in `e` is still set, to the same value, in `e2`. */
  ghost predicate Keeps(e: Environment, e2: Environment)
  {
    forall s :: Get(e, s).Some? ==> Get(e2, s) == Get(e, s)
  }

  /** No step replaces a whole entry. */
  predicate NoReplace(steps: seq<Step>)
  {
    forall k :: 0 <= k < |steps| ==> !(steps[k].slot.ServerSubKey? && steps[k].slot.merge == ReplaceEntry)
  }

  /** A slot of the server entry `role`. */
  predicate OnRole(s: Slot, role: string)
  {
    (s.ServerKey? || s.ServerSubKey?) && s.role == role
  }

  /**
   * Writing at `s` cannot wipe `t` once `t` is set: either `s` never replaces
   * its entry, or `t` lives in the same nested hash, whose presence stops the
   * replacement.
   */
  predicate Spares(s: Slot, t: Slot)
  {
    s.ServerSubKey? && s.merge == ReplaceEntry && OnRole(t, s.role) ==> t.ServerSubKey? && t.sub == s.sub
  }

  /**
   * Every step on the entry of a step that may replace it writes into the
   * same nested hash. The script's table is of this kind (`redhat_mysql` is
   * only touched through `mysql`).
   */
  predicate ReplacesSafely(steps: seq<Step>)
  {
    forall i, j :: 0 <= i < |steps| && 0 <= j < |steps| ==> Spares(steps[j].slot, steps[i].slot)
  }

  /** Writing a nil credential at `s` leaves a set credential `t` that it spares as it was. */
  lemma PutKeepsSlot(e: Environment, s: Slot, v: string, t: Slot)
    requires Get(e, s).None? && !Crashes(e, s)
    requires Get(e, t).Some? && Spares(s, t)
    ensures Get(Put(e, s, v).value, t) == Get(e, t)
  {
    match t
    case ServerKey(role, key) =>
    case ServerSubKey(role, sub, key, _) =>
    case SoftwareKey(key) =>
    case SoftwareSubKey(sub, key) =>
  }

  /** A set credential that every step spares keeps its value through a run. */
  lemma {:induction false} FillKeepsSlot(name: string, e: Environment, steps: seq<Step>, random: nat -> string, draws: nat, t: Slot)
    requires Get(e, t).Some?
    requires forall j :: 0 <= j < |steps| ==> Spares(steps[j].slot, t)
    requires Fill(name, e, steps, random, draws).0.Ok?
    ensures Get(Fill(name, e, steps, random, draws).0.value, t) == Get(e, t)
    decreases |steps|
  {
    if |steps| > 0 {
      var (first, next) := FillStep(name, e, steps[0], random, draws);
      if Get(e, steps[0].slot).None? {
        assert Spares(steps[0].slot, t);
        PutKeepsSlot(e, steps[0].slot, Value(name, steps[0].default, random(draws)), t);
      }
      forall j | 0 <= j < |steps[1..]| ensures Spares(steps[1..][j].slot, t) {
        assert steps[1..][j] == steps[j + 1];
      }
      FillKeepsSlot(name, first.value, steps[1..], random, next, t);
    }
  }

  /** Dropping the first step keeps a table safe. */
  lemma SafeTail(steps: seq<Step>)
    requires |steps| > 0 && ReplacesSafely(steps)
    ensures ReplacesSafely(steps[1..])
  {
    forall i, j | 0 <= i < |steps[1..]| && 0 <= j < |steps[1..]| ensures Spares(steps[1..][j].slot, steps[1..][i].slot) {
      assert steps[1..][i] == steps[i + 1] && steps[1..][j] == steps[j + 1];
    }
  }

  /** Writing a nil credential, unless it replaces a whole entry, changes no credential that is set. */
  lemma PutKeeps(e: Environment, s: Slot, v: string)
    requires Get(e, s).None? && !Crashes(e, s)
    requires !(s.ServerSubKey? && s.merge == ReplaceEntry)
    ensures Keeps(e, Put(e, s, v).value)
  {
    var e2 := Put(e, s, v).value;
    forall t | Get(e, t).Some?
      ensures Get(e2, t) == Get(e, t)
    {
      match t
      case ServerKey(role, key) =>
      case ServerSubKey(role, sub, key, _) =>
      case SoftwareKey(key) =>
      case SoftwareSubKey(sub, key) =>
    }
  }

  lemma {:induction false} FillKeeps(name: string, e: Environment, steps: seq<Step>, random: nat -> string, draws: nat)
    requires NoReplace(steps)
    requires Fill(name, e, steps, random, draws).0.Ok?
    ensures Keeps(e, Fill(name, e, steps, random, draws).0.value)
    decreases |steps|
  {
    if |steps| > 0 {
      var (first, next) := FillStep(name, e, steps[0], random, draws);
      if Get(e, steps[0].slot).None? {
        PutKeeps(e, steps[0].slot, Value(name, steps[0].default, random(draws)));
      }
      assert NoReplace(steps[1..]) by {
        forall k | 0 <= k < |steps[1..]| ensures !(steps[1..][k].slot.ServerSubKey? && steps[1..][k].slot.merge == ReplaceEntry) {
          assert steps[1..][k] == steps[k + 1];
        }
      }
      FillKeeps(name, first.value, steps[1..], random, next);
    }
  }

  /**
   * After a run that does not crash, every credential of the table is set;
   * this holds for the script's table, which may replace `redhat_mysql`.
   */
  lemma {:induction false} FillSetsEverySlot(name: string, e: Environment, steps: seq<Step>, random: nat -> string, draws: nat)
    requires ReplacesSafely(steps)
    requires Fill(name, e, steps, random, draws).0.Ok?
    ensures forall k :: 0 <= k < |steps| ==> Get(Fill(name, e, steps, random, draws).0.value, steps[k].slot).Some?
    decreases |steps|
  {
    if |steps| > 0 {
      var (first, next) := FillStep(name, e, steps[0], random, draws);
      SafeTail(steps);
      FillSetsEverySlot(name, first.value, steps[1..], random, next);
      forall j | 0 <= j < |steps[1..]| ensures Spares(steps[1..][j].slot, steps[0].slot) {
        assert steps[1..][j] == steps[j + 1];
      }
      FillKeepsSlot(name, first.value, steps[1..], random, next, steps[0].slot);
      var last := Fill(name, e, steps, random, draws).0.value;
      forall k | 0 <= k < |steps|
        ensures Get(last, steps[k].slot).Some?
      {
        if k > 0 {
          assert steps[k] == steps[1..][k - 1];
        }
      }
    }
  }

  /** When every credential of the table is set, a run changes nothing and draws nothing. */
  lemma {:induction false} FillWhenSet(name: string, e: Environment, steps: seq<Step>, random: nat -> string, draws: nat)
    requires forall k :: 0 <= k < |steps| ==> Get(e, steps[k].slot).Some?
    ensures Fill(name, e, steps, random, draws) == (Ok(e), draws)
    decreases |steps|
  {
    if |steps| > 0 {
      assert Get(e, steps[0].slot).Some?;
      forall k | 0 <= k < |steps[1..]| ensures Get(e, steps[1..][k].slot).Some? {
        assert steps[1..][k] == steps[k + 1];
      }
      FillWhenSet(name, e, steps[1..], random, draws);
    }
  }

  /** A second run over the configuration the first one produced changes nothing. */
  lemma FillIdempotent(name: string, e: Environment, steps: seq<Step>, random: nat -> string, draws: nat, later: nat)
    requires ReplacesSafely(steps)
    requires Fill(name, e, steps, random, draws).0.Ok?
    ensures var filled := Fill(name, e, steps, random, draws).0.value;
      Fill(name, filled, steps, random, later) == (Ok(filled), later)
  {
    FillSetsEverySlot(name, e, steps, random, draws);
    FillWhenSet(name, Fill(name, e, steps, random, draws).0.value, steps, random, later);
  }

  /**
   * A credential that was nil ends with its default: the environment's
   * name for the SQL Server user anywhere, the fixed password in `dev`,
   * whatever the random values. The earlier steps name other credentials.
   */
  lemma {:induction false} FillFixedValues(name: string, e: Environment, steps: seq<Step>, random: nat -> string, draws: nat, k: nat)
    requires ReplacesSafely(steps)
    requires k < |steps| && forall i :: 0 <= i < k ==> !SamePlace(steps[i].slot, steps[k].slot)
    requires name == "dev" || steps[k].default.EnvironmentName?
    requires Fill(name, e, steps, random, draws).0.Ok?
    ensures Get(Fill(name, e, steps, random, draws).0.value, steps[k].slot) ==
      if Get(e, steps[k].slot).Some? then Get(e, steps[k].slot)
      else Some(Value(name, steps[k].default, ""))
    decreases |steps|
  {
    var (first, next) := FillStep(name, e, steps[0], random, draws);
    SafeTail(steps);
    if k == 0 {
      forall j | 0 <= j < |steps[1..]| ensures Spares(steps[1..][j].slot, steps[0].slot) {
        assert steps[1..][j] == steps[j + 1];
      }
      FillKeepsSlot(name, first.value, steps[1..], random, next, steps[0].slot);
    } else {
      if Get(e, steps[0].slot).None? && Get(e, steps[k].slot).Some? {
        assert Spares(steps[0].slot, steps[k].slot);
        PutKeepsSlot(e, steps[0].slot, Value(name, steps[0].default, random(draws)), steps[k].slot);
      }
      assert steps[k] == steps[1..][k - 1];
      forall i | 0 <= i < k - 1 ensures !SamePlace(steps[1..][i].slot, steps[1..][k - 1].slot) {
        assert steps[1..][i] == steps[i + 1];
      }
      FillFixedValues(name, first.value, steps[1..], random, next, k - 1);
      if Get(e, steps[k].slot).None? && Get(e, steps[0].slot).None? {
        PutSlotOnly(e, steps[0].slot, steps[k].slot, Value(name, steps[0].default, random(draws)));
      }
    }
  }

  /** Two slots name the same credential (the merge rule aside). */
  predicate SamePlace(s: Slot, t: Slot)
  {
    match s
    case ServerSubKey(role, sub, key, _) => t.ServerSubKey? && t.role == role && t.sub == sub && t.key == key
    case _ => s == t
  }

  /** Writing at `s` leaves every other nil credential nil. */
  lemma PutSlotOnly(e: Environment, s: Slot, t: Slot, v: string)
    requires !SamePlace(s, t) && Get(e, t).None?
    requires Get(e, s).None? && !Crashes(e, s)
    ensures Get(Put(e, s, v).value, t).None?
  {
  }

  /** Filling a credential never removes a server entry. */
  lemma StepKeepsEntry(name: string, e: Environment, step: Step, random: nat -> string, draws: nat, role: string)
    requires Entry(e, role).Some? && FillStep(name, e, step, random, draws).0.Ok?
    ensures Entry(FillStep(name, e, step, random, draws).0.value, role).Some?
  {
  }

  /** Filling a server credential leaves `software` as it is. */
  lemma ServerStepKeepsSoftware(name: string, e: Environment, step: Step, random: nat -> string, draws: nat)
    requires step.slot.ServerKey? || step.slot.ServerSubKey?
    requires FillStep(name, e, step, random, draws).0.Ok?
    ensures FillStep(name, e, step, random, draws).0.value.software == e.software
  {
  }

  /** Running `a` then `b` is running `a`, then `b` on its result unless it crashed. */
  lemma {:induction false} FillAppend(name: string, e: Environment, a: seq<Step>, b: seq<Step>, random: nat -> string, draws: nat)
    ensures var first := Fill(name, e, a, random, draws);
      Fill(name, e, a + b, random, draws) ==
        if first.0.Err? then first else Fill(name, first.0.value, b, random, first.1)
    decreases |a|
  {
    if |a| > 0 {
      assert (a + b)[0] == a[0] && (a + b)[1..] == a[1..] + b;
      var (r1, d1) := FillStep(name, e, a[0], random, draws);
      if r1.Ok? {
        FillAppend(name, r1.value, a[1..], b, random, d1);
      }
    } else {
      assert a + b == b;
    }
  }

  /** Running the first `i + 1` steps is running the first `i`, then step `i`. */
  lemma FillPrefixStep(name: string, e: Environment, steps: seq<Step>, i: nat, random: nat -> string, draws: nat)
    requires i < |steps|
    ensures var before := Fill(name, e, steps[..i], random, draws);
      Fill(name, e, steps[..i + 1], random, draws) ==
        if before.0.Err? then before else FillStep(name, before.0.value, steps[i], random, before.1)
  {
    FillAppend(name, e, steps[..i], [steps[i]], random, draws);
    assert steps[..i] + [steps[i]] == steps[..i + 1];
  }

  /** A crash in the first `i` steps is the result of all of them. */
  lemma FillStopsAt(name: string, e: Environment, steps: seq<Step>, i: nat, random: nat -> string, draws: nat)
    requires i <= |steps| && Fill(name, e, steps[..i], random, draws).0.Err?
    ensures Fill(name, e, steps, random, draws) == Fill(name, e, steps[..i], random, draws)
  {
    FillAppend(name, e, steps[..i], steps[i..], random, draws);
    assert steps[..i] + steps[i..] == steps;
  }

  /** A server step that may extend an entry in place. */
  predicate Extends(step: Step)
  {
    step.slot.ServerSubKey? && step.slot.merge == ExtendEntry
  }

  /** A server step that does not need its nested hash to exist already. */
  predicate ServerStep(step: Step)
  {
    step.slot.ServerKey? || (step.slot.ServerSubKey? && step.slot.merge != ExtendSub)
  }

  /**
   * Server steps never crash when every entry extended in place exists,
   * and leave `software` as it is.
   */
  lemma {:induction false} ServerStepsSafe(name: string, e: Environment, steps: seq<Step>, random: nat -> string, draws: nat)
    requires forall k :: 0 <= k < |steps| ==> ServerStep(steps[k])
    requires forall k :: 0 <= k < |steps| && Extends(steps[k]) ==> Entry(e, steps[k].slot.role).Some?
    ensures Fill(name, e, steps, random, draws).0.Ok?
    ensures Fill(name, e, steps, random, draws).0.value.software == e.software
    decreases |steps|
  {
    if |steps| > 0 {
      var (r1, d1) := FillStep(name, e, steps[0], random, draws);
      assert ServerStep(steps[0]);
      forall k | 0 <= k < |steps[1..]|
        ensures ServerStep(steps[1..][k])
        ensures Extends(steps[1..][k]) ==> Entry(r1.value, steps[1..][k].slot.role).Some?
      {
        assert steps[1..][k] == steps[k + 1];
        if Extends(steps[k + 1]) {
          StepKeepsEntry(name, e, steps[0], random, draws, steps[k + 1].slot.role);
        }
      }
      ServerStepsSafe(name, r1.value, steps[1..], random, d1);
    }
  }

  /** The software steps crash exactly when there is no `software` entry. */
  lemma SoftwareBlock(name: string, e: Environment, random: nat -> string, draws: nat)
    ensures Fill(name, e, SoftwareAccounts(), random, draws).0.Err? <==> e.software.None?
  {
    var s := SoftwareAccounts();
    var (r8, d8) := FillStep(name, e, s[0], random, draws);
    if e.software.Some? {
      var (r9, d9) := FillStep(name, r8.value, s[1], random, d8);
      var (r10, d10) := FillStep(name, r9.value, s[2], random, d9);
      assert s[1..][1..][1..] == [];
    }
  }

  /**
   * The SQL Server steps never crash on an existing `windows_mssql` entry:
   * the `user` step creates the `mssql` hash the two password steps extend.
   */
  lemma MssqlBlock(name: string, e: Environment, random: nat -> string, draws: nat)
    requires Entry(e, "windows_mssql").Some?
    ensures var r := Fill(name, e, MssqlAccounts(), random, draws);
      r.0.Ok? && r.0.value.software == e.software
  {
    var m := MssqlAccounts();
    var (r1, d1) := FillStep(name, e, m[0], random, draws);
    var (r2, d2) := FillStep(name, r1.value, m[1], random, d1);
    var (r3, d3) := FillStep(name, r2.value, m[2], random, d2);
    assert m[1..][1..][1..] == [];
  }

  /**
   * A password step alone crashes on a `windows_mssql` entry without the
   * `mssql` hash, whatever the entry holds otherwise.
   */
  lemma MssqlPasswordNeedsHash(name: string, e: Environment, random: nat -> string, draws: nat)
    requires Entry(e, "windows_mssql").Some? && "mssql" !in Entry(e, "windows_mssql").value.subs
    ensures FillStep(name, e, MssqlAccounts()[1], random, draws).0.Err?
    ensures FillStep(name, e, MssqlAccounts()[2], random, draws).0.Err?
  {
  }

  /** The server steps never crash and leave `software` as it is. */
  lemma ServerBlocks(name: string, e: Environment, random: nat -> string, draws: nat, redhat: Merge)
    requires redhat == ReplaceEntry || redhat == ExtendOrCreate
    ensures var r := Fill(name, e, WindowsAccounts() + (MssqlAccounts() + MysqlAccounts(redhat)), random, draws);
      r.0.Ok? && r.0.value.software == e.software
  {
    var w, m, y := WindowsAccounts(), MssqlAccounts(), MysqlAccounts(redhat);
    ServerStepsSafe(name, e, w, random, draws);
    var (e1, d1) := Fill(name, e, w, random, draws);
    FillSetsEverySlot(name, e, w, random, draws);
    assert Get(e1.value, w[1].slot).Some?;
    MssqlBlock(name, e1.value, random, d1);
    var (e2, d2) := Fill(name, e1.value, m, random, d1);
    ServerStepsSafe(name, e2.value, y, random, d2);
    FillAppend(name, e, w, m + y, random, draws);
    FillAppend(name, e1.value, m, y, random, d1);
  }

  /**
   * With the script's table, either way of creating `redhat_mysql.mysql`,
   * a run crashes exactly when the environment has no `software` entry.
   */
  lemma CrashesIffNoSoftware(name: string, e: Environment, random: nat -> string, draws: nat, redhat: Merge)
    requires redhat == ReplaceEntry || redhat == ExtendOrCreate
    ensures Fill(name, e, CatapultSteps(redhat), random, draws).0.Err? <==> e.software.None?
  {
    var servers := WindowsAccounts() + (MssqlAccounts() + MysqlAccounts(redhat));
    assert CatapultSteps(redhat) == servers + SoftwareAccounts();
    ServerBlocks(name, e, random, draws, redhat);
    FillAppend(name, e, servers, SoftwareAccounts(), random, draws);
    var r := Fill(name, e, servers, random, draws);
    SoftwareBlock(name, r.0.value, random, r.1);
  }

  /**
   * A `redhat_mysql` entry holding settings but no `mysql` hash: the step
   * as written drops those settings, the corrected step keeps them.
   */
  lemma RedhatMysqlClobbered(name: string, e: Environment, random: nat -> string, draws: nat, ip: string)
    requires Entry(e, "redhat_mysql") == Some(Record(map["ip" := ip], map[]))
    ensures var written := FillStep(name, e, AsWrittenSteps[5], random, draws).0;
      written.Ok? && Get(written.value, ServerKey("redhat_mysql", "ip")).None?
    ensures var corrected := FillStep(name, e, CorrectedSteps[5], random, draws).0;
      corrected.Ok? && Get(corrected.value, ServerKey("redhat_mysql", "ip")) == Some(ip)
  {
    assert Get(e, ServerKey("redhat_mysql", "ip")) == Some(ip);
    assert Get(e, AsWrittenSteps[5].slot).None?;
    PutKeeps(e, CorrectedSteps[5].slot, Value(name, CorrectedSteps[5].default, random(draws)));
  }

  /** The corrected table never replaces an entry, so the general lemmas apply to it. */
  lemma CorrectedStepsNoReplace()
    ensures NoReplace(CorrectedSteps)
  {
  }

  /** The script's table replaces safely: both `redhat_mysql` steps write into `mysql`. */
  lemma AsWrittenStepsReplaceSafely()
    ensures ReplacesSafely(AsWrittenSteps)
  {
  }
}
