/**
 * The part of `environments` in `secrets/configuration.yml` that the
 * bootstrap writes back: per environment, the `servers` hash and the
 * `software` hash. A key that is absent and a key holding nil are the same
 * thing to the script; both are "not in the map" here.
 */
module Inventory {
  import opened Basics

  /** A server entry or the `software` entry: string settings, and one level of nested hashes. */
  datatype Record = Record(fields: map<string, string>, subs: map<string, map<string, string>>)

  /** One environment: its servers by role (an entry may be nil), and its `software` entry. */
  datatype Environment = Environment(servers: map<string, Option<Record>>, software: Option<Record>)

  /** `servers[role]`: nil when the role is absent or holds nil. */
  function Entry(e: Environment, role: string): (r: Option<Record>)
  {
    if role in e.servers then e.servers[role] else None
  }

  /** The record with setting `k` set to `v`. */
  function SetField(rec: Record, k: string, v: string): (r: Record)
  {
    rec.(fields := rec.fields[k := v])
  }

  /** The record with nested hash `sub` replaced by `m`. */
  function SetSub(rec: Record, sub: string, m: map<string, string>): (r: Record)
  {
    rec.(subs := rec.subs[sub := m])
  }

  /** The environment with entry `role` replaced. */
  function SetEntry(e: Environment, role: string, rec: Record): (r: Environment)
  {
    e.(servers := e.servers[role := Some(rec)])
  }

  /** Setting a field to the value it already holds changes nothing. */
  lemma SetFieldSame(rec: Record, k: string)
    requires k in rec.fields
    ensures SetField(rec, k, rec.fields[k]) == rec
  {
    assert rec.fields[k := rec.fields[k]] == rec.fields;
  }
}
