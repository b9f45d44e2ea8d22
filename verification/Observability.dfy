/** internal/observability: named counters that wrap at 64 bits. */
module Observability {
  const JOBS_CREATED := "jobs_created_total"
  const JOBS_APPROVED := "jobs_approved_total"
  const JOBS_REJECTED := "jobs_rejected_total"
  const JOBS_COMPLETED := "jobs_completed_total"
  const JOBS_FAILED := "jobs_failed_total"
  const JOBS_CLAIMED := "jobs_claimed_total"
  const AGENT_RPC_REQUESTS := "agent_rpc_requests_total"
  const AGENT_RPC_FAILURES := "agent_rpc_failures_total"
  const AUDIT_WRITES := "audit_writes_total"

  const UINT64_SIZE: nat := 0x1_0000_0000_0000_0000

  type uint64 = n: nat | n < UINT64_SIZE

  type Counters = map<string, uint64>

  /** Counters that were never incremented read as zero. */
  function Reading(counters: Counters, name: string): uint64
  {
    if name in counters then counters[name] else 0
  }

  /** One increment after another. */
  function Bumped(counters: Counters, names: seq<string>): Counters
  {
    if names == [] then counters
    else
      var before := Bumped(counters, names[..|names| - 1]);
      var name := names[|names| - 1];
      before[name := (Reading(before, name) + 1) % UINT64_SIZE]
  }

  function Occurrences(name: string, names: seq<string>): nat
  {
    if names == [] then 0
    else Occurrences(name, names[..|names| - 1]) + if names[|names| - 1] == name then 1 else 0
  }

  /** Increments commute and wrap: a counter reads its old value plus the number of its increments, modulo 2^64. */
  lemma {:induction false} BumpedReading(counters: Counters, names: seq<string>, name: string)
    ensures Reading(Bumped(counters, names), name) == (Reading(counters, name) + Occurrences(name, names)) % UINT64_SIZE
  {
    if names != [] {
      var before, last := Bumped(counters, names[..|names| - 1]), names[|names| - 1];
      BumpedReading(counters, names[..|names| - 1], name);
      OneMore(Reading(counters, name) + Occurrences(name, names[..|names| - 1]));
      assert last != name ==> Reading(Bumped(counters, names), name) == Reading(before, name);
    }
  }

  lemma OneMore(n: nat)
    ensures (n % UINT64_SIZE + 1) % UINT64_SIZE == (n + 1) % UINT64_SIZE
  {
  }

  lemma {:induction false} BumpedTwice(counters: Counters, first: seq<string>, second: seq<string>)
    ensures Bumped(Bumped(counters, first), second) == Bumped(counters, first + second)
  {
    if second == [] {
      assert first + second == first;
    } else {
      BumpedTwice(counters, first, second[..|second| - 1]);
      assert (first + second)[..|first + second| - 1] == first + second[..|second| - 1];
    }
  }

  class Registry {
    var counters: Counters

    constructor ()
      ensures counters == map[]
    {
      counters := map[];
    }

    method Inc(name: string)
      modifies this
      ensures counters == Bumped(old(counters), [name])
      ensures Reading(counters, name) == (Reading(old(counters), name) + 1) % UINT64_SIZE
      ensures forall other | other != name :: Reading(counters, other) == Reading(old(counters), other)
    {
      var value := Value(name);
      counters := counters[name := (value + 1) % UINT64_SIZE];
      assert [name][..0] == [];
    }

    method Value(name: string) returns (value: uint64)
      ensures value == Reading(counters, name)
    {
      value := if name in counters then counters[name] else 0;
    }
  }
}
