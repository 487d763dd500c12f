/** The registry of schedule registrations (src/scheduler_actor.rs): per key, the version of
    the registration that counts and the scheduler job it committed. */
module ScheduleRegistry {
  import opened Basics

  type Key = string
  type JobId = nat

  /** Versions are u64 and saturate. */
  const VERSION_MAX: nat := 0xFFFF_FFFF_FFFF_FFFF

  datatype TrackedJob = TrackedJob(version: nat, jobId: Option<JobId>)

  type Jobs = map<Key, TrackedJob>

  function NextVersion(jobs: Jobs, key: Key): nat {
    if key !in jobs then 1
    else if jobs[key].version >= VERSION_MAX then VERSION_MAX
    else jobs[key].version + 1
  }

  function PreviousJob(jobs: Jobs, key: Key): Option<JobId> {
    if key in jobs then jobs[key].jobId else None
  }

  function Begin(jobs: Jobs, key: Key): Jobs {
    jobs[key := TrackedJob(NextVersion(jobs, key), None)]
  }

  /** What an active guard answers. */
  predicate Guard(jobs: Jobs, key: Key, version: nat) {
    key in jobs && jobs[key].version == version
  }

  function Commit(jobs: Jobs, key: Key, version: nat, jobId: JobId): Jobs {
    if Guard(jobs, key, version) then jobs[key := TrackedJob(version, Some(jobId))] else jobs
  }

  function Rollback(jobs: Jobs, key: Key, version: nat): Jobs {
    if Guard(jobs, key, version) then jobs - {key} else jobs
  }

  datatype RegistrationAttempt = RegistrationAttempt(version: nat, previousJob: Option<JobId>)

  datatype RegistrationCommit = Active | Superseded

  /** The shared registry; each method is one critical section. */
  class Registry {
    var jobs: Jobs

    constructor ()
      ensures jobs == map[]
    {
      jobs := map[];
    }

    method BeginRegistration(key: Key) returns (attempt: RegistrationAttempt)
      modifies this
      ensures jobs == Begin(old(jobs), key)
      ensures attempt.previousJob == PreviousJob(old(jobs), key)
      ensures Guard(jobs, key, attempt.version)
      ensures forall v: nat :: Guard(old(jobs), key, v) && v < 18446744073709551615 ==> !Guard(jobs, key, v)
      ensures key !in old(jobs) ==> attempt.version == 1
      ensures forall v: nat :: Guard(old(jobs), key, v) ==>
                attempt.version == if v < 18446744073709551615 then v + 1 else 18446744073709551615
    {
      var version := 1;
      var previous := None;
      if key in jobs {
        version := if jobs[key].version >= VERSION_MAX then VERSION_MAX else jobs[key].version + 1;
        previous := jobs[key].jobId;
      }
      jobs := jobs[key := TrackedJob(version, None)];
      attempt := RegistrationAttempt(version, previous);
    }

    method ActiveGuard(key: Key, version: nat) returns (active: bool)
      ensures active == Guard(jobs, key, version)
    {
      active := key in jobs && jobs[key].version == version;
    }

    method CommitRegistration(key: Key, version: nat, jobId: JobId) returns (outcome: RegistrationCommit)
      modifies this
      ensures outcome.Active? <==> Guard(old(jobs), key, version)
      ensures jobs == Commit(old(jobs), key, version, jobId)
      ensures outcome.Superseded? ==> jobs == old(jobs)
      ensures outcome.Active? ==> Guard(jobs, key, version) && PreviousJob(jobs, key) == Some(jobId)
      ensures jobs - {key} == old(jobs) - {key}
    {
      if key in jobs && jobs[key].version == version {
        jobs := jobs[key := TrackedJob(version, Some(jobId))];
        outcome := Active;
      } else {
        outcome := Superseded;
      }
    }

    method RollbackRegistration(key: Key, version: nat)
      modifies this
      ensures jobs == Rollback(old(jobs), key, version)
      ensures jobs == if Guard(old(jobs), key, version) then old(jobs) - {key} else old(jobs)
    {
      if key in jobs && jobs[key].version == version {
        jobs := jobs - {key};
      }
    }

    method DeactivateAll()
      modifies this
      ensures jobs == map[]
      ensures forall key, version: nat :: !Guard(jobs, key, version)
    {
      jobs := map[];
    }
  }
}
