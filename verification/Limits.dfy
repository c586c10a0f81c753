/** Resource limits: `do_prlimit` over the table of soft and hard limits of one process. */
module Limits {
  import opened Wrappers

  const NLIMITS := 16
  const RLIMIT_CPU := 0
  const RLIMIT_NOFILE := 7
  const INFINITY := 0xFFFF_FFFF_FFFF_FFFF
  const COMPAT_INFINITY := 0xFFFF_FFFF

  type Word = x: int | 0 <= x <= INFINITY

  datatype Limit = Limit(soft: Word, hard: Word)

  type Table = s: seq<Limit> | |s| == NLIMITS witness seq(NLIMITS, _ => Limit(0, 0))

  datatype Errno = Done | EINVAL | EPERM | ESRCH | Denied(code: int)

  /** What the environment answers: whether the target still exists, the capability check, the
      security hook, and the system's bound on open files. */
  datatype Answers = Answers(alive: bool, capable: bool, lsm: int, nrOpen: Word)

  /** The limit as stored: a CPU limit of zero would mean "never set", so it becomes one second. */
  function FixUp(resource: nat, l: Limit): Limit {
    if resource == RLIMIT_CPU && l.soft == 0 then l.(soft := 1) else l
  }

  function SetError(t: Table, resource: nat, l: Limit, a: Answers): Errno {
    if resource >= NLIMITS || l.soft > l.hard then EINVAL
    else if resource == RLIMIT_NOFILE && l.hard > a.nrOpen then EPERM
    else if !a.alive then ESRCH
    else if l.hard > t[resource].hard && !a.capable then EPERM
    else if a.lsm != 0 then Denied(a.lsm)
    else Done
  }

  function Set(t: Table, resource: nat, l: Limit, a: Answers): (Errno, Table) {
    var err := SetError(t, resource, l, a);
    (err, if err == Done then t[resource := FixUp(resource, l)] else t)
  }

  datatype Call = Call(resource: nat, limit: Limit, answers: Answers)

  function Run(t: Table, calls: seq<Call>): Table
    decreases |calls|
  {
    if calls == [] then t
    else Run(Set(t, calls[0].resource, calls[0].limit, calls[0].answers).1, calls[1..])
  }

  // ---- What the guards keep ----

  /** Soft is at most hard, except that the CPU limit may hold (1, 0). */
  ghost predicate Ordered(t: Table) {
    forall r :: 0 <= r < NLIMITS ==> t[r].soft <= t[r].hard || (r == RLIMIT_CPU && t[r] == Limit(1, 0))
  }

  lemma {:induction false} RunKeepsOrdered(t: Table, calls: seq<Call>)
    requires Ordered(t)
    ensures Ordered(Run(t, calls))
    decreases |calls|
  {
    if calls != [] {
      var c := calls[0];
      var u := Set(t, c.resource, c.limit, c.answers).1;
      assert Ordered(u);
      RunKeepsOrdered(u, calls[1..]);
    }
  }

  /** Soft <= hard alone is not kept: setting the CPU limit to (0, 0) breaks it. */
  lemma ZeroCpuBreaksOrder(t: Table)
    ensures Set(t, RLIMIT_CPU, Limit(0, 0), Answers(true, true, 0, 0)).1[RLIMIT_CPU] == Limit(1, 0)
  {}

  /** A successful set leaves soft <= hard exactly when it is not that call. */
  lemma OrderKeptUnlessZeroCpu(t: Table, resource: nat, l: Limit, a: Answers)
    requires Set(t, resource, l, a).0 == Done
    ensures var stored := Set(t, resource, l, a).1[resource];
            stored.soft <= stored.hard <==> !(resource == RLIMIT_CPU && l == Limit(0, 0))
  {}

  ghost predicate NeverCapable(calls: seq<Call>) {
    forall i :: 0 <= i < |calls| ==> !calls[i].answers.capable
  }

  /** Without the capability no run ever raises a hard limit: whatever it has been lowered to binds for good. */
  lemma {:induction false} HardLimitsOnlyFall(t: Table, calls: seq<Call>)
    requires NeverCapable(calls)
    ensures forall r :: 0 <= r < NLIMITS ==> Run(t, calls)[r].hard <= t[r].hard
    decreases |calls|
  {
    if calls != [] {
      var c := calls[0];
      HardLimitsOnlyFall(Set(t, c.resource, c.limit, c.answers).1, calls[1..]);
    }
  }

  /** A limit can be set exactly when it is in order, within the file bound, for a live process, not above the
      hard limit unless the caller is capable, and the hook agrees. It is then stored as given, a soft CPU
      limit of zero as one, and no other limit changes; a refusal changes none, and names the first reason. */
  lemma SetSucceedsIff(t: Table, resource: nat, l: Limit, a: Answers)
    ensures var (err, t') := Set(t, resource, l, a);
            var ordered := resource < 16 && l.soft <= l.hard;
            var bounded := resource == 7 ==> l.hard <= a.nrOpen;
            && (err == EINVAL <==> !ordered)
            && (err == ESRCH <==> ordered && bounded && !a.alive)
            && (err == EPERM <==>
                  ordered && (!bounded || (a.alive && l.hard > t[resource].hard && !a.capable)))
            && (err.Denied? <==>
                  ordered && bounded && a.alive && (l.hard <= t[resource].hard || a.capable) && a.lsm != 0)
            && (err.Denied? ==> err.code == a.lsm)
            && (err == Done <==>
                  ordered && bounded && a.alive && (l.hard <= t[resource].hard || a.capable) && a.lsm == 0)
            && (err != Done ==> t' == t)
            && (err == Done ==>
                  && t'[resource] == (if resource == 0 && l.soft == 0 then Limit(1, l.hard) else l)
                  && forall r :: 0 <= r < 16 && r != resource ==> t'[r] == t[r])
  {}

  /** The limits of one resource that runs without the capability can bring about. */
  ghost predicate Reachable(t: Table, resource: nat, l: Limit)
    requires resource < NLIMITS
  {
    exists calls :: NeverCapable(calls) && Run(t, calls)[resource] == l
  }

  /** ... are exactly the one it has and those in order under its hard limit, a soft CPU limit of zero
      being stored as one. */
  lemma ReachableIff(t: Table, resource: nat, l: Limit)
    requires resource < NLIMITS
    ensures Reachable(t, resource, l) <==> l == t[resource] || InReach(t[resource].hard, resource, l)
  {
    if Reachable(t, resource, l) {
      var calls :| NeverCapable(calls) && Run(t, calls)[resource] == l;
      RunInReach(t, calls, resource);
    } else if l == t[resource] {
      assert NeverCapable([]) && Run(t, []) == t;
    } else if InReach(t[resource].hard, resource, l) {
      var request := if l == Limit(1, 0) then Limit(0, 0) else l;
      var calls := [Call(resource, request, Answers(true, false, 0, INFINITY))];
      assert calls[1..] == [] && NeverCapable(calls);
      assert Run(t, calls)[resource] == FixUp(resource, request);
    }
  }

  predicate InReach(hard: Word, resource: nat, l: Limit) {
    && l.hard <= hard
    && if resource == RLIMIT_CPU then 1 <= l.soft <= l.hard || l == Limit(1, 0) else l.soft <= l.hard
  }

  lemma {:induction false} RunInReach(t: Table, calls: seq<Call>, resource: nat)
    requires resource < NLIMITS && NeverCapable(calls)
    ensures Run(t, calls)[resource] == t[resource] || InReach(t[resource].hard, resource, Run(t, calls)[resource])
    decreases |calls|
  {
    if calls != [] {
      var c := calls[0];
      var u := Set(t, c.resource, c.limit, c.answers).1;
      assert u[resource] == t[resource] || InReach(t[resource].hard, resource, u[resource]);
      RunInReach(u, calls[1..], resource);
    }
  }

  /** Even a capable run cannot lift the open-file limit above the system bound (or where it already was). */
  lemma {:induction false} OpenFilesStayBounded(t: Table, calls: seq<Call>, bound: Word)
    requires forall i :: 0 <= i < |calls| ==> calls[i].answers.nrOpen <= bound
    requires t[RLIMIT_NOFILE].hard <= bound
    ensures Run(t, calls)[RLIMIT_NOFILE].hard <= bound
    decreases |calls|
  {
    if calls != [] {
      var c := calls[0];
      OpenFilesStayBounded(Set(t, c.resource, c.limit, c.answers).1, calls[1..], bound);
    }
  }

  // ---- The 32-bit interface ----

  function FromCompat(x: Word): Word { if x == COMPAT_INFINITY then INFINITY else x }

  function ToCompat(x: Word): Word { if x > COMPAT_INFINITY then COMPAT_INFINITY else x }

  /** What a 32-bit process sets is what it reads back, except a zero CPU limit, which reads back as one. */
  lemma CompatRoundTrip(t: Table, resource: nat, cur: Word, max: Word, a: Answers)
    requires cur <= COMPAT_INFINITY && max <= COMPAT_INFINITY
    requires Set(t, resource, Limit(FromCompat(cur), FromCompat(max)), a).0 == Done
    ensures var stored := Set(t, resource, Limit(FromCompat(cur), FromCompat(max)), a).1[resource];
            && ToCompat(stored.hard) == max
            && (ToCompat(stored.soft) == cur <==> !(resource == RLIMIT_CPU && cur == 0))
            && (stored.hard == INFINITY <==> max == COMPAT_INFINITY)
            && (stored.soft == INFINITY <==> cur == COMPAT_INFINITY)
  {}

  /** A limit that a 32-bit process cannot hold reads as its infinity, and any other as it is. */
  lemma CompatReads(x: Word)
    ensures ToCompat(x) == COMPAT_INFINITY <==> x >= COMPAT_INFINITY
    ensures x < COMPAT_INFINITY ==> ToCompat(x) == x
  {}

  // ---- The call, on the process's table ----

  class Signal {
    var rlim: Table

    constructor (rlim: Table)
      ensures this.rlim == rlim
    {
      this.rlim := rlim;
    }

    /** `do_prlimit`: optionally sets, optionally reports the old pair. The fix-up is made in the
        caller's record too, whether or not the call then succeeds. */
    method DoPrlimit(resource: nat, request: Option<Limit>, wantOld: bool, a: Answers)
      returns (err: Errno, request': Option<Limit>, old_: Option<Limit>)
      modifies this
      ensures request.Some? ==> (err, rlim) == Set(old(rlim), resource, request.value, a)
      ensures request.None? ==> rlim == old(rlim)
                                && err == if resource >= NLIMITS then EINVAL else if !a.alive then ESRCH else Done
      ensures old_ == if err == Done && wantOld then Some(old(rlim)[resource]) else None
      ensures request' == request
              || (request.Some? && request' == Some(FixUp(resource, request.value)) && resource == RLIMIT_CPU
                  && a.alive)
      ensures err == Done && request.Some? ==> request' == Some(rlim[resource])
    {
      err, request', old_ := Done, request, None;
      if resource >= NLIMITS { err := EINVAL; return; }
      if request.Some? {
        if request.value.soft > request.value.hard { err := EINVAL; return; }
        if resource == RLIMIT_NOFILE && request.value.hard > a.nrOpen { err := EPERM; return; }
      }
      if !a.alive { err := ESRCH; return; }
      if request.Some? {
        if request.value.hard > rlim[resource].hard && !a.capable { err := EPERM; }
        if err == Done && a.lsm != 0 { err := Denied(a.lsm); }
        if resource == RLIMIT_CPU && request.value.soft == 0 {
          request' := Some(request.value.(soft := 1));
        }
      }
      if err == Done {
        if wantOld { old_ := Some(rlim[resource]); }
        if request'.Some? { rlim := rlim[resource := request'.value]; }
      }
    }
  }
}
