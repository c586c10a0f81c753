/** Process groups and sessions: `setpgid` and `setsid`, with fork, exec, thread creation and
    exit as steps of the environment, over one flat pid namespace. */
module Jobs {
  import opened Wrappers

  /** A thread group, under its leader's pid. `parent` is the parent's thread-group id, `leader`
      the session-leader flag, and `forkNoExec` is PF_FORKNOEXEC: forked, not yet exec'ed. */
  datatype Proc = Proc(parent: int, pgid: int, sid: int, leader: bool, forkNoExec: bool)

  /** `threads` sends every further thread's id to its thread-group id. */
  datatype Table = Table(procs: map<int, Proc>, threads: map<int, int>)

  datatype Errno = Done | EINVAL | ESRCH | EPERM | EACCES | Denied(code: int)

  ghost predicate InUse(t: Table, n: int) {
    || n in t.procs
    || n in t.threads
    || exists p :: p in t.procs && (t.procs[p].pgid == n || t.procs[p].sid == n)
  }

  ghost predicate GroupExists(t: Table, g: int) {
    exists p :: p in t.procs && t.procs[p].pgid == g
  }

  /** `first` is what the pid's task list yields for group `g`: some member, or nothing. */
  ghost predicate FirstMember(t: Table, g: int, first: Option<int>) {
    match first
    case None => !GroupExists(t, g)
    case Some(m) => m in t.procs && t.procs[m].pgid == g
  }

  function Target(caller: int, pid: int): int { if pid == 0 then caller else pid }

  function Group(caller: int, pid: int, pgid: int): int { if pgid == 0 then Target(caller, pid) else pgid }

  /** The error `setpgid` answers, in the order the checks are made. `lsm` is the security hook's answer. */
  function SetPgidError(t: Table, caller: int, pid: int, pgid: int, first: Option<int>, lsm: int): Errno
    requires caller in t.procs
    requires first.Some? ==> first.value in t.procs
  {
    var p, g := Target(caller, pid), Group(caller, pid, pgid);
    if g < 0 then EINVAL
    else if p !in t.procs then if p in t.threads then EINVAL else ESRCH
    else if t.procs[p].parent == caller && t.procs[p].sid != t.procs[caller].sid then EPERM
    else if t.procs[p].parent == caller && !t.procs[p].forkNoExec then EACCES
    else if t.procs[p].parent != caller && p != caller then ESRCH
    else if t.procs[p].leader then EPERM
    else if g != p && (first.None? || t.procs[first.value].sid != t.procs[caller].sid) then EPERM
    else if lsm != 0 then Denied(lsm)
    else Done
  }

  function AfterSetPgid(t: Table, caller: int, pid: int, pgid: int, first: Option<int>, lsm: int): (Errno, Table)
    requires caller in t.procs
    requires first.Some? ==> first.value in t.procs
  {
    var err := SetPgidError(t, caller, pid, pgid, first, lsm);
    if err != Done then (err, t)
    else
      var p := Target(caller, pid);
      (Done, t.(procs := t.procs[p := t.procs[p].(pgid := Group(caller, pid, pgid))]))
  }

  ghost function AfterSetSid(t: Table, caller: int): (Errno, Table)
    requires caller in t.procs
  {
    if t.procs[caller].leader || GroupExists(t, caller) then (EPERM, t)
    else (Done, t.(procs := t.procs[caller := t.procs[caller].(leader := true, sid := caller, pgid := caller)]))
  }

  // ---- Steps and runs ----

  datatype Step =
    | SetPgidStep(caller: int, pid: int, pgid: int, first: Option<int>, lsm: int)
    | SetSidStep(caller: int)
    | Fork(forker: int, child: int, realParent: int)
    | Spawn(tgid: int, tid: int)
    | Exec(pid: int)
    | ExitThread(tid: int)
    | Exit(pid: int, reaper: int)

  ghost predicate Enabled(t: Table, s: Step) {
    match s
    case SetPgidStep(c, pid, pgid, first, _) => c in t.procs && FirstMember(t, Group(c, pid, pgid), first)
    case SetSidStep(c) => c in t.procs
    case Fork(f, child, r) =>
      f in t.procs && child > 0 && !InUse(t, child) && (r == f || r == t.procs[f].parent)
    case Spawn(tgid, tid) => tgid in t.procs && tid > 0 && !InUse(t, tid)
    case Exec(p) => p in t.procs
    case ExitThread(tid) => tid in t.threads
    case Exit(p, r) =>
      && p in t.procs && (r == 0 || (r in t.procs && r != p && t.procs[r].parent != p))
      && forall x :: x in t.threads ==> t.threads[x] != p
  }

  function Orphan(q: Proc, dead: int, reaper: int): Proc {
    if q.parent == dead then q.(parent := reaper) else q
  }

  ghost function Apply(t: Table, s: Step): Table
    requires Enabled(t, s)
  {
    match s
    case SetPgidStep(c, pid, pgid, first, lsm) => AfterSetPgid(t, c, pid, pgid, first, lsm).1
    case SetSidStep(c) => AfterSetSid(t, c).1
    case Fork(f, child, r) =>
      t.(procs := t.procs[child := t.procs[f].(parent := r, leader := false, forkNoExec := true)])
    case Spawn(tgid, tid) => t.(threads := t.threads[tid := tgid])
    case Exec(p) =>
      Table(t.procs[p := t.procs[p].(forkNoExec := false)], map x | x in t.threads && t.threads[x] != p :: t.threads[x])
    case ExitThread(tid) => t.(threads := t.threads - {tid})
    case Exit(p, r) => t.(procs := map q | q in t.procs && q != p :: Orphan(t.procs[q], p, r))
  }

  /** Job control holds together: one session per group, a process sits in the session of the
      group it names, session leaders name their group and session, and a process whose pid names
      a session leads that session, and parents are live processes other than the child. */
  ghost predicate Valid(t: Table) {
    Groups(t.procs) && Leaders(t.procs) && Links(t)
  }

  ghost predicate Groups(procs: map<int, Proc>) {
    && (forall p, q :: p in procs && q in procs && procs[p].pgid == procs[q].pgid ==> procs[p].sid == procs[q].sid)
    && (forall p, q :: p in procs && q in procs && procs[q].pgid == p ==> procs[q].sid == procs[p].sid)
  }

  ghost predicate Leaders(procs: map<int, Proc>) {
    && (forall p :: p in procs && procs[p].leader ==> procs[p].pgid == p && procs[p].sid == p)
    && (forall p, q :: p in procs && q in procs && procs[q].sid == p ==> procs[p].leader)
  }

  ghost predicate Links(t: Table) {
    && (forall p :: p in t.procs ==> p > 0)
    && (forall x :: x in t.threads ==> x !in t.procs && t.threads[x] in t.procs)
    && (forall p {:trigger t.procs[p].parent} :: p in t.procs && t.procs[p].parent != 0
          ==> t.procs[p].parent in t.procs && t.procs[p].parent != p)
  }

  ghost predicate Run(t: Table, steps: seq<Step>, t': Table)
    decreases |steps|
  {
    if steps == [] then t' == t
    else Enabled(t, steps[0]) && Run(Apply(t, steps[0]), steps[1..], t')
  }

  /** The first process: before it has called setsid, in group and session 0, or after. */
  function Boot(leads: bool): Table {
    Table(map[1 := if leads then Proc(0, 1, 1, true, false) else Proc(0, 0, 0, false, false)], map[])
  }

  lemma SetPgidKeepsValid(t: Table, c: int, pid: int, pgid: int, first: Option<int>, lsm: int)
    requires Valid(t) && c in t.procs && FirstMember(t, Group(c, pid, pgid), first)
    ensures Valid(AfterSetPgid(t, c, pid, pgid, first, lsm).1)
  {
    var p, g := Target(c, pid), Group(c, pid, pgid);
    if SetPgidError(t, c, pid, pgid, first, lsm) == Done {
      assert t.procs[p].sid == t.procs[c].sid;
      forall q | q in t.procs && t.procs[q].pgid == g ensures t.procs[q].sid == t.procs[p].sid {
        if g != p { assert t.procs[first.value].pgid == t.procs[q].pgid; }
      }
    }
  }

  lemma SetSidKeepsValid(t: Table, c: int)
    requires Valid(t) && c in t.procs
    ensures Valid(AfterSetSid(t, c).1)
  {
    if AfterSetSid(t, c).0 == Done {
      assert forall q :: q in t.procs ==> t.procs[q].pgid != c && t.procs[q].sid != c;
    }
  }

  lemma ForkKeepsValid(t: Table, f: int, child: int, r: int)
    requires Valid(t) && Enabled(t, Fork(f, child, r))
    ensures Valid(Apply(t, Fork(f, child, r)))
  {
    assert forall q :: q in t.procs ==> t.procs[q].pgid != child && t.procs[q].sid != child;
  }

  lemma FewerKeepGroups(procs: map<int, Proc>, procs': map<int, Proc>)
    requires Groups(procs) && Leaders(procs) && procs'.Keys <= procs.Keys
    requires forall q :: q in procs' ==> procs'[q] == procs[q].(parent := procs'[q].parent)
    ensures Groups(procs') && Leaders(procs')
  {
    forall p, q | p in procs' && q in procs' && procs'[p].pgid == procs'[q].pgid
      ensures procs'[p].sid == procs'[q].sid
    {
      assert procs[p].pgid == procs[q].pgid;
    }
  }

  lemma ExitKeepsValid(t: Table, p: int, r: int)
    requires Valid(t) && Enabled(t, Exit(p, r))
    ensures Valid(Apply(t, Exit(p, r)))
  {
    FewerKeepGroups(t.procs, Apply(t, Exit(p, r)).procs);
  }

  lemma StepKeepsValid(t: Table, s: Step)
    requires Valid(t) && Enabled(t, s)
    ensures Valid(Apply(t, s))
  {
    match s
    case SetPgidStep(c, pid, pgid, first, lsm) => SetPgidKeepsValid(t, c, pid, pgid, first, lsm);
    case SetSidStep(c) => SetSidKeepsValid(t, c);
    case Fork(f, child, r) => ForkKeepsValid(t, f, child, r);
    case Exit(p, r) => ExitKeepsValid(t, p, r);
    case Spawn(tgid, tid) =>
    case Exec(p) => assert Apply(t, s).procs == t.procs[p := t.procs[p].(forkNoExec := false)];
    case ExitThread(tid) => assert Apply(t, s).procs == t.procs;
  }

  /** Every run of setpgid, setsid, fork, exec, thread creation and exit keeps job control valid. */
  lemma {:induction false} RunKeepsValid(t: Table, steps: seq<Step>, t': Table)
    requires Valid(t) && Run(t, steps, t')
    ensures Valid(t')
    decreases |steps|
  {
    if steps != [] {
      StepKeepsValid(t, steps[0]);
      RunKeepsValid(Apply(t, steps[0]), steps[1..], t');
    }
  }

  /** So job control is valid in every state the first process and its descendants can bring about. */
  lemma RunFromBootIsValid(leads: bool, steps: seq<Step>, t: Table)
    requires Run(Boot(leads), steps, t)
    ensures Valid(t)
  {
    RunKeepsValid(Boot(leads), steps, t);
  }

  // ---- What the two calls promise ----

  /** Checking only the first member of the group is enough: any member gives the same answer. */
  lemma FirstMemberSuffices(t: Table, c: int, pid: int, pgid: int, a: Option<int>, b: Option<int>, lsm: int)
    requires Valid(t) && c in t.procs
    requires FirstMember(t, Group(c, pid, pgid), a) && FirstMember(t, Group(c, pid, pgid), b)
    ensures AfterSetPgid(t, c, pid, pgid, a, lsm) == AfterSetPgid(t, c, pid, pgid, b, lsm)
  {
    if a.Some? && b.Some? {
      assert t.procs[a.value].sid == t.procs[b.value].sid;
    }
  }

  /** What the standard asks of setpgid(): the target is the caller or a child of the caller's
      session that has not exec'ed, leads no session, and the group is its own or has a member in
      the caller's session. */
  ghost predicate PosixAllows(t: Table, c: int, p: int, g: int)
    requires c in t.procs
  {
    && g >= 0
    && p in t.procs
    && (p == c || (t.procs[p].parent == c && t.procs[p].sid == t.procs[c].sid && t.procs[p].forkNoExec))
    && !t.procs[p].leader
    && (g == p || exists m :: m in t.procs && t.procs[m].pgid == g && t.procs[m].sid == t.procs[c].sid)
  }

  /** setpgid() succeeds exactly when the standard allows it and the security hook agrees; zero stands for
      the caller as the process, and for the process as the group. */
  lemma SetPgidSucceedsIff(t: Table, c: int, pid: int, pgid: int, first: Option<int>, lsm: int)
    requires Valid(t) && c in t.procs
    requires FirstMember(t, Group(c, pid, pgid), first)
    ensures var p := if pid == 0 then c else pid;
            var g := if pgid == 0 then p else pgid;
            AfterSetPgid(t, c, pid, pgid, first, lsm).0 == Done <==> PosixAllows(t, c, p, g) && lsm == 0
  {
    var p, g := Target(c, pid), Group(c, pid, pgid);
    if PosixAllows(t, c, p, g) && g != p {
      var m :| m in t.procs && t.procs[m].pgid == g && t.procs[m].sid == t.procs[c].sid;
      assert first.Some? && t.procs[first.value].pgid == t.procs[m].pgid;
    }
  }

  /** The error setpgid() answers is the first of the standard's that applies. */
  lemma SetPgidErrorIs(t: Table, c: int, pid: int, pgid: int, first: Option<int>, lsm: int)
    requires Valid(t) && c in t.procs
    requires FirstMember(t, Group(c, pid, pgid), first)
    ensures var err := AfterSetPgid(t, c, pid, pgid, first, lsm).0;
            var p := if pid == 0 then c else pid;
            var g := if pgid == 0 then p else pgid;
            var child := p in t.procs && t.procs[p].parent == c;
            var away := child && t.procs[p].sid != t.procs[c].sid;
            var execed := child && !away && !t.procs[p].forkNoExec;
            var stranger := p in t.procs && !child && p != c;
            var moves := p in t.procs && !away && !execed && !stranger;
            var joins := g == p || exists m :: m in t.procs && t.procs[m].pgid == g && t.procs[m].sid == t.procs[c].sid;
            && (err == EINVAL <==> g < 0 || p in t.threads)
            && (err == ESRCH <==> g >= 0 && p !in t.threads && (p !in t.procs || stranger))
            && (err == EACCES <==> g >= 0 && execed)
            && (err == EPERM <==> g >= 0 && (away || (moves && (t.procs[p].leader || !joins))))
            && (err.Denied? <==> g >= 0 && moves && !t.procs[p].leader && joins && lsm != 0)
            && (err.Denied? ==> err.code == lsm)
  {
    var p, g := Target(c, pid), Group(c, pid, pgid);
    if m :| m in t.procs && t.procs[m].pgid == g && t.procs[m].sid == t.procs[c].sid {
      assert first.Some? && t.procs[first.value].pgid == t.procs[m].pgid;
    }
  }

  /** How a shell starts a job: after fork, parent and child may each put the child in a group of its own,
      with the same effect; once the child has exec'ed the parent is refused with EACCES, the child not. */
  lemma EitherMayStartTheJob(t: Table, parent: int, child: int, first: Option<int>)
    requires Valid(t) && Enabled(t, Fork(parent, child, parent)) && parent != 0
    requires FirstMember(Apply(t, Fork(parent, child, parent)), child, first)
    ensures var t' := Apply(t, Fork(parent, child, parent));
            && t'.procs[child].pgid == t.procs[parent].pgid && t'.procs[child].sid == t.procs[parent].sid
            && t'.procs[child].parent == parent && !t'.procs[child].leader
            && AfterSetPgid(t', parent, child, child, first, 0) == AfterSetPgid(t', child, 0, 0, first, 0)
            && AfterSetPgid(t', child, 0, 0, first, 0)
               == (Done, t'.(procs := t'.procs[child := t'.procs[child].(pgid := child)]))
            && var t'' := Apply(t', Exec(child));
               && AfterSetPgid(t'', parent, child, child, first, 0).0 == EACCES
               && AfterSetPgid(t'', child, 0, 0, first, 0).0 == Done
  {
    assert child != parent;
  }

  /** A success moves one process between groups of one session, the caller's, and changes nothing else. */
  lemma SetPgidMovesOneProcess(t: Table, c: int, pid: int, pgid: int, first: Option<int>, lsm: int)
    requires Valid(t) && c in t.procs && FirstMember(t, Group(c, pid, pgid), first)
    ensures var (err, t') := AfterSetPgid(t, c, pid, pgid, first, lsm);
            && t'.procs.Keys == t.procs.Keys && t'.threads == t.threads
            && (forall q :: q in t.procs ==> t'.procs[q].sid == t.procs[q].sid
                                             && t'.procs[q] == t.procs[q].(pgid := t'.procs[q].pgid))
            && (forall q :: q in t.procs && (err != Done || q != Target(c, pid)) ==> t'.procs[q] == t.procs[q])
            && (err == Done ==>
                  && t'.procs[Target(c, pid)].pgid == Group(c, pid, pgid)
                  && forall q :: q in t'.procs
                                 && t'.procs[q].pgid in {t.procs[Target(c, pid)].pgid, Group(c, pid, pgid)}
                       ==> t'.procs[q].sid == t.procs[c].sid)
  {
    var p, g, t' := Target(c, pid), Group(c, pid, pgid), AfterSetPgid(t, c, pid, pgid, first, lsm).1;
    SetPgidKeepsValid(t, c, pid, pgid, first, lsm);
    if AfterSetPgid(t, c, pid, pgid, first, lsm).0 == Done {
      assert t'.procs[p].sid == t.procs[p].sid == t.procs[c].sid;
      forall q | q in t'.procs && t'.procs[q].pgid in {t.procs[p].pgid, g}
        ensures t'.procs[q].sid == t.procs[c].sid
      {
        assert t'.procs[q].pgid == g ==> t'.procs[q].sid == t'.procs[p].sid;
        assert q != p && t'.procs[q].pgid == t.procs[p].pgid ==> t.procs[q].sid == t.procs[p].sid;
      }
    }
  }

  /** setsid() succeeds exactly for a caller that leads no session and whose pid names no group;
      the caller is then alone in a new session and a new group, and keeps its pid. */
  lemma SetSidStartsASessionAlone(t: Table, c: int)
    requires Valid(t) && c in t.procs
    ensures var (err, t') := AfterSetSid(t, c);
            && (err == Done <==> !t.procs[c].leader && forall q :: q in t.procs ==> t.procs[q].pgid != c)
            && (err == Done ==>
                  && t'.procs[c].leader && t'.procs[c].sid == t'.procs[c].pgid == c
                  && (forall q :: q in t'.procs && (t'.procs[q].sid == c || t'.procs[q].pgid == c) ==> q == c)
                  && (forall q :: q in t.procs && q != c ==> t'.procs[q] == t.procs[q])
                  && t'.procs.Keys == t.procs.Keys && t'.threads == t.threads)
            && (err != Done ==> err == EPERM && t' == t)
  {}

  /** The standard way out of a group: fork, and let the child call setsid(). It never fails. */
  lemma ForkThenSetSidSucceeds(t: Table, parent: int, child: int, realParent: int)
    requires Valid(t) && Enabled(t, Fork(parent, child, realParent))
    ensures AfterSetSid(Apply(t, Fork(parent, child, realParent)), child).0 == Done
  {
    var t' := Apply(t, Fork(parent, child, realParent));
    assert forall q :: q in t'.procs ==> t'.procs[q].pgid != child;
  }

  /** A process that leads a session does so for as long as it lives. */
  lemma {:induction false} LeadershipLasts(t: Table, steps: seq<Step>, t': Table, p: int)
    requires Valid(t) && Run(t, steps, t')
    requires p in t.procs && t.procs[p].leader
    requires forall i :: 0 <= i < |steps| ==> !(steps[i].Exit? && steps[i].pid == p)
    ensures p in t'.procs && t'.procs[p].leader && t'.procs[p].sid == p && t'.procs[p].pgid == p
    decreases |steps|
  {
    if steps != [] {
      StepKeepsValid(t, steps[0]);
      var u := Apply(t, steps[0]);
      assert p in u.procs && u.procs[p].leader;
      LeadershipLasts(u, steps[1..], t', p);
    }
  }

  // ---- The table the calls update in place ----

  class ProcessTable {
    var procs: map<int, Proc>
    var threads: map<int, int>

    ghost function View(): Table
      reads this
    {
      Table(procs, threads)
    }

    constructor (procs: map<int, Proc>, threads: map<int, int>)
      ensures View() == Table(procs, threads)
    {
      this.procs, this.threads := procs, threads;
    }

    method SetPgid(caller: int, pidArg: int, pgidArg: int, first: Option<int>, lsm: int) returns (err: Errno)
      requires caller in procs && FirstMember(View(), Group(caller, pidArg, pgidArg), first)
      modifies this
      ensures (err, View()) == AfterSetPgid(old(View()), caller, pidArg, pgidArg, first, lsm)
    {
      var pid, pgid := pidArg, pgidArg;
      if pid == 0 { pid := caller; }
      if pgid == 0 { pgid := pid; }
      if pgid < 0 { return EINVAL; }
      if pid !in procs && pid !in threads { return ESRCH; }
      if pid !in procs { return EINVAL; }
      var p := procs[pid];
      if p.parent == caller {
        if p.sid != procs[caller].sid { return EPERM; }
        if !p.forkNoExec { return EACCES; }
      } else if pid != caller {
        return ESRCH;
      }
      if p.leader { return EPERM; }
      if pgid != pid {
        if first.None? || procs[first.value].sid != procs[caller].sid { return EPERM; }
      }
      if lsm != 0 { return Denied(lsm); }
      if p.pgid != pgid {
        procs := procs[pid := p.(pgid := pgid)];
      }
      assert View().procs == old(procs)[pid := p.(pgid := pgid)];
      return Done;
    }

    /** `groupTaken` answers whether the caller's pid names a group, as the pid's task list does. */
    method SetSid(caller: int, groupTaken: bool) returns (err: Errno)
      requires caller in procs && (groupTaken <==> GroupExists(View(), caller))
      modifies this
      ensures (err, View()) == AfterSetSid(old(View()), caller)
    {
      if procs[caller].leader { return EPERM; }
      if groupTaken { return EPERM; }
      procs := procs[caller := procs[caller].(leader := true)];
      if procs[caller].sid != caller { procs := procs[caller := procs[caller].(sid := caller)]; }
      if procs[caller].pgid != caller { procs := procs[caller := procs[caller].(pgid := caller)]; }
      assert procs == old(procs)[caller := old(procs)[caller].(leader := true, sid := caller, pgid := caller)];
      return Done;
    }
  }
}
