/** The set*uid and set*gid calls: four ids moved under guards, with the capability check, the
    security hook and the allocators as arbitrary answers. */
module Credentials {
  const INVALID := 0xFFFF_FFFF

  /** A 32-bit user or group id; `INVALID` is the caller's -1. */
  type Id = x: int | 0 <= x <= INVALID

  /** Real, effective, saved and filesystem id of one family, as kernel ids. */
  datatype Cred = Cred(uid: Id, euid: Id, suid: Id, fsuid: Id)

  /** What the environment answers during one call: whether prepare_creds fails, the two
      capability checks, whether the new user cannot be allocated, and the security hook. */
  datatype Answers = Answers(noMem: bool, cap1: bool, cap2: bool, noUser: bool, lsm: int)

  datatype Errno = Done | EINVAL | EPERM | ENOMEM | EAGAIN | Denied(code: int)

  /** The caller's ids through its user namespace. */
  type Namespace = map<Id, Id>

  function Kid(ns: Namespace, u: Id): Id { if u in ns then ns[u] else INVALID }

  function Given(u: Id): bool { u != INVALID }

  function Ids(c: Cred): set<Id> { {c.uid, c.euid, c.suid} }

  function Unmapped(ns: Namespace, u: Id): bool { Given(u) && Kid(ns, u) == INVALID }

  function Pick(ns: Namespace, u: Id, current: Id): Id { if Given(u) then Kid(ns, u) else current }

  /** The last steps of the uid calls: a new real user is charged, the hook is asked, and `next` is committed. */
  function Commit(c: Cred, next: Cred, a: Answers): (Errno, Cred) {
    if next.uid != c.uid && a.noUser then (EAGAIN, c)
    else if a.lsm < 0 then (Denied(a.lsm), c)
    else (Done, next)
  }

  function SetRe(ns: Namespace, c: Cred, r: Id, e: Id, a: Answers): (Errno, Cred) {
    var uid, euid := Pick(ns, r, c.uid), Pick(ns, e, c.euid);
    if Unmapped(ns, r) || Unmapped(ns, e) then (EINVAL, c)
    else if a.noMem then (ENOMEM, c)
    else if uid !in {c.uid, c.euid} && !a.cap1 then (EPERM, c)
    else if euid !in Ids(c) && !a.cap2 then (EPERM, c)
    else Commit(c, Cred(uid, euid, if Given(r) || (Given(e) && euid != c.uid) then euid else c.suid, euid), a)
  }

  function SetOne(ns: Namespace, c: Cred, u: Id, a: Answers): (Errno, Cred) {
    var k := Kid(ns, u);
    if k == INVALID then (EINVAL, c)
    else if a.noMem then (ENOMEM, c)
    else if a.cap1 then Commit(c, Cred(k, k, k, k), a)
    else if k !in {c.uid, c.suid} then (EPERM, c)
    else Commit(c, c.(euid := k, fsuid := k), a)
  }

  function SetRes(ns: Namespace, c: Cred, r: Id, e: Id, s: Id, a: Answers): (Errno, Cred) {
    var uid, euid, suid := Pick(ns, r, c.uid), Pick(ns, e, c.euid), Pick(ns, s, c.suid);
    if Unmapped(ns, r) || Unmapped(ns, e) || Unmapped(ns, s) then (EINVAL, c)
    else if a.noMem then (ENOMEM, c)
    else if (uid !in Ids(c) || euid !in Ids(c) || suid !in Ids(c)) && !a.cap1 then (EPERM, c)
    else Commit(c, Cred(uid, euid, suid, euid), a)
  }

  /** setfsuid() answers no error: it leaves the ids alone when it may not change them. */
  function SetFs(ns: Namespace, c: Cred, u: Id, a: Answers): Cred {
    var k := Kid(ns, u);
    if k != INVALID && !a.noMem && (k in Ids(c) || a.cap1) && a.lsm == 0 then c.(fsuid := k) else c
  }

  datatype Call = Re(r: Id, e: Id) | One(u: Id) | Res(r: Id, e: Id, s: Id) | Fs(u: Id)

  function Apply(ns: Namespace, c: Cred, call: Call, a: Answers): (Errno, Cred) {
    match call
    case Re(r, e) => SetRe(ns, c, r, e, a)
    case One(u) => SetOne(ns, c, u, a)
    case Res(r, e, s) => SetRes(ns, c, r, e, s, a)
    case Fs(u) => (Done, SetFs(ns, c, u, a))
  }

  predicate Unprivileged(a: Answers) { !a.cap1 && !a.cap2 }

  function Run(ns: Namespace, c: Cred, calls: seq<(Call, Answers)>): Cred
    decreases |calls|
  {
    if calls == [] then c else Run(ns, Apply(ns, c, calls[0].0, calls[0].1).1, calls[1..])
  }

  ghost predicate AllUnprivileged(calls: seq<(Call, Answers)>) {
    forall i :: 0 <= i < |calls| ==> Unprivileged(calls[i].1)
  }

  // ---- What each call promises: who may, and which id goes where ----

  /** setreuid(r, e): without the capability the real id may become the old real or effective one, the
      effective id any of the three. The saved id becomes the new effective one exactly when the real id is
      given, or the effective one is and is not the old real id; otherwise it stays. */
  lemma SetRePromises(ns: Namespace, c: Cred, r: Id, e: Id, a: Answers)
    ensures var (err, c') := SetRe(ns, c, r, e, a);
            var uid', euid' := if r != INVALID then Kid(ns, r) else c.uid, if e != INVALID then Kid(ns, e) else c.euid;
            var valid := (r != INVALID ==> Kid(ns, r) != INVALID) && (e != INVALID ==> Kid(ns, e) != INVALID);
            var may := (a.cap1 || uid' == c.uid || uid' == c.euid)
                       && (a.cap2 || euid' == c.uid || euid' == c.euid || euid' == c.suid);
            && (err == EINVAL <==> !valid)
            && (err == ENOMEM <==> valid && a.noMem)
            && (err == EPERM <==> valid && !a.noMem && !may)
            && (err == EAGAIN <==> valid && !a.noMem && may && uid' != c.uid && a.noUser)
            && (err.Denied? <==> valid && !a.noMem && may && (uid' == c.uid || !a.noUser) && a.lsm < 0)
            && (err.Denied? ==> err.code == a.lsm)
            && (err != Done ==> c' == c)
            && (err == Done ==>
                  && c'.uid == uid' && c'.euid == euid' && c'.fsuid == euid'
                  && c'.suid == if r != INVALID || (e != INVALID && Kid(ns, e) != c.uid) then euid' else c.suid)
  {}

  /** setuid(u): a capable caller sets all four ids; another only the effective and filesystem id, to the
      real or the saved one. */
  lemma SetOnePromises(ns: Namespace, c: Cred, u: Id, a: Answers)
    ensures var (err, c') := SetOne(ns, c, u, a);
            var k := Kid(ns, u);
            var may := a.cap1 || k == c.uid || k == c.suid;
            && (err == EINVAL <==> k == INVALID)
            && (err == ENOMEM <==> k != INVALID && a.noMem)
            && (err == EPERM <==> k != INVALID && !a.noMem && !may)
            && (err == EAGAIN <==> k != INVALID && !a.noMem && a.cap1 && k != c.uid && a.noUser)
            && (err.Denied? <==> k != INVALID && !a.noMem && may && !(a.cap1 && k != c.uid && a.noUser) && a.lsm < 0)
            && (err.Denied? ==> err.code == a.lsm)
            && (err != Done ==> c' == c)
            && (err == Done ==>
                  && c'.euid == k && c'.fsuid == k
                  && c'.uid == (if a.cap1 then k else c.uid) && c'.suid == if a.cap1 then k else c.suid)
  {}

  /** setresuid(r, e, s): every id given moves to its own place, and without the capability only to one of
      the three; the filesystem id follows the effective one. */
  lemma SetResPromises(ns: Namespace, c: Cred, r: Id, e: Id, s: Id, a: Answers)
    ensures var (err, c') := SetRes(ns, c, r, e, s, a);
            var uid', euid' := if r != INVALID then Kid(ns, r) else c.uid, if e != INVALID then Kid(ns, e) else c.euid;
            var suid' := if s != INVALID then Kid(ns, s) else c.suid;
            var valid := (r != INVALID ==> Kid(ns, r) != INVALID) && (e != INVALID ==> Kid(ns, e) != INVALID)
                         && (s != INVALID ==> Kid(ns, s) != INVALID);
            var may := a.cap1 || ((uid' == c.uid || uid' == c.euid || uid' == c.suid)
                                  && (euid' == c.uid || euid' == c.euid || euid' == c.suid)
                                  && (suid' == c.uid || suid' == c.euid || suid' == c.suid));
            && (err == EINVAL <==> !valid)
            && (err == ENOMEM <==> valid && a.noMem)
            && (err == EPERM <==> valid && !a.noMem && !may)
            && (err == EAGAIN <==> valid && !a.noMem && may && uid' != c.uid && a.noUser)
            && (err.Denied? <==> valid && !a.noMem && may && (uid' == c.uid || !a.noUser) && a.lsm < 0)
            && (err.Denied? ==> err.code == a.lsm)
            && (err != Done ==> c' == c)
            && (err == Done ==> c' == Cred(uid', euid', suid', euid'))
  {}

  /** setfsuid(u) moves the filesystem id, and no other, exactly when that is permitted: to one of the four
      ids, or by a capable caller, with the hook agreeing. */
  lemma SetFsPromises(ns: Namespace, c: Cred, u: Id, a: Answers)
    ensures var c', k := SetFs(ns, c, u, a), Kid(ns, u);
            && c'.uid == c.uid && c'.euid == c.euid && c'.suid == c.suid
            && (c'.fsuid == k || c'.fsuid == c.fsuid)
            && (c'.fsuid == k <==>
                  k == c.fsuid || (k != INVALID && !a.noMem && a.lsm == 0
                                   && (a.cap1 || k == c.uid || k == c.euid || k == c.suid)))
  {}

  // ---- Runs without the capability ----

  lemma StepGainsNoId(ns: Namespace, c: Cred, call: Call, a: Answers)
    requires Unprivileged(a)
    ensures var c' := Apply(ns, c, call, a).1; Ids(c') <= Ids(c) && c'.fsuid in Ids(c) + {c.fsuid}
  {}

  /** A run whose capability checks all answer no never gains a real, effective or saved id, and
      its filesystem id stays among the four it began with. */
  lemma {:induction false} RunGainsNoId(ns: Namespace, c: Cred, calls: seq<(Call, Answers)>)
    requires AllUnprivileged(calls)
    ensures var c' := Run(ns, c, calls); Ids(c') <= Ids(c) && c'.fsuid in Ids(c) + {c.fsuid}
    decreases |calls|
  {
    if calls != [] {
      StepGainsNoId(ns, c, calls[0].0, calls[0].1);
      RunGainsNoId(ns, Apply(ns, c, calls[0].0, calls[0].1).1, calls[1..]);
    }
  }

  /** A successful setreuid(u, u) sets all four ids, and no later unprivileged run brings back another. */
  lemma SetReToOneIdIsForever(ns: Namespace, c: Cred, u: Id, a: Answers, calls: seq<(Call, Answers)>)
    requires Given(u) && SetRe(ns, c, u, u, a).0 == Done && AllUnprivileged(calls)
    ensures var k := Kid(ns, u);
            && SetRe(ns, c, u, u, a).1 == Cred(k, k, k, k)
            && Run(ns, SetRe(ns, c, u, u, a).1, calls) == Cred(k, k, k, k)
  {
    RunGainsNoId(ns, SetRe(ns, c, u, u, a).1, calls);
  }

  /** A setreuid(-1, e) that leaves the real id behind forgets the saved one for good: no later unprivileged
      run brings back any id but the real one and the new effective one. */
  lemma SetEffectiveForgetsSaved(ns: Namespace, c: Cred, e: Id, a: Answers, calls: seq<(Call, Answers)>)
    requires Given(e) && SetRe(ns, c, INVALID, e, a).0 == Done && Kid(ns, e) != c.uid && AllUnprivileged(calls)
    ensures var k, c' := Kid(ns, e), Run(ns, SetRe(ns, c, INVALID, e, a).1, calls);
            c'.uid in {c.uid, k} && c'.euid in {c.uid, k} && c'.suid in {c.uid, k} && c'.fsuid in {c.uid, k}
  {
    var c1 := SetRe(ns, c, INVALID, e, a).1;
    RunGainsNoId(ns, c1, calls);
    assert Ids(c1) == {c.uid, Kid(ns, e)} && c1.fsuid == Kid(ns, e);
    assert Run(ns, c1, calls).uid in Ids(Run(ns, c1, calls));
  }

  /** A privileged setuid(u) is as final: the saved id goes too, so nothing is left to switch back to. */
  lemma PrivilegedSetOneIsForever(ns: Namespace, c: Cred, u: Id, a: Answers, calls: seq<(Call, Answers)>)
    requires a.cap1 && SetOne(ns, c, u, a).0 == Done && AllUnprivileged(calls)
    ensures var k := Kid(ns, u); Run(ns, SetOne(ns, c, u, a).1, calls) == Cred(k, k, k, k)
  {
    RunGainsNoId(ns, SetOne(ns, c, u, a).1, calls);
  }

  /** Exactly the real, effective and saved id can be made effective without privilege, by any
      run at all, and one call is enough. */
  lemma EffectiveIdsInReach(ns: Namespace, c: Cred, x: Id)
    requires x != INVALID && exists u :: u in ns && ns[u] == x && Given(u)
    ensures (exists calls :: AllUnprivileged(calls) && Run(ns, c, calls).euid == x) <==> x in Ids(c)
  {
    var u :| u in ns && ns[u] == x && Given(u);
    if calls :| AllUnprivileged(calls) && Run(ns, c, calls).euid == x {
      RunGainsNoId(ns, c, calls);
    }
    if x in Ids(c) {
      var call := (Res(INVALID, u, INVALID), Answers(false, false, false, false, 0));
      assert Apply(ns, c, call.0, call.1).1.euid == x;
      assert Run(ns, Apply(ns, c, call.0, call.1).1, []).euid == x;
      assert Run(ns, c, [call]).euid == x by { assert [call][1..] == []; }
      assert AllUnprivileged([call]);
    }
  }

  // ---- Saved ids and swaps ----

  const QUIET := Answers(false, false, false, false, 0)

  /** Giving up the effective id with setreuid(-1, uid) can be undone exactly when that id is the
      real or the saved one; undoing it restores every id exactly when, besides, the saved id was
      the effective one (or both were the real one) and the filesystem id followed. */
  lemma SavedIdDecidesRegain(ns: Namespace, c: Cred, toReal: Id, back: Id)
    requires Given(toReal) && Kid(ns, toReal) == c.uid && c.uid != INVALID
    requires Given(back) && Kid(ns, back) == c.euid && c.euid != INVALID
    ensures var dropped := SetRe(ns, c, INVALID, toReal, QUIET);
            var again := SetRe(ns, dropped.1, INVALID, back, QUIET);
            && dropped == (Done, c.(euid := c.uid, fsuid := c.uid))
            && (again.0 == Done <==> c.euid in {c.uid, c.suid})
            && (again.1 == c <==> c.euid in {c.uid, c.suid} && c.fsuid == c.euid)
  {}

  /** Swapping real and effective ids twice always succeeds and restores both; it restores all
      four exactly when the saved and filesystem ids were the effective one. */
  lemma SwapTwice(ns: Namespace, c: Cred, a: Id, b: Id)
    requires Given(a) && Kid(ns, a) == c.uid && c.uid != INVALID
    requires Given(b) && Kid(ns, b) == c.euid && c.euid != INVALID
    ensures var once := SetRe(ns, c, b, a, QUIET);
            var twice := SetRe(ns, once.1, a, b, QUIET);
            && once.0 == Done && once.1.uid == c.euid && once.1.euid == c.uid && twice.0 == Done
            && twice.1 == Cred(c.uid, c.euid, c.euid, c.euid)
            && (twice.1 == c <==> c.suid == c.euid && c.fsuid == c.euid)
  {}

  /** Without setfsuid(), the filesystem id shadows the effective id over any run. */
  lemma {:induction false} FilesystemIdFollows(ns: Namespace, c: Cred, calls: seq<(Call, Answers)>)
    requires c.fsuid == c.euid && forall i :: 0 <= i < |calls| ==> !calls[i].0.Fs?
    ensures var c' := Run(ns, c, calls); c'.fsuid == c'.euid
    decreases |calls|
  {
    if calls != [] {
      FilesystemIdFollows(ns, Apply(ns, c, calls[0].0, calls[0].1).1, calls[1..]);
    }
  }

  /** Every call of the run is refused. */
  ghost predicate AllRefused(ns: Namespace, c: Cred, calls: seq<(Call, Answers)>)
    decreases |calls|
  {
    calls == [] || (
      && Apply(ns, c, calls[0].0, calls[0].1).0 != Done
      && AllRefused(ns, Apply(ns, c, calls[0].0, calls[0].1).1, calls[1..]))
  }

  /** A run of refused calls changes no id. */
  lemma {:induction false} ErrorsChangeNothing(ns: Namespace, c: Cred, calls: seq<(Call, Answers)>)
    requires AllRefused(ns, c, calls)
    ensures Run(ns, c, calls) == c
    decreases |calls|
  {
    if calls != [] { ErrorsChangeNothing(ns, c, calls[1..]); }
  }

  ghost predicate Known(ns: Namespace, c: Cred, x: Id) {
    x in Ids(c) + {c.fsuid} || (x != INVALID && exists u :: u in ns && ns[u] == x)
  }

  lemma StepKeepsKnown(ns: Namespace, c: Cred, call: Call, a: Answers, x: Id)
    requires Known(ns, Apply(ns, c, call, a).1, x)
    ensures Known(ns, c, x)
  {
    var c' := Apply(ns, c, call, a).1;
    if x !in Ids(c) + {c.fsuid} && x in Ids(c') + {c'.fsuid} {
      var u := match call
        case Re(r, e) => if Kid(ns, r) == x then r else e
        case One(u) => u
        case Res(r, e, s) => if Kid(ns, r) == x then r else if Kid(ns, e) == x then e else s
        case Fs(u) => u;
      assert Kid(ns, u) == x != INVALID;
      assert u in ns && ns[u] == x;
    }
  }

  /** Even a privileged run installs no id but those it began with and those the namespace maps; so the
      invalid id never enters. */
  lemma {:induction false} RunStaysKnown(ns: Namespace, c: Cred, calls: seq<(Call, Answers)>, x: Id)
    requires x in Ids(Run(ns, c, calls)) + {Run(ns, c, calls).fsuid}
    ensures Known(ns, c, x)
    decreases |calls|
  {
    if calls != [] {
      var c' := Apply(ns, c, calls[0].0, calls[0].1).1;
      RunStaysKnown(ns, c', calls[1..], x);
      StepKeepsKnown(ns, c, calls[0].0, calls[0].1, x);
    }
  }

  // ---- The calls as the kernel makes them: fill in a copy, then commit or abort ----

  /** The answers a gid call can see: it charges no user and asks no hook. */
  function GidAnswers(a: Answers): Answers { a.(noUser := false, lsm := 0) }

  class Task {
    var user: Cred
    var group: Cred

    constructor (user: Cred, group: Cred)
      ensures this.user == user && this.group == group
    {
      this.user, this.group := user, group;
    }

    method SetReUid(ns: Namespace, ruid: Id, euid: Id, a: Answers) returns (err: Errno)
      modifies this
      ensures (err, user) == SetRe(ns, old(user), ruid, euid, a) && group == old(group)
      ensures err == Done ==>
                user.suid == if ruid != INVALID || (euid != INVALID && Kid(ns, euid) != old(user).uid)
                             then user.euid else old(user).suid
    {
      var kruid, keuid := Kid(ns, ruid), Kid(ns, euid);
      if ruid != INVALID && kruid == INVALID { return EINVAL; }
      if euid != INVALID && keuid == INVALID { return EINVAL; }
      if a.noMem { return ENOMEM; }
      var next := user;
      if ruid != INVALID {
        next := next.(uid := kruid);
        if user.uid != kruid && user.euid != kruid && !a.cap1 { return EPERM; }
      }
      if euid != INVALID {
        next := next.(euid := keuid);
        if user.uid != keuid && user.euid != keuid && user.suid != keuid && !a.cap2 { return EPERM; }
      }
      if next.uid != user.uid {
        if a.noUser { return EAGAIN; }
      }
      if ruid != INVALID || (euid != INVALID && keuid != user.uid) {
        next := next.(suid := next.euid);
      }
      next := next.(fsuid := next.euid);
      if a.lsm < 0 { return Denied(a.lsm); }
      user := next;
      return Done;
    }

    method SetUid(ns: Namespace, uid: Id, a: Answers) returns (err: Errno)
      modifies this
      ensures (err, user) == SetOne(ns, old(user), uid, a) && group == old(group)
    {
      var kuid := Kid(ns, uid);
      if kuid == INVALID { return EINVAL; }
      if a.noMem { return ENOMEM; }
      var next := user;
      if a.cap1 {
        next := next.(suid := kuid, uid := kuid);
        if kuid != user.uid {
          if a.noUser { return EAGAIN; }
        }
      } else if kuid != user.uid && kuid != next.suid {
        return EPERM;
      }
      next := next.(fsuid := kuid, euid := kuid);
      if a.lsm < 0 { return Denied(a.lsm); }
      user := next;
      return Done;
    }

    method SetResUid(ns: Namespace, ruid: Id, euid: Id, suid: Id, a: Answers) returns (err: Errno)
      modifies this
      ensures (err, user) == SetRes(ns, old(user), ruid, euid, suid, a) && group == old(group)
    {
      var kruid, keuid, ksuid := Kid(ns, ruid), Kid(ns, euid), Kid(ns, suid);
      if ruid != INVALID && kruid == INVALID { return EINVAL; }
      if euid != INVALID && keuid == INVALID { return EINVAL; }
      if suid != INVALID && ksuid == INVALID { return EINVAL; }
      if a.noMem { return ENOMEM; }
      if !a.cap1 {
        if ruid != INVALID && kruid != user.uid && kruid != user.euid && kruid != user.suid { return EPERM; }
        if euid != INVALID && keuid != user.uid && keuid != user.euid && keuid != user.suid { return EPERM; }
        if suid != INVALID && ksuid != user.uid && ksuid != user.euid && ksuid != user.suid { return EPERM; }
      }
      var next := user;
      if ruid != INVALID {
        next := next.(uid := kruid);
        if kruid != user.uid {
          if a.noUser { return EAGAIN; }
        }
      }
      if euid != INVALID { next := next.(euid := keuid); }
      if suid != INVALID { next := next.(suid := ksuid); }
      next := next.(fsuid := next.euid);
      if a.lsm < 0 { return Denied(a.lsm); }
      user := next;
      return Done;
    }

    method SetFsUid(ns: Namespace, uid: Id, a: Answers) returns (oldFsuid: Id)
      modifies this
      ensures user == SetFs(ns, old(user), uid, a) && oldFsuid == old(user).fsuid && group == old(group)
    {
      oldFsuid := user.fsuid;
      var kuid := Kid(ns, uid);
      if kuid == INVALID { return; }
      if a.noMem { return; }
      if kuid == user.uid || kuid == user.euid || kuid == user.suid || kuid == user.fsuid || a.cap1 {
        if kuid != user.fsuid {
          var next := user.(fsuid := kuid);
          if a.lsm == 0 { user := next; }
        }
      }
    }

    method SetReGid(ns: Namespace, rgid: Id, egid: Id, a: Answers) returns (err: Errno)
      modifies this
      ensures (err, group) == SetRe(ns, old(group), rgid, egid, GidAnswers(a)) && user == old(user)
      ensures err in {Done, EINVAL, ENOMEM, EPERM}
      ensures err == Done ==>
                group.suid == if rgid != INVALID || (egid != INVALID && Kid(ns, egid) != old(group).uid)
                              then group.euid else old(group).suid
    {
      var krgid, kegid := Kid(ns, rgid), Kid(ns, egid);
      if rgid != INVALID && krgid == INVALID { return EINVAL; }
      if egid != INVALID && kegid == INVALID { return EINVAL; }
      if a.noMem { return ENOMEM; }
      var next := group;
      if rgid != INVALID {
        if group.uid == krgid || group.euid == krgid || a.cap1 {
          next := next.(uid := krgid);
        } else {
          return EPERM;
        }
      }
      if egid != INVALID {
        if group.uid == kegid || group.euid == kegid || group.suid == kegid || a.cap2 {
          next := next.(euid := kegid);
        } else {
          return EPERM;
        }
      }
      if rgid != INVALID || (egid != INVALID && kegid != group.uid) {
        next := next.(suid := next.euid);
      }
      next := next.(fsuid := next.euid);
      group := next;
      return Done;
    }

    method SetGid(ns: Namespace, gid: Id, a: Answers) returns (err: Errno)
      modifies this
      ensures (err, group) == SetOne(ns, old(group), gid, GidAnswers(a)) && user == old(user)
      ensures err in {Done, EINVAL, ENOMEM, EPERM}
    {
      var kgid := Kid(ns, gid);
      if kgid == INVALID { return EINVAL; }
      if a.noMem { return ENOMEM; }
      if a.cap1 {
        group := Cred(kgid, kgid, kgid, kgid);
      } else if kgid == group.uid || kgid == group.suid {
        group := group.(euid := kgid, fsuid := kgid);
      } else {
        return EPERM;
      }
      return Done;
    }

    method SetResGid(ns: Namespace, rgid: Id, egid: Id, sgid: Id, a: Answers) returns (err: Errno)
      modifies this
      ensures (err, group) == SetRes(ns, old(group), rgid, egid, sgid, GidAnswers(a)) && user == old(user)
      ensures err in {Done, EINVAL, ENOMEM, EPERM}
    {
      var krgid, kegid, ksgid := Kid(ns, rgid), Kid(ns, egid), Kid(ns, sgid);
      if rgid != INVALID && krgid == INVALID { return EINVAL; }
      if egid != INVALID && kegid == INVALID { return EINVAL; }
      if sgid != INVALID && ksgid == INVALID { return EINVAL; }
      if a.noMem { return ENOMEM; }
      if !a.cap1 {
        if rgid != INVALID && krgid != group.uid && krgid != group.euid && krgid != group.suid { return EPERM; }
        if egid != INVALID && kegid != group.uid && kegid != group.euid && kegid != group.suid { return EPERM; }
        if sgid != INVALID && ksgid != group.uid && ksgid != group.euid && ksgid != group.suid { return EPERM; }
      }
      var next := group;
      if rgid != INVALID { next := next.(uid := krgid); }
      if egid != INVALID { next := next.(euid := kegid); }
      if sgid != INVALID { next := next.(suid := ksgid); }
      group := next.(fsuid := next.euid);
      return Done;
    }

    method SetFsGid(ns: Namespace, gid: Id, a: Answers) returns (oldFsgid: Id)
      modifies this
      ensures group == SetFs(ns, old(group), gid, GidAnswers(a)) && oldFsgid == old(group).fsuid && user == old(user)
    {
      oldFsgid := group.fsuid;
      var kgid := Kid(ns, gid);
      if kgid == INVALID { return; }
      if a.noMem { return; }
      if kgid == group.uid || kgid == group.euid || kgid == group.suid || kgid == group.fsuid || a.cap1 {
        if kgid != group.fsuid { group := group.(fsuid := kgid); }
      }
    }
  }
}
