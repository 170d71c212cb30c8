/**
 * The project edit lock: a lease with a timeout, renewed by keepalive and checked by every
 * content write (backend/app/routes/edit_lock.py, backend/app/middleware/deps.py).
 */
module EditLock {
  import opened Wrappers

  datatype Role = Admin | Editor | Reader
  datatype User = User(name: string, role: Role)

  /** The lock row of one project. It stays after a release or an expiry; only its times go stale. */
  datatype Lock = Lock(holder: string, since: int, expires: int)

  type Locks = map<string, Lock>

  datatype Denied = Conflict(holder: string) | Forbidden

  /** Is the project locked at this moment, and by whom? */
  predicate Live(locks: Locks, project: string, now: int) {
    project in locks && locks[project].expires > now
  }

  predicate HeldBy(locks: Locks, project: string, user: string, now: int) {
    Live(locks, project, now) && locks[project].holder == user
  }

  predicate HeldByAnother(locks: Locks, project: string, user: string, now: int) {
    Live(locks, project, now) && locks[project].holder != user
  }

  // ---- which project's lock guards a request ------------------------------------------

  /** The rows the lock check reads: the owner of each resource, through PI and swimlane where needed. */
  datatype Directory = Directory(
    featureProject: map<string, string>, storyProject: map<string, string>, groupLane: map<string, string>,
    lanePi: map<string, string>, sprintPi: map<string, string>, piProject: map<string, string>)

  datatype PathParams = PathParams(
    project: Option<string>, feature: Option<string>, story: Option<string>, group: Option<string>,
    lane: Option<string>, pi: Option<string>, sprint: Option<string>)

  function Find(m: map<string, string>, id: Option<string>): Option<string> {
    if id.Some? && id.value in m then Some(m[id.value]) else None
  }

  predicate Given(id: Option<string>) { id.Some? && id.value != "" }

  function ProjectOfLane(dir: Directory, lane: Option<string>): Option<string> {
    Find(dir.piProject, Find(dir.lanePi, lane))
  }

  function LockedProject(dir: Directory, params: PathParams): Option<string> {
    if Given(params.project) then params.project
    else if Given(params.feature) then Find(dir.featureProject, params.feature)
    else if Given(params.story) then Find(dir.storyProject, params.story)
    else if Given(params.group) then ProjectOfLane(dir, Find(dir.groupLane, params.group))
    else if Given(params.lane) then ProjectOfLane(dir, params.lane)
    else if Given(params.pi) then Find(dir.piProject, params.pi)
    else if Given(params.sprint) then Find(dir.piProject, Find(dir.sprintPi, params.sprint))
    else None
  }

  // ---- one request --------------------------------------------------------------------

  datatype Action =
    | Acquire(project: string)
    | Keepalive(project: string)
    | Release(project: string)
    | Write(target: Option<string>)  // the project whose lock guards it, when its target exists

  datatype Request = Request(user: User, action: Action, at: int)

  function Reply(locks: Locks, r: Request): Result<(), Denied> {
    match r.action
    case Acquire(p) =>
      if r.user.role.Reader? then Err(Forbidden)
      else if HeldByAnother(locks, p, r.user.name, r.at) then Err(Conflict(locks[p].holder))
      else Ok(())
    case Keepalive(p) =>
      if p in locks && locks[p].holder == r.user.name then Ok(()) else Err(Forbidden)
    case Release(_) => Ok(())
    case Write(target) =>
      if r.user.role.Reader? then Err(Forbidden)
      else if target.Some? && HeldByAnother(locks, target.value, r.user.name, r.at) then
        Err(Conflict(locks[target.value].holder))
      else Ok(())
  }

  function After(locks: Locks, timeout: nat, r: Request): Locks {
    match r.action
    case Acquire(p) =>
      if Reply(locks, r).Ok? then locks[p := Lock(r.user.name, r.at, r.at + timeout)] else locks
    case Keepalive(p) =>
      if Reply(locks, r).Ok? then locks[p := locks[p].(expires := r.at + timeout)] else locks
    case Release(p) =>
      if p in locks && locks[p].holder == r.user.name then locks[p := locks[p].(expires := r.at)] else locks
    case Write(_) => locks
  }

  /** The lock table and the three lock routes, with the guard every write goes through. */
  class LockTable {
    var rows: Locks
    const timeout: nat

    constructor (timeout: nat)
      ensures rows == map[] && this.timeout == timeout
    {
      this.timeout := timeout;
      rows := map[];
    }

    method AcquireLock(project: string, user: User, now: int) returns (reply: Result<(), Denied>)
      modifies this
      ensures reply == Reply(old(rows), Request(user, Acquire(project), now))
      ensures rows == After(old(rows), timeout, Request(user, Acquire(project), now))
      ensures reply == Err(Forbidden) <==> user.role.Reader?
      ensures forall other :: reply == Err(Conflict(other)) <==>
        && !user.role.Reader? && project in old(rows) && old(rows)[project].expires > now
        && old(rows)[project].holder == other && other != user.name
      ensures
        rows == if reply.Ok? then old(rows)[project := Lock(user.name, now, now + timeout)] else old(rows)
    {
      if user.role.Reader? {
        return Err(Forbidden);
      }
      if project in rows {
        var lock := rows[project];
        if lock.expires > now && lock.holder != user.name {
          return Err(Conflict(lock.holder));
        }
        rows := rows[project := lock.(holder := user.name, since := now, expires := now + timeout)];
      } else {
        rows := rows[project := Lock(user.name, now, now + timeout)];
      }
      reply := Ok(());
    }

    method KeepaliveLock(project: string, user: User, now: int) returns (reply: Result<(), Denied>)
      modifies this
      ensures reply == Reply(old(rows), Request(user, Keepalive(project), now))
      ensures rows == After(old(rows), timeout, Request(user, Keepalive(project), now))
      ensures reply ==
        if project in old(rows) && old(rows)[project].holder == user.name then Ok(()) else Err(Forbidden)
      ensures forall p :: p in rows <==> p in old(rows)
      ensures forall p :: p in rows ==>
        rows[p] ==
          if reply.Ok? && p == project then Lock(user.name, old(rows)[p].since, now + timeout)
          else old(rows)[p]
    {
      if project !in rows || rows[project].holder != user.name {
        return Err(Forbidden);
      }
      rows := rows[project := rows[project].(expires := now + timeout)];
      reply := Ok(());
    }

    method ReleaseLock(project: string, user: User, now: int) returns (reply: Result<(), Denied>)
      modifies this
      ensures reply == Reply(old(rows), Request(user, Release(project), now))
      ensures rows == After(old(rows), timeout, Request(user, Release(project), now))
      ensures reply == Ok(()) && forall p :: p in rows <==> p in old(rows)
      ensures forall p :: p in rows ==>
        rows[p] ==
          if p == project && old(rows)[p].holder == user.name then Lock(user.name, old(rows)[p].since, now)
          else old(rows)[p]
    {
      if project in rows && rows[project].holder == user.name {
        rows := rows[project := rows[project].(expires := now)];
      }
      reply := Ok(());
    }

    /** A reader is turned away; so is an editor while another user's lock on this project has not run out. */
    ghost predicate Guards(project: string, user: User, now: int, reply: Result<(), Denied>)
      reads this
    {
      reply ==
        if user.role.Reader? then Err(Forbidden)
        else if project in rows && rows[project].expires > now && rows[project].holder != user.name then
          Err(Conflict(rows[project].holder))
        else Ok(())
    }

    /** A request for something that is not there is let through to its own 404. */
    ghost predicate Unguarded(user: User, reply: Result<(), Denied>) {
      reply == if user.role.Reader? then Err(Forbidden) else Ok(())
    }

    /**
     * The guard of every content write: the first parameter that is there and not empty decides whose lock counts, by
     * the rows that lead from it to a project.
     */
    method RequireEditLock(dir: Directory, params: PathParams, user: User, now: int) returns (reply: Result<(), Denied>)
      ensures reply == Reply(rows, Request(user, Write(LockedProject(dir, params)), now))
      ensures
        if params.project.GetOr("") != "" then Guards(params.project.value, user, now, reply)
        else if params.feature.GetOr("") != "" then
          var feature := params.feature.value;
          if feature in dir.featureProject then Guards(dir.featureProject[feature], user, now, reply)
          else Unguarded(user, reply)
        else if params.story.GetOr("") != "" then
          var story := params.story.value;
          if story in dir.storyProject then Guards(dir.storyProject[story], user, now, reply)
          else Unguarded(user, reply)
        else if params.group.GetOr("") != "" then
          var group := params.group.value;
          if group in dir.groupLane && dir.groupLane[group] in dir.lanePi
            && dir.lanePi[dir.groupLane[group]] in dir.piProject
          then Guards(dir.piProject[dir.lanePi[dir.groupLane[group]]], user, now, reply)
          else Unguarded(user, reply)
        else if params.lane.GetOr("") != "" then
          var lane := params.lane.value;
          if lane in dir.lanePi && dir.lanePi[lane] in dir.piProject
          then Guards(dir.piProject[dir.lanePi[lane]], user, now, reply)
          else Unguarded(user, reply)
        else if params.pi.GetOr("") != "" then
          if params.pi.value in dir.piProject then Guards(dir.piProject[params.pi.value], user, now, reply)
          else Unguarded(user, reply)
        else if params.sprint.GetOr("") != "" then
          var sprint := params.sprint.value;
          if sprint in dir.sprintPi && dir.sprintPi[sprint] in dir.piProject
          then Guards(dir.piProject[dir.sprintPi[sprint]], user, now, reply)
          else Unguarded(user, reply)
        else Unguarded(user, reply)
    {
      if user.role.Reader? {
        return Err(Forbidden);
      }
      var project := LockedProject(dir, params);
      if project.None? {
        return Ok(());
      }
      if project.value in rows {
        var lock := rows[project.value];
        if lock.expires > now && lock.holder != user.name {
          return Err(Conflict(lock.holder));
        }
      }
      reply := Ok(());
    }
  }

  // ---- runs ---------------------------------------------------------------------------

  /** Requests are handled one after the other, and the clock does not go back. */
  ghost predicate Ordered(run: seq<Request>) {
    forall i, j :: 0 <= i < j < |run| ==> run[i].at <= run[j].at
  }

  /** The table before request k. */
  ghost function Before(locks: Locks, timeout: nat, run: seq<Request>, k: nat): Locks
    requires k <= |run|
  {
    if k == 0 then locks else After(Before(locks, timeout, run, k - 1), timeout, run[k - 1])
  }

  ghost predicate Accepted(locks: Locks, timeout: nat, run: seq<Request>, k: nat)
    requires k < |run|
  {
    Reply(Before(locks, timeout, run, k), run[k]).Ok?
  }

  predicate Renews(r: Request, project: string) {
    r.action == Acquire(project) || r.action == Keepalive(project)
  }

  /** Between an accepted acquire or keepalive and request k, its user releases nothing. */
  ghost predicate NoRelease(run: seq<Request>, i: nat, k: nat, project: string)
    requires i < k <= |run|
  {
    forall j :: i < j < k ==> !(run[j].action == Release(project) && run[j].user.name == run[i].user.name)
  }

  lemma {:induction false} LeaseStands(locks: Locks, timeout: nat, run: seq<Request>, project: string, i: nat, k: nat)
    requires i < k <= |run| && Ordered(run)
    requires Renews(run[i], project) && Accepted(locks, timeout, run, i)
    requires NoRelease(run, i, k, project)
    requires forall j :: i < j < k ==> run[j].at < run[i].at + timeout
    ensures project in Before(locks, timeout, run, k)
    ensures Before(locks, timeout, run, k)[project].holder == run[i].user.name
    ensures Before(locks, timeout, run, k)[project].expires >= run[i].at + timeout
    decreases k
  {
    if k > i + 1 {
      LeaseStands(locks, timeout, run, project, i, k - 1);
      assert run[i].at <= run[k - 1].at;
    }
  }

  /**
   * The lease: from an accepted acquire or keepalive until the timeout, unless its user releases,
   * nobody else acquires, renews or writes, and the user's own writes are let through.
   */
  lemma LeaseExcludes(locks: Locks, timeout: nat, run: seq<Request>, project: string, i: nat, k: nat)
    requires i < k < |run| && Ordered(run)
    requires Renews(run[i], project) && Accepted(locks, timeout, run, i)
    requires NoRelease(run, i, k, project)
    requires run[k].at < run[i].at + timeout
    ensures Accepted(locks, timeout, run, k) && (Renews(run[k], project) || run[k].action == Write(Some(project))) ==>
      run[k].user.name == run[i].user.name
    ensures run[k].action == Write(Some(project)) ==>
      run[k].user.name == run[i].user.name && !run[k].user.role.Reader? ==> Accepted(locks, timeout, run, k)
  {
    LeaseStands(locks, timeout, run, project, i, k);
  }

  /**
   * A change of owner: when u's lock is followed by another user's, then some accepted acquire in between
   * found u's lock no longer live. No keepalive, release or write ever changes the owner.
   */
  lemma {:induction false} OwnerChangesByAcquire(
    locks: Locks, timeout: nat, run: seq<Request>, project: string, i: nat, j: nat) returns (k: nat)
    requires i <= j <= |run|
    requires project in Before(locks, timeout, run, i) && project in Before(locks, timeout, run, j)
    requires Before(locks, timeout, run, i)[project].holder != Before(locks, timeout, run, j)[project].holder
    ensures i <= k < j
    ensures run[k].action == Acquire(project) && Accepted(locks, timeout, run, k)
    ensures project in Before(locks, timeout, run, k)
    ensures Before(locks, timeout, run, k)[project].holder == Before(locks, timeout, run, i)[project].holder
    ensures run[k].user.name != Before(locks, timeout, run, i)[project].holder
    ensures !Live(Before(locks, timeout, run, k), project, run[k].at)
    decreases j - i
  {
    var owner := Before(locks, timeout, run, i)[project].holder;
    assert Before(locks, timeout, run, i + 1) == After(Before(locks, timeout, run, i), timeout, run[i]);
    if Before(locks, timeout, run, i + 1)[project].holder != owner {
      k := i;
    } else {
      k := OwnerChangesByAcquire(locks, timeout, run, project, i + 1, j);
    }
  }

  /** Why a renewed lock is no longer live later: its user released it, or the whole timeout has passed. */
  lemma {:induction false} LeaseEnds(locks: Locks, timeout: nat, run: seq<Request>, project: string, i: nat, k: nat)
    requires i < k < |run| && Ordered(run)
    requires Renews(run[i], project) && Accepted(locks, timeout, run, i)
    requires !HeldBy(Before(locks, timeout, run, k), project, run[i].user.name, run[k].at)
    ensures run[k].at >= run[i].at + timeout || !NoRelease(run, i, k, project)
  {
    if run[k].at < run[i].at + timeout && NoRelease(run, i, k, project) {
      LeaseStands(locks, timeout, run, project, i, k);
    }
  }

  /** The last accepted acquire of the project before request k decides whose keepalive is heard. */
  lemma {:induction false} KeepaliveIsLastOwners(
    locks: Locks, timeout: nat, run: seq<Request>, project: string, i: nat, k: nat)
    requires i < k < |run|
    requires run[i].action == Acquire(project) && Accepted(locks, timeout, run, i)
    requires forall j :: i < j < k && run[j].action == Acquire(project) ==> !Accepted(locks, timeout, run, j)
    requires run[k].action == Keepalive(project)
    ensures Accepted(locks, timeout, run, k) <==> run[k].user.name == run[i].user.name
  {
    OwnerStays(locks, timeout, run, project, i, k);
  }

  lemma {:induction false} OwnerStays(locks: Locks, timeout: nat, run: seq<Request>, project: string, i: nat, k: nat)
    requires i < k <= |run|
    requires run[i].action == Acquire(project) && Accepted(locks, timeout, run, i)
    requires forall j :: i < j < k && run[j].action == Acquire(project) ==> !Accepted(locks, timeout, run, j)
    ensures project in Before(locks, timeout, run, k)
      && Before(locks, timeout, run, k)[project].holder == run[i].user.name
    decreases k
  {
    if k > i + 1 {
      OwnerStays(locks, timeout, run, project, i, k - 1);
    }
  }

  /**
   * How a project that nobody holds comes to be held: by an acquire, or by a keepalive of its last owner,
   * who may have released it.
   */
  lemma FreeProjectIsTaken(locks: Locks, timeout: nat, r: Request, project: string)
    requires timeout > 0 && !Live(locks, project, r.at)
    ensures Live(After(locks, timeout, r), project, r.at) <==>
      || (r.action == Acquire(project) && !r.user.role.Reader?)
      || (r.action == Keepalive(project) && project in locks && locks[project].holder == r.user.name)
    ensures Live(After(locks, timeout, r), project, r.at) ==>
      HeldBy(After(locks, timeout, r), project, r.user.name, r.at)
  {}

  /** A release is not final: the same user's next keepalive, from another window say, takes the lock again. */
  lemma KeepaliveUndoesRelease(locks: Locks, timeout: nat, project: string, user: User, released: int, later: int)
    requires timeout > 0 && released <= later
    requires project in locks && locks[project].holder == user.name
    ensures
      var free := After(locks, timeout, Request(user, Release(project), released));
      && !Live(free, project, released)
      && HeldBy(After(free, timeout, Request(user, Keepalive(project), later)), project, user.name, later)
  {}

  /** Without a request by the project's last owner, a released or expired lock stays free until an acquire. */
  lemma {:induction false} StaysFree(locks: Locks, timeout: nat, run: seq<Request>, project: string, k: nat)
    requires k <= |run| && Ordered(run) && run != []
    requires !Live(locks, project, run[0].at)
    requires forall j :: 0 <= j < k ==> run[j].action != Acquire(project)
    requires forall j :: 0 <= j < k && run[j].action == Keepalive(project) ==>
      project in locks ==> run[j].user.name != locks[project].holder
    ensures project in Before(locks, timeout, run, k) <==> project in locks
    ensures project in locks ==>
      && Before(locks, timeout, run, k)[project].holder == locks[project].holder
      && Before(locks, timeout, run, k)[project].expires <= (if k == 0 then run[0].at else run[k - 1].at)
  {
    if k > 0 {
      StaysFree(locks, timeout, run, project, k - 1);
      if k > 1 {
        assert run[k - 2].at <= run[k - 1].at;
      }
    }
  }
}
