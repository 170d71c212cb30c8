/**
 * The bracket that holds the edit lock around a batch of writes, and the bulk tool that aborts
 * when the lock is lost (mcp_server/lock.py, mcp_server/tools/workflows.py).
 *
 * What the backend answers to each call is an input. A call succeeds, is refused with a code, or breaks
 * in a way the tools do not classify (any other HTTP error).
 */
module BulkTools {
  import opened Wrappers
  import L = EditLock

  datatype Answer = Done | Refused(code: string) | Broke

  datatype Call = Acquire | Place(story: string, sprintIndex: nat) | Release

  datatype Report = Report(placed: nat, errors: seq<(string, string)>)

  datatype Raised = BackendError(code: string) | OtherError

  datatype SprintAssignment = SprintAssignment(story: string, sprintIndex: nat)

  /** The answers that end a batch: a lost lock, or a failure that is not a backend refusal. */
  predicate Stops(a: Answer) { a.Broke? || a == Refused("LOCKED") }

  function AsRaised(a: Answer): Raised {
    if a.Refused? then BackendError(a.code) else OtherError
  }

  /** A lost lock reaches the caller under its code, a failure nobody classified as itself. */
  lemma RaisedIs(a: Answer)
    ensures a.Refused? ==> AsRaised(a) == BackendError(a.code)
    ensures a.Broke? ==> AsRaised(a) == OtherError
  {}

  /** How many answers come before the first that stops the batch. */
  function UntilStop(answers: seq<Answer>): (n: nat)
    ensures n <= |answers|
  {
    if answers == [] || Stops(answers[0]) then 0 else 1 + UntilStop(answers[1..])
  }

  lemma {:induction false} UntilStopIsFirst(answers: seq<Answer>, n: nat)
    requires n <= |answers|
    ensures n == UntilStop(answers) <==>
      && (forall i :: 0 <= i < n ==> !answers[i].Broke? && answers[i] != Refused("LOCKED"))
      && (n < |answers| ==> answers[n].Broke? || answers[n] == Refused("LOCKED"))
  {
    if answers != [] && !Stops(answers[0]) && n > 0 {
      UntilStopIsFirst(answers[1..], n - 1);
      assert forall i :: 0 <= i < n - 1 ==> answers[1..][i] == answers[i + 1];
      assert (forall i :: 0 <= i < n ==> !Stops(answers[i])) ==> forall i :: 0 <= i < n - 1 ==> !Stops(answers[1..][i]);
      assert (forall i :: 0 <= i < n - 1 ==> !Stops(answers[1..][i])) ==>
        forall i :: 0 <= i < n ==> !Stops(answers[i]) by
      {
        if forall i :: 0 <= i < n - 1 ==> !Stops(answers[1..][i]) {
          forall i | 0 <= i < n ensures !Stops(answers[i]) {
            assert i == 0 || answers[i] == answers[1..][i - 1];
          }
        }
      }
    }
  }

  function CountDone(answers: seq<Answer>): nat {
    if answers == [] then 0 else CountDone(answers[..|answers| - 1]) + if answers[|answers| - 1].Done? then 1 else 0
  }

  function Errors(batch: seq<SprintAssignment>, answers: seq<Answer>): seq<(string, string)>
    requires |answers| <= |batch|
  {
    if answers == [] then []
    else
      var n := |answers| - 1;
      Errors(batch, answers[..n]) + if answers[n].Refused? then [(batch[n].story, answers[n].code)] else []
  }

  function Places(batch: seq<SprintAssignment>): seq<Call> {
    seq(|batch|, i requires 0 <= i < |batch| => Place(batch[i].story, batch[i].sprintIndex))
  }

  lemma OneMoreTried(batch: seq<SprintAssignment>, i: nat)
    requires i < |batch|
    ensures Places(batch[..i + 1]) == Places(batch[..i]) + [Place(batch[i].story, batch[i].sprintIndex)]
  {}

  lemma OneMoreAnswered(batch: seq<SprintAssignment>, answers: seq<Answer>, i: nat)
    requires i < |answers| == |batch|
    ensures CountDone(answers[..i + 1]) == CountDone(answers[..i]) + if answers[i].Done? then 1 else 0
    ensures Errors(batch, answers[..i + 1]) ==
      Errors(batch, answers[..i]) + if answers[i].Refused? then [(batch[i].story, answers[i].code)] else []
  {
    assert answers[..i + 1][..i] == answers[..i];
  }

  /**
   * The bulk tool. Nothing is attempted when the lock is refused; otherwise the stories are tried in order up to
   * and including the first answer that stops the batch, and the lock is released exactly once, last.
   */
  method ApplySprintPlan(batch: seq<SprintAssignment>, acquire: Answer, answers: seq<Answer>, release: Answer)
    returns (reply: Result<Report, Raised>, calls: seq<Call>)
    requires |answers| == |batch|
    ensures
      var n := UntilStop(answers);
      if !acquire.Done? then reply == Err(AsRaised(acquire)) && calls == [Acquire]
      else
        && calls == [Acquire] + Places(if n < |batch| then batch[..n + 1] else batch) + [Release]
        && reply == if release.Broke? then Err(OtherError)
                    else if n < |batch| then Err(AsRaised(answers[n]))
                    else Ok(Report(CountDone(answers), Errors(batch, answers)))
  {
    calls := [Acquire];
    var acquired := false;
    if !acquire.Done? {
      return Err(AsRaised(acquire)), calls;
    }
    acquired := true;
    var placed, errors := 0, [];
    reply := Ok(Report(0, []));
    var i := 0;
    while i < |batch| && reply.Ok?
      invariant 0 <= i <= |batch|
      invariant reply.Ok? ==>
        && (forall j :: 0 <= j < i ==> !Stops(answers[j]))
        && calls == [Acquire] + Places(batch[..i])
        && placed == CountDone(answers[..i]) && errors == Errors(batch, answers[..i])
      invariant reply.Err? ==>
        && i < |batch| && Stops(answers[i]) && (forall j :: 0 <= j < i ==> !Stops(answers[j]))
        && calls == [Acquire] + Places(batch[..i + 1]) && reply == Err(AsRaised(answers[i]))
      decreases |batch| - i, if reply.Ok? then 1 else 0
    {
      calls := calls + [Place(batch[i].story, batch[i].sprintIndex)];
      OneMoreTried(batch, i);
      if Stops(answers[i]) {
        reply := Err(AsRaised(answers[i]));
      } else {
        OneMoreAnswered(batch, answers, i);
        if answers[i].Done? {
          placed := placed + 1;
        } else {
          errors := errors + [(batch[i].story, answers[i].code)];
        }
        i := i + 1;
      }
    }
    UntilStopIsFirst(answers, i);
    assert answers[..|answers|] == answers && batch[..|batch|] == batch;
    if reply.Ok? {
      reply := Ok(Report(placed, errors));
    }
    if acquired {
      calls := calls + [Release];
      if release.Broke? {
        reply := Err(OtherError);
      }
    }
  }

  /** The report counts the stories placed. */
  lemma {:induction false} PlacedIs(answers: seq<Answer>)
    ensures CountDone(answers) == |set i | 0 <= i < |answers| && answers[i].Done?|
  {
    if answers != [] {
      var n := |answers| - 1;
      PlacedIs(answers[..n]);
      var done := set i | 0 <= i < n && answers[..n][i].Done?;
      assert (set i | 0 <= i < |answers| && answers[i].Done?) == if answers[n].Done? then done + {n} else done;
    }
  }

  /** And lists every refusal beside its story, and nothing else. */
  lemma {:induction false} ErrorsAre(batch: seq<SprintAssignment>, answers: seq<Answer>, story: string, code: string)
    requires |answers| <= |batch|
    ensures (story, code) in Errors(batch, answers) <==>
      exists i :: 0 <= i < |answers| && answers[i] == Refused(code) && batch[i].story == story
  {
    if answers != [] {
      var n := |answers| - 1;
      ErrorsAre(batch, answers[..n], story, code);
      if i :| 0 <= i < |answers| && answers[i] == Refused(code) && batch[i].story == story {
        assert i < n ==> answers[..n][i] == answers[i];
      }
    }
  }

  /** A batch that runs to its end accounts for every story: placed, or listed with its error. */
  lemma {:induction false} EveryStoryReported(batch: seq<SprintAssignment>, answers: seq<Answer>)
    requires |answers| <= |batch| && forall i :: 0 <= i < |answers| ==> !Stops(answers[i])
    ensures CountDone(answers) + |Errors(batch, answers)| == |answers|
    ensures forall e <- Errors(batch, answers) :: e.1 != "LOCKED"
  {
    if answers != [] {
      EveryStoryReported(batch, answers[..|answers| - 1]);
    }
  }

  /**
   * The bracket against the lock itself: started on a project nobody else holds, and finished within the timeout
   * with no other release by the same user, it never meets a lost lock; it leaves the project free,
   * even when the user already held the lock before the bracket opened.
   */
  lemma BracketNeverLosesLock(
    locks: L.Locks, timeout: nat, run: seq<L.Request>, project: string, user: L.User, first: nat, last: nat)
    requires first < last < |run| && L.Ordered(run)
    requires run[first].user == user && run[first].action == L.Acquire(project)
    requires run[last].user == user && run[last].action == L.Release(project)
    requires !user.role.Reader?
    requires !L.HeldByAnother(L.Before(locks, timeout, run, first), project, user.name, run[first].at)
    requires run[last].at < run[first].at + timeout
    requires L.NoRelease(run, first, last, project)
    ensures forall k :: first < k < last && run[k].user == user && run[k].action == L.Write(Some(project)) ==>
      L.Accepted(locks, timeout, run, k)
    ensures forall k :: first < k < last && run[k].user.name != user.name && run[k].action == L.Write(Some(project)) ==>
      !L.Accepted(locks, timeout, run, k)
    ensures !L.Live(L.Before(locks, timeout, run, last + 1), project, run[last].at)
  {
    forall k | first < k < last
      ensures run[k].user == user && run[k].action == L.Write(Some(project)) ==> L.Accepted(locks, timeout, run, k)
      ensures run[k].user.name != user.name && run[k].action == L.Write(Some(project)) ==>
        !L.Accepted(locks, timeout, run, k)
    {
      assert L.NoRelease(run, first, k, project);
      assert run[k].at <= run[last].at;
      L.LeaseExcludes(locks, timeout, run, project, first, k);
    }
    L.LeaseStands(locks, timeout, run, project, first, last);
    assert L.Before(locks, timeout, run, last + 1) == L.After(L.Before(locks, timeout, run, last), timeout, run[last]);
  }
}
