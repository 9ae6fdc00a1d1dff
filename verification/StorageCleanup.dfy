/** What every cleanup of the storage probe does, and that every run ends in one
    (`cleanupStorageProbe` and its `defer`, internal/pkg/clustersmoke/run.go). */
module StorageCleanup {
  import opened Wrappers
  import opened StorageProbe

  // A cleanup within a history.

  /** The j-th choice enters a cleanup, which is still on its way before the i-th. */
  predicate Within(h: seq<Choice>, j: nat, i: nat) {
    && j < i <= |h| && !Cleaning(After(h[..j]))
    && forall m :: j < m <= i ==> Cleaning(After(h[..m]))
  }

  predicate AllAnswered(h: seq<Choice>, j: nat, i: nat)
    requires i <= |h|
  {
    forall m :: j <= m < i && h[m].Call? ==> h[m].answer == Answered
  }

  predicate NothingBinds(h: seq<Choice>, j: nat, i: nat)
    requires i <= |h|
  {
    forall m :: j <= m < i ==> !h[m].Bind?
  }

  predicate PodLeaves(s: State) {
    s.pod == NoPod || s.pod == Pod(true)
  }

  predicate ClaimLeaves(s: State) {
    s.claim == NoClaim || s.claim.deleting
  }

  /** The claim's volume, if it has one, goes with it. */
  predicate VolumeLeaves(s: State) {
    s.claim != NoClaim && s.claim.volume != None ==>
      s.claim.volume.value in s.volumes ==> s.volumes[s.claim.volume.value] == Delete
  }

  // What holds on the way.

  predicate PodAsked(s: State) {
    s.late && !s.at.DeletePod? ==> PodLeaves(s)
  }

  predicate VolumeAsked(s: State) {
    && (s.at.ReadVolume? || s.at.PatchVolume? ==> s.claim.Claim? ==> BoundTo(s, s.at.volume))
    && (s.at.DeleteClaim? ==> VolumeLeaves(s))
  }

  lemma Entered(s: State, c: Choice)
    requires !Cleaning(s) && Cleaning(Step(s, c).0)
    ensures var t := Step(s, c).0; t.at == (if t.late then DeletePod else ReadClaim)
  {
    hide CleanupCall;
    match s.at {
      case CreateClaim => assert CreatedClaim(s).0.late == s.late;
      case CreatePod => assert CreatedPod(s).0.late == s.late;
      case _ =>
    }
  }

  lemma PodOnTheWay(s: State, c: Choice)
    requires Cleaning(s) && Cleaning(Step(s, c).0) && (c.Call? ==> c.answer == Answered) && PodAsked(s)
    ensures PodAsked(Step(s, c).0)
  {
  }

  lemma VolumeOnTheWay(s: State, c: Choice)
    requires Cleaning(s) && Cleaning(Step(s, c).0) && (c.Call? ==> c.answer == Answered) && VolumeAsked(s)
    requires !c.Bind?
    ensures VolumeAsked(Step(s, c).0)
  {
  }

  lemma AtTheEnd(s: State, c: Choice)
    requires Cleaning(s) && !Cleaning(Step(s, c).0) && c.Call? && c.answer == Answered
    ensures var t := Step(s, c).0;
      && t.late == s.late && ClaimLeaves(t) && (PodAsked(s) && s.late ==> PodLeaves(t)) && (VolumeAsked(s) ==> VolumeLeaves(t))
  {
  }

  lemma {:induction false} Asked(h: seq<Choice>, j: nat, i: nat)
    requires Within(h, j, i) && AllAnswered(h, j + 1, i)
    ensures PodAsked(After(h[..i])) && (NothingBinds(h, j + 1, i) ==> VolumeAsked(After(h[..i])))
    decreases i
  {
    assert h[..i][..i - 1] == h[..i - 1];
    hide Step, PodAsked, VolumeAsked;
    if i == j + 1 {
      Entered(After(h[..j]), h[j]);
      FirstAsked(After(h[..i]));
    } else {
      Asked(h, j, i - 1);
      PodOnTheWay(After(h[..i - 1]), h[i - 1]);
      if NothingBinds(h, j + 1, i) { VolumeOnTheWay(After(h[..i - 1]), h[i - 1]); }
    }
  }

  lemma FirstAsked(s: State)
    requires s.at == if s.late then DeletePod else ReadClaim
    ensures PodAsked(s) && VolumeAsked(s)
  {
  }

  /** Every cleanup, the first and the deferred one alike, whose calls are answered leaves the
      claim gone or going, on a late-binding class the pod too, and the claim's volume to go
      with it unless the claim binds meanwhile. */
  lemma CleanupDeletes(h: seq<Choice>, j: nat, i: nat)
    requires i < |h| && Within(h, j, i) && h[i].Call? && !Cleaning(After(h[..i + 1]))
    requires AllAnswered(h, j + 1, i + 1)
    ensures ClaimLeaves(After(h[..i + 1]))
    ensures After(h[..i + 1]).late ==> PodLeaves(After(h[..i + 1]))
    ensures NothingBinds(h, j + 1, i) ==> VolumeLeaves(After(h[..i + 1]))
  {
    Asked(h, j, i);
    assert h[..i + 1][..i] == h[..i];
    AtTheEnd(After(h[..i]), h[i]);
  }

  // Every verdict behind the storage class comes at the end of one.

  lemma VerdictEnds(s: State, c: Choice)
    requires Step(s, c).1.Finished?
    ensures c.Call? && (s.at.ReadClass? || (Cleaning(s) && s.last && Step(s, c).1 == Finished(s.outcome)))
    ensures Step(s, c).0.at.Idle?
  {
    hide CleanupCall;
    if Cleaning(s) { VerdictOfCleanup(s, c.answer); }
    match s.at {
      case CreateClaim => assert !CreatedClaim(s).1.Finished?;
      case CreatePod => assert !CreatedPod(s).1.Finished?;
      case _ =>
    }
  }

  lemma VerdictOfCleanup(s: State, answer: Answer)
    requires Cleaning(s) && CleanupCall(s, answer).1.Finished?
    ensures s.last && CleanupCall(s, answer) == (CleanupCall(s, answer).0.(at := Idle), Finished(s.outcome))
  {
  }

  lemma {:induction false} CleanupEntered(h: seq<Choice>, i: nat) returns (j: nat)
    requires i <= |h| && Cleaning(After(h[..i]))
    ensures Within(h, j, i)
    decreases i
  {
    assert h[..0] == [];
    hide Step;
    j := i - 1;
    if Cleaning(After(h[..j])) {
      j := CleanupEntered(h, j);
    }
  }

  /** A verdict on anything but the storage class comes with a cleanup behind it; when that
      cleanup's calls were answered nothing of the probe stays. */
  lemma VerdictAfterCleanup(h: seq<Choice>, i: nat) returns (j: nat)
    requires i < |h| && EventAt(h, i).Finished? && !After(h[..i]).at.ReadClass?
    ensures Within(h, j, i)
    ensures AllAnswered(h, j + 1, i + 1) ==> ClaimLeaves(After(h[..i + 1]))
    ensures AllAnswered(h, j + 1, i + 1) && After(h[..i]).late ==> PodLeaves(After(h[..i + 1]))
    ensures AllAnswered(h, j + 1, i + 1) && NothingBinds(h, j + 1, i) ==> VolumeLeaves(After(h[..i + 1]))
  {
    VerdictEnds(After(h[..i]), h[i]);
    j := CleanupEntered(h, i);
    assert h[..i + 1][..i] == h[..i];
    hide Step;
    if AllAnswered(h, j + 1, i + 1) {
      CleanupDeletes(h, j, i);
      AtTheEnd(After(h[..i]), h[i]);
    }
  }

  // A judged claim decides the verdict, whatever the cleanup runs into.

  predicate Passing(s: State) {
    s.at.Idle? || (Cleaning(s) && s.last && s.outcome == Passed)
  }

  lemma PassingStays(s: State, c: Choice)
    requires Passing(s) && !c.Start?
    ensures Passing(Step(s, c).0) && (Step(s, c).1.Finished? ==> Step(s, c).1 == Finished(Passed))
  {
  }

  lemma JudgedPassing(s: State, c: Choice)
    requires Step(s, c).1.Judged?
    ensures Passing(Step(s, c).0) && c.Call?
    ensures s.claim.Claim? && s.claim.volume.Some? && Step(s, c).1.creator == s.claim.creator
  {
    hide CleanupCall;
    if Cleaning(s) { CleanupSilent(s, c.answer); }
  }

  lemma CleanupSilent(s: State, answer: Answer)
    requires Cleaning(s)
    ensures !CleanupCall(s, answer).1.Judged?
  {
  }

  lemma {:induction false} StillPassing(h: seq<Choice>, j: nat, i: nat)
    requires j < i <= |h| && EventAt(h, j).Judged?
    requires forall m :: j < m < i ==> !h[m].Start?
    ensures Passing(After(h[..i]))
    decreases i
  {
    hide Step, Passing;
    assert h[..i][..i - 1] == h[..i - 1];
    if i == j + 1 {
      JudgedPassing(After(h[..j]), h[j]);
    } else {
      StillPassing(h, j, i - 1);
      PassingStays(After(h[..i - 1]), h[i - 1]);
    }
  }

  /** A run that has seen its claim bound reports Passed, however its cleanup goes. */
  lemma JudgedPasses(h: seq<Choice>, j: nat, i: nat)
    requires j < i < |h| && EventAt(h, j).Judged? && EventAt(h, i).Finished?
    requires forall m :: j < m < i ==> !h[m].Start?
    ensures EventAt(h, i) == Finished(Passed)
  {
    StillPassing(h, j, i);
    VerdictEnds(After(h[..i]), h[i]);
    hide Step;
    PassingStays(After(h[..i]), h[i]);
  }

  /** And none else does. */
  lemma PassedOnlyJudged(h: seq<Choice>, i: nat)
    requires i < |h| && EventAt(h, i) == Finished(Passed)
    ensures exists j: nat :: j < i && EventAt(h, j) == Judged(After(h[..i]).run)
  {
    hide Step, After;
    ClassVerdict(After(h[..i]), h[i]);
    VerdictEnds(After(h[..i]), h[i]);
    PassedWasJudged(h[..i]);
    var j: nat :| j < i && EventAt(h[..i], j) == Judged(After(h[..i]).run);
    assert h[..i][..j] == h[..j] && h[..i][j] == h[j];
    assert EventAt(h, j) == EventAt(h[..i], j);
  }

  lemma ClassVerdict(s: State, c: Choice)
    requires Step(s, c).1.Finished?
    ensures s.at.ReadClass? ==> Step(s, c).1 == Finished(Failed)
  {
  }

  // Any other call that goes wrong, or any wait that runs out, decides it too.

  predicate Failing(s: State) {
    s.at.Idle? || (Cleaning(s) && s.last && s.outcome == Failed)
  }

  /** A call outside the cleanups that is not answered, or a last look at what is still there. */
  predicate GoesWrong(s: State, c: Choice) {
    && c.Call? && !s.at.Idle? && !Cleaning(s)
    && (c.answer != Answered
        || (c.giveUp && (|| (s.at.AwaitPod? && s.pod != NoPod) || (s.at.AwaitClaim? && s.claim != NoClaim)
                         || (s.at.AwaitBound? && (s.claim == NoClaim || s.claim.volume == None)))))
  }

  lemma WrongFails(s: State, c: Choice)
    requires GoesWrong(s, c)
    ensures Failing(Step(s, c).0) && (Step(s, c).1.Finished? ==> Step(s, c).1 == Finished(Failed))
  {
    hide CleanupCall;
  }

  lemma FailingStays(s: State, c: Choice)
    requires Failing(s) && !c.Start?
    ensures Failing(Step(s, c).0) && (Step(s, c).1.Finished? ==> Step(s, c).1 == Finished(Failed))
  {
  }

  lemma {:induction false} StillFailing(h: seq<Choice>, j: nat, i: nat)
    requires j < i <= |h| && GoesWrong(After(h[..j]), h[j])
    requires forall m :: j < m < i ==> !h[m].Start?
    ensures Failing(After(h[..i]))
    decreases i
  {
    hide Step, Failing, GoesWrong;
    assert h[..i][..i - 1] == h[..i - 1];
    if i == j + 1 {
      WrongFails(After(h[..j]), h[j]);
    } else {
      StillFailing(h, j, i - 1);
      FailingStays(After(h[..i - 1]), h[i - 1]);
    }
  }

  /** A run in which that happens reports Failed. */
  lemma WrongReportsFailed(h: seq<Choice>, j: nat, i: nat)
    requires j <= i < |h| && GoesWrong(After(h[..j]), h[j]) && EventAt(h, i).Finished?
    requires forall m :: j < m < i ==> !h[m].Start?
    ensures EventAt(h, i) == Finished(Failed)
  {
    hide Step, GoesWrong, Failing, After;
    if i == j {
      WrongFails(After(h[..i]), h[i]);
    } else {
      StillFailing(h, j, i);
      StartSilent(After(h[..i]), h[i]);
      FailingStays(After(h[..i]), h[i]);
    }
  }

  lemma StartSilent(s: State, c: Choice)
    requires Step(s, c).1.Finished?
    ensures !c.Start?
  {
  }

  // Every run ends.

  /** How many calls a run whose polls give up has before it. */
  function CallsLeft(s: State): nat {
    match s.at
    case Idle => 0
    case DeleteClaim => if s.last then 1 else 11
    case PatchVolume(_) => if s.last then 2 else 12
    case ReadVolume(_) => if s.last then 3 else 13
    case ReadClaim => if s.last then 4 else 14
    case DeletePod => if s.last then 5 else 15
    case AwaitBound => 6
    case CreatePod => 7
    case CreateClaim => 8
    case AwaitClaim => 9
    case AwaitPod => 10
    case ReadClass => 16
  }

  /** A call of such a run either gives the verdict or brings it nearer. */
  lemma CallNears(s: State, answer: Answer)
    requires !s.at.Idle?
    ensures var (t, e) := Step(s, Call(answer, true));
      CallsLeft(t) < CallsLeft(s) && (t.at.Idle? ==> e.Finished?)
  {
    hide CleanupCall;
    if Cleaning(s) { CleanupNears(s, answer); }
    match s.at {
      case CreateClaim => assert CreatedClaim(s).0.late == s.late;
      case CreatePod => assert CreatedPod(s).0.late == s.late;
      case _ =>
    }
  }

  lemma CleanupNears(s: State, answer: Answer)
    requires Cleaning(s)
    ensures var (t, e) := CleanupCall(s, answer); CallsLeft(t) < CallsLeft(s) && (t.at.Idle? ==> e.Finished?)
  {
  }

  lemma ClusterWaits(s: State, c: Choice)
    requires !s.at.Idle? && !c.Call? && !c.Kill?
    ensures Step(s, c).0.at == s.at && Step(s, c).0.last == s.last
  {
  }

  function Calls(more: seq<Choice>): nat {
    if more == [] then 0 else Calls(more[..|more| - 1]) + if more[|more| - 1].Call? then 1 else 0
  }

  /** A run that is not killed and whose polls have to give up has its verdict within sixteen
      calls, whatever they are answered and whatever the cluster does meanwhile. */
  lemma {:induction false} RunEnds(before: seq<Choice>, more: seq<Choice>)
    requires !After(before).at.Idle?
    requires forall i :: 0 <= i < |more| ==> more[i] != Kill && (more[i].Call? ==> more[i].giveUp)
    requires forall i: nat :: |before| <= i < |before + more| ==> !EventAt(before + more, i).Finished?
    ensures Calls(more) + CallsLeft(After(before + more)) <= CallsLeft(After(before)) <= 16
    ensures !After(before + more).at.Idle? && Calls(more) < 16
    decreases |more|
  {
    hide Step, CallsLeft;
    var all := before + more;
    if more == [] {
      assert all == before;
      CallsBound(After(before));
    } else {
      var n := |more| - 1;
      var part := before + more[..n];
      assert all[..|all| - 1] == part && all[|all| - 1] == more[n];
      forall i: nat | |before| <= i < |part|
        ensures !EventAt(part, i).Finished?
      {
        assert all[..i] == part[..i] && EventAt(all, i) == EventAt(part, i);
      }
      RunEnds(before, more[..n]);
      assert !EventAt(all, |all| - 1).Finished?;
      hide EventAt, After;
      NextNears(After(part), more[n]);
      CallsBound(Step(After(part), more[n]).0);
    }
  }

  lemma CallsBound(s: State)
    ensures CallsLeft(s) <= 16 && (!s.at.Idle? ==> CallsLeft(s) > 0)
  {
  }

  lemma NextNears(s: State, c: Choice)
    requires !s.at.Idle? && c != Kill && (c.Call? ==> c.giveUp) && !Step(s, c).1.Finished?
    ensures !Step(s, c).0.at.Idle?
    ensures CallsLeft(Step(s, c).0) + (if c.Call? then 1 else 0) <= CallsLeft(s)
  {
    hide Step;
    if c.Call? {
      assert c == Call(c.answer, true);
      CallNears(s, c.answer);
    } else {
      ClusterWaits(s, c);
    }
  }
}
